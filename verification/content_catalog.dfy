/** The report content catalog: for each L1 poste code, the TEXTE_RAPPORT
    rows about it (text, icon, chart, image and table keys, activity), and
    the lookup that picks the row for an activity. */
module Catalog {
  import opened Wrappers
  import opened Text
  import opened Sequences
  import opened Dicts

  /** One TEXTE_RAPPORT row. A missing (NaN) cell is `None`; `value` holds
      `str(...)` of the cell. */
  datatype TexteRow = TexteRow(
    posteL1Code: string, value: Option<string>, icone: Option<string>,
    chartKey: Option<string>, imageKey: Option<string>, tableKey: Option<string>,
    activity: Option<string>)

  /** `PosteContent`. */
  datatype PosteContent = PosteContent(
    posteL1Code: string, text: string, icone: Option<string>,
    chartKey: Option<string>, imageKey: Option<string>, tableKey: Option<string>,
    activity: string)
  {
    /** `matches_activity`: a BOTH entry applies to every activity, any
        other only to its own. */
    predicate MatchesActivity(target: string): (m: bool)
      ensures activity == "BOTH" ==> m
      ensures activity != "BOTH" ==> (m <==> target == activity)
    {
      activity == "BOTH" || activity == target
    }
  }

  /** A key cell as `_build_catalog` keeps it: missing or blank becomes `None`. */
  function Cleaned(cell: Option<string>): (r: Option<string>)
    ensures r.Some? <==> cell.Some? && Strip(cell.value) != []
    ensures r.Some? ==> r == cell
  {
    if cell.Some? && Strip(cell.value) != [] then cell else None
  }

  /** The content of one row: blank keys and icon dropped, a missing text
      read as "", a missing activity read as BOTH. */
  function ContentOf(row: TexteRow): (c: PosteContent)
    ensures c.posteL1Code == row.posteL1Code
    ensures c.activity == if row.activity.Some? then row.activity.value else "BOTH"
    ensures c.text == if row.value.Some? then row.value.value else ""
    ensures c.chartKey.Some? <==> row.chartKey.Some? && Strip(row.chartKey.value) != []
    ensures c.imageKey.Some? <==> row.imageKey.Some? && Strip(row.imageKey.value) != []
    ensures c.tableKey.Some? <==> row.tableKey.Some? && Strip(row.tableKey.value) != []
    ensures c.icone.Some? <==> row.icone.Some? && Strip(row.icone.value) != []
  {
    PosteContent(
      row.posteL1Code,
      if row.value.Some? then row.value.value else "",
      Cleaned(row.icone), Cleaned(row.chartKey), Cleaned(row.imageKey), Cleaned(row.tableKey),
      if row.activity.Some? then row.activity.value else "BOTH")
  }

  /** The contents of the rows, in row order. */
  function Contents(rows: seq<TexteRow>): (cs: seq<PosteContent>)
    ensures |cs| == |rows| && forall i :: 0 <= i < |rows| ==> cs[i] == ContentOf(rows[i])
  {
    seq(|rows|, i requires 0 <= i < |rows| => ContentOf(rows[i]))
  }

  /** The poste codes of the rows, in row order. */
  function Codes(rows: seq<TexteRow>): (cs: seq<string>)
    ensures |cs| == |rows| && forall i :: 0 <= i < |rows| ==> cs[i] == rows[i].posteL1Code
  {
    seq(|rows|, i requires 0 <= i < |rows| => rows[i].posteL1Code)
  }

  /** The entries listed for a code, none when it is absent. */
  function Listed(d: Dict<string, seq<PosteContent>>, code: string): seq<PosteContent> {
    Find(d, code).GetOr([])
  }

  /** One turn of `_build_catalog`: the content appended to its code's list,
      a new code opening a list at the end of the dict. */
  function Appended(d: Dict<string, seq<PosteContent>>, c: PosteContent): Dict<string, seq<PosteContent>> {
    Put(d, c.posteL1Code, Listed(d, c.posteL1Code) + [c])
  }

  /** The catalog `_build_catalog` leaves after the rows. */
  function CatalogOf(rows: seq<TexteRow>): Dict<string, seq<PosteContent>>
    decreases |rows|
  {
    if rows == [] then [] else Appended(CatalogOf(rows[..|rows| - 1]), ContentOf(rows[|rows| - 1]))
  }

  /** Entries about `code`. */
  function HasCode(code: string): PosteContent -> bool {
    (c: PosteContent) => c.posteL1Code == code
  }

  /** Appending a content changes only the list of its own code. */
  lemma ListedAppended(d: Dict<string, seq<PosteContent>>, c: PosteContent, code: string)
    ensures Listed(Appended(d, c), code) == if code == c.posteL1Code then Listed(d, code) + [c] else Listed(d, code)
  {
    PutFind(d, c.posteL1Code, Listed(d, c.posteL1Code) + [c], code);
  }

  lemma ContentsSnoc(rows: seq<TexteRow>)
    requires rows != []
    ensures Contents(rows) == Contents(rows[..|rows| - 1]) + [ContentOf(rows[|rows| - 1])]
  {
  }

  /** The catalog after one more row. */
  lemma CatalogOfSnoc(rows: seq<TexteRow>, i: nat)
    requires i < |rows|
    ensures CatalogOf(rows[..i + 1]) == Appended(CatalogOf(rows[..i]), ContentOf(rows[i]))
  {
    assert rows[..i + 1][..i] == rows[..i];
  }

  lemma ListedStep(d: Dict<string, seq<PosteContent>>, cs: seq<PosteContent>, c: PosteContent, code: string)
    requires Listed(d, code) == Filter(cs, HasCode(code))
    ensures Listed(Appended(d, c), code) == Filter(cs + [c], HasCode(code))
  {
    ListedAppended(d, c, code);
    FilterConcat(cs, [c], HasCode(code));
  }

  /** The catalog lists under each code exactly the contents of the rows with
      that code, in row order. */
  lemma {:induction false} CatalogListed(rows: seq<TexteRow>, code: string)
    ensures Listed(CatalogOf(rows), code) == Filter(Contents(rows), HasCode(code))
    decreases |rows|
  {
    if rows != [] {
      var n := |rows|;
      var front, c := rows[..n - 1], ContentOf(rows[n - 1]);
      CatalogListed(front, code);
      ContentsSnoc(rows);
      ListedStep(CatalogOf(front), Contents(front), c, code);
    }
  }

  /** The keys of the catalog are the codes in order of first appearance,
      each once. */
  lemma {:induction false} CatalogKeys(rows: seq<TexteRow>)
    ensures KeysOf(CatalogOf(rows)) == Dedup(Codes(rows))
    decreases |rows|
  {
    if rows != [] {
      var n := |rows|;
      var front := rows[..n - 1];
      CatalogKeys(front);
      assert Codes(rows)[..n - 1] == Codes(front);
    }
  }

  /** A code has a list in the catalog exactly when some row has it. */
  lemma CatalogFind(rows: seq<TexteRow>, code: string)
    ensures Find(CatalogOf(rows), code).Some? <==> code in Codes(rows)
  {
    CatalogKeys(rows);
  }

  /** A code lists entries exactly when some row has it, and each entry it
      lists is the content of such a row. */
  lemma CatalogEntries(rows: seq<TexteRow>, code: string)
    ensures Listed(CatalogOf(rows), code) != [] <==> code in Codes(rows)
    ensures forall x :: x in Listed(CatalogOf(rows), code) ==>
      exists i :: 0 <= i < |rows| && rows[i].posteL1Code == code && x == ContentOf(rows[i])
  {
    CatalogListed(rows, code);
    FilterMembers(Contents(rows), HasCode(code));
    EntriesOfRows(Listed(CatalogOf(rows), code), rows, code);
  }

  /** A list holding exactly the contents of the rows with `code`. */
  lemma EntriesOfRows(listed: seq<PosteContent>, rows: seq<TexteRow>, code: string)
    requires forall x :: x in listed <==> x in Contents(rows) && x.posteL1Code == code
    ensures listed != [] <==> code in Codes(rows)
    ensures forall x :: x in listed ==>
      exists i :: 0 <= i < |rows| && rows[i].posteL1Code == code && x == ContentOf(rows[i])
  {
    forall x | x in listed
      ensures exists i :: 0 <= i < |rows| && rows[i].posteL1Code == code && x == ContentOf(rows[i])
    {
      var i :| 0 <= i < |rows| && Contents(rows)[i] == x;
    }
    if code in Codes(rows) {
      var i :| 0 <= i < |rows| && Codes(rows)[i] == code;
      assert Contents(rows)[i] in listed;
    }
    if listed != [] {
      assert listed[0] in listed;
      var i :| 0 <= i < |rows| && Contents(rows)[i] == listed[0];
      assert Codes(rows)[i] == code;
    }
  }

  /** The position of the first entry with activity `activity`. */
  function FirstWith(contents: seq<PosteContent>, activity: string): (r: Option<nat>)
    ensures r.Some? ==> r.value < |contents| && contents[r.value].activity == activity
    ensures r.Some? ==> forall k :: 0 <= k < r.value ==> contents[k].activity != activity
    ensures r.None? ==> forall k :: 0 <= k < |contents| ==> contents[k].activity != activity
  {
    if contents == [] then None
    else if contents[0].activity == activity then Some(0)
    else match FirstWith(contents[1..], activity)
      case None => None
      case Some(i) => Some(i + 1)
  }

  /** Entry `i` is the one `get_content` picks for `activity`: the first with
      exactly that activity; when there is none, the first BOTH entry; when
      there is none either, the first entry. */
  ghost predicate PickedAt(contents: seq<PosteContent>, activity: string, i: int) {
    && 0 <= i < |contents|
    && ((contents[i].activity == activity && forall k :: 0 <= k < i ==> contents[k].activity != activity)
      || ((forall k :: 0 <= k < |contents| ==> contents[k].activity != activity)
          && contents[i].activity == "BOTH" && forall k :: 0 <= k < i ==> contents[k].activity != "BOTH")
      || ((forall k :: 0 <= k < |contents| ==> contents[k].activity != activity && contents[k].activity != "BOTH")
          && i == 0))
  }

  /** The two loops of `get_content` and its last resort, on one code's list. */
  function Pick(contents: seq<PosteContent>, activity: string): (r: Option<PosteContent>)
    ensures r.None? <==> contents == []
    ensures r.Some? ==> exists i :: PickedAt(contents, activity, i) && contents[i] == r.value
  {
    match FirstWith(contents, activity)
    case Some(i) => Some(contents[i])
    case None =>
      match FirstWith(contents, "BOTH")
      case Some(i) => Some(contents[i])
      case None => if contents != [] then Some(contents[0]) else None
  }

  /** Only one entry is picked. */
  lemma PickedAtUnique(contents: seq<PosteContent>, activity: string, i: int, j: int)
    requires PickedAt(contents, activity, i) && PickedAt(contents, activity, j)
    ensures i == j
  {
    if contents[i].activity == activity || contents[j].activity == activity {
      assert contents[i].activity == activity && contents[j].activity == activity;
    } else if contents[i].activity == "BOTH" || contents[j].activity == "BOTH" {
      assert contents[i].activity == "BOTH" && contents[j].activity == "BOTH";
    }
  }

  /** When some entry applies to the activity, the picked one does. */
  lemma PickMatches(contents: seq<PosteContent>, activity: string)
    requires exists k :: 0 <= k < |contents| && contents[k].MatchesActivity(activity)
    ensures Pick(contents, activity).Some? && Pick(contents, activity).value.MatchesActivity(activity)
  {
    var k :| 0 <= k < |contents| && contents[k].MatchesActivity(activity);
    assert contents[k].activity == activity || contents[k].activity == "BOTH";
  }

  const SupportedChartKeys: set<string> := {"TRAVAUX_BREAKDOWN", "FILE_EAU_BREAKDOWN", "EM_INDIRECTES_SPLIT"}
  const SupportedTableKeys: set<string> := {"EM_INDIRECTES_TABLE"}
  const SupportedImageKeys: set<string> := {"DIGESTEUR_SCHEMA"}

  /** The catalog with an empty list opened for `code` if it had none. */
  function Opened(d: Dict<string, seq<PosteContent>>, code: string): (r: Dict<string, seq<PosteContent>>)
    ensures Find(r, code).Some?
    ensures KeysOf(r) == if code in KeysOf(d) then KeysOf(d) else KeysOf(d) + [code]
  {
    if code !in KeysOf(d) then Put(d, code, []) else d
  }

  /** The body of `_build_catalog`'s loop, opening an empty list for a new
      code and then appending to it, appends the content. */
  lemma AppendStep(d: Dict<string, seq<PosteContent>>, c: PosteContent)
    ensures Put(Opened(d, c.posteL1Code), c.posteL1Code, Find(Opened(d, c.posteL1Code), c.posteL1Code).value + [c])
         == Appended(d, c)
  {
    var code := c.posteL1Code;
    if code !in KeysOf(d) {
      var started := Put(d, code, []);
      PutFind(d, code, [], code);
      assert Find(started, code).value + [c] == [c];
      assert Listed(d, code) + [c] == [c];
      PutPut(d, code, [], [c]);
    }
  }

  /** `ContentCatalog`: the contents of each L1 poste, keyed by code in
      order of first appearance. */
  class ContentCatalog {
    var catalog: Dict<string, seq<PosteContent>>

    constructor(rows: seq<TexteRow>)
      ensures catalog == CatalogOf(rows)
    {
      catalog := [];
      new;
      BuildCatalog(rows);
    }

    /** `_build_catalog`: starts from an empty dict and appends each row's
        content to the list of its code, opening the list on first sight. */
    method BuildCatalog(rows: seq<TexteRow>)
      modifies this
      ensures catalog == CatalogOf(rows)
    {
      catalog := [];
      for i := 0 to |rows|
        invariant catalog == CatalogOf(rows[..i])
      {
        var content := ContentOf(rows[i]);
        var code := rows[i].posteL1Code;
        AppendStep(catalog, content);
        CatalogOfSnoc(rows, i);
        if code !in KeysOf(catalog) {
          catalog := Put(catalog, code, []);
        }
        catalog := Put(catalog, code, Find(catalog, code).value + [content]);
      }
      assert rows[..|rows|] == rows;
    }

    /** `get_content`: `None` for an unknown code; otherwise the entry
        picked for the activity among the code's entries. */
    function GetContent(code: string, activity: string): (r: Option<PosteContent>)
      reads this
      ensures r.Some? ==> r.value in Listed(catalog, code)
      ensures r.Some? ==> exists i :: PickedAt(Listed(catalog, code), activity, i) && Listed(catalog, code)[i] == r.value
      ensures r.None? <==> Listed(catalog, code) == []
    {
      match Find(catalog, code)
      case None => None
      case Some(contents) => Pick(contents, activity)
    }

    function HasChart(code: string, activity: string): bool
      reads this
    {
      var c := GetContent(code, activity);
      c.Some? && c.value.chartKey.Some?
    }

    function HasTable(code: string, activity: string): bool
      reads this
    {
      var c := GetContent(code, activity);
      c.Some? && c.value.tableKey.Some?
    }

    function HasImage(code: string, activity: string): bool
      reads this
    {
      var c := GetContent(code, activity);
      c.Some? && c.value.imageKey.Some?
    }

    function GetChartKey(code: string, activity: string): Option<string>
      reads this
    {
      var c := GetContent(code, activity);
      if c.Some? then c.value.chartKey else None
    }

    function GetTableKey(code: string, activity: string): Option<string>
      reads this
    {
      var c := GetContent(code, activity);
      if c.Some? then c.value.tableKey else None
    }

    function GetImageKey(code: string, activity: string): Option<string>
      reads this
    {
      var c := GetContent(code, activity);
      if c.Some? then c.value.imageKey else None
    }

    function GetText(code: string, activity: string): string
      reads this
    {
      var c := GetContent(code, activity);
      if c.Some? then c.value.text else ""
    }

    function IsChartSupported(key: string): bool {
      key in SupportedChartKeys
    }

    function IsTableSupported(key: string): bool {
      key in SupportedTableKeys
    }

    function IsImageSupported(key: string): bool {
      key in SupportedImageKeys
    }

    /** `get_all_postes`: the codes in the catalog, in dict order. */
    function GetAllPostes(): seq<string>
      reads this
    {
      KeysOf(catalog)
    }
  }

  /** For a catalog built from rows: `get_content` finds nothing exactly for
      the codes no row has, and what it finds is the content of a row with
      that code. */
  lemma GetContentOfRows(c: ContentCatalog, rows: seq<TexteRow>, code: string, activity: string)
    requires c.catalog == CatalogOf(rows)
    ensures c.GetContent(code, activity).None? <==> code !in Codes(rows)
    ensures c.GetContent(code, activity).Some? ==>
      exists i :: 0 <= i < |rows| && rows[i].posteL1Code == code && c.GetContent(code, activity).value == ContentOf(rows[i])
  {
    CatalogEntries(rows, code);
  }

  /** The `has_*` tests agree with the `get_*_key` lookups, and with no
      content every lookup comes back empty. */
  lemma KeysAgree(c: ContentCatalog, code: string, activity: string)
    ensures c.HasChart(code, activity) <==> c.GetChartKey(code, activity).Some?
    ensures c.HasTable(code, activity) <==> c.GetTableKey(code, activity).Some?
    ensures c.HasImage(code, activity) <==> c.GetImageKey(code, activity).Some?
    ensures c.GetContent(code, activity).None? ==>
      && c.GetChartKey(code, activity).None? && c.GetTableKey(code, activity).None?
      && c.GetImageKey(code, activity).None? && c.GetText(code, activity) == ""
  {
  }

  /** A chart (table, image) is reported only when some row of that code
      has a non-blank CHART_KEY (TABLE_KEY, IMAGE_KEY). */
  lemma HasKeyFromRows(c: ContentCatalog, rows: seq<TexteRow>, code: string, activity: string)
    requires c.catalog == CatalogOf(rows)
    ensures c.HasChart(code, activity) ==>
      exists i :: 0 <= i < |rows| && rows[i].posteL1Code == code && rows[i].chartKey.Some? && Strip(rows[i].chartKey.value) != []
    ensures c.HasTable(code, activity) ==>
      exists i :: 0 <= i < |rows| && rows[i].posteL1Code == code && rows[i].tableKey.Some? && Strip(rows[i].tableKey.value) != []
    ensures c.HasImage(code, activity) ==>
      exists i :: 0 <= i < |rows| && rows[i].posteL1Code == code && rows[i].imageKey.Some? && Strip(rows[i].imageKey.value) != []
  {
    GetContentOfRows(c, rows, code, activity);
  }

  /** `get_all_postes` lists each code of the rows once, in order of first
      appearance. */
  lemma AllPostesOfRows(c: ContentCatalog, rows: seq<TexteRow>)
    requires c.catalog == CatalogOf(rows)
    ensures c.GetAllPostes() == Dedup(Codes(rows))
    ensures Distinct(c.GetAllPostes()) && forall code :: code in c.GetAllPostes() <==> code in Codes(rows)
  {
    CatalogKeys(rows);
  }

  /** The supported keys are exactly the fixed ones. */
  lemma SupportedKeys(c: ContentCatalog, key: string)
    ensures c.IsChartSupported(key) <==> key == "TRAVAUX_BREAKDOWN" || key == "FILE_EAU_BREAKDOWN" || key == "EM_INDIRECTES_SPLIT"
    ensures c.IsTableSupported(key) <==> key == "EM_INDIRECTES_TABLE"
    ensures c.IsImageSupported(key) <==> key == "DIGESTEUR_SCHEMA"
  {
  }
}
