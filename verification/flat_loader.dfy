/** `flat_loader`: the simplified workbook (a flat DATA sheet plus
    TEXTE_RAPPORT) turned into the standard sheets. Modelled here: slugs and
    the codes built from them, the split of the DATA rows, the ORG_TREE,
    POSTES_L2_REF and INDICATORS_REF builders, the TEXTE_RAPPORT code
    mapping and the two validators. */
module Flat {
  import opened Wrappers
  import opened Text
  import opened Sequences
  import Tree
  import Indicators
  import ExcelLoad

  // ---------------------------------------------------------------------
  // `_slugify`

  predicate IsAscii(c: char) {
    (c as int) < 128
  }

  /** The ASCII letter NFD leaves of a Latin-1 letter with a diacritic, if
      it is one. */
  function BaseLetter(c: char): Option<char> {
    if 'À' <= c <= 'Å' then Some('A')
    else if c == 'Ç' then Some('C')
    else if 'È' <= c <= 'Ë' then Some('E')
    else if 'Ì' <= c <= 'Ï' then Some('I')
    else if c == 'Ñ' then Some('N')
    else if 'Ò' <= c <= 'Ö' then Some('O')
    else if 'Ù' <= c <= 'Ü' then Some('U')
    else if c == 'Ý' then Some('Y')
    else if 'à' <= c <= 'å' then Some('a')
    else if c == 'ç' then Some('c')
    else if 'è' <= c <= 'ë' then Some('e')
    else if 'ì' <= c <= 'ï' then Some('i')
    else if c == 'ñ' then Some('n')
    else if 'ò' <= c <= 'ö' then Some('o')
    else if 'ù' <= c <= 'ü' then Some('u')
    else if c == 'ý' || c == 'ÿ' then Some('y')
    else None
  }

  /** NFD followed by `encode('ascii', 'ignore')`, on one character. */
  function FoldChar(c: char): (r: string)
    ensures forall i :: 0 <= i < |r| ==> IsAscii(r[i])
  {
    if IsAscii(c) then [c]
    else if BaseLetter(c).Some? then [BaseLetter(c).value]
    else []
  }

  /** The ASCII text `_slugify` works on. */
  function Fold(s: string): (r: string)
    ensures forall i :: 0 <= i < |r| ==> IsAscii(r[i])
  {
    if s == [] then [] else FoldChar(s[0]) + Fold(s[1..])
  }

  /** ASCII text is left as it is. */
  lemma {:induction false} FoldAscii(s: string)
    requires forall i :: 0 <= i < |s| ==> IsAscii(s[i])
    ensures Fold(s) == s
    decreases |s|
  {
    if s != [] {
      FoldAscii(s[1..]);
      assert s == [s[0]] + s[1..];
    }
  }

  /** A character of the class `[a-zA-Z0-9]`. */
  predicate IsAlnum(c: char) {
    'a' <= c <= 'z' || 'A' <= c <= 'Z' || '0' <= c <= '9'
  }

  /** `s` less its leading characters outside `[a-zA-Z0-9]`. */
  function SkipSeparators(s: string): (r: string)
    ensures |r| <= |s|
  {
    if s != [] && !IsAlnum(s[0]) then SkipSeparators(s[1..]) else s
  }

  /** What is skipped is a prefix, and what is left starts with a letter or
      a digit. */
  lemma {:induction false} SkipSeparatorsSpec(s: string)
    ensures var r := SkipSeparators(s);
      r == s[|s| - |r|..] && (r == [] || IsAlnum(r[0]))
    decreases |s|
  {
    if s != [] && !IsAlnum(s[0]) {
      SkipSeparatorsSpec(s[1..]);
    }
  }

  /** `re.sub(r'[^a-zA-Z0-9]+', '_', s)`: every maximal run of characters
      outside the class becomes one `_`. */
  function Squash(s: string): (r: string)
    decreases |s|
  {
    if s == [] then []
    else if IsAlnum(s[0]) then [s[0]] + Squash(s[1..])
    else "_" + Squash(SkipSeparators(s[1..]))
  }

  function TrimUnderscoresLeft(s: string): string {
    if s != [] && s[0] == '_' then TrimUnderscoresLeft(s[1..]) else s
  }

  function TrimUnderscoresRight(s: string): string {
    if s != [] && s[|s| - 1] == '_' then TrimUnderscoresRight(s[..|s| - 1]) else s
  }

  /** Trimming on the left keeps a suffix that does not start with `_`. */
  lemma {:induction false} TrimLeftSpec(s: string)
    ensures var r := TrimUnderscoresLeft(s);
      |r| <= |s| && r == s[|s| - |r|..] && (r == [] || r[0] != '_')
    decreases |s|
  {
    if s != [] && s[0] == '_' {
      TrimLeftSpec(s[1..]);
    }
  }

  /** Trimming on the right keeps a prefix that does not end with `_`. */
  lemma {:induction false} TrimRightSpec(s: string)
    ensures var r := TrimUnderscoresRight(s);
      |r| <= |s| && r == s[..|r|] && (r == [] || r[|r| - 1] != '_')
    decreases |s|
  {
    if s != [] && s[|s| - 1] == '_' {
      TrimRightSpec(s[..|s| - 1]);
    }
  }

  /** `s.strip('_')`. */
  function TrimUnderscores(s: string): string {
    TrimUnderscoresRight(TrimUnderscoresLeft(s))
  }

  /** `_slugify`. */
  function Slugify(text: string): string {
    Upper(TrimUnderscores(Squash(Fold(text))))
  }

  /** A character a slug may hold. */
  predicate SlugChar(c: char) {
    'A' <= c <= 'Z' || '0' <= c <= '9' || c == '_'
  }

  /** No two `_` in a row. */
  predicate NoDoubleUnderscore(s: string) {
    forall i :: 0 <= i < |s| - 1 ==> !(s[i] == '_' && s[i + 1] == '_')
  }

  /** What `_slugify` promises of its result. */
  predicate IsSlug(s: string) {
    && (forall i :: 0 <= i < |s| ==> SlugChar(s[i]))
    && (s != [] ==> s[0] != '_' && s[|s| - 1] != '_')
    && NoDoubleUnderscore(s)
  }

  /** Every character of a squashed text is a letter, a digit or `_`, and no
      `_` follows another. */
  lemma {:induction false} SquashShape(s: string)
    ensures var r := Squash(s);
      Squashed(r) && (r != [] && r[0] == '_' ==> |r| == 1 || r[1] != '_')
    decreases |s|
  {
    if s != [] {
      if IsAlnum(s[0]) {
        SquashShape(s[1..]);
      } else {
        var t := SkipSeparators(s[1..]);
        SkipSeparatorsSpec(s[1..]);
        SquashShape(t);
        if t != [] {
          assert Squash(t)[0] == t[0];
        }
      }
    }
  }

  /** Letters, digits and single `_` separators. */
  predicate Squashed(s: string) {
    && (forall i :: 0 <= i < |s| ==> IsAlnum(s[i]) || s[i] == '_')
    && NoDoubleUnderscore(s)
  }

  /** A piece of a squashed text is squashed. */
  lemma SliceSquashed(s: string, a: nat, b: nat)
    requires Squashed(s) && a <= b <= |s|
    ensures Squashed(s[a..b])
  {
    var t := s[a..b];
    assert forall i :: 0 <= i < |t| ==> t[i] == s[a + i];
  }

  /** Trimming keeps a squashed text squashed, with no `_` at either end. */
  lemma TrimShape(s: string)
    requires Squashed(s)
    ensures var r := TrimUnderscores(s);
      Squashed(r) && (r != [] ==> r[0] != '_' && r[|r| - 1] != '_')
  {
    var l := TrimUnderscoresLeft(s);
    var r := TrimUnderscoresRight(l);
    TrimLeftSpec(s);
    TrimRightSpec(l);
    SliceSquashed(s, |s| - |l|, |s|);
    SliceSquashed(l, 0, |r|);
    if r != [] {
      assert r[0] == l[0];
    }
  }

  /** Upper-casing an ASCII letter, digit or `_` gives a slug character and
      keeps `_` where it was. */
  lemma UpperShape(s: string)
    requires forall i :: 0 <= i < |s| ==> IsAlnum(s[i]) || s[i] == '_'
    ensures var r := Upper(s);
      && (forall i :: 0 <= i < |r| ==> SlugChar(r[i]))
      && (forall i :: 0 <= i < |r| ==> (r[i] == '_' <==> s[i] == '_'))
  {
    UpperSpec(s);
  }

  /** `_slugify` holds only A-Z, 0-9 and `_`, neither starts nor ends with
      `_` and never holds `__`. */
  lemma SlugifyShape(text: string)
    ensures IsSlug(Slugify(text))
  {
    var q := Squash(Fold(text));
    SquashShape(Fold(text));
    TrimShape(q);
    UpperShape(TrimUnderscores(q));
  }

  /** A squashed text with single `_` separators squashes to itself. */
  lemma {:induction false} SquashFixed(s: string)
    requires Squashed(s)
    ensures Squash(s) == s
    decreases |s|
  {
    if s != [] {
      SquashFixed(s[1..]);
      if !IsAlnum(s[0]) {
        assert s[1..] == [] || IsAlnum(s[1]);
      }
    }
  }

  /** Text with nothing to trim is left as it is. */
  lemma TrimFixed(s: string)
    requires s != [] ==> s[0] != '_' && s[|s| - 1] != '_'
    ensures TrimUnderscores(s) == s
  {
  }

  /** Text with no lower-case letter is its own upper case. */
  lemma UpperFixed(s: string)
    requires forall i :: 0 <= i < |s| ==> SlugChar(s[i])
    ensures Upper(s) == s
  {
    UpperSpec(s);
  }

  /** A slug is its own slug. */
  lemma SlugFixed(s: string)
    requires IsSlug(s)
    ensures Slugify(s) == s
  {
    FoldAscii(s);
    SquashFixed(s);
    TrimFixed(s);
    UpperFixed(s);
  }

  /** `_slugify` is idempotent. */
  lemma SlugifyIdempotent(text: string)
    ensures Slugify(Slugify(text)) == Slugify(text)
  {
    SlugifyShape(text);
    SlugFixed(Slugify(text));
  }

  // ---------------------------------------------------------------------
  // Codes built from slugs

  /** `_make_poste_code`: `P_` and the slug of the category. */
  function PosteCode(category: string): string {
    "P_" + Slugify(category)
  }

  /** A poste code is `P_` followed by a slug. */
  lemma PosteCodeShape(category: string)
    ensures var code := PosteCode(category);
      |code| >= 2 && code[..2] == "P_" && IsSlug(code[2..])
  {
    SlugifyShape(category);
    assert PosteCode(category)[2..] == Slugify(category);
  }

  /** A run of letters and digits passes through the squash unchanged. */
  lemma {:induction false} SquashWord(w: string, rest: string)
    requires forall i :: 0 <= i < |w| ==> IsAlnum(w[i])
    ensures Squash(w + rest) == w + Squash(rest)
    decreases |w|
  {
    if w != [] {
      assert (w + rest)[0] == w[0];
      assert (w + rest)[1..] == w[1..] + rest;
      SquashWord(w[1..], rest);
      assert w == [w[0]] + w[1..];
    } else {
      assert w + rest == rest;
    }
  }

  /** Upper-casing, one character at a time. */
  lemma UpperIs(s: string, r: string)
    requires |r| == |s| && forall i :: 0 <= i < |s| ==> r[i] == UpperChar(s[i])
    ensures Upper(s) == r
  {
    UpperSpec(s);
  }

  /** A run of separators before a letter or digit becomes one `_`. */
  lemma {:induction false} SquashSeparator(sep: string, rest: string)
    requires sep != [] && forall i :: 0 <= i < |sep| ==> !IsAlnum(sep[i])
    requires rest == [] || IsAlnum(rest[0])
    ensures Squash(sep + rest) == "_" + Squash(rest)
  {
    SkipSeparatorsRun(sep[1..], rest);
    assert (sep + rest)[1..] == sep[1..] + rest;
  }

  lemma {:induction false} SkipSeparatorsRun(sep: string, rest: string)
    requires forall i :: 0 <= i < |sep| ==> !IsAlnum(sep[i])
    requires rest == [] || IsAlnum(rest[0])
    ensures SkipSeparators(sep + rest) == rest
    decreases |sep|
  {
    if sep != [] {
      assert (sep + rest)[1..] == sep[1..] + rest;
      SkipSeparatorsRun(sep[1..], rest);
    } else {
      assert sep + rest == rest;
    }
  }

  lemma AlnumAscii(w: string)
    requires forall i :: 0 <= i < |w| ==> IsAlnum(w[i])
    ensures forall i :: 0 <= i < |w| ==> IsAscii(w[i])
  {
  }

  /** The slug of one ASCII word of letters and digits is the word in upper
      case. */
  lemma SlugifyWord(w: string)
    requires w != [] && forall i :: 0 <= i < |w| ==> IsAlnum(w[i])
    ensures Slugify(w) == Upper(w)
  {
    AlnumAscii(w);
    FoldAscii(w);
    SquashWord(w, []);
    assert w + [] == w;
    assert IsAlnum(w[0]) && IsAlnum(w[|w| - 1]);
    TrimFixed(w);
  }

  /** Two words of letters and digits around a run of ASCII separators. */
  predicate TwoWords(w: string, sep: string, w': string) {
    && w != [] && (forall i :: 0 <= i < |w| ==> IsAlnum(w[i]))
    && w' != [] && (forall i :: 0 <= i < |w'| ==> IsAlnum(w'[i]))
    && sep != [] && forall i :: 0 <= i < |sep| ==> !IsAlnum(sep[i]) && IsAscii(sep[i])
  }

  lemma FoldTwoWords(w: string, sep: string, w': string)
    requires TwoWords(w, sep, w')
    ensures Fold(w + sep + w') == w + sep + w'
  {
    var t := w + sep + w';
    AlnumAscii(w);
    AlnumAscii(w');
    forall i | 0 <= i < |t| ensures IsAscii(t[i]) {
      if i < |w| {
        assert t[i] == w[i];
      } else if i < |w| + |sep| {
        assert t[i] == sep[i - |w|];
      } else {
        assert t[i] == w'[i - |w| - |sep|];
      }
    }
    FoldAscii(t);
  }

  lemma SquashTwoWords(w: string, sep: string, w': string)
    requires TwoWords(w, sep, w')
    ensures Squash(w + sep + w') == w + "_" + w'
  {
    assert Squash(sep + w') == "_" + w' by {
      SquashSeparator(sep, w');
      SquashWord(w', []);
      assert w' + [] == w';
    }
    assert Squash(w + (sep + w')) == w + Squash(sep + w') by {
      SquashWord(w, sep + w');
    }
    assert w + sep + w' == w + (sep + w');
    assert w + ("_" + w') == w + "_" + w';
  }

  /** Two such words slug to both words in upper case around one `_`. */
  lemma SlugifyTwoWords(w: string, sep: string, w': string)
    requires TwoWords(w, sep, w')
    ensures Slugify(w + sep + w') == Upper(w) + "_" + Upper(w')
  {
    var t, q := w + sep + w', w + "_" + w';
    assert Fold(t) == t by {
      FoldTwoWords(w, sep, w');
    }
    assert Squash(t) == q by {
      SquashTwoWords(w, sep, w');
    }
    assert TrimUnderscores(q) == q by {
      assert q[0] == w[0] && q[|q| - 1] == w'[|w'| - 1];
      TrimFixed(q);
    }
    assert Upper(q) == Upper(w) + "_" + Upper(w') by {
      UpperFixed("_");
      UpperConcat(w, "_");
      UpperConcat(w + "_", w');
    }
  }

  lemma UpperConcat(a: string, b: string)
    ensures Upper(a + b) == Upper(a) + Upper(b)
  {
    UpperSpec(a);
    UpperSpec(b);
    UpperSpec(a + b);
  }

  /** The two examples the source documents. */
  lemma PosteCodeTravaux(name: string)
    requires name == "Travaux"
    ensures PosteCode(name) == "P_TRAVAUX"
  {
    assert Upper(name) == "TRAVAUX" by {
      UpperIs(name, "TRAVAUX");
    }
    SlugifyWord(name);
  }

  lemma PosteCodeFileEau(name: string)
    requires name == "File eau"
    ensures PosteCode(name) == "P_FILE_EAU"
  {
    SlugFileEau(name);
  }

  lemma SlugFileEau(name: string)
    requires name == "File eau"
    ensures Slugify(name) == "FILE_EAU"
  {
    var w, w' := name[..4], name[5..];
    assert name == w + [' '] + w';
    assert Slugify(name) == Upper(w) + "_" + Upper(w') by {
      assert TwoWords(w, [' '], w');
      SlugifyTwoWords(w, [' '], w');
    }
    assert Upper(w) == "FILE" by {
      UpperIs(w, "FILE");
    }
    assert Upper(w') == "EAU" by {
      UpperIs(w', "EAU");
    }
  }

  const OrgId: string := "ORG_1"

  /** `_make_node_id_lot`. */
  function NodeIdLot(lot: string): string {
    "LOT_" + Slugify(lot)
  }

  /** `_make_node_id_ent`: the activity is appended as it is, not slugified. */
  function NodeIdEnt(lot: string, activity: string): string {
    "ENT_" + Slugify(lot) + "_" + activity
  }

  /** The root, LOT and ENT ids never coincide: their first letters differ. */
  lemma NodeIdKindsDiffer(lot: string, lot': string, activity: string)
    ensures NodeIdLot(lot) != OrgId && NodeIdEnt(lot', activity) != OrgId
    ensures NodeIdLot(lot) != NodeIdEnt(lot', activity)
  {
    assert NodeIdLot(lot)[0] == 'L' && NodeIdEnt(lot', activity)[0] == 'E' && OrgId[0] == 'O';
  }

  /** Two LOT ids are equal exactly when the lot names have the same slug. */
  lemma NodeIdLotSame(lot: string, lot': string)
    ensures NodeIdLot(lot) == NodeIdLot(lot') <==> Slugify(lot) == Slugify(lot')
  {
    if NodeIdLot(lot) == NodeIdLot(lot') {
      assert Slugify(lot) == NodeIdLot(lot)[4..];
    }
  }

  /** What follows the last `_` of a text (all of it when there is none). */
  function AfterLastUnderscore(s: string): (r: string)
    decreases |s|
  {
    if s == [] || s[|s| - 1] == '_' then []
    else AfterLastUnderscore(s[..|s| - 1]) + [s[|s| - 1]]
  }

  lemma {:induction false} AfterLastUnderscoreOf(p: string, a: string)
    requires '_' !in a
    ensures AfterLastUnderscore(p + "_" + a) == a
    decreases |a|
  {
    var s := p + "_" + a;
    if a != [] {
      var a' := a[..|a| - 1];
      assert s[..|s| - 1] == p + "_" + a';
      assert s[|s| - 1] == a[|a| - 1];
      AfterLastUnderscoreOf(p, a');
    }
  }

  /** `ENT_<slug>_<activity>` splits back into the slug and the activity
      when the activity holds no `_`. */
  lemma EntIdParts(slug: string, activity: string)
    requires '_' !in activity
    ensures var id := "ENT_" + slug + "_" + activity;
      && AfterLastUnderscore(id) == activity
      && |id| == |slug| + |activity| + 5
      && id[4..|id| - |activity| - 1] == slug
  {
    var id := "ENT_" + slug + "_" + activity;
    assert id == ("ENT_" + slug) + "_" + activity;
    AfterLastUnderscoreOf("ENT_" + slug, activity);
    assert id[4..|id| - |activity| - 1] == slug;
  }

  /** For activities without `_` (EU, AEP, NA), equal ENT ids have equal
      activities and lots with equal slugs. */
  lemma NodeIdEntInjective(lot: string, activity: string, lot': string, activity': string)
    requires '_' !in activity && '_' !in activity'
    requires NodeIdEnt(lot, activity) == NodeIdEnt(lot', activity')
    ensures activity == activity' && Slugify(lot) == Slugify(lot')
  {
    EntIdParts(Slugify(lot), activity);
    EntIdParts(Slugify(lot'), activity');
  }

  /** INDICATOR_CODE_MAP: stripped, lower-cased indicator names and the
      internal codes the KPI calculators look up. */
  const IndicatorCodeMap: map<string, string> := map[
    "m3 d'eau distribués" := "VOL_EAU_DISTRIB",
    "m3 d'eau distribues" := "VOL_EAU_DISTRIB",
    "m3 d'eau assainis" := "VOL_EAU_EPURE",
    "m3 d'eau épurés" := "VOL_EAU_EPURE",
    "m3 d'eau epures" := "VOL_EAU_EPURE",
    "nombre de branchements" := "NB_BRANCHEMENTS",
    "nombre d'habitants" := "NB_HAB_DESSERVIS"]

  /** `_make_indicator_code`. */
  function IndicatorCode(name: string): string {
    var key := Lower(Strip(name));
    if key in IndicatorCodeMap then IndicatorCodeMap[key] else "IND_" + Slugify(name)
  }

  /** The code of a known name depends only on its stripped, lower-cased
      form and is one of the four KPI codes. */
  lemma IndicatorCodeKnown(name: string, other: string)
    requires Lower(Strip(name)) in IndicatorCodeMap
    ensures IsKpiCode(IndicatorCode(name))
    ensures Lower(Strip(other)) == Lower(Strip(name)) ==> IndicatorCode(other) == IndicatorCode(name)
  {
  }

  /** The codes INDICATOR_CODE_MAP produces. */
  predicate IsKpiCode(code: string) {
    code == "VOL_EAU_DISTRIB" || code == "VOL_EAU_EPURE" || code == "NB_BRANCHEMENTS" || code == "NB_HAB_DESSERVIS"
  }

  /** Any other name gets `IND_` followed by its slug, so a generated code
      never equals a KPI code. */
  lemma IndicatorCodeGenerated(name: string)
    requires Lower(Strip(name)) !in IndicatorCodeMap
    ensures var code := IndicatorCode(name);
      |code| >= 4 && code[..4] == "IND_" && IsSlug(code[4..]) && !IsKpiCode(code)
  {
    var code := IndicatorCode(name);
    assert code == "IND_" + Slugify(name);
    assert IsSlug(code[4..]) by {
      SlugifyShape(name);
      assert code[4..] == Slugify(name);
    }
    assert !IsKpiCode(code) by {
      assert code[0] == 'I';
      KpiCodeInitials(code);
    }
  }

  lemma KpiCodeInitials(code: string)
    ensures IsKpiCode(code) ==> code[0] == 'V' || code[0] == 'N'
  {
  }

  /** Surrounding spaces and capitals do not change a known name's code. */
  lemma IndicatorCodeExample(name: string)
    requires name == " Nombre de branchements"
    ensures IndicatorCode(name) == "NB_BRANCHEMENTS"
  {
    var key := "nombre de branchements";
    ExampleKey(name, key);
    assert key in IndicatorCodeMap && IndicatorCodeMap[key] == "NB_BRANCHEMENTS";
  }

  lemma ExampleKey(name: string, key: string)
    requires name == " Nombre de branchements" && key == "nombre de branchements"
    ensures Lower(Strip(name)) == key
  {
    ExampleStrip(name);
    LowerIs(name[1..], key);
  }

  lemma ExampleStrip(name: string)
    requires name == " Nombre de branchements"
    ensures Strip(name) == name[1..]
  {
    var body := name[1..];
    assert !IsSpace(body[0]) && !IsSpace(body[|body| - 1]);
    assert StripLeft(name) == body;
    assert StripRight(body) == body;
  }

  /** Lower-casing, one character at a time. */
  lemma LowerIs(s: string, r: string)
    requires |r| == |s| && forall i :: 0 <= i < |s| ==> r[i] == LowerChar(s[i])
    ensures Lower(s) == r
  {
  }

  // ---------------------------------------------------------------------
  // The DATA rows

  /** A DATA row after `_clean_data`: text cells stripped, blank ones `None`.
      The year and the numeric columns are not used by the modelled builders. */
  datatype DataRow = DataRow(organisation: Option<string>, lot: Option<string>, entity: Option<string>,
                             category: Option<string>, poste: Option<string>, unit: Option<string>)

  /** The category lower-cased and stripped, as `_classify_rows` compares it. */
  function CategoryKey(row: DataRow): Option<string> {
    if row.category.Some? then Some(Strip(Lower(row.category.value))) else None
  }

  /** `cat_lower == 'indicateur'` (a missing category never matches). */
  predicate IsIndicatorRow(row: DataRow) {
    CategoryKey(row) == Some("indicateur")
  }

  /** The pattern `missions évitées|missions evitees|emissions evitees`
      found in the category (a missing category never matches). */
  predicate IsAvoidedRow(row: DataRow) {
    && row.category.Some?
    && var key := CategoryKey(row).value;
       Contains(key, "missions évitées") || Contains(key, "missions evitees") || Contains(key, "emissions evitees")
  }

  /** Every other row, a missing category included, is an emission row. */
  predicate IsEmissionRow(row: DataRow) {
    !IsIndicatorRow(row) && !IsAvoidedRow(row)
  }

  /** A text holds only pieces no longer than itself. */
  lemma {:induction false} ContainsLength(s: string, t: string)
    requires Contains(s, t)
    ensures |t| <= |s|
    decreases |s|
  {
    if !(t <= s) {
      ContainsLength(s[1..], t);
    }
  }

  /** No row is both an indicator row and an avoided-emissions row: every
      pattern is longer than `indicateur`. */
  lemma IndicatorNotAvoided(row: DataRow)
    ensures !(IsIndicatorRow(row) && IsAvoidedRow(row))
  {
    if IsIndicatorRow(row) && row.category.Some? {
      var key := CategoryKey(row).value;
      assert |key| == 10;
      if Contains(key, "missions évitées") {
        ContainsLength(key, "missions évitées");
      }
      if Contains(key, "missions evitees") {
        ContainsLength(key, "missions evitees");
      }
      if Contains(key, "emissions evitees") {
        ContainsLength(key, "emissions evitees");
      }
    }
  }

  /** `_classify_rows`: the three groups, each in the order of the sheet. */
  function Classified(rows: seq<DataRow>): (seq<DataRow>, seq<DataRow>, seq<DataRow>) {
    (Filter(rows, IsEmissionRow), Filter(rows, IsIndicatorRow), Filter(rows, IsAvoidedRow))
  }

  /** Each row lands in exactly one group, so the three groups together are
      the rows of the sheet, each once. */
  lemma {:induction false} ClassifiedPartition(rows: seq<DataRow>)
    ensures forall row :: IsEmissionRow(row) || IsIndicatorRow(row) || IsAvoidedRow(row)
    ensures forall row ::
      !(IsEmissionRow(row) && IsIndicatorRow(row)) && !(IsEmissionRow(row) && IsAvoidedRow(row)) && !(IsIndicatorRow(row) && IsAvoidedRow(row))
    ensures var (e, i, a) := Classified(rows);
      multiset(e) + multiset(i) + multiset(a) == multiset(rows)
    decreases |rows|
  {
    forall row ensures !(IsIndicatorRow(row) && IsAvoidedRow(row)) {
      IndicatorNotAvoided(row);
    }
    if rows != [] {
      ClassifiedPartition(rows[1..]);
      assert rows == [rows[0]] + rows[1..];
      IndicatorNotAvoided(rows[0]);
    }
  }

  /** SCOPE_BY_CATEGORY: the known emission categories and their scope. */
  const ScopeByCategory: map<string, int> := map[
    "Travaux" := 3, "Réactifs" := 3, "Imports d'eau" := 3, "Achats de services" := 3,
    "File eau" := 3, "Compostage des boues" := 3, "Rejets dans le milieu" := 3,
    "Energie" := 2, "Immobilisations" := 3, "Digesteur" := 3, "Utilisation" := 3,
    "Déplacements domicile-travail" := 3, "Déplacements pro" := 3, "Déchets" := 3,
    "Fret sortant" := 1]

  /** The categories of emission rows that SCOPE_BY_CATEGORY does not know. */
  function UnknownCategories(emission: seq<DataRow>): set<string> {
    set row | row in emission && row.category.Some? && row.category.value !in ScopeByCategory :: row.category.value
  }

  // ---------------------------------------------------------------------
  // Validation messages

  /** FLAT_REQUIRED_COLUMNS. */
  const FlatRequiredColumns: seq<string> :=
    ["Organisation", "Lot", "Entité", "Année", "Catégorie", "Poste", "Quantité", "Unité", "Emissions_kgCO2"]

  datatype Issue =
    | MissingSheet(sheet: string)
    | MissingColumns(sheet: string, columns: seq<string>)
    | UnknownCategory(category: string)
    | SchemaColumns(sheet: string, columns: seq<string>)

  /** The text the loader appends for an issue. */
  function Message(issue: Issue): string {
    match issue
    case MissingSheet(sheet) => "Onglet '" + sheet + "' manquant"
    case MissingColumns(sheet, columns) => "Onglet '" + sheet + "' : colonnes manquantes : " + Join(", ", columns)
    case UnknownCategory(category) =>
      "Catégorie inconnue '" + category + "' : scope par défaut = 3, label = nom brut"
    case SchemaColumns(sheet, columns) =>
      "Schema '" + sheet + "' : colonnes manquantes après transformation : " + Join(", ", columns)
  }

  /** What `_validate_sheets` reports, in its order. */
  function SheetIssues(sheetNames: seq<string>): seq<Issue> {
    (if "DATA" in sheetNames then [] else [MissingSheet("DATA")])
    + (if "TEXTE_RAPPORT" in sheetNames then [] else [MissingSheet("TEXTE_RAPPORT")])
  }

  /** One issue per missing sheet, none when both are there. */
  lemma SheetIssuesSpec(sheetNames: seq<string>)
    ensures SheetIssues(sheetNames) == [] <==> "DATA" in sheetNames && "TEXTE_RAPPORT" in sheetNames
    ensures forall issue :: issue in SheetIssues(sheetNames) <==>
      issue.MissingSheet? && issue.sheet in ["DATA", "TEXTE_RAPPORT"] && issue.sheet !in sheetNames
  {
  }

  /** The required DATA columns absent from `columns`, sorted. */
  function MissingDataColumns(columns: seq<string>): seq<string> {
    ExcelLoad.MissingOf(FlatRequiredColumns, set c | c in columns)
  }

  /** They are exactly the required columns not present, each once, in
      ascending order. */
  lemma MissingDataColumnsSpec(columns: seq<string>)
    ensures var missing := MissingDataColumns(columns);
      && (forall c :: c in missing <==> c in FlatRequiredColumns && c !in columns)
      && Distinct(missing)
      && SortedBy(missing, CodeBefore())
  {
    FlatRequiredDistinct();
    ExcelLoad.MissingOfSpec(FlatRequiredColumns, (set c | c in columns));
  }

  lemma FlatRequiredDistinct()
    ensures Distinct(FlatRequiredColumns)
  {
  }

  /** What `_validate_flat_columns` reports. */
  function ColumnIssues(columns: seq<string>): seq<Issue> {
    var missing := MissingDataColumns(columns);
    if missing == [] then [] else [MissingColumns("DATA", missing)]
  }

  /** No issue exactly when every required column is present. */
  lemma ColumnIssuesNone(columns: seq<string>)
    ensures ColumnIssues(columns) == [] <==> forall c :: c in FlatRequiredColumns ==> c in columns
  {
    var missing := MissingDataColumns(columns);
    MissingDataColumnsSpec(columns);
    ExcelLoad.NoneMissing(FlatRequiredColumns, (set c | c in columns), missing);
  }

  /** `names` lists exactly the required columns absent from `columns`. */
  ghost predicate NamesMissing(names: seq<string>, columns: seq<string>) {
    forall c :: c in names <==> c in FlatRequiredColumns && c !in columns
  }

  /** Otherwise one issue, on DATA, naming the missing columns. */
  lemma ColumnIssuesNames(columns: seq<string>)
    ensures |ColumnIssues(columns)| <= 1
    ensures forall issue :: issue in ColumnIssues(columns) ==>
      issue.MissingColumns? && issue.sheet == "DATA" && NamesMissing(issue.columns, columns)
  {
    var missing := MissingDataColumns(columns);
    assert ColumnIssues(columns) == [] || ColumnIssues(columns) == [MissingColumns("DATA", missing)];
    MissingDataColumnsNamed(columns);
  }

  lemma MissingDataColumnsNamed(columns: seq<string>)
    ensures NamesMissing(MissingDataColumns(columns), columns)
  {
    MissingDataColumnsSpec(columns);
  }

  // ---------------------------------------------------------------------
  // ORG_TREE

  /** A loading failure: the loader turns it into its generic error. */
  datatype Fault =
    | NoOrganisation   // every row lacks an Organisation: `.iloc[0]` of an empty column
    | NoPosteL2Rows    // no row to deduplicate: `drop_duplicates` on absent columns
    | BlankName        // a blank Lot or Catégorie given to `_slugify`: `unicodedata.normalize` of None
    | NoTexteCodes     // TEXTE_RAPPORT has no `poste_l1_code` column to map

  /** `all_rows[['Lot', 'Entité']].dropna()`: the (lot, entity) pairs of the
      rows that have both, in row order. */
  function LotEntityPairs(rows: seq<DataRow>): seq<(string, string)>
    decreases |rows|
  {
    if rows == [] then []
    else
      (if rows[0].lot.Some? && rows[0].entity.Some? then [(rows[0].lot.value, rows[0].entity.value)] else [])
      + LotEntityPairs(rows[1..])
  }

  lemma {:induction false} LotEntityPairsMembers(rows: seq<DataRow>)
    ensures forall l, e :: (l, e) in LotEntityPairs(rows) <==>
      exists row :: row in rows && row.lot == Some(l) && row.entity == Some(e)
    decreases |rows|
  {
    if rows != [] {
      LotEntityPairsMembers(rows[1..]);
      assert rows == [rows[0]] + rows[1..];
    }
  }

  /** The lots of the pairs. */
  function LotsOf(pairs: seq<(string, string)>): (lots: seq<string>)
    ensures forall l :: l in lots <==> exists e :: (l, e) in pairs
  {
    var lots := seq(|pairs|, i requires 0 <= i < |pairs| => pairs[i].0);
    assert forall i :: 0 <= i < |pairs| ==> lots[i] == pairs[i].0;
    lots
  }

  /** The entities paired with `lot`. */
  function ActivitiesOf(pairs: seq<(string, string)>, lot: string): (acts: seq<string>)
    ensures forall e :: e in acts <==> (lot, e) in pairs
    decreases |pairs|
  {
    if pairs == [] then []
    else
      assert pairs == [pairs[0]] + pairs[1..];
      (if pairs[0].0 == lot then [pairs[0].1] else []) + ActivitiesOf(pairs[1..], lot)
  }

  /** `sorted(lot_ent_pairs['Lot'].unique())`. */
  function SortedLots(pairs: seq<(string, string)>): seq<string> {
    SortBy(Dedup(LotsOf(pairs)), CodeBefore())
  }

  /** `sorted(... ['Entité'].unique())` for one lot. */
  function SortedActivities(pairs: seq<(string, string)>, lot: string): seq<string> {
    SortBy(Dedup(ActivitiesOf(pairs, lot)), CodeBefore())
  }

  /** Sorted, without repetition, and made of the given elements. */
  ghost predicate SortedSet(s: seq<string>, members: iset<string>) {
    && SortedBy(s, CodeBefore()) && Distinct(s)
    && forall x :: x in s <==> x in members
  }

  lemma SortedDedup(s: seq<string>)
    ensures SortedSet(SortBy(Dedup(s), CodeBefore()), iset x | x in s)
  {
    CodeBeforeOrder();
    SortBySorted(Dedup(s), CodeBefore());
    SortByDistinct(Dedup(s), CodeBefore());
    SortByMembers(Dedup(s), CodeBefore());
  }

  function RootRow(organisation: string): Tree.NodeRow {
    Tree.NodeRow(OrgId, None, "ORG", organisation, Some("NA"))
  }

  function LotRow(lot: string): Tree.NodeRow {
    Tree.NodeRow(NodeIdLot(lot), Some(OrgId), "LOT", lot, Some("NA"))
  }

  function EntRow(lot: string, activity: string): Tree.NodeRow {
    Tree.NodeRow(NodeIdEnt(lot, activity), Some(NodeIdLot(lot)), "ENT", lot + " - " + activity, Some(activity))
  }

  function EntRows(lot: string, activities: seq<string>): (rows: seq<Tree.NodeRow>)
    ensures |rows| == |activities| && forall j :: 0 <= j < |rows| ==> rows[j] == EntRow(lot, activities[j])
  {
    seq(|activities|, j requires 0 <= j < |activities| => EntRow(lot, activities[j]))
  }

  lemma EntRowsSnoc(lot: string, activities: seq<string>, j: nat)
    requires j < |activities|
    ensures EntRows(lot, activities[..j + 1]) == EntRows(lot, activities[..j]) + [EntRow(lot, activities[j])]
  {
  }

  /** The rows one lot contributes: its LOT row, then one ENT row per
      activity, in the order given. */
  function Block(lot: string, activities: seq<string>): seq<Tree.NodeRow> {
    [LotRow(lot)] + EntRows(lot, activities)
  }

  /** The blocks of the first `n` lots, one after the other. */
  function BlocksTo(lots: seq<string>, n: nat, activities: string -> seq<string>): seq<Tree.NodeRow>
    requires n <= |lots|
    decreases n
  {
    if n == 0 then []
    else BlocksTo(lots, n - 1, activities) + Block(lots[n - 1], activities(lots[n - 1]))
  }

  /** After a head, the blocks of one more lot are those before it and its
      own block. */
  lemma BlocksToSnoc(head: seq<Tree.NodeRow>, lots: seq<string>, n: nat, activities: string -> seq<string>)
    requires n < |lots|
    ensures head + BlocksTo(lots, n + 1, activities)
      == (head + BlocksTo(lots, n, activities)) + Block(lots[n], activities(lots[n]))
  {
  }

  /** The blocks of all the lots. */
  function Blocks(lots: seq<string>, activities: string -> seq<string>): seq<Tree.NodeRow> {
    BlocksTo(lots, |lots|, activities)
  }

  /** Each lot's activities as the builder lists them. */
  function ActivitiesFn(pairs: seq<(string, string)>): string -> seq<string> {
    lot => SortedActivities(pairs, lot)
  }

  /** `all_rows['Organisation'].dropna().iloc[0]`. */
  function FirstOrganisation(rows: seq<DataRow>): Option<string>
    decreases |rows|
  {
    if rows == [] then None
    else if rows[0].organisation.Some? then rows[0].organisation
    else FirstOrganisation(rows[1..])
  }

  /** `_build_org_tree`. */
  function OrgTree(emission: seq<DataRow>, indicator: seq<DataRow>): Result<seq<Tree.NodeRow>, Fault> {
    var all := emission + indicator;
    if all == [] then Success([])
    else
      match FirstOrganisation(all)
      case None => Failure(NoOrganisation)
      case Some(organisation) =>
        var pairs := LotEntityPairs(all);
        Success([RootRow(organisation)] + Blocks(SortedLots(pairs), ActivitiesFn(pairs)))
  }

  /** The first organisation is that of the first row naming one. */
  lemma {:induction false} FirstOrganisationSpec(rows: seq<DataRow>)
    ensures FirstOrganisation(rows).None? <==> forall k :: 0 <= k < |rows| ==> rows[k].organisation.None?
    ensures FirstOrganisation(rows).Some? ==>
      exists k :: 0 <= k < |rows| && rows[k].organisation == FirstOrganisation(rows)
        && forall k' :: 0 <= k' < k ==> rows[k'].organisation.None?
    decreases |rows|
  {
    if rows != [] && rows[0].organisation.None? {
      FirstOrganisationSpec(rows[1..]);
      if FirstOrganisation(rows).Some? {
        var k :| 0 <= k < |rows[1..]| && rows[1..][k].organisation == FirstOrganisation(rows)
          && forall k' :: 0 <= k' < k ==> rows[1..][k'].organisation.None?;
        assert rows[k + 1] == rows[1..][k];
        assert forall k' :: 1 <= k' < k + 1 ==> rows[k'] == rows[1..][k' - 1];
      }
    }
  }

  /** No rows give an empty tree; rows without any organisation make the
      builder fail; otherwise the first row is the ORG_1 root named after the
      first organisation found. */
  lemma OrgTreeOutcome(emission: seq<DataRow>, indicator: seq<DataRow>)
    ensures var all := emission + indicator;
      && (all == [] ==> OrgTree(emission, indicator) == Success([]))
      && (OrgTree(emission, indicator).Failure? <==>
            all != [] && forall k :: 0 <= k < |all| ==> all[k].organisation.None?)
      && (all != [] && OrgTree(emission, indicator).Success? ==>
            var rows := OrgTree(emission, indicator).value;
            && rows != [] && rows[0].nodeId == OrgId && rows[0].parentId == None && rows[0].nodeType == "ORG"
            && exists k :: 0 <= k < |all| && all[k].organisation == Some(rows[0].nodeName)
                 && forall k' :: 0 <= k' < k ==> all[k'].organisation.None?)
  {
    FirstOrganisationSpec(emission + indicator);
  }

  /** Every ENT row sits under the closest LOT row before it: its parent is
      that LOT's id and its name is the lot's name, " - " and the activity. */
  ghost predicate EntsUnderLots(rows: seq<Tree.NodeRow>) {
    forall m :: 0 <= m < |rows| ==> EntUnderLot(rows, m)
  }

  /** Row `m`, if it is an ENT row, has an activity and sits under a LOT row. */
  ghost predicate EntUnderLot(rows: seq<Tree.NodeRow>, m: int)
    requires 0 <= m < |rows|
  {
    rows[m].nodeType == "ENT" ==> rows[m].activity.Some? && exists p :: UnderLot(rows, p, m)
  }

  ghost predicate UnderLot(rows: seq<Tree.NodeRow>, p: int, m: int)
    requires 0 <= m < |rows| && rows[m].activity.Some?
  {
    && 0 <= p < m && rows[p].nodeType == "LOT"
    && (forall q :: p < q < m ==> rows[q].nodeType == "ENT")
    && rows[m].parentId == Some(rows[p].nodeId)
    && rows[m].nodeName == rows[p].nodeName + " - " + rows[m].activity.value
  }

  /** Appending a block that opens with a LOT row keeps every ENT row under
      its LOT. */
  lemma EntsUnderLotsAppend(a: seq<Tree.NodeRow>, b: seq<Tree.NodeRow>)
    requires EntsUnderLots(a) && EntsUnderLots(b) && b != [] && b[0].nodeType == "LOT"
    ensures EntsUnderLots(a + b)
  {
    var c := a + b;
    forall m | 0 <= m < |c| ensures EntUnderLot(c, m) {
      if c[m].nodeType != "ENT" {
      } else if m < |a| {
        assert EntUnderLot(a, m);
        assert c[m] == a[m];
        var p :| UnderLot(a, p, m);
        assert forall q :: 0 <= q < |a| ==> c[q] == a[q];
        assert UnderLot(c, p, m);
      } else {
        var m' := m - |a|;
        assert c[m] == b[m'];
        assert EntUnderLot(b, m');
        assert m' > 0;
        var p :| UnderLot(b, p, m');
        assert forall q :: 0 <= q < |b| ==> c[|a| + q] == b[q];
        assert UnderLot(c, |a| + p, m);
      }
    }
  }

  lemma BlockUnderLot(lot: string, activities: seq<string>)
    ensures EntsUnderLots(Block(lot, activities))
  {
    var b := Block(lot, activities);
    forall m | 0 <= m < |b| ensures EntUnderLot(b, m) {
      if b[m].nodeType == "ENT" {
        assert UnderLot(b, 0, m);
      }
    }
  }

  lemma {:induction false} BlocksUnderLots(lots: seq<string>, n: nat, activities: string -> seq<string>)
    requires n <= |lots|
    ensures EntsUnderLots(BlocksTo(lots, n, activities))
    decreases n
  {
    if n != 0 {
      var front, block := BlocksTo(lots, n - 1, activities), Block(lots[n - 1], activities(lots[n - 1]));
      assert BlocksTo(lots, n, activities) == front + block;
      assert EntsUnderLots(front + block) by {
        BlocksUnderLots(lots, n - 1, activities);
        BlockUnderLot(lots[n - 1], activities(lots[n - 1]));
        EntsUnderLotsAppend(front, block);
      }
    }
  }

  /** The blocks of at least one lot open with the first lot's row. */
  lemma {:induction false} BlocksToFirst(lots: seq<string>, n: nat, activities: string -> seq<string>)
    requires 0 < n <= |lots|
    ensures BlocksTo(lots, n, activities) != [] && BlocksTo(lots, n, activities)[0] == LotRow(lots[0])
    decreases n
  {
    if n > 1 {
      BlocksToFirst(lots, n - 1, activities);
    }
  }

  /** A root followed by the blocks keeps every ENT row under its LOT. */
  lemma RootAndBlocks(root: Tree.NodeRow, lots: seq<string>, activities: string -> seq<string>)
    requires root.nodeType == "ORG"
    ensures EntsUnderLots([root] + Blocks(lots, activities))
  {
    assert EntUnderLot([root], 0);
    if lots == [] {
      assert [root] + Blocks(lots, activities) == [root];
    } else {
      BlocksUnderLots(lots, |lots|, activities);
      BlocksToFirst(lots, |lots|, activities);
      EntsUnderLotsAppend([root], Blocks(lots, activities));
    }
  }

  /** The names of the LOT rows, in order. */
  function LotNames(rows: seq<Tree.NodeRow>): seq<string>
    decreases |rows|
  {
    if rows == [] then []
    else (if rows[0].nodeType == "LOT" then [rows[0].nodeName] else []) + LotNames(rows[1..])
  }

  lemma {:induction false} LotNamesConcat(a: seq<Tree.NodeRow>, b: seq<Tree.NodeRow>)
    ensures LotNames(a + b) == LotNames(a) + LotNames(b)
    decreases |a|
  {
    if a == [] {
      assert a + b == b;
    } else {
      assert (a + b)[1..] == a[1..] + b;
      LotNamesConcat(a[1..], b);
    }
  }

  lemma {:induction false} EntRowsNoLot(lot: string, activities: seq<string>)
    ensures LotNames(EntRows(lot, activities)) == []
    decreases |activities|
  {
    if activities != [] {
      assert EntRows(lot, activities)[1..] == EntRows(lot, activities[1..]);
      EntRowsNoLot(lot, activities[1..]);
    }
  }

  lemma {:induction false} BlocksNames(lots: seq<string>, n: nat, activities: string -> seq<string>)
    requires n <= |lots|
    ensures LotNames(BlocksTo(lots, n, activities)) == lots[..n]
    decreases n
  {
    if n != 0 {
      var lot := lots[n - 1];
      assert lots[..n] == lots[..n - 1] + [lot];
      BlocksNames(lots, n - 1, activities);
      LotNamesConcat(BlocksTo(lots, n - 1, activities), Block(lot, activities(lot)));
      assert LotNames(Block(lot, activities(lot))) == [lot] by {
        LotNamesConcat([LotRow(lot)], EntRows(lot, activities(lot)));
        EntRowsNoLot(lot, activities(lot));
      }
    }
  }

  /** The LOT rows name every lot that has an entity, each once, in sorted
      order, after the root. */
  lemma OrgTreeLots(emission: seq<DataRow>, indicator: seq<DataRow>)
    requires OrgTree(emission, indicator).Success? && emission + indicator != []
    ensures var rows := OrgTree(emission, indicator).value;
      SortedSet(LotNames(rows),
        iset l | exists row :: row in emission + indicator && row.lot == Some(l) && row.entity.Some?)
  {
    var all := emission + indicator;
    var pairs := LotEntityPairs(all);
    var rows := OrgTree(emission, indicator).value;
    var root := RootRow(FirstOrganisation(all).value);
    var lots := SortedLots(pairs);
    assert LotNames(rows) == lots by {
      LotNamesConcat([root], Blocks(lots, ActivitiesFn(pairs)));
      assert LotNames([root]) == [];
      BlocksNames(lots, |lots|, ActivitiesFn(pairs));
      assert lots[..|lots|] == lots;
    }
    var paired := iset l | l in LotsOf(pairs);
    var named := iset l | exists row :: row in all && row.lot == Some(l) && row.entity.Some?;
    assert paired == named by {
      LotEntityPairsMembers(all);
      forall l | l in named ensures l in paired {
        var row :| row in all && row.lot == Some(l) && row.entity.Some?;
        assert (l, row.entity.value) in pairs;
        assert l in LotsOf(pairs);
      }
    }
    SortedLotsSpec(pairs);
  }

  /** The sorted lots are each lot of a pair, once, in order. */
  lemma SortedLotsSpec(pairs: seq<(string, string)>)
    ensures SortedSet(SortedLots(pairs), iset l | l in LotsOf(pairs))
  {
    SortedDedup(LotsOf(pairs));
  }

  /** Every ENT row of the blocks is the row of a listed lot and one of its
      activities, and each such pair has its row. */
  lemma {:induction false} BlocksEnts(lots: seq<string>, n: nat, activities: string -> seq<string>)
    requires n <= |lots|
    ensures forall r :: r in BlocksTo(lots, n, activities) && r.nodeType == "ENT" ==>
      exists l, a :: l in lots[..n] && a in activities(l) && r == EntRow(l, a)
    ensures forall l, a :: l in lots[..n] && a in activities(l) ==> EntRow(l, a) in BlocksTo(lots, n, activities)
    decreases n
  {
    if n != 0 {
      var lot := lots[n - 1];
      assert lots[..n] == lots[..n - 1] + [lot];
      BlocksEnts(lots, n - 1, activities);
      var block := Block(lot, activities(lot));
      assert BlocksTo(lots, n, activities) == BlocksTo(lots, n - 1, activities) + block;
      forall r | r in block && r.nodeType == "ENT"
        ensures exists a :: a in activities(lot) && r == EntRow(lot, a)
      {
        var k :| 0 <= k < |block| && block[k] == r;
        assert k > 0 && r == EntRow(lot, activities(lot)[k - 1]);
      }
      forall a | a in activities(lot) ensures EntRow(lot, a) in block {
        var k :| 0 <= k < |activities(lot)| && activities(lot)[k] == a;
        assert block[k + 1] == EntRow(lot, a);
      }
    }
  }

  /** The lots of the sorted list are those of the pairs, and so are each
      lot's sorted activities. */
  lemma SortedActivitiesSpec(pairs: seq<(string, string)>, lot: string)
    ensures SortedSet(SortedActivities(pairs, lot), iset a | a in ActivitiesOf(pairs, lot))
  {
    SortedDedup(ActivitiesOf(pairs, lot));
  }

  /** The ENT rows are exactly one per (lot, entity) pair that some row
      carries. */
  lemma OrgTreeEnts(emission: seq<DataRow>, indicator: seq<DataRow>)
    requires OrgTree(emission, indicator).Success? && emission + indicator != []
    ensures var rows := OrgTree(emission, indicator).value;
      && (forall l, a :: (exists row :: row in emission + indicator && row.lot == Some(l) && row.entity == Some(a))
            ==> EntRow(l, a) in rows)
      && (forall r :: r in rows && r.nodeType == "ENT" ==>
            exists l, a :: r == EntRow(l, a)
              && exists row :: row in emission + indicator && row.lot == Some(l) && row.entity == Some(a))
  {
    var all := emission + indicator;
    var pairs := LotEntityPairs(all);
    var rows := OrgTree(emission, indicator).value;
    var root := RootRow(FirstOrganisation(all).value);
    var lots, f := SortedLots(pairs), ActivitiesFn(pairs);
    assert rows == [root] + Blocks(lots, f);
    BlocksEnts(lots, |lots|, f);
    assert lots[..|lots|] == lots;
    LotEntityPairsMembers(all);
    SortedLotsSpec(pairs);
    forall l, a | (exists row :: row in all && row.lot == Some(l) && row.entity == Some(a))
      ensures EntRow(l, a) in rows
    {
      assert (l, a) in pairs;
      assert l in lots;
      SortedActivitiesSpec(pairs, l);
      assert a in f(l);
      assert EntRow(l, a) in Blocks(lots, f);
    }
    forall r | r in rows && r.nodeType == "ENT"
      ensures exists l, a :: (r == EntRow(l, a)
        && exists row :: row in all && row.lot == Some(l) && row.entity == Some(a))
    {
      assert r in Blocks(lots, f);
      var l, a :| l in lots && a in f(l) && r == EntRow(l, a);
      SortedActivitiesSpec(pairs, l);
      assert (l, a) in pairs;
    }
  }

  /** `_build_org_tree`'s inner loop: one ENT row per activity of the lot. */
  method AppendEntRows(rows: seq<Tree.NodeRow>, lot: string, activities: seq<string>) returns (rows': seq<Tree.NodeRow>)
    ensures rows' == rows + EntRows(lot, activities)
  {
    rows' := rows;
    var j := 0;
    while j < |activities|
      invariant 0 <= j <= |activities|
      invariant rows' == rows + EntRows(lot, activities[..j])
    {
      EntRowsSnoc(lot, activities, j);
      rows' := rows' + [EntRow(lot, activities[j])];
      j := j + 1;
    }
    assert activities[..j] == activities;
  }

  /** One pass of `_build_org_tree`'s outer loop: the LOT row, then the
      inner loop. */
  method AppendBlock(rows: seq<Tree.NodeRow>, lot: string, activities: seq<string>) returns (rows': seq<Tree.NodeRow>)
    ensures rows' == rows + Block(lot, activities)
  {
    rows' := AppendEntRows(rows + [LotRow(lot)], lot, activities);
    AppendAssoc(rows, [LotRow(lot)], EntRows(lot, activities));
  }

  /** `_build_org_tree`'s outer loop: for each lot, its LOT row and then its
      ENT rows. */
  method AppendBlocks(rows: seq<Tree.NodeRow>, lots: seq<string>, activities: string -> seq<string>)
    returns (rows': seq<Tree.NodeRow>)
    ensures rows' == rows + Blocks(lots, activities)
  {
    rows' := rows;
    var i := 0;
    while i < |lots|
      invariant 0 <= i <= |lots|
      invariant rows' == rows + BlocksTo(lots, i, activities)
    {
      rows' := AppendBlock(rows', lots[i], activities(lots[i]));
      BlocksToSnoc(rows, lots, i, activities);
      i := i + 1;
    }
  }

  /** `_build_org_tree`'s loops: the root, then for each lot in sorted order
      its LOT row and the ENT rows of its sorted activities. */
  method BuildOrgTree(emission: seq<DataRow>, indicator: seq<DataRow>) returns (r: Result<seq<Tree.NodeRow>, Fault>)
    ensures r == OrgTree(emission, indicator)
  {
    var all := emission + indicator;
    if all == [] {
      return Success([]);
    }
    var organisation := FirstOrganisation(all);
    if organisation.None? {
      return Failure(NoOrganisation);
    }
    var pairs := LotEntityPairs(all);
    var lots := SortedLots(pairs);
    var rows := AppendBlocks([RootRow(organisation.value)], lots, ActivitiesFn(pairs));
    return Success(rows);
  }

  /** The ORG_TREE rows form a tree of depth three: the root first, then
      LOT rows under the root, each followed by its ENT rows. */
  lemma OrgTreeShape(emission: seq<DataRow>, indicator: seq<DataRow>)
    requires OrgTree(emission, indicator).Success? && emission + indicator != []
    ensures var rows := OrgTree(emission, indicator).value;
      && rows[0].nodeType == "ORG"
      && EntsUnderLots(rows)
  {
    var all := emission + indicator;
    var pairs := LotEntityPairs(all);
    var root := RootRow(FirstOrganisation(all).value);
    RootAndBlocks(root, SortedLots(pairs), ActivitiesFn(pairs));
  }

  // POSTES_L2_REF

  /** A row of POSTES_L2_REF: a sub-poste and its rank, from 1, among the
      sub-postes of its category. */
  datatype PosteL2Ref = PosteL2Ref(posteL1Code: string, posteL2: string, posteL2Order: int)

  /** The categories the rows name, in row order. */
  function CategoriesOf(rows: seq<DataRow>): (categories: seq<string>)
    ensures forall c :: c in categories <==> exists row :: row in rows && row.category == Some(c)
    decreases |rows|
  {
    if rows == [] then []
    else
      assert rows == [rows[0]] + rows[1..];
      (if rows[0].category.Some? then [rows[0].category.value] else []) + CategoriesOf(rows[1..])
  }

  /** The sub-postes of the rows of one category, in row order. */
  function PostesOf(rows: seq<DataRow>, category: string): (postes: seq<string>)
    ensures forall p :: p in postes <==>
      exists row :: row in rows && row.category == Some(category) && row.poste == Some(p)
    decreases |rows|
  {
    if rows == [] then []
    else
      assert rows == [rows[0]] + rows[1..];
      (if rows[0].category == Some(category) && rows[0].poste.Some? then [rows[0].poste.value] else [])
      + PostesOf(rows[1..], category)
  }

  /** The keys of `groupby('Catégorie')`: sorted, each once, blanks left out. */
  function SortedCategories(rows: seq<DataRow>): seq<string> {
    SortBy(Dedup(CategoriesOf(rows)), CodeBefore())
  }

  /** `sorted(group['Poste'].dropna().unique())` for one category. */
  function SortedPostes(rows: seq<DataRow>, category: string): seq<string> {
    SortBy(Dedup(PostesOf(rows, category)), CodeBefore())
  }

  /** Each category's sub-postes as the builder numbers them. */
  function PostesFn(rows: seq<DataRow>): string -> seq<string> {
    category => SortedPostes(rows, category)
  }

  /** The rows one category contributes: its sub-postes numbered from 1. */
  function CategoryRefs(category: string, postes: seq<string>): (refs: seq<PosteL2Ref>)
    ensures |refs| == |postes|
    ensures forall j :: 0 <= j < |refs| ==> refs[j] == PosteL2Ref(PosteCode(category), postes[j], j + 1)
  {
    seq(|postes|, j requires 0 <= j < |postes| => PosteL2Ref(PosteCode(category), postes[j], j + 1))
  }

  /** The rows of the first `n` categories, one category after the other. */
  function RefsTo(categories: seq<string>, n: nat, postes: string -> seq<string>): seq<PosteL2Ref>
    requires n <= |categories|
    decreases n
  {
    if n == 0 then []
    else RefsTo(categories, n - 1, postes) + CategoryRefs(categories[n - 1], postes(categories[n - 1]))
  }

  /** The rows the loops build, before duplicates are dropped. */
  function RawL2Refs(rows: seq<DataRow>): seq<PosteL2Ref> {
    var categories := SortedCategories(rows);
    RefsTo(categories, |categories|, PostesFn(rows))
  }

  /** The columns `drop_duplicates` compares. */
  function L2Key(ref: PosteL2Ref): (string, string) {
    (ref.posteL1Code, ref.posteL2)
  }

  function L2Keys(refs: seq<PosteL2Ref>): (keys: seq<(string, string)>)
    ensures |keys| == |refs| && forall i :: 0 <= i < |refs| ==> keys[i] == L2Key(refs[i])
  {
    seq(|refs|, i requires 0 <= i < |refs| => L2Key(refs[i]))
  }

  lemma L2KeysConcat(a: seq<PosteL2Ref>, b: seq<PosteL2Ref>)
    ensures L2Keys(a + b) == L2Keys(a) + L2Keys(b)
  {
  }

  /** `drop_duplicates(subset=['poste_l1_code', 'poste_l2'])`: the first row
      of each key, in order. */
  function DropDuplicateKeys(refs: seq<PosteL2Ref>): seq<PosteL2Ref>
    decreases |refs|
  {
    if refs == [] then []
    else
      var kept, last := DropDuplicateKeys(refs[..|refs| - 1]), refs[|refs| - 1];
      if L2Key(last) in L2Keys(kept) then kept else kept + [last]
  }

  /** `_build_postes_l2_ref`. */
  function PostesL2Ref(emission: seq<DataRow>): Result<seq<PosteL2Ref>, Fault> {
    if emission == [] then Success([])
    else
      var raw := RawL2Refs(emission);
      if raw == [] then Failure(NoPosteL2Rows) else Success(DropDuplicateKeys(raw))
  }

  /** Dropping duplicates leaves each key once, keeps only rows of the input,
      and keeps a row for every key of the input. */
  lemma {:induction false} DropDuplicateKeysSpec(refs: seq<PosteL2Ref>)
    ensures var kept := DropDuplicateKeys(refs);
      && Distinct(L2Keys(kept))
      && (forall x :: x in kept ==> x in refs)
      && (forall x :: x in refs ==> L2Key(x) in L2Keys(kept))
    decreases |refs|
  {
    if refs != [] {
      var front, last := refs[..|refs| - 1], refs[|refs| - 1];
      DropDuplicateKeysSpec(front);
      var kept := DropDuplicateKeys(front);
      assert refs == front + [last];
      if L2Key(last) !in L2Keys(kept) {
        var keys := L2Keys(kept + [last]);
        assert keys == L2Keys(kept) + [L2Key(last)];
        forall i, j | 0 <= i < j < |keys| ensures keys[i] != keys[j] {
          if j < |kept| {
            assert keys[i] == L2Keys(kept)[i] && keys[j] == L2Keys(kept)[j];
          } else {
            assert keys[i] == L2Keys(kept)[i];
          }
        }
        assert L2Keys(kept) <= keys;
      }
    }
  }

  /** The first row of each key is kept. */
  lemma {:induction false} DropDuplicateKeysFirst(refs: seq<PosteL2Ref>, i: nat)
    requires i < |refs| && forall k :: 0 <= k < i ==> L2Key(refs[k]) != L2Key(refs[i])
    ensures refs[i] in DropDuplicateKeys(refs)
    decreases |refs|
  {
    var front, last := refs[..|refs| - 1], refs[|refs| - 1];
    var kept := DropDuplicateKeys(front);
    if i < |refs| - 1 {
      assert front[i] == refs[i];
      DropDuplicateKeysFirst(front, i);
    } else {
      DropDuplicateKeysSpec(front);
      forall k | 0 <= k < |kept| ensures L2Keys(kept)[k] != L2Key(last) {
        assert kept[k] in front;
        var k' :| 0 <= k' < |front| && front[k'] == kept[k];
        assert refs[k'] == kept[k];
      }
    }
  }

  /** Rows whose keys already differ pass through unchanged. */
  lemma {:induction false} DropDuplicateKeysNoop(refs: seq<PosteL2Ref>)
    requires Distinct(L2Keys(refs))
    ensures DropDuplicateKeys(refs) == refs
    decreases |refs|
  {
    if refs != [] {
      var front, last := refs[..|refs| - 1], refs[|refs| - 1];
      assert refs == front + [last];
      L2KeysConcat(front, [last]);
      assert L2Keys([last]) == [L2Key(last)];
      DistinctSnoc(L2Keys(front), L2Key(last));
      DropDuplicateKeysNoop(front);
    }
  }

  /** A built row is the `j`-th sub-poste of one of the categories, numbered
      `j + 1`, and every such row is built. */
  lemma {:induction false} RefsToMembers(categories: seq<string>, n: nat, postes: string -> seq<string>)
    requires n <= |categories|
    ensures forall x :: x in RefsTo(categories, n, postes) <==>
      exists c, j :: c in categories[..n] && 0 <= j < |postes(c)| && x == PosteL2Ref(PosteCode(c), postes(c)[j], j + 1)
    decreases n
  {
    if n != 0 {
      var c := categories[n - 1];
      assert categories[..n] == categories[..n - 1] + [c];
      RefsToMembers(categories, n - 1, postes);
      var refs := CategoryRefs(c, postes(c));
      assert RefsTo(categories, n, postes) == RefsTo(categories, n - 1, postes) + refs;
      forall j | 0 <= j < |postes(c)| ensures PosteL2Ref(PosteCode(c), postes(c)[j], j + 1) in refs {
        assert refs[j] == PosteL2Ref(PosteCode(c), postes(c)[j], j + 1);
      }
    }
  }

  /** The codes of the categories, in order. */
  function PosteCodes(categories: seq<string>): (codes: seq<string>)
    ensures |codes| == |categories| && forall i :: 0 <= i < |categories| ==> codes[i] == PosteCode(categories[i])
  {
    seq(|categories|, i requires 0 <= i < |categories| => PosteCode(categories[i]))
  }

  /** Every built row carries the code of one of the categories. */
  lemma RefsToCodes(categories: seq<string>, n: nat, postes: string -> seq<string>)
    requires n <= |categories|
    ensures forall x :: x in RefsTo(categories, n, postes) ==>
      exists m :: 0 <= m < n && x.posteL1Code == PosteCodes(categories)[m]
  {
    RefsToMembers(categories, n, postes);
    forall x | x in RefsTo(categories, n, postes)
      ensures exists m :: 0 <= m < n && x.posteL1Code == PosteCodes(categories)[m]
    {
      var c, j :| c in categories[..n] && 0 <= j < |postes(c)| && x == PosteL2Ref(PosteCode(c), postes(c)[j], j + 1);
      var m :| 0 <= m < n && categories[..n][m] == c;
      assert PosteCodes(categories)[m] == PosteCode(c);
    }
  }

  /** One category's rows: keys that differ, all with the category's code. */
  lemma CategoryRefsKeys(category: string, postes: seq<string>)
    requires Distinct(postes)
    ensures var keys := L2Keys(CategoryRefs(category, postes));
      Distinct(keys) && forall k :: k in keys ==> k.0 == PosteCode(category)
  {
    var refs := CategoryRefs(category, postes);
    forall i, j | 0 <= i < j < |refs| ensures L2Keys(refs)[i] != L2Keys(refs)[j] {
      assert postes[i] != postes[j];
    }
  }

  /** The rows of the first `n` categories do not carry the code of the next
      one when the categories' codes differ. */
  lemma RefsToOtherCodes(categories: seq<string>, n: nat, postes: string -> seq<string>)
    requires n < |categories| && Distinct(PosteCodes(categories))
    ensures forall k :: k in L2Keys(RefsTo(categories, n, postes)) ==> k.0 != PosteCodes(categories)[n]
  {
    var front, codes := RefsTo(categories, n, postes), PosteCodes(categories);
    RefsToCodes(categories, n, postes);
    forall k | k in L2Keys(front) ensures k.0 != codes[n] {
      var i :| 0 <= i < |front| && L2Keys(front)[i] == k;
      assert front[i] in front;
      var m :| 0 <= m < n && front[i].posteL1Code == codes[m];
    }
  }

  /** Categories with distinct codes, each with distinct sub-postes, build
      rows whose keys differ. */
  lemma RefsToDistinctKeys(categories: seq<string>, n: nat, postes: string -> seq<string>)
    requires n <= |categories| && Distinct(PosteCodes(categories))
    requires forall c :: c in categories ==> Distinct(postes(c))
    ensures Distinct(L2Keys(RefsTo(categories, n, postes)))
  {
    forall m | 0 <= m < n
      ensures ApartFromNext(categories, m, postes)
    {
      RefsToOtherCodes(categories, m, postes);
      assert PosteCodes(categories)[m] == PosteCode(categories[m]);
    }
    RefsApartDistinctKeys(categories, n, postes);
  }

  /** The rows of the first `m` categories do not carry the code of the next. */
  ghost predicate ApartFromNext(categories: seq<string>, m: nat, postes: string -> seq<string>)
    requires m < |categories|
  {
    forall k :: k in L2Keys(RefsTo(categories, m, postes)) ==> k.0 != PosteCode(categories[m])
  }

  /** The induction behind `RefsToDistinctKeys`, with the distinct codes
      given as what they are used for: no earlier row carries the code of
      the next category. */
  lemma {:induction false} RefsApartDistinctKeys(categories: seq<string>, n: nat, postes: string -> seq<string>)
    requires n <= |categories| && forall m :: 0 <= m < n ==> ApartFromNext(categories, m, postes)
    requires forall c :: c in categories ==> Distinct(postes(c))
    ensures Distinct(L2Keys(RefsTo(categories, n, postes)))
    decreases n
  {
    if n != 0 {
      var c := categories[n - 1];
      var front, refs := RefsTo(categories, n - 1, postes), CategoryRefs(c, postes(c));
      assert Distinct(L2Keys(front)) by {
        RefsApartDistinctKeys(categories, n - 1, postes);
      }
      assert Distinct(L2Keys(refs)) && forall k :: k in L2Keys(refs) ==> k.0 == PosteCode(c) by {
        assert c in categories;
        CategoryRefsKeys(c, postes(c));
      }
      assert ApartFromNext(categories, n - 1, postes);
      KeysJoined(front, refs, PosteCode(c));
    }
  }

  /** Rows with distinct keys, followed by rows of one code that the first
      ones do not carry, still have distinct keys. */
  lemma KeysJoined(front: seq<PosteL2Ref>, refs: seq<PosteL2Ref>, code: string)
    requires Distinct(L2Keys(front)) && Distinct(L2Keys(refs))
    requires forall k :: k in L2Keys(refs) ==> k.0 == code
    requires forall k :: k in L2Keys(front) ==> k.0 != code
    ensures Distinct(L2Keys(front + refs))
  {
    DistinctConcat(L2Keys(front), L2Keys(refs));
    L2KeysConcat(front, refs);
  }

  /** The categories come sorted, once each: those the rows name. */
  lemma SortedCategoriesSpec(rows: seq<DataRow>)
    ensures SortedSet(SortedCategories(rows), iset c | c in CategoriesOf(rows))
  {
    SortedDedup(CategoriesOf(rows));
  }

  /** A category's sub-postes come sorted, once each: those its rows name. */
  lemma SortedPostesSpec(rows: seq<DataRow>, category: string)
    ensures SortedSet(SortedPostes(rows, category), iset p | p in PostesOf(rows, category))
  {
    SortedDedup(PostesOf(rows, category));
  }

  /** A category's listed sub-postes are those its rows name. */
  lemma SortedPostesMembers(rows: seq<DataRow>, category: string)
    ensures forall p :: p in SortedPostes(rows, category) <==> p in PostesOf(rows, category)
  {
    SortedPostesSpec(rows, category);
  }

  /** Every sub-poste of the first `n` categories has its key built. */
  lemma RefsToKeys(categories: seq<string>, n: nat, postes: string -> seq<string>)
    requires n <= |categories|
    ensures forall c, j :: c in categories[..n] && 0 <= j < |postes(c)| ==>
      (PosteCode(c), postes(c)[j]) in L2Keys(RefsTo(categories, n, postes))
  {
    var refs := RefsTo(categories, n, postes);
    RefsToMembers(categories, n, postes);
    forall c, j | c in categories[..n] && 0 <= j < |postes(c)|
      ensures (PosteCode(c), postes(c)[j]) in L2Keys(refs)
    {
      var x := PosteL2Ref(PosteCode(c), postes(c)[j], j + 1);
      assert x in refs;
      var i :| 0 <= i < |refs| && refs[i] == x;
      assert L2Keys(refs)[i] == L2Key(x);
    }
  }

  /** Every row the loops build is a sub-poste of a named category, numbered
      by its rank. */
  lemma RawL2RefsMembers(rows: seq<DataRow>)
    ensures forall x :: x in RawL2Refs(rows) ==>
      exists c, j :: c in CategoriesOf(rows) && 0 <= j < |SortedPostes(rows, c)|
        && x == PosteL2Ref(PosteCode(c), SortedPostes(rows, c)[j], j + 1)
  {
    var categories := SortedCategories(rows);
    RefsToMembers(categories, |categories|, PostesFn(rows));
    assert categories[..|categories|] == categories;
    SortedCategoriesSpec(rows);
  }

  /** Every category and sub-poste some row names together has its key. */
  lemma RawL2RefsCover(rows: seq<DataRow>)
    ensures forall row :: row in rows && row.category.Some? && row.poste.Some? ==>
      (PosteCode(row.category.value), row.poste.value) in L2Keys(RawL2Refs(rows))
  {
    var categories, f := SortedCategories(rows), PostesFn(rows);
    RefsToKeys(categories, |categories|, f);
    assert categories[..|categories|] == categories;
    SortedCategoriesSpec(rows);
    forall row | row in rows && row.category.Some? && row.poste.Some?
      ensures (PosteCode(row.category.value), row.poste.value) in L2Keys(RawL2Refs(rows))
    {
      var c, p := row.category.value, row.poste.value;
      assert c in categories;
      SortedPostesSpec(rows, c);
      assert p in f(c);
      var j :| 0 <= j < |f(c)| && f(c)[j] == p;
    }
  }

  /** A built row witnesses some emission row naming its category and
      sub-poste together. */
  lemma RawL2RefsNamed(rows: seq<DataRow>)
    requires RawL2Refs(rows) != []
    ensures exists row :: row in rows && row.category.Some? && row.poste.Some?
  {
    var raw := RawL2Refs(rows);
    RawL2RefsMembers(rows);
    assert raw[0] in raw;
    var c, j :| c in CategoriesOf(rows) && 0 <= j < |SortedPostes(rows, c)|
      && raw[0] == PosteL2Ref(PosteCode(c), SortedPostes(rows, c)[j], j + 1);
    var p := SortedPostes(rows, c)[j];
    assert p in PostesOf(rows, c) by {
      SortedPostesMembers(rows, c);
    }
    var row :| row in rows && row.category == Some(c) && row.poste == Some(p);
  }

  /** No rows give an empty sheet; rows that never name a category and a
      sub-poste together make the builder fail. */
  lemma PostesL2RefOutcome(emission: seq<DataRow>)
    ensures emission == [] ==> PostesL2Ref(emission) == Success([])
    ensures PostesL2Ref(emission).Failure? <==>
      emission != [] && forall row :: row in emission ==> row.category.None? || row.poste.None?
  {
    var raw := RawL2Refs(emission);
    RawL2RefsCover(emission);
    if raw != [] {
      RawL2RefsNamed(emission);
    }
    NamedRowsKeyed(emission, L2Keys(raw));
    assert PostesL2Ref(emission).Failure? <==> emission != [] && raw == [];
  }

  /** Keys that cover every row naming a category and a sub-poste, and that
      exist only when such a row does, are empty exactly when no row names
      both. */
  lemma NamedRowsKeyed(emission: seq<DataRow>, keys: seq<(string, string)>)
    requires forall row :: row in emission && row.category.Some? && row.poste.Some? ==>
      (PosteCode(row.category.value), row.poste.value) in keys
    requires keys != [] ==> exists row :: row in emission && row.category.Some? && row.poste.Some?
    ensures keys == [] <==> forall row :: row in emission ==> row.category.None? || row.poste.None?
  {
  }

  /** Each (code, sub-poste) pair appears once; every row is a sub-poste of a
      named category numbered by its rank; every category and sub-poste named
      together by an emission row has its pair. */
  lemma PostesL2RefRows(emission: seq<DataRow>)
    requires PostesL2Ref(emission).Success? && emission != []
    ensures var refs := PostesL2Ref(emission).value;
      && Distinct(L2Keys(refs))
      && (forall x :: x in refs ==>
            exists c, j :: c in CategoriesOf(emission) && 0 <= j < |SortedPostes(emission, c)|
              && x == PosteL2Ref(PosteCode(c), SortedPostes(emission, c)[j], j + 1))
      && (forall row :: row in emission && row.category.Some? && row.poste.Some? ==>
            (PosteCode(row.category.value), row.poste.value) in L2Keys(refs))
  {
    var raw := RawL2Refs(emission);
    var refs := DropDuplicateKeys(raw);
    RawL2RefsMembers(emission);
    RawL2RefsCover(emission);
    DropDuplicateKeysSpec(raw);
    forall k | k in L2Keys(raw) ensures k in L2Keys(refs) {
      var i :| 0 <= i < |raw| && L2Keys(raw)[i] == k;
      assert raw[i] in raw;
    }
  }

  /** When no two categories share a code, nothing is dropped: every
      category's sub-postes appear, numbered in sorted order. */
  lemma PostesL2RefComplete(emission: seq<DataRow>)
    requires PostesL2Ref(emission).Success? && emission != []
    requires forall c, c' :: c in CategoriesOf(emission) && c' in CategoriesOf(emission) && PosteCode(c) == PosteCode(c') ==> c == c'
    ensures PostesL2Ref(emission).value == RawL2Refs(emission)
  {
    var categories, f := SortedCategories(emission), PostesFn(emission);
    SortedCategoriesSpec(emission);
    assert Distinct(PosteCodes(categories)) by {
      forall i, j | 0 <= i < j < |categories| ensures PosteCodes(categories)[i] != PosteCodes(categories)[j] {
        assert categories[i] in categories && categories[j] in categories;
        assert categories[i] != categories[j];
      }
    }
    forall c | c in categories ensures Distinct(f(c)) {
      SortedPostesSpec(emission, c);
    }
    RefsToDistinctKeys(categories, |categories|, f);
    DropDuplicateKeysNoop(RawL2Refs(emission));
  }

  /** One more sub-poste extends a category's rows by one. */
  lemma CategoryRefsSnoc(category: string, postes: seq<string>, j: nat)
    requires j < |postes|
    ensures CategoryRefs(category, postes[..j + 1])
      == CategoryRefs(category, postes[..j]) + [PosteL2Ref(PosteCode(category), postes[j], j + 1)]
  {
  }

  lemma RefsToSnoc(head: seq<PosteL2Ref>, categories: seq<string>, n: nat, postes: string -> seq<string>)
    requires n < |categories|
    ensures head + RefsTo(categories, n + 1, postes)
      == (head + RefsTo(categories, n, postes)) + CategoryRefs(categories[n], postes(categories[n]))
  {
  }

  /** The inner loop `for order, subcat in enumerate(sorted(subcats), 1)`. */
  method AppendCategoryRefs(refs: seq<PosteL2Ref>, category: string, postes: seq<string>)
    returns (refs': seq<PosteL2Ref>)
    ensures refs' == refs + CategoryRefs(category, postes)
  {
    refs' := refs;
    var order := 1;
    for j := 0 to |postes|
      invariant order == j + 1
      invariant refs' == refs + CategoryRefs(category, postes[..j])
    {
      CategoryRefsSnoc(category, postes, j);
      refs' := refs' + [PosteL2Ref(PosteCode(category), postes[j], order)];
      order := order + 1;
    }
    assert postes[..|postes|] == postes;
  }

  /** The outer loop over the categories in sorted order. */
  method AppendAllCategories(refs: seq<PosteL2Ref>, categories: seq<string>, postes: string -> seq<string>)
    returns (refs': seq<PosteL2Ref>)
    ensures refs' == refs + RefsTo(categories, |categories|, postes)
  {
    refs' := refs;
    for i := 0 to |categories|
      invariant refs' == refs + RefsTo(categories, i, postes)
    {
      refs' := AppendCategoryRefs(refs', categories[i], postes(categories[i]));
      RefsToSnoc(refs, categories, i, postes);
    }
  }

  /** `_build_postes_l2_ref`'s loops, then the drop of repeated keys. */
  method BuildPostesL2Ref(emission: seq<DataRow>) returns (r: Result<seq<PosteL2Ref>, Fault>)
    ensures r == PostesL2Ref(emission)
  {
    if |emission| == 0 {
      return Success([]);
    }
    var categories := SortedCategories(emission);
    var raw := AppendAllCategories([], categories, PostesFn(emission));
    assert raw == RawL2Refs(emission);
    if raw == [] {
      return Failure(NoPosteL2Rows);
    }
    return Success(DropDuplicateKeys(raw));
  }

  // ---------------------------------------------------------------------
  // `_build_indicators_ref`
  //
  // The definitions take the naming scheme `codeOf` as a parameter, so the
  // lemmas hold whatever `IndicatorCode` maps a name to;
  // `IndicatorsRef` fixes it to `IndicatorCode`.

  /** The codes of the rows that name an indicator, in row order. */
  function NamedCodes(rows: seq<DataRow>, codeOf: string -> string): (codes: seq<string>)
    ensures forall code :: code in codes <==>
      exists k :: 0 <= k < |rows| && rows[k].poste.Some? && codeOf(rows[k].poste.value) == code
    decreases |rows|
  {
    if rows == [] then []
    else
      var front, row := rows[..|rows| - 1], rows[|rows| - 1];
      var codes := NamedCodes(front, codeOf);
      assert forall k :: 0 <= k < |front| ==> front[k] == rows[k];
      if row.poste.None? then codes else codes + [codeOf(row.poste.value)]
  }

  function RefCodes(refs: seq<Indicators.IndicatorRef>): (codes: seq<string>)
    ensures |codes| == |refs| && forall i :: 0 <= i < |refs| ==> codes[i] == refs[i].indicatorCode
  {
    seq(|refs|, i requires 0 <= i < |refs| => refs[i].indicatorCode)
  }

  /** The entry for the first row of a code: its name as the label, its unit
      or the empty string, the scope `BOTH` and the next display order. */
  function NewIndicatorRef(row: DataRow, codeOf: string -> string, order: int): Indicators.IndicatorRef
    requires row.poste.Some?
  {
    Indicators.IndicatorRef(codeOf(row.poste.value), row.poste.value, row.unit.GetOr(""), Some("BOTH"), Some(order))
  }

  /** One entry per code, at the first row that names an indicator with it,
      in row order. */
  function IndicatorsRefBy(rows: seq<DataRow>, codeOf: string -> string): seq<Indicators.IndicatorRef>
    decreases |rows|
  {
    if rows == [] then []
    else
      var prev, row := IndicatorsRefBy(rows[..|rows| - 1], codeOf), rows[|rows| - 1];
      if row.poste.None? || codeOf(row.poste.value) in RefCodes(prev) then prev
      else prev + [NewIndicatorRef(row, codeOf, |prev| + 1)]
  }

  /** `_build_indicators_ref`. */
  function IndicatorsRef(rows: seq<DataRow>): seq<Indicators.IndicatorRef> {
    IndicatorsRefBy(rows, IndicatorCode)
  }

  /** The codes listed are those the rows name, each once, in the order of
      their first row. */
  lemma {:induction false} IndicatorsRefCodes(rows: seq<DataRow>, codeOf: string -> string)
    ensures RefCodes(IndicatorsRefBy(rows, codeOf)) == Dedup(NamedCodes(rows, codeOf))
    decreases |rows|
  {
    if rows != [] {
      var front, row := rows[..|rows| - 1], rows[|rows| - 1];
      IndicatorsRefCodes(front, codeOf);
      var prev := IndicatorsRefBy(front, codeOf);
      if row.poste.Some? && codeOf(row.poste.value) !in RefCodes(prev) {
        assert RefCodes(prev + [NewIndicatorRef(row, codeOf, |prev| + 1)]) == RefCodes(prev) + [codeOf(row.poste.value)];
      }
    }
  }

  /** The display orders count from 1 and every entry has the scope `BOTH`. */
  lemma {:induction false} IndicatorsRefOrders(rows: seq<DataRow>, codeOf: string -> string)
    ensures forall i :: 0 <= i < |IndicatorsRefBy(rows, codeOf)| ==>
      IndicatorsRefBy(rows, codeOf)[i].displayOrder == Some(i + 1) && IndicatorsRefBy(rows, codeOf)[i].activityScope == Some("BOTH")
    decreases |rows|
  {
    if rows != [] {
      var front, row := rows[..|rows| - 1], rows[|rows| - 1];
      IndicatorsRefOrders(front, codeOf);
      var prev, refs := IndicatorsRefBy(front, codeOf), IndicatorsRefBy(rows, codeOf);
      if refs != prev {
        assert refs == prev + [NewIndicatorRef(row, codeOf, |prev| + 1)];
        forall i | 0 <= i < |refs| ensures refs[i].displayOrder == Some(i + 1) && refs[i].activityScope == Some("BOTH") {
          if i < |prev| {
            assert refs[i] == prev[i];
          }
        }
      }
    }
  }

  /** Row `k` is the first of the rows that names an indicator with `code`. */
  ghost predicate FirstNaming(rows: seq<DataRow>, codeOf: string -> string, k: int, code: string) {
    && 0 <= k < |rows| && rows[k].poste.Some? && codeOf(rows[k].poste.value) == code
    && forall k' :: 0 <= k' < k ==> rows[k'].poste.None? || codeOf(rows[k'].poste.value) != code
  }

  /** Each entry is built from the first row naming its code. */
  ghost predicate FromFirstRows(rows: seq<DataRow>, codeOf: string -> string, refs: seq<Indicators.IndicatorRef>) {
    forall i :: 0 <= i < |refs| ==>
      exists k :: FirstNaming(rows, codeOf, k, refs[i].indicatorCode) && refs[i] == NewIndicatorRef(rows[k], codeOf, i + 1)
  }

  /** Entries built from the first rows of a prefix still are once more rows follow. */
  lemma FromFirstRowsPrefix(front: seq<DataRow>, rows: seq<DataRow>, codeOf: string -> string, refs: seq<Indicators.IndicatorRef>)
    requires front <= rows && FromFirstRows(front, codeOf, refs)
    ensures FromFirstRows(rows, codeOf, refs)
  {
    forall i | 0 <= i < |refs|
      ensures exists k :: FirstNaming(rows, codeOf, k, refs[i].indicatorCode) && refs[i] == NewIndicatorRef(rows[k], codeOf, i + 1)
    {
      var k :| FirstNaming(front, codeOf, k, refs[i].indicatorCode) && refs[i] == NewIndicatorRef(front[k], codeOf, i + 1);
      assert rows[k] == front[k];
      assert FirstNaming(rows, codeOf, k, refs[i].indicatorCode) by {
        assert forall k' :: 0 <= k' <= k ==> rows[k'] == front[k'];
      }
    }
    assert forall i :: 0 <= i < |refs| ==>
      exists k :: FirstNaming(rows, codeOf, k, refs[i].indicatorCode) && refs[i] == NewIndicatorRef(rows[k], codeOf, i + 1);
  }

  /** The last row is the first to name a code no earlier row names. */
  lemma FirstNamingLast(rows: seq<DataRow>, codeOf: string -> string)
    requires rows != [] && rows[|rows| - 1].poste.Some?
    requires codeOf(rows[|rows| - 1].poste.value) !in NamedCodes(rows[..|rows| - 1], codeOf)
    ensures FirstNaming(rows, codeOf, |rows| - 1, codeOf(rows[|rows| - 1].poste.value))
  {
    var front, code := rows[..|rows| - 1], codeOf(rows[|rows| - 1].poste.value);
    forall k' | 0 <= k' < |rows| - 1 ensures rows[k'].poste.None? || codeOf(rows[k'].poste.value) != code {
      assert rows[k'] == front[k'];
    }
  }

  /** Each entry takes its label and unit from the first row naming its code. */
  lemma {:induction false} IndicatorsRefFirst(rows: seq<DataRow>, codeOf: string -> string)
    ensures FromFirstRows(rows, codeOf, IndicatorsRefBy(rows, codeOf))
    decreases |rows|
  {
    if rows != [] {
      var front, row := rows[..|rows| - 1], rows[|rows| - 1];
      IndicatorsRefFirst(front, codeOf);
      var prev, refs := IndicatorsRefBy(front, codeOf), IndicatorsRefBy(rows, codeOf);
      FromFirstRowsPrefix(front, rows, codeOf, prev);
      if refs != prev {
        var code := codeOf(row.poste.value);
        assert refs == prev + [NewIndicatorRef(row, codeOf, |prev| + 1)];
        assert code !in NamedCodes(front, codeOf) by {
          IndicatorsRefCodes(front, codeOf);
        }
        FirstNamingLast(rows, codeOf);
        forall i | 0 <= i < |refs|
          ensures exists k :: FirstNaming(rows, codeOf, k, refs[i].indicatorCode) && refs[i] == NewIndicatorRef(rows[k], codeOf, i + 1)
        {
          if i < |prev| {
            assert refs[i] == prev[i];
          } else {
            assert FirstNaming(rows, codeOf, |rows| - 1, refs[i].indicatorCode);
          }
        }
      }
    }
  }

  /** One more row extends the entries by at most the entry of its code. */
  lemma IndicatorsRefSnoc(rows: seq<DataRow>, codeOf: string -> string, i: nat)
    requires i < |rows|
    ensures var prev, row := IndicatorsRefBy(rows[..i], codeOf), rows[i];
      IndicatorsRefBy(rows[..i + 1], codeOf)
        == if row.poste.None? || codeOf(row.poste.value) in RefCodes(prev) then prev
           else prev + [NewIndicatorRef(row, codeOf, |prev| + 1)]
  {
    assert rows[..i + 1][..i] == rows[..i];
  }

  /** `_build_indicators_ref`'s loop, with its set of codes seen and its
      display order counter. */
  method BuildIndicatorsRefBy(rows: seq<DataRow>, codeOf: string -> string) returns (refs: seq<Indicators.IndicatorRef>)
    ensures refs == IndicatorsRefBy(rows, codeOf)
  {
    refs := [];
    var seen: set<string> := {};
    var order := 0;
    for i := 0 to |rows|
      invariant refs == IndicatorsRefBy(rows[..i], codeOf)
      invariant forall code :: code in seen <==> code in RefCodes(refs)
      invariant order == |refs|
    {
      IndicatorsRefSnoc(rows, codeOf, i);
      var name := rows[i].poste;
      if name.None? {
        continue;
      }
      var code := codeOf(name.value);
      if code in seen {
        continue;
      }
      seen := seen + {code};
      order := order + 1;
      var entry := Indicators.IndicatorRef(code, name.value, rows[i].unit.GetOr(""), Some("BOTH"), Some(order));
      assert RefCodes(refs + [entry]) == RefCodes(refs) + [code];
      refs := refs + [entry];
    }
    assert rows[..|rows|] == rows;
  }

  /** `_build_indicators_ref`. */
  method BuildIndicatorsRef(rows: seq<DataRow>) returns (refs: seq<Indicators.IndicatorRef>)
    ensures refs == IndicatorsRef(rows)
  {
    refs := BuildIndicatorsRefBy(rows, IndicatorCode);
  }

  // ---------------------------------------------------------------------
  // `_build_texte_rapport`'s `maybe_transform_code`

  /** A category's name as the TEXTE_RAPPORT codes are compared with it. */
  function NameKey(name: string): string {
    Lower(Strip(name))
  }

  /** The keys of the non-empty categories. */
  function CategoryKeys(categories: seq<string>): (keys: set<string>)
    ensures forall key :: key in keys <==> exists k :: 0 <= k < |categories| && categories[k] != "" && NameKey(categories[k]) == key
  {
    set k | 0 <= k < |categories| && categories[k] != "" :: NameKey(categories[k])
  }

  /** The first category, in iteration order, whose key is `key`. */
  function FirstCategoryWithKey(categories: seq<string>, key: string): (r: Option<nat>)
    ensures r.Some? ==> (r.value < |categories| && NameKey(categories[r.value]) == key
      && forall k :: 0 <= k < r.value ==> NameKey(categories[k]) != key)
    ensures r.None? ==> forall k :: 0 <= k < |categories| ==> NameKey(categories[k]) != key
  {
    if categories == [] then None
    else if NameKey(categories[0]) == key then Some(0)
    else match FirstCategoryWithKey(categories[1..], key)
      case None => None
      case Some(k) => Some(k + 1)
  }

  /** `maybe_transform_code`: a missing code stays missing; a code naming a
      category, up to case and surrounding blanks, becomes that category's
      code; any other code is stripped. `categories` lists the set of
      emission categories in its iteration order. */
  function MaybeTransformCode(code: Option<string>, categories: seq<string>): (r: Option<string>)
    ensures r.None? <==> code.None?
  {
    match code
    case None => None
    case Some(text) =>
      var stripped := Strip(text);
      var key := Lower(stripped);
      if key in CategoryKeys(categories) then
        match FirstCategoryWithKey(categories, key)
        case Some(k) => Some(PosteCode(categories[k]))
        case None => Some(PosteCode(stripped))
      else Some(stripped)
  }

  /** A code naming a category becomes the code of the first category with
      its key; the fallback to the code's own slug is never taken. */
  lemma MaybeTransformCodeMatch(code: string, categories: seq<string>)
    requires NameKey(code) in CategoryKeys(categories)
    ensures exists k :: (0 <= k < |categories| && NameKey(categories[k]) == NameKey(code)
      && (forall k' :: 0 <= k' < k ==> NameKey(categories[k']) != NameKey(code))
      && MaybeTransformCode(Some(code), categories) == Some(PosteCode(categories[k])))
  {
    var key := NameKey(code);
    var j :| 0 <= j < |categories| && categories[j] != "" && NameKey(categories[j]) == key;
    var r := FirstCategoryWithKey(categories, key);
    assert r.Some?;
  }

  /** Any other code is only stripped. */
  lemma MaybeTransformCodeOther(code: string, categories: seq<string>)
    requires NameKey(code) !in CategoryKeys(categories)
    ensures MaybeTransformCode(Some(code), categories) == Some(Strip(code))
  {
  }

  // ---------------------------------------------------------------------
  // `_validate_output_schemas`

  /** There are indicator rows, but none names an indicator: INDICATORS and
      INDICATORS_REF are then built from no row at all. */
  predicate NoNamedIndicator(indicator: seq<DataRow>) {
    indicator != [] && forall k :: 0 <= k < |indicator| ==> indicator[k].poste.None?
  }

  /** The columns of the frame `load` builds for a sheet of REQUIRED_SHEETS:
      each builder writes exactly the sheet's required columns, except that
      a frame built from no row has none, and TEXTE_RAPPORT keeps the
      columns of the workbook's own sheet. */
  function BuiltColumns(spec: ExcelLoad.SheetSpec, indicator: seq<DataRow>, texteColumns: set<string>): set<string> {
    if spec.sheet == ExcelLoad.TexteRapport then texteColumns
    else if (spec.sheet == ExcelLoad.Indicators || spec.sheet == ExcelLoad.IndicatorsRef) && NoNamedIndicator(indicator) then {}
    else set c | c in spec.columns
  }

  /** Every required column of the sheet is among `built`. */
  predicate Covers(spec: ExcelLoad.SheetSpec, built: set<string>) {
    forall c :: c in spec.columns ==> c in built
  }

  /** What the check reports for one built sheet. */
  function SchemaIssue(spec: ExcelLoad.SheetSpec, built: set<string>): seq<Issue> {
    if Covers(spec, built) then []
    else [SchemaColumns(ExcelLoad.Name(spec.sheet), ExcelLoad.MissingOf(spec.columns, built))]
  }

  /** The issue names the missing columns, sorted, each once. */
  lemma SchemaIssueSpec(spec: ExcelLoad.SheetSpec, built: set<string>)
    ensures SchemaIssue(spec, built) == [] <==> Covers(spec, built)
    ensures ExcelLoad.MissingOf(spec.columns, built) == [] <==> Covers(spec, built)
    ensures SchemaIssue(spec, built) != [] ==>
      var missing := ExcelLoad.MissingOf(spec.columns, built);
      && missing != []
      && (forall c :: c in missing <==> c in spec.columns && c !in built)
      && (Distinct(spec.columns) ==> Distinct(missing))
      && SortedBy(missing, CodeBefore())
  {
    ExcelLoad.MissingOfSpec(spec.columns, built);
    ExcelLoad.NoneMissing(spec.columns, built, ExcelLoad.MissingOf(spec.columns, built));
    if !Covers(spec, built) {
      var c :| c in spec.columns && c !in built;
      assert c in ExcelLoad.MissingOf(spec.columns, built);
    }
  }

  /** The issue is reported exactly when some column is missing. */
  lemma SchemaIssueByMissing(spec: ExcelLoad.SheetSpec, built: set<string>)
    ensures var missing := ExcelLoad.MissingOf(spec.columns, built);
      SchemaIssue(spec, built) == if missing == [] then [] else [SchemaColumns(ExcelLoad.Name(spec.sheet), missing)]
  {
    SchemaIssueSpec(spec, built);
  }

  /** The issues of the first `n` sheets, in order. */
  function SchemaIssues(sheets: seq<ExcelLoad.SheetSpec>, indicator: seq<DataRow>, texteColumns: set<string>, n: nat): seq<Issue>
    requires n <= |sheets|
  {
    if n == 0 then []
    else SchemaIssues(sheets, indicator, texteColumns, n - 1)
         + SchemaIssue(sheets[n - 1], BuiltColumns(sheets[n - 1], indicator, texteColumns))
  }

  /** No issue exactly when every one of the `n` sheets has its columns. */
  lemma {:induction false} SchemaIssuesNone(sheets: seq<ExcelLoad.SheetSpec>, indicator: seq<DataRow>, texteColumns: set<string>, n: nat)
    requires n <= |sheets|
    ensures SchemaIssues(sheets, indicator, texteColumns, n) == [] <==>
      forall k :: 0 <= k < n ==> Covers(sheets[k], BuiltColumns(sheets[k], indicator, texteColumns))
  {
    if n > 0 {
      var spec := sheets[n - 1];
      SchemaIssuesNone(sheets, indicator, texteColumns, n - 1);
      SchemaIssueSpec(spec, BuiltColumns(spec, indicator, texteColumns));
    }
  }

  /** A built sheet lacks a required column exactly when it is TEXTE_RAPPORT
      and the workbook's sheet lacks it, or it is INDICATORS or
      INDICATORS_REF (which require columns) built from no row. */
  lemma CoversBuilt(spec: ExcelLoad.SheetSpec, indicator: seq<DataRow>, texteColumns: set<string>)
    ensures Covers(spec, BuiltColumns(spec, indicator, texteColumns)) <==>
      if spec.sheet == ExcelLoad.TexteRapport then Covers(spec, texteColumns)
      else !((spec.sheet == ExcelLoad.Indicators || spec.sheet == ExcelLoad.IndicatorsRef)
             && NoNamedIndicator(indicator) && spec.columns != [])
  {
    if spec.sheet != ExcelLoad.TexteRapport && (spec.sheet == ExcelLoad.Indicators || spec.sheet == ExcelLoad.IndicatorsRef)
       && NoNamedIndicator(indicator) && spec.columns != [] {
      assert spec.columns[0] in spec.columns;
    }
  }

  /** What `_validate_output_schemas` reports after a load. */
  function OutputSchemaIssues(indicator: seq<DataRow>, texteColumns: set<string>): seq<Issue> {
    SchemaIssues(ExcelLoad.RequiredSheets, indicator, texteColumns, |ExcelLoad.RequiredSheets|)
  }

  /** The built sheets pass the check exactly when some indicator row names
      an indicator (or there is none) and TEXTE_RAPPORT has every column
      REQUIRED_SHEETS demands of it. */
  lemma OutputSchemaIssuesNone(indicator: seq<DataRow>, texteColumns: set<string>)
    ensures OutputSchemaIssues(indicator, texteColumns) == [] <==>
      !NoNamedIndicator(indicator) && forall c :: c in ExcelLoad.TexteRapportColumns ==> c in texteColumns
  {
    var sheets := ExcelLoad.RequiredSheets;
    SchemaIssuesNone(sheets, indicator, texteColumns, |sheets|);
    forall k | 0 <= k < |sheets|
      ensures Covers(sheets[k], BuiltColumns(sheets[k], indicator, texteColumns)) <==>
        if sheets[k].sheet == ExcelLoad.TexteRapport then Covers(sheets[k], texteColumns)
        else !((sheets[k].sheet == ExcelLoad.Indicators || sheets[k].sheet == ExcelLoad.IndicatorsRef)
               && NoNamedIndicator(indicator) && sheets[k].columns != [])
    {
      CoversBuilt(sheets[k], indicator, texteColumns);
    }
    assert sheets[5] == ExcelLoad.SheetSpec(ExcelLoad.Indicators, ExcelLoad.IndicatorsColumns);
    assert sheets[8] == ExcelLoad.SheetSpec(ExcelLoad.TexteRapport, ExcelLoad.TexteRapportColumns);
  }

  /** INDICATORS_REF is empty exactly when no indicator row names an
      indicator. */
  lemma IndicatorsRefEmpty(indicator: seq<DataRow>)
    ensures IndicatorsRef(indicator) == [] <==> forall k :: 0 <= k < |indicator| ==> indicator[k].poste.None?
    ensures NoNamedIndicator(indicator) <==> indicator != [] && IndicatorsRef(indicator) == []
  {
    IndicatorsRefCodes(indicator, IndicatorCode);
    var codes := NamedCodes(indicator, IndicatorCode);
    assert |RefCodes(IndicatorsRef(indicator))| == |IndicatorsRef(indicator)|;
    if codes != [] {
      assert codes[0] in Dedup(codes);
    }
    if exists k :: 0 <= k < |indicator| && indicator[k].poste.Some? {
      var k :| 0 <= k < |indicator| && indicator[k].poste.Some?;
      assert IndicatorCode(indicator[k].poste.value) in codes;
    }
  }

  // ---------------------------------------------------------------------
  // The loader

  /** Why `load` raises: the validation messages gathered so far, or a
      builder's failure turned into the generic loading error. */
  datatype LoadError = Validation(issues: seq<Issue>) | LoadFailure(fault: Fault)

  /** The sheets of this model's scope that `load` produces. */
  datatype Loaded = Loaded(orgTree: seq<Tree.NodeRow>, postesL2Ref: seq<PosteL2Ref>,
                           indicatorsRef: seq<Indicators.IndicatorRef>, texteCodes: seq<Option<string>>)

  /** The categories the emission rows name, as a set. */
  function EmissionCategories(emission: seq<DataRow>): set<string> {
    set row | row in emission && row.category.Some? :: row.category.value
  }

  /** Lists a set in some order, as iterating over a Python set does. */
  method IterationOrder(s: set<string>) returns (order: seq<string>)
    ensures Distinct(order) && forall x :: x in order <==> x in s
  {
    order := [];
    var rest := s;
    while rest != {}
      invariant rest !! set x | x in order
      invariant forall x :: x in s <==> x in order || x in rest
      invariant Distinct(order)
      decreases |rest|
    {
      var x :| x in rest;
      DistinctConcat(order, [x]);
      order := order + [x];
      rest := rest - {x};
    }
  }

  /** `df['poste_l1_code'].apply(maybe_transform_code)`. */
  method TransformCodes(codes: seq<Option<string>>, categories: seq<string>) returns (codes': seq<Option<string>>)
    ensures |codes'| == |codes| && forall i :: 0 <= i < |codes| ==> codes'[i] == MaybeTransformCode(codes[i], categories)
  {
    codes' := [];
    for i := 0 to |codes|
      invariant |codes'| == i && forall k :: 0 <= k < i ==> codes'[k] == MaybeTransformCode(codes[k], categories)
    {
      codes' := codes' + [MaybeTransformCode(codes[i], categories)];
    }
  }

  /** The loader of the simplified workbook. It keeps the errors and
      warnings found so far; nothing clears them between loads. `required`
      is REQUIRED_SHEETS, against which the built sheets are checked. */
  class FlatLoader {
    const required: seq<ExcelLoad.SheetSpec>
    var validationErrors: seq<Issue>
    var validationWarnings: seq<Issue>

    constructor()
      ensures required == ExcelLoad.RequiredSheets
      ensures validationErrors == [] && validationWarnings == []
    {
      required := ExcelLoad.RequiredSheets;
      validationErrors := [];
      validationWarnings := [];
    }

    /** `_validate_sheets`. */
    method ValidateSheets(sheetNames: seq<string>)
      modifies this
      ensures validationErrors == old(validationErrors) + SheetIssues(sheetNames)
      ensures validationWarnings == old(validationWarnings)
    {
      if "DATA" !in sheetNames {
        validationErrors := validationErrors + [MissingSheet("DATA")];
      }
      if "TEXTE_RAPPORT" !in sheetNames {
        validationErrors := validationErrors + [MissingSheet("TEXTE_RAPPORT")];
      }
    }

    /** `_validate_flat_columns`. */
    method ValidateFlatColumns(columns: seq<string>)
      modifies this
      ensures validationErrors == old(validationErrors) + ColumnIssues(columns)
      ensures validationWarnings == old(validationWarnings)
    {
      validationErrors := validationErrors + ColumnIssues(columns);
    }

    /** `_classify_rows`: the three groups, and a warning for each unknown
      category of the emission rows, in set order. */
    method ClassifyRows(rows: seq<DataRow>) returns (emission: seq<DataRow>, indicator: seq<DataRow>, avoided: seq<DataRow>)
      modifies this
      ensures (emission, indicator, avoided) == Classified(rows)
      ensures validationErrors == old(validationErrors)
      ensures WarnedUnknown(old(validationWarnings), validationWarnings, emission)
    {
      emission, indicator, avoided := Filter(rows, IsEmissionRow), Filter(rows, IsIndicatorRow), Filter(rows, IsAvoidedRow);
      if |emission| > 0 {
        var unknown := IterationOrder(UnknownCategories(emission));
        DistinctCard(unknown, UnknownCategories(emission));
        AppendUnknownCategories(unknown);
      }
    }

    /** The loop over the unknown categories. */
    method AppendUnknownCategories(categories: seq<string>)
      modifies this
      ensures validationErrors == old(validationErrors)
      ensures validationWarnings == old(validationWarnings) + UnknownCategoryIssues(categories)
    {
      for i := 0 to |categories|
        invariant validationErrors == old(validationErrors)
        invariant validationWarnings == old(validationWarnings) + UnknownCategoryIssues(categories[..i])
      {
        assert categories[..i + 1] == categories[..i] + [categories[i]];
        validationWarnings := validationWarnings + [UnknownCategory(categories[i])];
      }
      assert categories[..|categories|] == categories;
    }

    /** `get_validation_report`. */
    method GetValidationReport() returns (errors: seq<Issue>, warnings: seq<Issue>)
      ensures errors == validationErrors && warnings == validationWarnings
    {
      errors, warnings := validationErrors, validationWarnings;
    }

    /** `load`, from the sheet names, the DATA columns, the cleaned DATA
        rows, and the columns and `poste_l1_code` cells of TEXTE_RAPPORT:
        it stops at the first stage that leaves an error recorded. */
    method Load(sheetNames: seq<string>, columns: seq<string>, rows: seq<DataRow>,
                texteColumns: set<string>, texteCodes: seq<Option<string>>)
      returns (r: Result<Loaded, LoadError>)
      modifies this
      ensures old(validationErrors) + SheetIssues(sheetNames) != [] ==>
        && r == Failure(Validation(old(validationErrors) + SheetIssues(sheetNames)))
        && validationErrors == old(validationErrors) + SheetIssues(sheetNames)
        && validationWarnings == old(validationWarnings)
      ensures old(validationErrors) + SheetIssues(sheetNames) == [] && ColumnIssues(columns) != [] ==>
        && r == Failure(Validation(ColumnIssues(columns)))
        && validationErrors == ColumnIssues(columns)
        && validationWarnings == old(validationWarnings)
      ensures old(validationErrors) + SheetIssues(sheetNames) + ColumnIssues(columns) == [] ==>
        var schema := SchemaIssues(required, Classified(rows).1, texteColumns, |required|);
        && WarnedUnknown(old(validationWarnings), validationWarnings, Classified(rows).0)
        && (BuildFault(rows, texteColumns).Some? ==>
              r == Failure(LoadFailure(BuildFault(rows, texteColumns).value)) && validationErrors == [])
        && (BuildFault(rows, texteColumns).None? ==> validationErrors == schema)
        && (BuildFault(rows, texteColumns).None? && schema != [] ==> r == Failure(Validation(schema)))
        && (BuildFault(rows, texteColumns).None? && schema == [] ==> r.Success? && LoadedFrom(rows, texteCodes, r.value))
    {
      ValidateSheets(sheetNames);
      if validationErrors != [] {
        return Failure(Validation(validationErrors));
      }
      ValidateFlatColumns(columns);
      assert validationErrors == ColumnIssues(columns);
      if validationErrors != [] {
        return Failure(Validation(validationErrors));
      }
      r := BuildSheets(rows, texteColumns, texteCodes);
      if r.Failure? {
        return;
      }
      ghost var schema := SchemaIssues(required, Classified(rows).1, texteColumns, |required|);
      ValidateOutputSchemas(required, Classified(rows).1, texteColumns);
      assert validationErrors == schema;
      if validationErrors != [] {
        return Failure(Validation(validationErrors));
      }
    }

    /** The stages of `load` after validation: the split of the rows, the
        builders, and the TEXTE_RAPPORT codes mapped with the emission
        categories in set order. A builder's failure becomes the generic
        loading error. */
    method BuildSheets(rows: seq<DataRow>, texteColumns: set<string>, texteCodes: seq<Option<string>>)
      returns (r: Result<Loaded, LoadError>)
      modifies this
      ensures validationErrors == old(validationErrors)
      ensures WarnedUnknown(old(validationWarnings), validationWarnings, Classified(rows).0)
      ensures r.Success? <==> BuildFault(rows, texteColumns).None?
      ensures BuildFault(rows, texteColumns).Some? ==> r == Failure(LoadFailure(BuildFault(rows, texteColumns).value))
      ensures BuildFault(rows, texteColumns).None? ==> r.Success? && LoadedFrom(rows, texteCodes, r.value)
    {
      var emission, indicator, avoided := ClassifyRows(rows);
      var built := RunBuilders(emission, indicator, avoided);
      if built.Failure? {
        return Failure(LoadFailure(built.error));
      }
      if "poste_l1_code" !in texteColumns {
        return Failure(LoadFailure(NoTexteCodes));
      }
      var categories := IterationOrder(EmissionCategories(emission));
      var codes := TransformCodes(texteCodes, categories);
      var (orgTree, postesL2Ref, indicatorsRef) := built.value;
      var loaded := Loaded(orgTree, postesL2Ref, indicatorsRef, codes);
      LoadedUnder(rows, texteCodes, loaded, categories);
      return Success(loaded);
    }

    /** `_validate_output_schemas`: each sheet of `sheets`, in order, is
        checked against the columns its frame was built with. */
    method ValidateOutputSchemas(sheets: seq<ExcelLoad.SheetSpec>, indicator: seq<DataRow>, texteColumns: set<string>)
      modifies this
      ensures validationErrors == old(validationErrors) + SchemaIssues(sheets, indicator, texteColumns, |sheets|)
      ensures validationWarnings == old(validationWarnings)
    {
      for i := 0 to |sheets|
        invariant validationErrors == old(validationErrors) + SchemaIssues(sheets, indicator, texteColumns, i)
        invariant validationWarnings == old(validationWarnings)
      {
        CheckSchema(sheets, indicator, texteColumns, i, old(validationErrors));
      }
    }

    /** One step of that loop: the `i`-th sheet. */
    method CheckSchema(sheets: seq<ExcelLoad.SheetSpec>, indicator: seq<DataRow>, texteColumns: set<string>,
                       i: nat, ghost errors0: seq<Issue>)
      requires i < |sheets|
      requires validationErrors == errors0 + SchemaIssues(sheets, indicator, texteColumns, i)
      modifies this
      ensures validationErrors == errors0 + SchemaIssues(sheets, indicator, texteColumns, i + 1)
      ensures validationWarnings == old(validationWarnings)
    {
      var spec := sheets[i];
      var built := BuiltColumns(spec, indicator, texteColumns);
      var missing := ExcelLoad.MissingOf(spec.columns, built);
      SchemaIssueByMissing(spec, built);
      assert SchemaIssues(sheets, indicator, texteColumns, i + 1)
        == SchemaIssues(sheets, indicator, texteColumns, i) + SchemaIssue(spec, built);
      if missing != [] {
        validationErrors := validationErrors + [SchemaColumns(ExcelLoad.Name(spec.sheet), missing)];
      }
    }
  }

  /** The first builder of `load` that fails, and how, in the order `load`
      calls them: ORG_TREE; EMISSIONS, which slugifies the Lot and the
      Catégorie of every emission row; POSTES_L2_REF; INDICATORS, which
      slugifies the Lot of every named indicator row; EMISSIONS_EVITEES,
      which slugifies the Lot of every avoided row; then the TEXTE_RAPPORT
      codes. EMISSIONS_L2 and POSTES_REF cannot fail once EMISSIONS has
      not. */
  function BuildFault(rows: seq<DataRow>, texteColumns: set<string>): Option<Fault> {
    var (emission, indicator, avoided) := Classified(rows);
    var built := Builders(emission, indicator, avoided);
    if built.Failure? then Some(built.error)
    else if "poste_l1_code" !in texteColumns then Some(NoTexteCodes)
    else None
  }

  /** The row builders on the split rows, stopping at the first that fails:
      the modelled sheets, or the failure. */
  function Builders(emission: seq<DataRow>, indicator: seq<DataRow>, avoided: seq<DataRow>)
    : Result<(seq<Tree.NodeRow>, seq<PosteL2Ref>, seq<Indicators.IndicatorRef>), Fault>
  {
    match OrgTree(emission, indicator)
    case Failure(fault) => Failure(fault)
    case Success(orgTree) =>
      if exists i :: 0 <= i < |emission| && EmissionUnnamed(emission[i]) then Failure(BlankName)
      else match PostesL2Ref(emission)
        case Failure(fault) => Failure(fault)
        case Success(postesL2Ref) =>
          if exists i :: 0 <= i < |indicator| && IndicatorUnnamed(indicator[i]) then Failure(BlankName)
          else if exists i :: 0 <= i < |avoided| && AvoidedUnnamed(avoided[i]) then Failure(BlankName)
          else Success((orgTree, postesL2Ref, IndicatorsRef(indicator)))
  }

  /** The builders of step 5 of `load`, in order, stopping at the first that
      raises: ORG_TREE, the check of EMISSIONS, POSTES_L2_REF, the check of
      INDICATORS, INDICATORS_REF and the check of EMISSIONS_EVITEES. */
  method RunBuilders(emission: seq<DataRow>, indicator: seq<DataRow>, avoided: seq<DataRow>)
    returns (r: Result<(seq<Tree.NodeRow>, seq<PosteL2Ref>, seq<Indicators.IndicatorRef>), Fault>)
    ensures r == Builders(emission, indicator, avoided)
  {
    var orgTree := BuildOrgTree(emission, indicator);
    if orgTree.Failure? {
      return Failure(orgTree.error);
    }
    var blank := AnyRow(emission, EmissionUnnamed);
    if blank {
      return Failure(BlankName);
    }
    var postesL2Ref := BuildPostesL2Ref(emission);
    if postesL2Ref.Failure? {
      return Failure(postesL2Ref.error);
    }
    blank := AnyRow(indicator, IndicatorUnnamed);
    if blank {
      return Failure(BlankName);
    }
    var indicatorsRef := BuildIndicatorsRef(indicator);
    blank := AnyRow(avoided, AvoidedUnnamed);
    if blank {
      return Failure(BlankName);
    }
    return Success((orgTree.value, postesL2Ref.value, indicatorsRef));
  }

  /** A sheet with an emission row whose Lot or Catégorie is blank fails to
      load, since EMISSIONS slugifies both, unless ORG_TREE failed first,
      which a row naming its Organisation rules out. */
  lemma BlankEmissionFails(rows: seq<DataRow>, texteColumns: set<string>, k: nat)
    requires k < |rows| && IsEmissionRow(rows[k]) && rows[k].organisation.Some?
    requires rows[k].lot.None? || rows[k].category.None?
    ensures BuildFault(rows, texteColumns) == Some(BlankName)
  {
    var (emission, indicator, _) := Classified(rows);
    FilterMembers(rows, IsEmissionRow);
    assert rows[k] in emission;
    var j :| 0 <= j < |emission| && emission[j] == rows[k];
    assert EmissionUnnamed(emission[j]);
    OrgTreeOutcome(emission, indicator);
    assert (emission + indicator)[j] == rows[k];
  }

  /** Conversely, a load that fails on a blank name has a row to blame: an
      emission row without Lot or Catégorie, a named indicator row without
      Lot, or an avoided-emissions row without Lot. */
  lemma BlankNameCause(rows: seq<DataRow>, texteColumns: set<string>)
    requires BuildFault(rows, texteColumns) == Some(BlankName)
    ensures exists row :: row in rows && Unnamed(row)
  {
    var (emission, indicator, avoided) := Classified(rows);
    assert Builders(emission, indicator, avoided) == Failure(BlankName);
    BuildersBlank(emission, indicator, avoided);
    if exists i :: 0 <= i < |emission| && EmissionUnnamed(emission[i]) {
      var i :| 0 <= i < |emission| && EmissionUnnamed(emission[i]);
      FilterMembers(rows, IsEmissionRow);
      assert emission[i] in rows;
    } else if exists i :: 0 <= i < |indicator| && IndicatorUnnamed(indicator[i]) {
      var i :| 0 <= i < |indicator| && IndicatorUnnamed(indicator[i]);
      FilterMembers(rows, IsIndicatorRow);
      assert indicator[i] in rows;
    } else {
      var i :| 0 <= i < |avoided| && AvoidedUnnamed(avoided[i]);
      FilterMembers(rows, IsAvoidedRow);
      assert avoided[i] in rows;
    }
  }

  /** The builders fail on a blank name only because of one of those rows:
      ORG_TREE and POSTES_L2_REF fail otherwise. */
  lemma BuildersBlank(emission: seq<DataRow>, indicator: seq<DataRow>, avoided: seq<DataRow>)
    requires Builders(emission, indicator, avoided) == Failure(BlankName)
    ensures || (exists i :: 0 <= i < |emission| && EmissionUnnamed(emission[i]))
            || (exists i :: 0 <= i < |indicator| && IndicatorUnnamed(indicator[i]))
            || (exists i :: 0 <= i < |avoided| && AvoidedUnnamed(avoided[i]))
  {
  }

  /** A row that one of the builders cannot name. */
  predicate Unnamed(row: DataRow) {
    || (IsEmissionRow(row) && EmissionUnnamed(row))
    || (IsIndicatorRow(row) && IndicatorUnnamed(row))
    || (IsAvoidedRow(row) && AvoidedUnnamed(row))
  }

  /** A "Travaux" row with no Lot beside a named indicator row: the
      load fails on the blank Lot. */
  lemma BlankLotExample(texteColumns: set<string>)
    ensures var travaux := DataRow(Some("O"), None, Some("EU"), Some("Travaux"), Some("p"), None);
      var branchements := DataRow(Some("O"), Some("L"), Some("EU"), Some("Indicateur"), Some("Nombre de branchements"), None);
      BuildFault([travaux, branchements], texteColumns) == Some(BlankName)
  {
    var travaux := DataRow(Some("O"), None, Some("EU"), Some("Travaux"), Some("p"), None);
    var branchements := DataRow(Some("O"), Some("L"), Some("EU"), Some("Indicateur"), Some("Nombre de branchements"), None);
    TravauxIsEmission(travaux);
    BlankEmissionFails([travaux, branchements], texteColumns, 0);
  }

  /** A "Travaux" row is an emission row. */
  lemma TravauxIsEmission(row: DataRow)
    requires row.category == Some("Travaux")
    ensures IsEmissionRow(row)
  {
    LowerIs("Travaux", "travaux");
    assert !IsSpace("travaux"[0]) && !IsSpace("travaux"[6]);
    assert Strip("travaux") == "travaux";
    assert CategoryKey(row) == Some("travaux");
    if Contains("travaux", "missions évitées") {
      ContainsLength("travaux", "missions évitées");
    }
    if Contains("travaux", "missions evitees") {
      ContainsLength("travaux", "missions evitees");
    }
    if Contains("travaux", "emissions evitees") {
      ContainsLength("travaux", "emissions evitees");
    }
  }

  /** An emission row whose node id or poste code cannot be made:
      `_make_node_id_ent` of a blank Lot, `_make_poste_code` of a blank
      Catégorie. A blank Entité only reads "None" in the id. */
  predicate EmissionUnnamed(row: DataRow) {
    row.lot.None? || row.category.None?
  }

  /** A named indicator row (a row without a Poste is skipped) with a blank
      Lot, given to `_make_node_id_ent`. */
  predicate IndicatorUnnamed(row: DataRow) {
    row.poste.Some? && row.lot.None?
  }

  /** An avoided-emissions row with a blank Lot, given to `_make_node_id_ent`. */
  predicate AvoidedUnnamed(row: DataRow) {
    row.lot.None?
  }

  /** Whether some row has the property, looking at the rows in order as
      the builders do. */
  method AnyRow(rows: seq<DataRow>, unnamed: DataRow -> bool) returns (found: bool)
    ensures found <==> exists i :: 0 <= i < |rows| && unnamed(rows[i])
  {
    found := false;
    var i := 0;
    while i < |rows| && !found
      invariant 0 <= i <= |rows|
      invariant found <==> exists k :: 0 <= k < i && unnamed(rows[k])
    {
      found := unnamed(rows[i]);
      i := i + 1;
    }
  }

  /** The warnings `_classify_rows` appends to `before`: one UnknownCategory
      for each category of the emission rows missing from SCOPE_BY_CATEGORY,
      each once, in some order. */
  ghost predicate WarnedUnknown(before: seq<Issue>, after: seq<Issue>, emission: seq<DataRow>) {
    && |after| == |before| + |UnknownCategories(emission)|
    && after[..|before|] == before
    && forall issue :: issue in after[|before|..] <==>
         issue.UnknownCategory? && issue.category in UnknownCategories(emission)
  }

  /** The sheets are those the builders give on the split rows, and the
      TEXTE_RAPPORT codes are mapped under some iteration order of the
      emission categories. */
  ghost predicate LoadedFrom(rows: seq<DataRow>, texteCodes: seq<Option<string>>, loaded: Loaded) {
    var (emission, indicator, _) := Classified(rows);
    && Success(loaded.orgTree) == OrgTree(emission, indicator)
    && Success(loaded.postesL2Ref) == PostesL2Ref(emission)
    && loaded.indicatorsRef == IndicatorsRef(indicator)
    && exists order :: Distinct(order) && (forall x :: x in order <==> x in EmissionCategories(emission))
         && |loaded.texteCodes| == |texteCodes|
         && forall i :: 0 <= i < |texteCodes| ==> loaded.texteCodes[i] == MaybeTransformCode(texteCodes[i], order)
  }

  /** The sheets built from the split rows, with the codes mapped under one
      iteration order of the emission categories, are loaded from the rows. */
  lemma LoadedUnder(rows: seq<DataRow>, texteCodes: seq<Option<string>>, loaded: Loaded, order: seq<string>)
    requires var (emission, indicator, _) := Classified(rows);
      && Success(loaded.orgTree) == OrgTree(emission, indicator)
      && Success(loaded.postesL2Ref) == PostesL2Ref(emission)
      && loaded.indicatorsRef == IndicatorsRef(indicator)
      && Distinct(order) && (forall x :: x in order <==> x in EmissionCategories(emission))
      && |loaded.texteCodes| == |texteCodes|
      && forall i :: 0 <= i < |texteCodes| ==> loaded.texteCodes[i] == MaybeTransformCode(texteCodes[i], order)
    ensures LoadedFrom(rows, texteCodes, loaded)
  {
  }

  /** One UnknownCategory warning per category, in order. */
  function UnknownCategoryIssues(categories: seq<string>): (issues: seq<Issue>)
    ensures |issues| == |categories| && forall i :: 0 <= i < |categories| ==> issues[i] == UnknownCategory(categories[i])
  {
    seq(|categories|, i requires 0 <= i < |categories| => UnknownCategory(categories[i]))
  }
}
