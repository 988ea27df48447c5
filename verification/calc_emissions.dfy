/** Emission totals of a perimeter (the whole ORG, an ORG activity or a
    LOT activity): sums per scope and per L1 poste over the ENT nodes of the
    perimeter, with the user's overrides deciding which postes count in the
    totals and which are shown, and the shown postes ranked by emissions. */
module Emissions {
  import opened Wrappers
  import opened Text
  import opened Sequences
  import opened Dicts
  import opened Tree
  import opened ResultKeys

  /** The per-poste settings of `EmissionOverrides.poste_config`; a missing
      flag reads as true. */
  datatype PosteConfig = PosteConfig(showInReport: Option<bool>, includeInTotals: Option<bool>)

  type PosteConfigs = Dict<string, PosteConfig>

  /** `get_node_name`: the rename of `nodeId` if there is one. */
  function NodeName(renames: map<string, string>, nodeId: string, original: string): (r: string)
    ensures nodeId in renames ==> r == renames[nodeId]
    ensures nodeId !in renames ==> r == original
  {
    if nodeId in renames then renames[nodeId] else original
  }

  /** `is_poste_shown`: true unless the poste's configuration says otherwise. */
  function Shown(config: PosteConfigs, code: string): (r: bool)
    ensures Find(config, code).None? ==> r
  {
    match Find(config, code)
    case None => true
    case Some(c) => c.showInReport.GetOr(true)
  }

  /** `is_poste_included`: true unless the poste's configuration says otherwise. */
  function Included(config: PosteConfigs, code: string): (r: bool)
    ensures Find(config, code).None? ==> r
  {
    match Find(config, code)
    case None => true
    case Some(c) => c.includeInTotals.GetOr(true)
  }

  /** `get_excluded_postes`: the configured codes whose inclusion flag is false,
      in dict order. */
  function Excluded(config: PosteConfigs): (r: seq<string>)
    ensures forall c :: c in r ==> c in KeysOf(config)
    decreases |config|
  {
    if config == [] then []
    else
      assert KeysOf(config) == [config[0].0] + KeysOf(config[1..]);
      (if !config[0].1.includeInTotals.GetOr(true) then [config[0].0] else []) + Excluded(config[1..])
  }

  /** The excluded postes are exactly the configured postes left out of the totals. */
  lemma {:induction false} ExcludedIff(config: PosteConfigs, code: string)
    requires DistinctKeys(config)
    ensures code in Excluded(config) <==> code in KeysOf(config) && !Included(config, code)
    decreases |config|
  {
    if config != [] {
      var rest, k0, flag := config[1..], config[0].0, config[0].1.includeInTotals.GetOr(true);
      DistinctKeysTail(config);
      ExcludedIff(rest, code);
      assert Excluded(config) == (if !flag then [k0] else []) + Excluded(rest);
      assert Included(config, code) == if k0 == code then flag else Included(rest, code);
    }
  }

  /** After `set_poste_config(code, show, include)` the flags of `code` are
      `show` and `include`, and every other poste keeps its own. */
  lemma SetConfigEffect(config: PosteConfigs, code: string, show: bool, inTotals: bool, other: string)
    ensures var after := Put(config, code, PosteConfig(Some(show), Some(inTotals)));
      && Shown(after, other) == (if other == code then show else Shown(config, other))
      && Included(after, other) == (if other == code then inTotals else Included(config, other))
  {
    PutFind(config, code, PosteConfig(Some(show), Some(inTotals)), other);
  }

  /** With no configuration (`calculate_brut`), every poste is shown and counted. */
  lemma DefaultConfig(code: string)
    ensures Shown([], code) && Included([], code) && Excluded([]) == []
  {
  }

  /** `EmissionOverrides`: renames of nodes and per-poste flags. */
  class EmissionOverrides {
    var nodeRenames: map<string, string>
    var posteConfig: PosteConfigs

    /** A Python dict holds each key once. */
    ghost predicate Valid()
      reads this
    {
      DistinctKeys(posteConfig)
    }

    constructor(renames: map<string, string>, config: PosteConfigs)
      requires DistinctKeys(config)
      ensures nodeRenames == renames && posteConfig == config && Valid()
    {
      nodeRenames := renames;
      posteConfig := config;
    }

    function GetNodeName(nodeId: string, original: string): string
      reads this
    {
      NodeName(nodeRenames, nodeId, original)
    }

    function IsPosteShown(code: string): bool
      reads this
    {
      Shown(posteConfig, code)
    }

    function IsPosteIncluded(code: string): bool
      reads this
    {
      Included(posteConfig, code)
    }

    /** `set_poste_config`: replaces the configuration of `code` by the two flags. */
    method SetPosteConfig(code: string, show: bool, inTotals: bool)
      requires Valid()
      modifies this
      ensures Valid() && nodeRenames == old(nodeRenames)
      ensures posteConfig == Put(old(posteConfig), code, PosteConfig(Some(show), Some(inTotals)))
      ensures IsPosteShown(code) == show && IsPosteIncluded(code) == inTotals
      ensures forall c :: c != code ==> IsPosteShown(c) == old(IsPosteShown(c)) && IsPosteIncluded(c) == old(IsPosteIncluded(c))
    {
      ghost var before := posteConfig;
      posteConfig := Put(posteConfig, code, PosteConfig(Some(show), Some(inTotals)));
      PutDistinct(before, code, PosteConfig(Some(show), Some(inTotals)));
      SetConfigEffect(before, code, show, inTotals, code);
      forall c | c != code
        ensures Shown(posteConfig, c) == Shown(before, c) && Included(posteConfig, c) == Included(before, c)
      {
        SetConfigEffect(before, code, show, inTotals, c);
      }
    }

    function GetExcludedPostes(): seq<string>
      reads this
    {
      Excluded(posteConfig)
    }
  }

  /** One row of the EMISSIONS sheet, its scope read as an integer. */
  datatype EmissionRow = EmissionRow(nodeId: string, posteL1Code: string, scope: int, tco2e: real)

  /** `EmissionResult`. */
  datatype EmissionResult = EmissionResult(
    nodeId: string, nodeName: string, activity: Option<string>,
    total: real, scope1: real, scope2: real, scope3: real,
    emissionsByPoste: Dict<string, real>,
    topPostes: seq<(string, real)>, otherPostes: seq<(string, real)>)
  {
    /** The attribute `scope{scope}_tco2e`, 0.0 when there is none. */
    function ScopeValue(scope: int): real {
      if scope == 1 then scope1 else if scope == 2 then scope2 else if scope == 3 then scope3 else 0.0
    }

    /** `get_scope_percentage`. */
    function ScopePercentage(scope: int): (r: real)
      ensures total == 0.0 ==> r == 0.0
      ensures total != 0.0 ==> r * total == ScopeValue(scope) * 100.0
    {
      if total == 0.0 then 0.0 else (ScopeValue(scope) / total) * 100.0
    }
  }

  /** The three scope percentages of a non-zero total add up to 100. */
  lemma PercentagesSum(r: EmissionResult)
    requires r.total == r.scope1 + r.scope2 + r.scope3 && r.total != 0.0
    ensures r.ScopePercentage(1) + r.ScopePercentage(2) + r.ScopePercentage(3) == 100.0
  {
    var p := r.ScopePercentage(1) + r.ScopePercentage(2) + r.ScopePercentage(3);
    assert p * r.total == (r.scope1 + r.scope2 + r.scope3) * 100.0;
    assert p * r.total == 100.0 * r.total;
  }

  /** `rows['tco2e'].sum()`. */
  function Total(rows: seq<EmissionRow>): real
    decreases |rows|
  {
    if rows == [] then 0.0 else Total(rows[..|rows| - 1]) + rows[|rows| - 1].tco2e
  }

  /** The sum of the values of `(key, value)` pairs. */
  function SumValues(pairs: seq<(string, real)>): real
    decreases |pairs|
  {
    if pairs == [] then 0.0 else SumValues(pairs[..|pairs| - 1]) + pairs[|pairs| - 1].1
  }

  function InScope(k: int): EmissionRow -> bool {
    (r: EmissionRow) => r.scope == k
  }

  function OfPoste(code: string): EmissionRow -> bool {
    (r: EmissionRow) => r.posteL1Code == code
  }

  /** The rows of the perimeter's ENT nodes whose poste counts in the totals. */
  function Counted(rows: seq<EmissionRow>, entIds: seq<string>, config: PosteConfigs): (r: seq<EmissionRow>)
    ensures forall x :: x in r <==> x in rows && x.nodeId in entIds && Included(config, x.posteL1Code)
  {
    var keep := (x: EmissionRow) => x.nodeId in entIds && Included(config, x.posteL1Code);
    FilterMembers(rows, keep);
    Filter(rows, keep)
  }

  /** `sorted(..., key=value, reverse=True)`: a pair goes before another of
      smaller value. */
  function ValueFirst(): ((string, real), (string, real)) -> bool {
    (a: (string, real), b: (string, real)) => a.1 > b.1
  }

  /** The poste codes of `rows`, once each, in increasing order: the keys
      of `groupby('poste_l1_code')`. */
  function GroupCodes(rows: seq<EmissionRow>): seq<string> {
    SortBy(Dedup(seq(|rows|, i requires 0 <= i < |rows| => rows[i].posteL1Code)), CodeBefore())
  }

  /** For each code, the sum of the rows of that poste. */
  function Grouped(rows: seq<EmissionRow>, codes: seq<string>): (r: Dict<string, real>)
    ensures KeysOf(r) == codes
    decreases |codes|
  {
    if codes == [] then []
    else
      var n := |codes|;
      var r := Grouped(rows, codes[..n - 1]) + [(codes[n - 1], Total(Filter(rows, OfPoste(codes[n - 1]))))];
      assert KeysOf(r) == codes;
      r
  }

  /** `groupby('poste_l1_code')['tco2e'].sum().to_dict()`. */
  function ByPoste(rows: seq<EmissionRow>): Dict<string, real> {
    Grouped(rows, GroupCodes(rows))
  }

  /** Python's `s[:n]` cut point for a list of `len` elements. */
  function Cut(n: int, len: nat): (c: nat)
    ensures c <= len
    ensures 0 <= n ==> c <= n
  {
    if n >= 0 then (if n < len then n else len)
    else if len + n > 0 then len + n else 0
  }

  function ShownPair(config: PosteConfigs): ((string, real)) -> bool {
    (p: (string, real)) => Shown(config, p.0)
  }

  /** The shown postes by decreasing value, ties in their dict order. */
  function Ranking(byPoste: Dict<string, real>, config: PosteConfigs): seq<(string, real)> {
    Filter(SortBy(byPoste, ValueFirst()), ShownPair(config))
  }

  /** The ranking is sorted and holds exactly the shown entries. */
  lemma RankingFacts(byPoste: Dict<string, real>, config: PosteConfigs)
    ensures forall p :: p in Ranking(byPoste, config) <==> p in byPoste && Shown(config, p.0)
    ensures SortedBy(Ranking(byPoste, config), ValueFirst())
  {
    var sorted := SortBy(byPoste, ValueFirst());
    ValueFirstOrder();
    SortBySorted(byPoste, ValueFirst());
    SortByMembers(byPoste, ValueFirst());
    FilterMembers(sorted, ShownPair(config));
    FilterSorted(sorted, ShownPair(config), ValueFirst());
  }

  /** Cutting a sorted list: every element before the cut is at least as
      large as every element after it. */
  lemma CutRanking(shown: seq<(string, real)>, cut: nat)
    requires cut <= |shown| && SortedBy(shown, ValueFirst())
    ensures shown[..cut] + shown[cut..] == shown
    ensures forall i, j :: 0 <= i < cut && 0 <= j < |shown| - cut ==> shown[..cut][i].1 >= shown[cut..][j].1
  {
    forall i, j | 0 <= i < cut && 0 <= j < |shown| - cut
      ensures shown[..cut][i].1 >= shown[cut..][j].1
    {
      assert shown[..cut][i] == shown[i] && shown[cut..][j] == shown[cut + j];
    }
  }

  /** `_aggregate_emissions`. A dataclass instance is always true, so the
      overrides are always applied; without configuration they change nothing. */
  function Aggregate(nodeId: string, nodeName: string, entIds: seq<string>, activity: Option<string>,
                     config: PosteConfigs, topN: int, rows: seq<EmissionRow>): (r: EmissionResult)
    ensures r.nodeId == nodeId && r.nodeName == nodeName && r.activity == activity
    ensures entIds == [] ==>
      && r.total == 0.0 && r.scope1 == 0.0 && r.scope2 == 0.0 && r.scope3 == 0.0
      && r.emissionsByPoste == [] && r.topPostes == [] && r.otherPostes == []
    ensures r.total == r.scope1 + r.scope2 + r.scope3
    ensures 0 <= topN ==> |r.topPostes| <= topN
  {
    if entIds == [] then EmissionResult(nodeId, nodeName, activity, 0.0, 0.0, 0.0, 0.0, [], [], [])
    else
      var counted := Counted(rows, entIds, config);
      var s1 := Total(Filter(counted, InScope(1)));
      var s2 := Total(Filter(counted, InScope(2)));
      var s3 := Total(Filter(counted, InScope(3)));
      var byPoste := ByPoste(counted);
      var shown := Ranking(byPoste, config);
      var cut := Cut(topN, |shown|);
      EmissionResult(nodeId, nodeName, activity, s1 + s2 + s3, s1, s2, s3, byPoste, shown[..cut], shown[cut..])
  }

  /** Ordering by decreasing value is a strict weak order. */
  lemma ValueFirstOrder()
    ensures StrictWeakOrder(ValueFirst())
  {
  }

  /** The `groupby` keys: each poste code of the rows once, in increasing order. */
  lemma GroupCodesFacts(rows: seq<EmissionRow>)
    ensures Distinct(GroupCodes(rows))
    ensures SortedBy(GroupCodes(rows), CodeBefore())
    ensures forall c :: c in GroupCodes(rows) <==> exists x :: x in rows && x.posteL1Code == c
  {
    var codes := seq(|rows|, i requires 0 <= i < |rows| => rows[i].posteL1Code);
    SortByDistinct(Dedup(codes), CodeBefore());
    SortByMembers(Dedup(codes), CodeBefore());
    CodeBeforeOrder();
    SortBySorted(Dedup(codes), CodeBefore());
    forall c ensures c in codes <==> exists x :: x in rows && x.posteL1Code == c {
      if c in codes {
        var i :| 0 <= i < |codes| && codes[i] == c;
        assert rows[i] in rows;
      }
      if exists x :: x in rows && x.posteL1Code == c {
        var x :| x in rows && x.posteL1Code == c;
        var i :| 0 <= i < |rows| && rows[i] == x;
        assert codes[i] == c;
      }
    }
  }

  /** Entry `i` of the grouped sums is code `i` with the sum of its rows. */
  lemma {:induction false} GroupedAt(rows: seq<EmissionRow>, codes: seq<string>, i: nat)
    requires i < |codes|
    ensures i < |Grouped(rows, codes)|
    ensures Grouped(rows, codes)[i] == (codes[i], Total(Filter(rows, OfPoste(codes[i]))))
    decreases |codes|
  {
    var n := |codes|;
    if i < n - 1 {
      GroupedAt(rows, codes[..n - 1], i);
    }
  }

  lemma TotalSnoc(rows: seq<EmissionRow>, x: EmissionRow)
    ensures Total(rows + [x]) == Total(rows) + x.tco2e
  {
    assert (rows + [x])[..|rows|] == rows;
  }

  lemma SumValuesSnoc(pairs: seq<(string, real)>, p: (string, real))
    ensures SumValues(pairs + [p]) == SumValues(pairs) + p.1
  {
    assert (pairs + [p])[..|pairs|] == pairs;
  }

  /** Adding a row to the rows adds its emissions to the filtered sum when it passes. */
  lemma FilteredTotalSnoc(rows: seq<EmissionRow>, x: EmissionRow, keep: EmissionRow -> bool)
    ensures Total(Filter(rows + [x], keep)) == Total(Filter(rows, keep)) + if keep(x) then x.tco2e else 0.0
  {
    FilterConcat(rows, [x], keep);
    assert Filter([x], keep) == if keep(x) then [x] else [];
    if keep(x) {
      TotalSnoc(Filter(rows, keep), x);
    } else {
      assert Filter(rows, keep) + [] == Filter(rows, keep);
    }
  }

  /** When every row is in scope 1, 2 or 3, the three scope totals make up the total. */
  lemma {:induction false} ScopesPartition(rows: seq<EmissionRow>)
    requires forall x :: x in rows ==> 1 <= x.scope <= 3
    ensures Total(rows) == Total(Filter(rows, InScope(1))) + Total(Filter(rows, InScope(2))) + Total(Filter(rows, InScope(3)))
    decreases |rows|
  {
    if rows != [] {
      var n := |rows|;
      var front, x := rows[..n - 1], rows[n - 1];
      assert rows == front + [x];
      LastSplit(rows);
      ScopesPartition(front);
      FilteredTotalSnoc(front, x, InScope(1));
      FilteredTotalSnoc(front, x, InScope(2));
      FilteredTotalSnoc(front, x, InScope(3));
    }
  }

  lemma {:induction false} GroupedNothing(codes: seq<string>)
    ensures SumValues(Grouped([], codes)) == 0.0
    decreases |codes|
  {
    if codes != [] {
      var n := |codes|;
      GroupedNothing(codes[..n - 1]);
      SumValuesSnoc(Grouped([], codes[..n - 1]), (codes[n - 1], Total(Filter([], OfPoste(codes[n - 1])))));
    }
  }

  /** A new row adds its emissions to the grouped sums when its code is grouped. */
  lemma {:induction false} GroupedSnoc(rows: seq<EmissionRow>, x: EmissionRow, codes: seq<string>)
    requires Distinct(codes)
    ensures SumValues(Grouped(rows + [x], codes))
         == SumValues(Grouped(rows, codes)) + if x.posteL1Code in codes then x.tco2e else 0.0
    decreases |codes|
  {
    if codes != [] {
      var n := |codes|;
      var front, c := codes[..n - 1], codes[n - 1];
      LastSplit(codes);
      assert x.posteL1Code == c ==> x.posteL1Code !in front by {
        forall k | 0 <= k < n - 1 ensures front[k] != c {
          assert front[k] == codes[k];
        }
      }
      GroupedSnoc(rows, x, front);
      FilteredTotalSnoc(rows, x, OfPoste(c));
      SumValuesSnoc(Grouped(rows + [x], front), (c, Total(Filter(rows + [x], OfPoste(c)))));
      SumValuesSnoc(Grouped(rows, front), (c, Total(Filter(rows, OfPoste(c)))));
    }
  }

  /** Grouping by distinct codes that cover every row keeps the total. */
  lemma {:induction false} GroupedTotal(rows: seq<EmissionRow>, codes: seq<string>)
    requires Distinct(codes) && forall x :: x in rows ==> x.posteL1Code in codes
    ensures SumValues(Grouped(rows, codes)) == Total(rows)
    decreases |rows|
  {
    if rows == [] {
      GroupedNothing(codes);
    } else {
      var n := |rows|;
      var front, x := rows[..n - 1], rows[n - 1];
      assert rows == front + [x];
      LastSplit(rows);
      GroupedTotal(front, codes);
      GroupedSnoc(front, x, codes);
      TotalSnoc(front, x);
    }
  }

  /** `emissions_by_poste` holds, in increasing code order, one entry per
      poste counted in the totals that some row of the perimeter has, with
      the sum of those rows. */
  lemma AggregateByPoste(nodeId: string, nodeName: string, entIds: seq<string>, activity: Option<string>,
                         config: PosteConfigs, topN: int, rows: seq<EmissionRow>)
    ensures var r := Aggregate(nodeId, nodeName, entIds, activity, config, topN, rows);
      && DistinctKeys(r.emissionsByPoste)
      && SortedBy(KeysOf(r.emissionsByPoste), CodeBefore())
      && (forall c :: c in KeysOf(r.emissionsByPoste) <==>
            exists x :: x in rows && x.nodeId in entIds && Included(config, x.posteL1Code) && x.posteL1Code == c)
      && forall i :: 0 <= i < |r.emissionsByPoste| ==>
            r.emissionsByPoste[i].1 == Total(Filter(Counted(rows, entIds, config), OfPoste(r.emissionsByPoste[i].0)))
  {
    var r := Aggregate(nodeId, nodeName, entIds, activity, config, topN, rows);
    if entIds != [] {
      var counted := Counted(rows, entIds, config);
      var codes := GroupCodes(counted);
      GroupCodesFacts(counted);
      assert KeysOf(r.emissionsByPoste) == codes;
      forall i | 0 <= i < |r.emissionsByPoste|
        ensures r.emissionsByPoste[i].1 == Total(Filter(counted, OfPoste(r.emissionsByPoste[i].0)))
      {
        GroupedAt(counted, codes, i);
      }
    }
  }

  /** When every counted row is in scope 1, 2 or 3, the per-poste sums add
      up to the total. */
  lemma AggregateBalances(nodeId: string, nodeName: string, entIds: seq<string>, activity: Option<string>,
                          config: PosteConfigs, topN: int, rows: seq<EmissionRow>)
    requires forall x :: x in rows && x.nodeId in entIds && Included(config, x.posteL1Code) ==> 1 <= x.scope <= 3
    ensures var r := Aggregate(nodeId, nodeName, entIds, activity, config, topN, rows);
      SumValues(r.emissionsByPoste) == r.total
  {
    if entIds != [] {
      var counted := Counted(rows, entIds, config);
      var codes := GroupCodes(counted);
      GroupCodesFacts(counted);
      ScopesPartition(counted);
      GroupedTotal(counted, codes);
    }
  }

  /** The top postes followed by the other postes are the shown entries of
      `emissions_by_poste` by decreasing value, each top poste at least as
      large as every other one. */
  lemma AggregateRanking(nodeId: string, nodeName: string, entIds: seq<string>, activity: Option<string>,
                         config: PosteConfigs, topN: int, rows: seq<EmissionRow>)
    ensures var r := Aggregate(nodeId, nodeName, entIds, activity, config, topN, rows);
      && r.topPostes + r.otherPostes == Ranking(r.emissionsByPoste, config)
      && (forall p :: p in r.topPostes + r.otherPostes <==> p in r.emissionsByPoste && Shown(config, p.0))
      && SortedBy(r.topPostes + r.otherPostes, ValueFirst())
      && (forall i, j :: 0 <= i < |r.topPostes| && 0 <= j < |r.otherPostes| ==> r.topPostes[i].1 >= r.otherPostes[j].1)
  {
    var r := Aggregate(nodeId, nodeName, entIds, activity, config, topN, rows);
    RankingFacts(r.emissionsByPoste, config);
    if entIds != [] {
      var shown := Ranking(r.emissionsByPoste, config);
      CutRanking(shown, Cut(topN, |shown|));
    }
  }

  /** A poste left out of the totals has no entry and is in neither list;
      a hidden poste is in neither list, though it still counts. */
  lemma AggregateOverrides(nodeId: string, nodeName: string, entIds: seq<string>, activity: Option<string>,
                           config: PosteConfigs, topN: int, rows: seq<EmissionRow>, code: string)
    ensures var r := Aggregate(nodeId, nodeName, entIds, activity, config, topN, rows);
      && (!Included(config, code) ==> code !in KeysOf(r.emissionsByPoste))
      && (!Included(config, code) || !Shown(config, code) ==>
            forall p :: p in r.topPostes + r.otherPostes ==> p.0 != code)
  {
    var r := Aggregate(nodeId, nodeName, entIds, activity, config, topN, rows);
    AggregateByPoste(nodeId, nodeName, entIds, activity, config, topN, rows);
    AggregateRanking(nodeId, nodeName, entIds, activity, config, topN, rows);
    ListedOnlyIfCounted(r.emissionsByPoste, r.topPostes + r.otherPostes, config);
  }

  lemma ListedOnlyIfCounted(byPoste: Dict<string, real>, listed: seq<(string, real)>, config: PosteConfigs)
    requires forall c :: c in KeysOf(byPoste) ==> Included(config, c)
    requires forall p :: p in listed <==> p in byPoste && Shown(config, p.0)
    ensures forall p :: p in listed ==> Included(config, p.0) && Shown(config, p.0)
  {
    forall p | p in listed ensures Included(config, p.0) && Shown(config, p.0) {
      var i :| 0 <= i < |byPoste| && byPoste[i] == p;
      assert KeysOf(byPoste)[i] == p.0;
    }
  }

  /** With no poste configuration, as in `calculate_brut`, every row of the
      perimeter counts and every poste is ranked. */
  lemma BrutConfig(rows: seq<EmissionRow>, entIds: seq<string>, byPoste: Dict<string, real>)
    ensures forall x :: x in Counted(rows, entIds, []) <==> x in rows && x.nodeId in entIds
    ensures Ranking(byPoste, []) == SortBy(byPoste, ValueFirst())
  {
    FilterAll(SortBy(byPoste, ValueFirst()), ShownPair([]));
  }

  /** One row of POSTES_REF: an L1 poste code and its label. */
  datatype PosteRef = PosteRef(posteL1Code: string, posteL1Label: string)

  /** The (code, label) pairs of the POSTES_REF rows, in order. */
  function LabelPairs(refs: seq<PosteRef>): (ps: seq<(string, string)>)
    ensures |ps| == |refs| && forall i :: 0 <= i < |refs| ==> ps[i] == (refs[i].posteL1Code, refs[i].posteL1Label)
  {
    seq(|refs|, i requires 0 <= i < |refs| => (refs[i].posteL1Code, refs[i].posteL1Label))
  }

  /** The labels `_prepare_data` collects: each code mapped to the label of
      its last row. */
  function LabelsOf(refs: seq<PosteRef>): Dict<string, string> {
    FromPairs(LabelPairs(refs))
  }

  /** The loop of `_prepare_data`. */
  method CollectLabels(refs: seq<PosteRef>) returns (labels: Dict<string, string>)
    ensures labels == LabelsOf(refs)
  {
    ghost var ps := LabelPairs(refs);
    labels := [];
    for i := 0 to |refs|
      invariant labels == FromPairs(ps[..i])
    {
      FromPairsSnoc(ps, i);
      labels := Put(labels, refs[i].posteL1Code, refs[i].posteL1Label);
    }
    assert ps[..|refs|] == ps;
  }

  /** The result for `node` restricted to the ENT nodes below it with
      activity `act`: `_calculate_lot_activity` and `_calculate_org_activity`. */
  function ActivityResult(tree: OrganizationTree, node: TreeNode, act: string, renames: map<string, string>,
                          config: PosteConfigs, topN: int, rows: seq<EmissionRow>): EmissionResult
    reads tree
    requires tree.Valid() && tree.Acyclic()
  {
    Aggregate(node.nodeId, NodeName(renames, node.nodeId, node.nodeName),
              IdsOf(Filter(tree.Descendants(node.nodeId, None), EntWith(act))), Some(act), config, topN, rows)
  }

  /** `_calculate_org`: the result over every ENT node. */
  function OrgResult(tree: OrganizationTree, renames: map<string, string>,
                     config: PosteConfigs, topN: int, rows: seq<EmissionRow>): EmissionResult
    reads tree
    requires tree.Valid() && tree.Acyclic()
  {
    var org := tree.GetOrg();
    Aggregate(org.nodeId, NodeName(renames, org.nodeId, org.nodeName),
              IdsOf(tree.NodesOfType("ENT")), None, config, topN, rows)
  }

  /** `_calculate_lot_activity` and `_calculate_org_activity`, computed
      through the tree queries. */
  method ComputeActivity(tree: OrganizationTree, node: TreeNode, act: string, renames: map<string, string>,
                         config: PosteConfigs, topN: int, rows: seq<EmissionRow>)
    returns (res: EmissionResult)
    requires tree.Valid() && tree.Acyclic()
    ensures res == ActivityResult(tree, node, act, renames, config, topN, rows)
  {
    var ids := tree.GetEntIdsByActivity(node.nodeId, act);
    res := Aggregate(node.nodeId, NodeName(renames, node.nodeId, node.nodeName), ids, Some(act), config, topN, rows);
  }

  /** The result each activity of `acts` should get for `node`. */
  ghost function Wanted(tree: OrganizationTree, node: TreeNode, acts: set<string>, renames: map<string, string>,
                        config: PosteConfigs, topN: int, rows: seq<EmissionRow>): (w: map<string, EmissionResult>)
    reads tree
    requires tree.Valid() && tree.Acyclic()
    ensures w.Keys == acts
    ensures forall a :: a in acts ==> w[a] == ActivityResult(tree, node, a, renames, config, topN, rows)
  {
    map a | a in acts :: ActivityResult(tree, node, a, renames, config, topN, rows)
  }

  /** The inner loop of `_calculate`: one result per activity of `acts`
      for `node`, under the key `prefix + act`. The keys come from a set,
      whose order is not modelled. */
  method AddActivityResults(tree: OrganizationTree, node: TreeNode, prefix: string, acts: set<string>,
                            renames: map<string, string>, config: PosteConfigs, topN: int,
                            rows: seq<EmissionRow>, results0: map<string, EmissionResult>)
    returns (results: map<string, EmissionResult>)
    requires tree.Valid() && tree.Acyclic()
    ensures ActivitiesDone(prefix, acts, Wanted(tree, node, acts, renames, config, topN, rows), results0, results)
  {
    ghost var want := Wanted(tree, node, acts, renames, config, topN, rows);
    results := results0;
    var left := acts;
    while left != {}
      invariant left <= acts
      invariant ActivitiesDone(prefix, acts - left, want, results0, results)
      decreases |left|
    {
      var act :| act in left;
      var res := ComputeActivity(tree, node, act, renames, config, topN, rows);
      ActivityDone(prefix, acts - left, act, want, results0, results);
      SetStep(acts, left, act);
      results := results[prefix + act := res];
      left := left - {act};
    }
  }

  /** For each LOT of `lots`, the result each of its activities should get. */
  ghost function LotWants(tree: OrganizationTree, lots: seq<TreeNode>, renames: map<string, string>,
                          config: PosteConfigs, topN: int, rows: seq<EmissionRow>): (w: seq<map<string, EmissionResult>>)
    reads tree
    requires tree.Valid() && tree.Acyclic()
    ensures |w| == |lots|
    ensures forall j :: 0 <= j < |lots| ==>
      w[j] == Wanted(tree, lots[j], LotActs(tree, lots[j].nodeId), renames, config, topN, rows)
  {
    seq(|lots|, j requires 0 <= j < |lots| && tree.Valid() && tree.Acyclic() reads tree =>
      Wanted(tree, lots[j], LotActs(tree, lots[j].nodeId), renames, config, topN, rows))
  }

  /** What `_calculate` returns: "ORG" for the whole organisation, then one
      entry per LOT and activity when the tree has LOTs (see
      `CalculatedLotEntry` and `CalculatedLotKey`), else one per activity of
      the organisation. */
  ghost predicate Calculated(tree: OrganizationTree, renames: map<string, string>,
                             config: PosteConfigs, topN: int, rows: seq<EmissionRow>,
                             results: map<string, EmissionResult>)
    reads tree
    requires tree.Valid() && tree.Acyclic()
  {
    && "ORG" in results && results["ORG"] == OrgResult(tree, renames, config, topN, rows)
    && if tree.HasLots() then
         var lots := tree.NodesOfType("LOT");
         LotsDone(IdsOf(lots), LotWants(tree, lots, renames, config, topN, rows), |lots|, results)
       else OrgDone(Wanted(tree, tree.GetOrg(), tree.GetOrgActivities(), renames, config, topN, rows), results)
  }

  /** The result wanted for an activity found below the `j`-th LOT. */
  lemma LotWantsAt(tree: OrganizationTree, lots: seq<TreeNode>, renames: map<string, string>,
                   config: PosteConfigs, topN: int, rows: seq<EmissionRow>, j: nat, act: string)
    requires tree.Valid() && tree.Acyclic() && j < |lots|
    ensures var w := LotWants(tree, lots, renames, config, topN, rows)[j];
      (act in w <==> ActivityBelow(tree, lots[j].nodeId, act))
      && (act in w ==> w[act] == ActivityResult(tree, lots[j], act, renames, config, topN, rows))
  {
  }

  /** With LOTs, each activity found below a LOT has its entry under
      "LOT_{id}_{activity}", computed over that LOT's ENT nodes of that
      activity. */
  lemma CalculatedLotEntry(tree: OrganizationTree, renames: map<string, string>, config: PosteConfigs, topN: int,
                           rows: seq<EmissionRow>, results: map<string, EmissionResult>, j: nat, act: string)
    requires tree.Valid() && tree.Acyclic() && tree.HasLots() && Calculated(tree, renames, config, topN, rows, results)
    requires j < |tree.NodesOfType("LOT")|
    requires ActivityBelow(tree, tree.NodesOfType("LOT")[j].nodeId, act)
    ensures var lot := tree.NodesOfType("LOT")[j];
      LotKey(lot.nodeId, act) in results
      && results[LotKey(lot.nodeId, act)] == ActivityResult(tree, lot, act, renames, config, topN, rows)
  {
    var lots := tree.NodesOfType("LOT");
    LotWantsAt(tree, lots, renames, config, topN, rows, j, act);
    LotsDoneAt(IdsOf(lots), LotWants(tree, lots, renames, config, topN, rows), results, j, act);
  }

  /** With LOTs, every key but "ORG" names a LOT and an activity found
      below it. */
  lemma CalculatedLotKey(tree: OrganizationTree, renames: map<string, string>, config: PosteConfigs, topN: int,
                         rows: seq<EmissionRow>, results: map<string, EmissionResult>, k: string)
    requires tree.Valid() && tree.Acyclic() && tree.HasLots() && Calculated(tree, renames, config, topN, rows, results)
    requires k in results && k != "ORG"
    ensures exists j, act ::
      && 0 <= j < |tree.NodesOfType("LOT")|
      && ActivityBelow(tree, tree.NodesOfType("LOT")[j].nodeId, act)
      && k == LotKey(tree.NodesOfType("LOT")[j].nodeId, act)
  {
    var lots := tree.NodesOfType("LOT");
    var wants := LotWants(tree, lots, renames, config, topN, rows);
    LotsDoneKey(IdsOf(lots), wants, results, k);
    var j, a :| 0 <= j < |lots| && a in wants[j] && k == LotKey(IdsOf(lots)[j], a);
    var lot := lots[j];
    assert wants[j] == Wanted(tree, lot, LotActs(tree, lot.nodeId), renames, config, topN, rows);
    LotActsBelow(tree, lot.nodeId, a);
  }

  /** The wanted results only name activities EU and AEP, and a LOT listed
      twice, which is the same node, wants the same results. */
  lemma LotWantsAgree(tree: OrganizationTree, lots: seq<TreeNode>, renames: map<string, string>,
                      config: PosteConfigs, topN: int, rows: seq<EmissionRow>)
    requires tree.Valid() && tree.Acyclic() && lots == tree.NodesOfType("LOT")
    ensures |IdsOf(lots)| == |LotWants(tree, lots, renames, config, topN, rows)| && WantsAgree(IdsOf(lots), LotWants(tree, lots, renames, config, topN, rows))
  {
    var wants := LotWants(tree, lots, renames, config, topN, rows);
    forall i, j | 0 <= i < |lots| && 0 <= j < |lots| && IdsOf(lots)[i] == IdsOf(lots)[j]
      ensures wants[i] == wants[j]
    {
      assert lots[i] in lots && lots[j] in lots;
    }
  }

  /** Without LOTs, each activity of the organisation has its entry under
      "ORG_{activity}", computed over the organisation's ENT nodes of that
      activity. */
  lemma CalculatedOrgEntry(tree: OrganizationTree, renames: map<string, string>, config: PosteConfigs, topN: int,
                           rows: seq<EmissionRow>, results: map<string, EmissionResult>, act: string)
    requires tree.Valid() && tree.Acyclic() && !tree.HasLots() && Calculated(tree, renames, config, topN, rows, results)
    requires act in tree.GetOrgActivities()
    ensures OrgKey(act) in results
    ensures results[OrgKey(act)] == ActivityResult(tree, tree.GetOrg(), act, renames, config, topN, rows)
  {
  }

  /** Without LOTs, every key but "ORG" names an activity of the organisation. */
  lemma CalculatedOrgKey(tree: OrganizationTree, renames: map<string, string>, config: PosteConfigs, topN: int,
                         rows: seq<EmissionRow>, results: map<string, EmissionResult>, k: string)
    requires tree.Valid() && tree.Acyclic() && !tree.HasLots() && Calculated(tree, renames, config, topN, rows, results)
    requires k in results && k != "ORG"
    ensures exists act :: act in tree.GetOrgActivities() && k == OrgKey(act)
  {
  }

  /** The entries of one LOT: `get_lot_activities`, then the activity
      loop; `acts` and `want` are that LOT's activities and wanted results. */
  method AddLotEntries(tree: OrganizationTree, lot: TreeNode, ghost acts: set<string>,
                       ghost want: map<string, EmissionResult>, renames: map<string, string>,
                       config: PosteConfigs, topN: int, rows: seq<EmissionRow>,
                       results0: map<string, EmissionResult>)
    returns (results: map<string, EmissionResult>)
    requires tree.Valid() && tree.Acyclic() && "ORG" in results0
    requires acts == LotActs(tree, lot.nodeId) && want == Wanted(tree, lot, acts, renames, config, topN, rows)
    ensures "ORG" in results && results["ORG"] == results0["ORG"]
    ensures want.Keys <= acts && ActivitiesDone("LOT_" + lot.nodeId + "_", acts, want, results0, results)
  {
    var found := tree.GetLotActivities(lot.nodeId);
    LotActsAre(tree, lot.nodeId, found);
    var prefix := "LOT_" + lot.nodeId + "_";
    results := AddActivityResults(tree, lot, prefix, found, renames, config, topN, rows, results0);
    ActivitiesKeepOrg(prefix, acts, want, results0, results);
  }

  /** `_calculate` over the LOTs: the loop over `get_lots`. */
  method AddLotResults(tree: OrganizationTree, renames: map<string, string>, config: PosteConfigs, topN: int,
                       rows: seq<EmissionRow>, org: EmissionResult)
    returns (results: map<string, EmissionResult>)
    requires tree.Valid() && tree.Acyclic()
    ensures "ORG" in results && results["ORG"] == org
    ensures var lots := tree.NodesOfType("LOT");
      LotsDone(IdsOf(lots), LotWants(tree, lots, renames, config, topN, rows), |lots|, results)
  {
    var lots := tree.NodesOfType("LOT");
    ghost var ids := IdsOf(lots);
    ghost var wants := LotWants(tree, lots, renames, config, topN, rows);
    LotWantsAgree(tree, lots, renames, config, topN, rows);
    results := map["ORG" := org];
    for i := 0 to |lots|
      invariant "ORG" in results && results["ORG"] == org
      invariant LotsDone(ids, wants, i, results)
    {
      results := AddLot(tree, lots, wants, i, renames, config, topN, rows, results);
    }
  }

  /** One turn of the loop over `get_lots`: the entries of the `i`-th LOT
      join those of the LOTs before it. */
  method AddLot(tree: OrganizationTree, lots: seq<TreeNode>, ghost wants: seq<map<string, EmissionResult>>, i: nat,
                renames: map<string, string>, config: PosteConfigs, topN: int, rows: seq<EmissionRow>,
                results0: map<string, EmissionResult>)
    returns (results: map<string, EmissionResult>)
    requires tree.Valid() && tree.Acyclic() && i < |lots| == |wants|
    requires WantsAgree(IdsOf(lots), wants)
    requires wants[i] == Wanted(tree, lots[i], LotActs(tree, lots[i].nodeId), renames, config, topN, rows)
    requires "ORG" in results0 && LotsDone(IdsOf(lots), wants, i, results0)
    ensures "ORG" in results && results["ORG"] == results0["ORG"]
    ensures LotsDone(IdsOf(lots), wants, i + 1, results)
  {
    ghost var acts := LotActs(tree, lots[i].nodeId);
    results := AddLotEntries(tree, lots[i], acts, wants[i], renames, config, topN, rows, results0);
    LotStep(IdsOf(lots), wants, i, acts, results0, results);
  }

  /** `EmissionCalculator`: the tree, the emission rows (scopes already
      integers) and the labels `_prepare_data` gathers from the poste
      reference. */
  class EmissionCalculator {
    const tree: OrganizationTree
    const rows: seq<EmissionRow>
    var posteLabels: Dict<string, string>
    ghost const refs: seq<PosteRef>

    ghost predicate Valid()
      reads this
    {
      posteLabels == LabelsOf(refs)
    }

    /** `__init__` and `_prepare_data`. */
    constructor (tree: OrganizationTree, rows: seq<EmissionRow>, refs: seq<PosteRef>)
      ensures this.tree == tree && this.rows == rows && this.refs == refs
      ensures Valid()
    {
      this.tree := tree;
      this.rows := rows;
      this.refs := refs;
      new;
      posteLabels := CollectLabels(refs);
    }

    /** `get_poste_label`: the label of the last reference row listing
        `code`, or `code` itself when none does. */
    function GetPosteLabel(code: string): (r: string)
      reads this
      requires Valid()
      ensures (exists i :: 0 <= i < |refs| && refs[i].posteL1Code == code) ==> LastPair(LabelPairs(refs), code, r)
      ensures (forall i :: 0 <= i < |refs| ==> refs[i].posteL1Code != code) ==> r == code
    {
      var ps := LabelPairs(refs);
      FromPairsKnown(ps, code);
      var found := Find(posteLabels, code);
      if found.Some? then
        FromPairsLast(ps, code);
        found.value
      else code
    }

    /** `_calculate`. */
    method Calculate(renames: map<string, string>, config: PosteConfigs, topN: int)
      returns (results: map<string, EmissionResult>)
      requires tree.Valid() && tree.Acyclic()
      ensures Calculated(tree, renames, config, topN, rows, results)
    {
      var org := tree.GetOrg();
      var orgResult := Aggregate(org.nodeId, NodeName(renames, org.nodeId, org.nodeName),
                                 IdsOf(tree.NodesOfType("ENT")), None, config, topN, rows);
      if tree.HasLots() {
        results := AddLotResults(tree, renames, config, topN, rows, orgResult);
      } else {
        var acts := tree.GetOrgActivities();
        results := AddActivityResults(tree, org, "ORG_", acts, renames, config, topN, rows, map["ORG" := orgResult]);
        ghost var want := Wanted(tree, org, acts, renames, config, topN, rows);
        ActivitiesKeepOrg("ORG_", acts, want, map["ORG" := orgResult], results);
        OrgStep(acts, want, map["ORG" := orgResult], results);
      }
    }

    /** `calculate_brut`: no renames and no poste configuration. */
    method CalculateBrut(topN: int) returns (results: map<string, EmissionResult>)
      requires tree.Valid() && tree.Acyclic()
      ensures Calculated(tree, map[], [], topN, rows, results)
    {
      results := Calculate(map[], [], topN);
    }

    /** `calculate_net`: with the renames and poste configuration of
        `overrides`. */
    method CalculateNet(overrides: EmissionOverrides, topN: int) returns (results: map<string, EmissionResult>)
      requires tree.Valid() && tree.Acyclic()
      ensures Calculated(tree, overrides.nodeRenames, overrides.posteConfig, topN, rows, results)
    {
      results := Calculate(overrides.nodeRenames, overrides.posteConfig, topN);
    }
  }
}
