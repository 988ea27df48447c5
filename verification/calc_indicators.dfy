/** Indicators (quantities such as volumes, lengths or counts) of each LOT
    and activity, or of each activity of the organisation when the tree has
    no LOTs: the rows of the INDICATORS sheet for the perimeter, labelled and
    completed from the INDICATORS_REF sheet. */
module Indicators {
  import opened Wrappers
  import opened Sequences
  import opened Dicts
  import opened Text
  import opened Tree
  import opened ResultKeys

  /** `IndicatorValue`: one indicator of a perimeter. */
  datatype IndicatorValue = IndicatorValue(indicatorCode: string, indicatorLabel: string, value: real,
                                           unit: string, comment: Option<string>)

  /** Every pair of `d` stores, under its key, a value carrying that code. */
  ghost predicate KeyedByCode(d: Dict<string, IndicatorValue>) {
    DistinctKeys(d) && forall i :: 0 <= i < |d| ==> d[i].1.indicatorCode == d[i].0
  }

  /** `IndicatorResult`: the indicators of one perimeter, by code, in the
      order they were first added. */
  class IndicatorResult {
    const nodeId: string
    const nodeName: string
    const activity: string
    var indicators: Dict<string, IndicatorValue>

    constructor (nodeId: string, nodeName: string, activity: string)
      ensures this.nodeId == nodeId && this.nodeName == nodeName && this.activity == activity
      ensures indicators == [] && KeyedByCode(indicators)
    {
      this.nodeId := nodeId;
      this.nodeName := nodeName;
      this.activity := activity;
      indicators := [];
    }

    /** `add_indicator`: stores `indicator` under its code; a code already
        present keeps its place and gets the new value. */
    method AddIndicator(indicator: IndicatorValue)
      modifies this
      ensures indicators == Put(old(indicators), indicator.indicatorCode, indicator)
      ensures forall code ::
        Find(indicators, code) == if code == indicator.indicatorCode then Some(indicator) else Find(old(indicators), code)
      ensures KeyedByCode(old(indicators)) ==> KeyedByCode(indicators)
    {
      var code := indicator.indicatorCode;
      forall c ensures Find(Put(indicators, code, indicator), c) == if c == code then Some(indicator) else Find(indicators, c) {
        PutFind(indicators, code, indicator, c);
      }
      if KeyedByCode(indicators) {
        PutDistinct(indicators, code, indicator);
        PutMembers(indicators, code, indicator);
        var d := Put(indicators, code, indicator);
        forall i | 0 <= i < |d| ensures d[i].1.indicatorCode == d[i].0 {
          assert d[i] in d;
        }
      }
      indicators := Put(indicators, code, indicator);
    }

    /** `get_indicator`: the indicator stored under `code`, if any. */
    function GetIndicator(code: string): (r: Option<IndicatorValue>)
      reads this
      ensures r.Some? <==> code in KeysOf(indicators)
      ensures r.Some? ==> (code, r.value) in indicators
      ensures r.Some? && KeyedByCode(indicators) ==> r.value.indicatorCode == code
    {
      var r := Find(indicators, code);
      if r.None? then r
      else
        FindFound(indicators, code);
        r
    }
  }

  /** A row of the INDICATORS sheet; a missing unit or comment is `None`. */
  datatype IndicatorRow = IndicatorRow(nodeId: string, activity: string, indicatorCode: string, value: real,
                                       unit: Option<string>, comment: Option<string>)

  /** A row of the INDICATORS_REF sheet; `displayOrder` is `None` when the
      sheet has no such column. */
  datatype IndicatorRef = IndicatorRef(indicatorCode: string, indicatorLabel: string, defaultUnit: string,
                                       activityScope: Option<string>, displayOrder: Option<int>)

  /** What `_prepare_references` keeps about a code. */
  datatype IndicatorInfo = IndicatorInfo(indicatorLabel: string, defaultUnit: string, activityScope: Option<string>,
                                         displayOrder: int)

  /** The entry of one reference row; the display order is 999 without a
      display order column. */
  function InfoFrom(ref: IndicatorRef): IndicatorInfo {
    IndicatorInfo(ref.indicatorLabel, ref.defaultUnit, ref.activityScope, ref.displayOrder.GetOr(999))
  }

  function InfoPairs(refs: seq<IndicatorRef>): (ps: seq<(string, IndicatorInfo)>)
    ensures |ps| == |refs|
    ensures forall i :: 0 <= i < |refs| ==> ps[i] == (refs[i].indicatorCode, InfoFrom(refs[i]))
  {
    seq(|refs|, i requires 0 <= i < |refs| => (refs[i].indicatorCode, InfoFrom(refs[i])))
  }

  /** `indicator_info`: one entry per code of the reference rows. */
  function InfoOf(refs: seq<IndicatorRef>): Dict<string, IndicatorInfo> {
    FromPairs(InfoPairs(refs))
  }

  /** A code has an entry exactly when some reference row names it, and the
      entry is that of the last such row. */
  lemma InfoOfLast(refs: seq<IndicatorRef>, code: string)
    ensures Find(InfoOf(refs), code).None? <==> forall i :: 0 <= i < |refs| ==> refs[i].indicatorCode != code
    ensures Find(InfoOf(refs), code).Some? ==> exists i ::
      && 0 <= i < |refs| && refs[i].indicatorCode == code
      && (forall j :: i < j < |refs| ==> refs[j].indicatorCode != code)
      && Find(InfoOf(refs), code).value == InfoFrom(refs[i])
  {
    var ps := InfoPairs(refs);
    FromPairsKnown(ps, code);
    assert forall i :: 0 <= i < |refs| ==> ps[i].0 == refs[i].indicatorCode;
    if Find(InfoOf(refs), code).Some? {
      FromPairsLast(ps, code);
      var v := Find(InfoOf(refs), code).value;
      var i :| 0 <= i < |ps| && ps[i] == (code, v) && forall j :: i < j < |ps| ==> ps[j].0 != code;
      assert refs[i].indicatorCode == code && v == InfoFrom(refs[i]);
    }
  }

  /** `info.get('label', code)`. */
  function Label(info: Dict<string, IndicatorInfo>, code: string): string {
    match Find(info, code)
    case None => code
    case Some(x) => x.indicatorLabel
  }

  /** `info.get('default_unit', '')`. */
  function DefaultUnit(info: Dict<string, IndicatorInfo>, code: string): string {
    match Find(info, code)
    case None => ""
    case Some(x) => x.defaultUnit
  }

  /** `info.get('display_order', 999)`. */
  function DisplayOrder(info: Dict<string, IndicatorInfo>, code: string): int {
    match Find(info, code)
    case None => 999
    case Some(x) => x.displayOrder
  }

  /** The indicator built for a code from its value, unit and comment; a
      missing unit falls back to the code's default unit. */
  function MakeValue(info: Dict<string, IndicatorInfo>, code: string, value: real,
                     unit: Option<string>, comment: Option<string>): IndicatorValue
  {
    IndicatorValue(code, Label(info, code), value, unit.GetOr(DefaultUnit(info, code)), comment)
  }

  /** The rows of the perimeter: those of activity `act` at `lotId` itself
      when no ENT node below the LOT has that activity, else those at the
      ENT nodes `entIds`. */
  function LotRows(rows: seq<IndicatorRow>, lotId: string, entIds: seq<string>, act: string): (sel: seq<IndicatorRow>)
    ensures forall r :: r in sel <==>
      r in rows && r.activity == act && if entIds == [] then r.nodeId == lotId else r.nodeId in entIds
  {
    var ids := if entIds == [] then [lotId] else entIds;
    var keep := (r: IndicatorRow) => r.nodeId in ids && r.activity == act;
    FilterMembers(rows, keep);
    Filter(rows, keep)
  }

  /** The rows of activity `act` at the organisation node. */
  function OrgRows(rows: seq<IndicatorRow>, orgId: string, act: string): (sel: seq<IndicatorRow>)
    ensures forall r :: r in sel <==> r in rows && r.nodeId == orgId && r.activity == act
  {
    var keep := (r: IndicatorRow) => r.nodeId == orgId && r.activity == act;
    FilterMembers(rows, keep);
    Filter(rows, keep)
  }

  function OfCode(code: string): IndicatorRow -> bool {
    (r: IndicatorRow) => r.indicatorCode == code
  }

  /** The sum of the values of `rs`. */
  function SumOf(rs: seq<IndicatorRow>): real
    decreases |rs|
  {
    if rs == [] then 0.0 else SumOf(rs[..|rs| - 1]) + rs[|rs| - 1].value
  }

  /** `GroupBy.first`: the first value of the group that is not missing. */
  function FirstPresent<T, U(==)>(s: seq<T>, f: T -> Option<U>): (r: Option<U>)
    ensures r.None? <==> forall i :: 0 <= i < |s| ==> f(s[i]).None?
    ensures r.Some? ==> exists i :: 0 <= i < |s| && f(s[i]) == r && forall j :: 0 <= j < i ==> f(s[j]).None?
    decreases |s|
  {
    if s == [] then None
    else if f(s[0]).Some? then f(s[0])
    else
      var r := FirstPresent(s[1..], f);
      assert forall i :: 0 < i < |s| ==> s[i] == s[1..][i - 1];
      if r.Some? then
        var i :| 0 <= i < |s[1..]| && f(s[1..][i]) == r && forall j :: 0 <= j < i ==> f(s[1..][j]).None?;
        assert s[i + 1] == s[1..][i];
        r
      else r
  }

  function UnitOf(): IndicatorRow -> Option<string> {
    (r: IndicatorRow) => r.unit
  }

  function CommentOf(): IndicatorRow -> Option<string> {
    (r: IndicatorRow) => r.comment
  }

  /** The codes of the rows, once each, in increasing order: the keys of
      `groupby('indicator_code')`. */
  function GroupedCodes(sel: seq<IndicatorRow>): seq<string> {
    SortBy(Dedup(seq(|sel|, i requires 0 <= i < |sel| => sel[i].indicatorCode)), CodeBefore())
  }

  lemma GroupedCodesFacts(sel: seq<IndicatorRow>)
    ensures Distinct(GroupedCodes(sel))
    ensures SortedBy(GroupedCodes(sel), CodeBefore())
    ensures forall c :: c in GroupedCodes(sel) <==> exists r :: r in sel && r.indicatorCode == c
  {
    var codes := seq(|sel|, i requires 0 <= i < |sel| => sel[i].indicatorCode);
    SortByDistinct(Dedup(codes), CodeBefore());
    SortByMembers(Dedup(codes), CodeBefore());
    CodeBeforeOrder();
    SortBySorted(Dedup(codes), CodeBefore());
    forall c ensures c in codes <==> exists r :: r in sel && r.indicatorCode == c {
      if c in codes {
        var i :| 0 <= i < |codes| && codes[i] == c;
        assert sel[i] in sel;
      }
      if exists r :: r in sel && r.indicatorCode == c {
        var r :| r in sel && r.indicatorCode == c;
        var i :| 0 <= i < |sel| && sel[i] == r;
        assert codes[i] == c;
      }
    }
  }

  /** The indicator of one group: the sum of its values, its first unit
      (else the default unit) and its first comment. */
  function GroupValue(info: Dict<string, IndicatorInfo>, sel: seq<IndicatorRow>, code: string): IndicatorValue {
    var group := Filter(sel, OfCode(code));
    MakeValue(info, code, SumOf(group), FirstPresent(group, UnitOf()), FirstPresent(group, CommentOf()))
  }

  function GroupPairs(info: Dict<string, IndicatorInfo>, sel: seq<IndicatorRow>): (ps: seq<(string, IndicatorValue)>)
    ensures |ps| == |GroupedCodes(sel)|
    ensures forall i :: 0 <= i < |ps| ==> ps[i] == (GroupedCodes(sel)[i], GroupValue(info, sel, GroupedCodes(sel)[i]))
  {
    var codes := GroupedCodes(sel);
    seq(|codes|, i requires 0 <= i < |codes| => (codes[i], GroupValue(info, sel, codes[i])))
  }

  /** The indicators `_calculate_lot_activity` adds, one group at a time. */
  function Grouped(info: Dict<string, IndicatorInfo>, sel: seq<IndicatorRow>): Dict<string, IndicatorValue> {
    FromPairs(GroupPairs(info, sel))
  }

  /** `v` is the indicator of the group of code `c`: the sum of the group's
      values, its first unit or else the default unit, its first comment,
      and the code's reference label or else the code itself. */
  ghost predicate GroupIndicator(info: Dict<string, IndicatorInfo>, sel: seq<IndicatorRow>, c: string, v: IndicatorValue) {
    var group := Filter(sel, OfCode(c));
    && v.indicatorCode == c && v.indicatorLabel == Label(info, c)
    && v.value == SumOf(group)
    && v.unit == (if FirstPresent(group, UnitOf()).Some? then FirstPresent(group, UnitOf()).value
                  else DefaultUnit(info, c))
    && v.comment == FirstPresent(group, CommentOf())
  }

  /** The grouped indicators hold each code of the rows once, in increasing
      order, each with the indicator of its group. */
  lemma GroupedFacts(info: Dict<string, IndicatorInfo>, sel: seq<IndicatorRow>)
    ensures KeysOf(Grouped(info, sel)) == GroupedCodes(sel)
    ensures Distinct(KeysOf(Grouped(info, sel))) && SortedBy(KeysOf(Grouped(info, sel)), CodeBefore())
    ensures forall c :: c in KeysOf(Grouped(info, sel)) <==> exists r :: r in sel && r.indicatorCode == c
    ensures forall i :: 0 <= i < |Grouped(info, sel)| ==>
      GroupIndicator(info, sel, Grouped(info, sel)[i].0, Grouped(info, sel)[i].1)
  {
    var ps := GroupPairs(info, sel);
    var codes := GroupedCodes(sel);
    GroupedCodesFacts(sel);
    assert DistinctKeys(ps) by {
      forall i, j | 0 <= i < j < |ps| ensures ps[i].0 != ps[j].0 {
        assert ps[i].0 == codes[i] && ps[j].0 == codes[j];
      }
    }
    FromPairsDistinct(ps);
    assert Grouped(info, sel) == ps;
    assert KeysOf(ps) == codes;
    forall i | 0 <= i < |ps| ensures GroupIndicator(info, sel, ps[i].0, ps[i].1) {
      assert ps[i] == (codes[i], GroupValue(info, sel, codes[i]));
    }
  }

  /** The rows at the perimeter decide whether there is a result, and a
      result holds at least one indicator. */
  function LotIndicators(info: Dict<string, IndicatorInfo>, rows: seq<IndicatorRow>, lotId: string,
                         entIds: seq<string>, act: string): Option<Dict<string, IndicatorValue>>
  {
    var sel := LotRows(rows, lotId, entIds, act);
    if sel == [] then None else Some(Grouped(info, sel))
  }

  lemma LotIndicatorsPresent(info: Dict<string, IndicatorInfo>, rows: seq<IndicatorRow>, lotId: string,
                             entIds: seq<string>, act: string)
    ensures var r := LotIndicators(info, rows, lotId, entIds, act);
      && (r.Some? <==> exists x ::
            x in rows && x.activity == act && if entIds == [] then x.nodeId == lotId else x.nodeId in entIds)
      && (r.Some? ==> |r.value| > 0 && KeyedByCode(r.value))
  {
    var sel := LotRows(rows, lotId, entIds, act);
    if sel != [] {
      assert sel[0] in sel;
      GroupedFacts(info, sel);
      assert sel[0].indicatorCode in KeysOf(Grouped(info, sel));
    }
  }

  /** The indicator of one organisation row. */
  function RowValue(info: Dict<string, IndicatorInfo>, r: IndicatorRow): IndicatorValue {
    MakeValue(info, r.indicatorCode, r.value, r.unit, r.comment)
  }

  function RowPairs(info: Dict<string, IndicatorInfo>, sel: seq<IndicatorRow>): (ps: seq<(string, IndicatorValue)>)
    ensures |ps| == |sel|
    ensures forall i :: 0 <= i < |sel| ==> ps[i] == (sel[i].indicatorCode, RowValue(info, sel[i]))
  {
    seq(|sel|, i requires 0 <= i < |sel| => (sel[i].indicatorCode, RowValue(info, sel[i])))
  }

  /** `_calculate_org_activity`: the organisation rows one by one, without
      grouping, so that a code met twice keeps its first place and its last
      row. */
  function OrgIndicators(info: Dict<string, IndicatorInfo>, rows: seq<IndicatorRow>, orgId: string,
                         act: string): Option<Dict<string, IndicatorValue>>
  {
    var sel := OrgRows(rows, orgId, act);
    if sel == [] then None else Some(FromPairs(RowPairs(info, sel)))
  }

  lemma OrgIndicatorsPresent(info: Dict<string, IndicatorInfo>, rows: seq<IndicatorRow>, orgId: string, act: string)
    ensures var r := OrgIndicators(info, rows, orgId, act);
      && (r.Some? <==> exists x :: x in rows && x.nodeId == orgId && x.activity == act)
      && (r.Some? ==> |r.value| > 0)
  {
    var sel := OrgRows(rows, orgId, act);
    if sel != [] {
      assert sel[0] in sel;
      RowsIndicators(info, sel, sel[0].indicatorCode);
    }
  }

  /** The indicators of the organisation rows `sel` hold a code exactly when
      some row has it, with the value of the last such row. */
  lemma RowsIndicators(info: Dict<string, IndicatorInfo>, sel: seq<IndicatorRow>, code: string)
    ensures var d := FromPairs(RowPairs(info, sel));
      && (Find(d, code).Some? <==> exists x :: x in sel && x.indicatorCode == code)
      && (Find(d, code).Some? ==> exists i ::
            && 0 <= i < |sel| && sel[i].indicatorCode == code
            && (forall j :: i < j < |sel| ==> sel[j].indicatorCode != code)
            && Find(d, code).value == RowValue(info, sel[i]))
  {
    var ps := RowPairs(info, sel);
    var d := FromPairs(ps);
    FromPairsKnown(ps, code);
    if Find(d, code).Some? {
      FromPairsLast(ps, code);
    }
    if exists x :: x in sel && x.indicatorCode == code {
      var x :| x in sel && x.indicatorCode == code;
      var i :| 0 <= i < |sel| && sel[i] == x;
      assert ps[i].0 == code;
    }
  }

  /** `get_sorted_indicators`'s key: a lower display order goes first. */
  function OrderBefore(info: Dict<string, IndicatorInfo>): (IndicatorValue, IndicatorValue) -> bool {
    (a: IndicatorValue, b: IndicatorValue) => DisplayOrder(info, a.indicatorCode) < DisplayOrder(info, b.indicatorCode)
  }

  lemma OrderBeforeOrder(info: Dict<string, IndicatorInfo>)
    ensures StrictWeakOrder(OrderBefore(info))
  {
  }

  /** A view of an `IndicatorResult`. */
  datatype ResultView = ResultView(nodeId: string, nodeName: string, activity: string,
                                   indicators: Dict<string, IndicatorValue>)

  ghost function View(r: IndicatorResult): ResultView
    reads r
  {
    ResultView(r.nodeId, r.nodeName, r.activity, r.indicators)
  }

  ghost function Views(results: map<string, IndicatorResult>): (v: map<string, ResultView>)
    reads results.Values
    ensures v.Keys == results.Keys
    ensures forall k :: k in results ==> v[k] == View(results[k])
  {
    map k | k in results :: View(results[k])
  }

  /** `views` is the view of each result of `results`. */
  ghost predicate Mirrors(results: map<string, IndicatorResult>, views: map<string, ResultView>)
    reads results.Values
  {
    results.Keys == views.Keys && forall k :: k in results ==> View(results[k]) == views[k]
  }

  /** Storing a result keeps the views in step. */
  lemma MirrorsPut(results: map<string, IndicatorResult>, views: map<string, ResultView>, k: string, r: IndicatorResult)
    requires Mirrors(results, views)
    ensures Mirrors(results[k := r], views[k := View(r)])
  {
  }

  /** The ids of the ENT nodes below `id` with activity `act`. */
  function EntIds(tree: OrganizationTree, id: string, act: string): seq<string>
    reads tree
    requires tree.Valid() && tree.Acyclic()
  {
    IdsOf(Filter(tree.Descendants(id, None), EntWith(act)))
  }

  /** The result for a LOT and an activity, when there is one. */
  function LotView(tree: OrganizationTree, rows: seq<IndicatorRow>, info: Dict<string, IndicatorInfo>,
                   lot: TreeNode, act: string): Option<ResultView>
    reads tree
    requires tree.Valid() && tree.Acyclic()
  {
    match LotIndicators(info, rows, lot.nodeId, EntIds(tree, lot.nodeId, act), act)
    case None => None
    case Some(d) => Some(ResultView(lot.nodeId, lot.nodeName, act, d))
  }

  /** The result for an activity of the organisation, when there is one. */
  function OrgView(tree: OrganizationTree, rows: seq<IndicatorRow>, info: Dict<string, IndicatorInfo>,
                   act: string): Option<ResultView>
    reads tree
    requires tree.Valid() && tree.Acyclic()
  {
    var org := tree.GetOrg();
    match OrgIndicators(info, rows, org.nodeId, act)
    case None => None
    case Some(d) => Some(ResultView(org.nodeId, org.nodeName, act, d))
  }

  /** The results a LOT should get: one per activity of `acts` that has one. */
  ghost function LotWant(tree: OrganizationTree, rows: seq<IndicatorRow>, info: Dict<string, IndicatorInfo>,
                         lot: TreeNode, acts: set<string>): (w: map<string, ResultView>)
    reads tree
    requires tree.Valid() && tree.Acyclic()
    ensures forall a :: a in w <==> a in acts && LotView(tree, rows, info, lot, a).Some?
    ensures forall a :: a in w ==> w[a] == LotView(tree, rows, info, lot, a).value
  {
    map a | a in acts && LotView(tree, rows, info, lot, a).Some? :: LotView(tree, rows, info, lot, a).value
  }

  /** The results the organisation should get, one per activity that has one. */
  ghost function OrgWant(tree: OrganizationTree, rows: seq<IndicatorRow>, info: Dict<string, IndicatorInfo>,
                         acts: set<string>): (w: map<string, ResultView>)
    reads tree
    requires tree.Valid() && tree.Acyclic()
    ensures forall a :: a in w <==> a in acts && OrgView(tree, rows, info, a).Some?
    ensures forall a :: a in w ==> w[a] == OrgView(tree, rows, info, a).value
  {
    map a | a in acts && OrgView(tree, rows, info, a).Some? :: OrgView(tree, rows, info, a).value
  }

  ghost function LotWants(tree: OrganizationTree, rows: seq<IndicatorRow>, info: Dict<string, IndicatorInfo>,
                          lots: seq<TreeNode>): (w: seq<map<string, ResultView>>)
    reads tree
    requires tree.Valid() && tree.Acyclic()
    ensures |w| == |lots|
    ensures forall j :: 0 <= j < |lots| ==> w[j] == LotWant(tree, rows, info, lots[j], LotActs(tree, lots[j].nodeId))
  {
    seq(|lots|, j requires 0 <= j < |lots| && tree.Valid() && tree.Acyclic() reads tree =>
      LotWant(tree, rows, info, lots[j], LotActs(tree, lots[j].nodeId)))
  }

  /** What `calculate` returns: with LOTs, one entry per LOT and activity
      that has indicators (see `CalculatedLotEntry` and `CalculatedLotKey`),
      else one per activity of the organisation that has indicators; never
      an "ORG" entry. */
  ghost predicate Calculated(tree: OrganizationTree, rows: seq<IndicatorRow>, info: Dict<string, IndicatorInfo>,
                             results: map<string, ResultView>)
    reads tree
    requires tree.Valid() && tree.Acyclic()
  {
    && "ORG" !in results
    && if tree.HasLots() then
         var lots := tree.NodesOfType("LOT");
         LotsDone(IdsOf(lots), LotWants(tree, rows, info, lots), |lots|, results)
       else OrgDone(OrgWant(tree, rows, info, tree.GetOrgActivities()), results)
  }

  /** The wanted results only name activities EU and AEP, and a LOT listed
      twice, which is the same node, wants the same results. */
  lemma LotWantsAgree(tree: OrganizationTree, rows: seq<IndicatorRow>, info: Dict<string, IndicatorInfo>,
                      lots: seq<TreeNode>)
    requires tree.Valid() && tree.Acyclic() && lots == tree.NodesOfType("LOT")
    ensures |IdsOf(lots)| == |LotWants(tree, rows, info, lots)| && WantsAgree(IdsOf(lots), LotWants(tree, rows, info, lots))
  {
    var wants := LotWants(tree, rows, info, lots);
    forall i, j | 0 <= i < |lots| && 0 <= j < |lots| && IdsOf(lots)[i] == IdsOf(lots)[j]
      ensures wants[i] == wants[j]
    {
      assert lots[i] in lots && lots[j] in lots;
    }
  }

  /** With LOTs, each activity found below a LOT whose perimeter has rows
      has its entry under "LOT_{id}_{activity}". */
  lemma CalculatedLotEntry(tree: OrganizationTree, rows: seq<IndicatorRow>, info: Dict<string, IndicatorInfo>,
                           results: map<string, ResultView>, j: nat, act: string)
    requires tree.Valid() && tree.Acyclic() && tree.HasLots() && Calculated(tree, rows, info, results)
    requires j < |tree.NodesOfType("LOT")|
    requires ActivityBelow(tree, tree.NodesOfType("LOT")[j].nodeId, act)
    requires LotView(tree, rows, info, tree.NodesOfType("LOT")[j], act).Some?
    ensures var lot := tree.NodesOfType("LOT")[j];
      LotKey(lot.nodeId, act) in results && results[LotKey(lot.nodeId, act)] == LotView(tree, rows, info, lot, act).value
  {
    var lots := tree.NodesOfType("LOT");
    LotsDoneAt(IdsOf(lots), LotWants(tree, rows, info, lots), results, j, act);
  }

  /** With LOTs, every entry names a LOT and an activity found below it,
      and holds that LOT's result for that activity. */
  lemma CalculatedLotKey(tree: OrganizationTree, rows: seq<IndicatorRow>, info: Dict<string, IndicatorInfo>,
                         results: map<string, ResultView>, k: string)
    requires tree.Valid() && tree.Acyclic() && tree.HasLots() && Calculated(tree, rows, info, results)
    requires k in results
    ensures exists j, act ::
      && 0 <= j < |tree.NodesOfType("LOT")|
      && ActivityBelow(tree, tree.NodesOfType("LOT")[j].nodeId, act)
      && k == LotKey(tree.NodesOfType("LOT")[j].nodeId, act)
      && LotView(tree, rows, info, tree.NodesOfType("LOT")[j], act) == Some(results[k])
  {
    var lots := tree.NodesOfType("LOT");
    var wants := LotWants(tree, rows, info, lots);
    LotsDoneKey(IdsOf(lots), wants, results, k);
    var j, a :| 0 <= j < |lots| && a in wants[j] && k == LotKey(IdsOf(lots)[j], a) && results[k] == wants[j][a];
    var lot := lots[j];
    assert wants[j] == LotWant(tree, rows, info, lot, LotActs(tree, lot.nodeId));
    LotActsBelow(tree, lot.nodeId, a);
    assert LotView(tree, rows, info, lot, a) == Some(results[k]);
  }

  /** Without LOTs, each activity of the organisation with rows at the
      organisation node has its entry under "ORG_{activity}". */
  lemma CalculatedOrgEntry(tree: OrganizationTree, rows: seq<IndicatorRow>, info: Dict<string, IndicatorInfo>,
                           results: map<string, ResultView>, act: string)
    requires tree.Valid() && tree.Acyclic() && !tree.HasLots() && Calculated(tree, rows, info, results)
    requires act in tree.GetOrgActivities() && OrgView(tree, rows, info, act).Some?
    ensures OrgKey(act) in results && results[OrgKey(act)] == OrgView(tree, rows, info, act).value
  {
  }

  /** Without LOTs, every entry names an activity of the organisation and
      holds its result. */
  lemma CalculatedOrgKey(tree: OrganizationTree, rows: seq<IndicatorRow>, info: Dict<string, IndicatorInfo>,
                         results: map<string, ResultView>, k: string)
    requires tree.Valid() && tree.Acyclic() && !tree.HasLots() && Calculated(tree, rows, info, results)
    requires k in results
    ensures exists act ::
      act in tree.GetOrgActivities() && k == OrgKey(act) && OrgView(tree, rows, info, act) == Some(results[k])
  {
  }

  /** A result for a LOT and an activity holds at least one indicator. */
  lemma LotViewNonEmpty(tree: OrganizationTree, rows: seq<IndicatorRow>, info: Dict<string, IndicatorInfo>,
                        lot: TreeNode, act: string)
    requires tree.Valid() && tree.Acyclic() && LotView(tree, rows, info, lot, act).Some?
    ensures |LotView(tree, rows, info, lot, act).value.indicators| > 0
  {
    LotIndicatorsPresent(info, rows, lot.nodeId, EntIds(tree, lot.nodeId, act), act);
  }

  /** A result for an activity of the organisation holds at least one indicator. */
  lemma OrgViewNonEmpty(tree: OrganizationTree, rows: seq<IndicatorRow>, info: Dict<string, IndicatorInfo>,
                        act: string)
    requires tree.Valid() && tree.Acyclic() && OrgView(tree, rows, info, act).Some?
    ensures |OrgView(tree, rows, info, act).value.indicators| > 0
  {
    OrgIndicatorsPresent(info, rows, tree.GetOrg().nodeId, act);
  }

  /** Every result `calculate` returns holds at least one indicator, so its
      test `len(result.indicators) > 0` never discards a result. */
  lemma CalculatedNonEmpty(tree: OrganizationTree, rows: seq<IndicatorRow>, info: Dict<string, IndicatorInfo>,
                           results: map<string, ResultView>, k: string)
    requires tree.Valid() && tree.Acyclic() && Calculated(tree, rows, info, results)
    requires k in results
    ensures |results[k].indicators| > 0
  {
    if tree.HasLots() {
      CalculatedLotKey(tree, rows, info, results, k);
      var lots := tree.NodesOfType("LOT");
      var j, act :| 0 <= j < |lots| && LotView(tree, rows, info, lots[j], act) == Some(results[k]);
      LotViewNonEmpty(tree, rows, info, lots[j], act);
    } else {
      CalculatedOrgKey(tree, rows, info, results, k);
      var act :| OrgView(tree, rows, info, act) == Some(results[k]);
      OrgViewNonEmpty(tree, rows, info, act);
    }
  }

  /** `IndicatorCalculator`: the tree, the INDICATORS rows, the
      INDICATORS_REF rows and the entries `_prepare_references` draws from
      them. */
  class IndicatorCalculator {
    const tree: OrganizationTree
    const rows: seq<IndicatorRow>
    const refs: seq<IndicatorRef>
    var indicatorInfo: Dict<string, IndicatorInfo>

    ghost predicate Valid()
      reads this
    {
      indicatorInfo == InfoOf(refs)
    }

    constructor (tree: OrganizationTree, rows: seq<IndicatorRow>, refs: seq<IndicatorRef>)
      ensures this.tree == tree && this.rows == rows && this.refs == refs
      ensures Valid()
    {
      this.tree := tree;
      this.rows := rows;
      this.refs := refs;
      new;
      PrepareReferences();
    }

    /** `_prepare_references`: one entry per reference row, a later row
        with the same code replacing the earlier entry (see `InfoOfLast`). */
    method PrepareReferences()
      modifies this
      ensures indicatorInfo == InfoOf(refs)
    {
      ghost var ps := InfoPairs(refs);
      indicatorInfo := [];
      for i := 0 to |refs|
        invariant indicatorInfo == FromPairs(ps[..i])
      {
        FromPairsSnoc(ps, i);
        indicatorInfo := Put(indicatorInfo, refs[i].indicatorCode, InfoFrom(refs[i]));
      }
      assert ps[..|refs|] == ps;
    }

    /** `_calculate_lot_activity`. */
    method CalculateLotActivity(lotId: string, lotName: string, act: string)
      returns (r: Option<IndicatorResult>)
      requires tree.Valid() && tree.Acyclic()
      ensures var d := LotIndicators(indicatorInfo, rows, lotId, EntIds(tree, lotId, act), act);
        && (r.None? <==> d.None?)
        && (r.Some? ==> fresh(r.value) && View(r.value) == ResultView(lotId, lotName, act, d.value))
    {
      var entIds := tree.GetEntIdsByActivity(lotId, act);
      r := GroupedResult(lotId, lotName, entIds, act);
    }

    /** `_calculate_lot_activity` once the ENT ids are known: the selection,
        the grouping and the loop over the groups. */
    method GroupedResult(lotId: string, lotName: string, entIds: seq<string>, act: string)
      returns (r: Option<IndicatorResult>)
      ensures var d := LotIndicators(indicatorInfo, rows, lotId, entIds, act);
        && (r.None? <==> d.None?)
        && (r.Some? ==> fresh(r.value) && View(r.value) == ResultView(lotId, lotName, act, d.value))
    {
      var sel := LotRows(rows, lotId, entIds, act);
      if |sel| == 0 {
        return None;
      }
      var result := new IndicatorResult(lotId, lotName, act);
      var codes := GroupedCodes(sel);
      ghost var ps := GroupPairs(indicatorInfo, sel);
      for i := 0 to |codes|
        invariant result.indicators == FromPairs(ps[..i])
      {
        FromPairsSnoc(ps, i);
        result.AddIndicator(GroupValue(indicatorInfo, sel, codes[i]));
      }
      assert ps[..|codes|] == ps;
      assert result.indicators == Grouped(indicatorInfo, sel);
      r := Some(result);
    }

    /** `_calculate_org_activity`. */
    method CalculateOrgActivity(orgId: string, orgName: string, act: string)
      returns (r: Option<IndicatorResult>)
      ensures var d := OrgIndicators(indicatorInfo, rows, orgId, act);
        && (r.None? <==> d.None?)
        && (r.Some? ==> fresh(r.value) && View(r.value) == ResultView(orgId, orgName, act, d.value))
    {
      var sel := OrgRows(rows, orgId, act);
      if |sel| == 0 {
        return None;
      }
      var result := new IndicatorResult(orgId, orgName, act);
      ghost var ps := RowPairs(indicatorInfo, sel);
      for i := 0 to |sel|
        invariant result.indicators == FromPairs(ps[..i])
      {
        FromPairsSnoc(ps, i);
        result.AddIndicator(RowValue(indicatorInfo, sel[i]));
      }
      assert ps[..|sel|] == ps;
      r := Some(result);
    }

    /** One activity of a LOT in `calculate`: its result, when there is
        one, goes under "LOT_{id}_{activity}". */
    method AddLotActivity(lot: TreeNode, act: string, results0: map<string, IndicatorResult>,
                          ghost views0: map<string, ResultView>)
      returns (results: map<string, IndicatorResult>, ghost views: map<string, ResultView>)
      requires tree.Valid() && tree.Acyclic() && Mirrors(results0, views0)
      ensures Mirrors(results, views)
      ensures LotView(tree, rows, indicatorInfo, lot, act).None? ==> views == views0
      ensures LotView(tree, rows, indicatorInfo, lot, act).Some? ==>
        views == views0[LotKey(lot.nodeId, act) := LotView(tree, rows, indicatorInfo, lot, act).value]
    {
      var r := CalculateLotActivity(lot.nodeId, lot.nodeName, act);
      LotIndicatorsPresent(indicatorInfo, rows, lot.nodeId, EntIds(tree, lot.nodeId, act), act);
      results, views := results0, views0;
      if r.Some? && |r.value.indicators| > 0 {
        MirrorsPut(results, views, LotKey(lot.nodeId, act), r.value);
        results := results[LotKey(lot.nodeId, act) := r.value];
        views := views[LotKey(lot.nodeId, act) := View(r.value)];
      }
    }

    /** The inner loop of `calculate` for one LOT: a result, under
        "LOT_{id}_{activity}", for each activity of `acts` that has one.
        The activities come from a set, whose order is not modelled. */
    method AddLotActivities(lot: TreeNode, acts: set<string>, results0: map<string, IndicatorResult>,
                            ghost views0: map<string, ResultView>)
      returns (results: map<string, IndicatorResult>, ghost views: map<string, ResultView>)
      requires tree.Valid() && tree.Acyclic() && Mirrors(results0, views0)
      ensures Mirrors(results, views)
      ensures ActivitiesDone("LOT_" + lot.nodeId + "_", acts, LotWant(tree, rows, indicatorInfo, lot, acts), views0, views)
    {
      ghost var want := LotWant(tree, rows, indicatorInfo, lot, acts);
      ghost var prefix := "LOT_" + lot.nodeId + "_";
      results, views := results0, views0;
      var left := acts;
      while left != {}
        invariant left <= acts
        invariant Mirrors(results, views)
        invariant ActivitiesDone(prefix, acts - left, want, views0, views)
        decreases |left|
      {
        var act :| act in left;
        if act in want {
          ActivityDone(prefix, acts - left, act, want, views0, views);
        } else {
          ActivitySkipped(prefix, acts - left, act, want, views0, views);
        }
        results, views := AddLotActivity(lot, act, results, views);
        SetStep(acts, left, act);
        left := left - {act};
      }
    }

    /** The entries of one LOT: `get_lot_activities`, then the inner loop;
        `acts` and `want` are that LOT's activities and wanted results. */
    method AddLotEntries(lot: TreeNode, ghost acts: set<string>, ghost want: map<string, ResultView>,
                         results0: map<string, IndicatorResult>, ghost views0: map<string, ResultView>)
      returns (results: map<string, IndicatorResult>, ghost views: map<string, ResultView>)
      requires tree.Valid() && tree.Acyclic() && Mirrors(results0, views0) && "ORG" !in views0
      requires acts == LotActs(tree, lot.nodeId) && want == LotWant(tree, rows, indicatorInfo, lot, acts)
      ensures Mirrors(results, views) && "ORG" !in views
      ensures want.Keys <= acts && ActivitiesDone("LOT_" + lot.nodeId + "_", acts, want, views0, views)
    {
      var found := tree.GetLotActivities(lot.nodeId);
      LotActsAre(tree, lot.nodeId, found);
      results, views := AddLotActivities(lot, found, results0, views0);
      ActivitiesAddNoOrg("LOT_" + lot.nodeId + "_", acts, want, views0, views);
    }

    /** One activity of the organisation in `calculate`: its result, when
        there is one, goes under "ORG_{activity}". */
    method AddOrgActivity(act: string, results0: map<string, IndicatorResult>, ghost views0: map<string, ResultView>)
      returns (results: map<string, IndicatorResult>, ghost views: map<string, ResultView>)
      requires tree.Valid() && tree.Acyclic() && Mirrors(results0, views0)
      ensures Mirrors(results, views)
      ensures OrgView(tree, rows, indicatorInfo, act).None? ==> views == views0
      ensures OrgView(tree, rows, indicatorInfo, act).Some? ==>
        views == views0[OrgKey(act) := OrgView(tree, rows, indicatorInfo, act).value]
    {
      var org := tree.GetOrg();
      var r := CalculateOrgActivity(org.nodeId, org.nodeName, act);
      OrgIndicatorsPresent(indicatorInfo, rows, org.nodeId, act);
      results, views := results0, views0;
      if r.Some? && |r.value.indicators| > 0 {
        MirrorsPut(results, views, OrgKey(act), r.value);
        results := results[OrgKey(act) := r.value];
        views := views[OrgKey(act) := View(r.value)];
      }
    }

    /** The loop of `calculate` over the organisation's activities, when the
        tree has no LOTs: a result under "ORG_{activity}" for each activity
        that has one. The activities come from a set, whose order is not
        modelled. */
    method AddOrgActivities(acts: set<string>) returns (results: map<string, IndicatorResult>, ghost views: map<string, ResultView>)
      requires tree.Valid() && tree.Acyclic()
      ensures Mirrors(results, views)
      ensures ActivitiesDone("ORG_", acts, OrgWant(tree, rows, indicatorInfo, acts), map[], views)
    {
      ghost var want := OrgWant(tree, rows, indicatorInfo, acts);
      results, views := map[], map[];
      var left := acts;
      while left != {}
        invariant left <= acts
        invariant Mirrors(results, views)
        invariant ActivitiesDone("ORG_", acts - left, want, map[], views)
        decreases |left|
      {
        var act :| act in left;
        if act in want {
          ActivityDone("ORG_", acts - left, act, want, map[], views);
        } else {
          ActivitySkipped("ORG_", acts - left, act, want, map[], views);
        }
        results, views := AddOrgActivity(act, results, views);
        SetStep(acts, left, act);
        left := left - {act};
      }
    }

    /** The loop of `calculate` over `get_lots`. */
    method AddLots() returns (results: map<string, IndicatorResult>, ghost views: map<string, ResultView>)
      requires tree.Valid() && tree.Acyclic()
      ensures Mirrors(results, views) && "ORG" !in views
      ensures var lots := tree.NodesOfType("LOT");
        LotsDone(IdsOf(lots), LotWants(tree, rows, indicatorInfo, lots), |lots|, views)
    {
      var lots := tree.NodesOfType("LOT");
      ghost var ids := IdsOf(lots);
      ghost var wants := LotWants(tree, rows, indicatorInfo, lots);
      LotWantsAgree(tree, rows, indicatorInfo, lots);
      results, views := map[], map[];
      for i := 0 to |lots|
        invariant Mirrors(results, views) && "ORG" !in views
        invariant LotsDone(ids, wants, i, views)
      {
        ghost var before := views;
        ghost var acts := LotActs(tree, lots[i].nodeId);
        results, views := AddLotEntries(lots[i], acts, wants[i], results, views);
        LotStep(ids, wants, i, acts, before, views);
      }
    }

    /** `calculate`. */
    method Calculate() returns (results: map<string, IndicatorResult>)
      requires tree.Valid() && tree.Acyclic()
      ensures Calculated(tree, rows, indicatorInfo, Views(results))
    {
      ghost var views;
      if tree.HasLots() {
        results, views := AddLots();
      } else {
        var acts := tree.GetOrgActivities();
        results, views := AddOrgActivities(acts);
        ghost var want := OrgWant(tree, rows, indicatorInfo, acts);
        ActivitiesAddNoOrg("ORG_", acts, want, map[], views);
        OrgStep(acts, want, map[], views);
      }
      assert Views(results) == views;
    }

    /** `get_sorted_indicators`: the indicators of `result` ordered by
        display order, ties keeping their order in the result. */
    function GetSortedIndicators(result: IndicatorResult): (r: seq<IndicatorValue>)
      reads this, result
      ensures multiset(r) == multiset(ValuesOf(result.indicators))
      ensures SortedBy(r, OrderBefore(indicatorInfo))
      ensures forall y ::
        TiedWith(r, y, OrderBefore(indicatorInfo)) == TiedWith(ValuesOf(result.indicators), y, OrderBefore(indicatorInfo))
    {
      var before := OrderBefore(indicatorInfo);
      OrderBeforeOrder(indicatorInfo);
      SortBySorted(ValuesOf(result.indicators), before);
      forall y ensures TiedWith(SortBy(ValuesOf(result.indicators), before), y, before) ==
        TiedWith(ValuesOf(result.indicators), y, before) {
        SortByStable(ValuesOf(result.indicators), y, before);
      }
      SortBy(ValuesOf(result.indicators), before)
    }
  }
}
