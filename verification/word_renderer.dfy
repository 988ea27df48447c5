/** `WordRenderer`: fills a Word template in four passes, in this order:
    the global `{{PLACEHOLDER}}` replacements, the repeatable-block passes
    (stubs that change nothing), the ORG pictures, and the removal of the body
    paragraphs left holding nothing but an upper-case placeholder. */
module Renderer {
  import opened Wrappers
  import opened Text
  import opened Sequences
  import opened Dicts
  import opened Docx
  import opened Emissions
  import opened WordBlocks

  /** The rendering context, one field per key the renderer reads; `None`
      stands for an absent key (and, for the keys the source tests with
      `is not None` or for truth, a None value). */
  datatype Context = Context(
    annee: Option<int>,
    orgResult: Option<EmissionResult>,
    kpiM3Eu: Option<real>,
    kpiM3Aep: Option<real>,
    posteLabels: map<string, string>,
    comparisonText: Option<string>,
    topN: Option<int>,
    hasLots: Option<bool>)

  /** What the renderer takes from `KPICalculator`, which is not part of this
      model: `format_number`, the flight and person equivalents, and the
      two-decimal rendering `f"{v:.2f}"` of a float. */
  datatype Formatters = Formatters(
    formatNumber: real -> string,
    flightEquivalent: real -> real,
    personEquivalent: real -> real,
    twoDecimals: real -> string)

  // ---------------------------------------------------------------------
  // `_build_simple_replacements`

  const AnneeKey := "{{annee}}"
  const OrgNameKey := "{{ORG_NAME}}"
  const TotalKey := "{{TOTAL_EMISSIONS}}"
  const TotalS1Key := "{{TOTAL_EMISSIONS_S1}}"
  const TotalS2Key := "{{TOTAL_EMISSIONS_S2}}"
  const TotalS3Key := "{{TOTAL_EMISSIONS_S3}}"
  const PourcS3Key := "{{pourc_s3_org}}"
  const KpiM3EuKey := "{{kpi_M3_EU}}"
  const KpiM3AepKey := "{{kpi_M3_AEP}}"
  const Kpi1Key := "{{kpi_1}}"
  const Kpi2Key := "{{kpi_2}}"
  const ComparisonKey := "{{ACTIVITY_VOLUME_COMPARISON_TEXT}}"
  const TopLengthKey := "{{TOP_POSTES_LONGUEUR}}"

  /** The keys that exist only with an ORG result. */
  function OrgKeys(): seq<string> {
    [OrgNameKey, TotalKey, TotalS1Key, TotalS2Key, TotalS3Key, PourcS3Key, Kpi1Key, Kpi2Key]
  }

  /** `f'{{{{TOP_POSTE_{i}}}}}'`. */
  function TopPosteKey(i: nat): string {
    "{{TOP_POSTE_" + NatToString(i) + "}}"
  }

  /** `str(context.get('annee', '2024'))`. */
  function YearText(ctx: Context): string {
    match ctx.annee
    case None => "2024"
    case Some(y) => IntToString(y)
  }

  /** `f"{v:.2f} kgCO₂e/m³".replace(".", ",")`, or "N/A" without a value. */
  function M3Text(fmt: Formatters, v: Option<real>): string {
    match v
    case None => "N/A"
    case Some(x) => Replace(fmt.twoDecimals(x) + " kgCO\U{2082}e/m\U{b3}", ".", ",")
  }

  /** `poste_labels.get(code, code)`. */
  function PosteLabel(labels: map<string, string>, code: string): (r: string)
    ensures code in labels ==> r == labels[code]
    ensures code !in labels ==> r == code
  {
    if code in labels then labels[code] else code
  }

  /** The assignments of the first three postes, numbered from 1. */
  function TopAssignments(labels: map<string, string>, top: seq<(string, real)>): (ps: Replacements)
    ensures |ps| == if |top| < 3 then |top| else 3
    ensures forall j :: 0 <= j < |ps| ==> ps[j] == (TopPosteKey(j + 1), PosteLabel(labels, top[j].0))
  {
    var top3 := if |top| < 3 then top else top[..3];
    seq(|top3|, j requires 0 <= j < |top3| => (TopPosteKey(j + 1), PosteLabel(labels, top3[j].0)))
  }

  function OrgAssignments(fmt: Formatters, org: EmissionResult): Replacements {
    [(OrgNameKey, org.nodeName),
     (TotalKey, fmt.formatNumber(org.total)),
     (TotalS1Key, fmt.formatNumber(org.scope1)),
     (TotalS2Key, fmt.formatNumber(org.scope2)),
     (TotalS3Key, fmt.formatNumber(org.scope3)),
     (PourcS3Key, fmt.formatNumber(org.ScopePercentage(3)))]
  }

  function EquivalentAssignments(fmt: Formatters, org: EmissionResult): Replacements {
    [(Kpi1Key, fmt.formatNumber(fmt.flightEquivalent(org.total))),
     (Kpi2Key, fmt.formatNumber(fmt.personEquivalent(org.total)))]
  }

  /** The assignments `replacements[key] = value` in the order the source
      makes them. */
  function Assignments(ctx: Context, fmt: Formatters): Replacements {
    var org := ctx.orgResult;
    [(AnneeKey, YearText(ctx))]
    + (if org.Some? then OrgAssignments(fmt, org.value) else [])
    + [(KpiM3EuKey, M3Text(fmt, ctx.kpiM3Eu)), (KpiM3AepKey, M3Text(fmt, ctx.kpiM3Aep))]
    + (if org.Some? then EquivalentAssignments(fmt, org.value) else [])
    + (if org.Some? && org.value.topPostes != [] then TopAssignments(ctx.posteLabels, org.value.topPostes) else [])
    + [(ComparisonKey, ctx.comparisonText.GetOr("")), (TopLengthKey, IntToString(ctx.topN.GetOr(4)))]
  }

  /** `_build_simple_replacements`: the dict those assignments build from an
      empty one. */
  function SimpleReplacements(ctx: Context, fmt: Formatters): Replacements {
    FromPairs(Assignments(ctx, fmt))
  }

  /** A numbered key has the shape "{{TOP_POSTE_<digits>}}". */
  lemma TopPosteKeyShape(i: nat)
    ensures var k := TopPosteKey(i);
      && |k| >= 15 && k[..2] == "{{" && k[|k| - 2..] == "}}"
      && k[2] == 'T' && k[4] == 'P' && k[11] == '_'
  {
  }

  lemma {:induction false} NatToStringInjective(a: nat, b: nat)
    requires NatToString(a) == NatToString(b)
    ensures a == b
    decreases a
  {
    if a >= 10 && b >= 10 {
      var s := NatToString(a);
      assert NatToString(a / 10) == s[..|s| - 1] == NatToString(b / 10);
      NatToStringInjective(a / 10, b / 10);
      assert a % 10 == b % 10 by {
        assert DigitChar(a % 10) == s[|s| - 1] == DigitChar(b % 10);
      }
    }
  }

  /** Different numbers give different keys. */
  lemma TopPosteKeyInjective(i: nat, j: nat)
    requires TopPosteKey(i) == TopPosteKey(j)
    ensures i == j
  {
    var k := TopPosteKey(i);
    assert NatToString(i) == k[12..|k| - 2];
    assert NatToString(j) == k[12..|k| - 2];
    NatToStringInjective(i, j);
  }

  /** The fixed keys, in the order they are assigned. */
  function FixedKeys(): seq<string> {
    [AnneeKey] + OrgKeys()[..6] + [KpiM3EuKey, KpiM3AepKey] + OrgKeys()[6..] + [ComparisonKey, TopLengthKey]
  }

  /** The numbered keys differ from every fixed key. */
  lemma TopPosteKeyNotFixed(i: nat)
    ensures TopPosteKey(i) !in FixedKeys()
  {
    TopPosteKeyShape(i);
  }

  /** The keys set with or without an ORG result and with `n` numbered
      postes, in assignment order. */
  function AssignedKeys(org: bool, n: nat): seq<string> {
    [AnneeKey] + (if org then OrgKeys()[..6] else []) + [KpiM3EuKey, KpiM3AepKey]
    + (if org then OrgKeys()[6..] else [])
    + TopKeys(n) + [ComparisonKey, TopLengthKey]
  }

  /** `{{TOP_POSTE_1}}` to `{{TOP_POSTE_n}}`. */
  function TopKeys(n: nat): (ks: seq<string>)
    ensures |ks| == n && forall j :: 0 <= j < n ==> ks[j] == TopPosteKey(j + 1)
  {
    seq(n, j requires 0 <= j < n => TopPosteKey(j + 1))
  }

  /** How many postes are numbered. */
  function TopCount(ctx: Context): nat {
    var org := ctx.orgResult;
    if org.Some? && org.value.topPostes != [] then |TopAssignments(ctx.posteLabels, org.value.topPostes)| else 0
  }

  lemma AssignmentsKeys(ctx: Context, fmt: Formatters)
    ensures TopCount(ctx) <= 3 && (ctx.orgResult.None? ==> TopCount(ctx) == 0)
    ensures KeysOf(Assignments(ctx, fmt)) == AssignedKeys(ctx.orgResult.Some?, TopCount(ctx))
  {
    var org := ctx.orgResult;
    var a0: Replacements := [(AnneeKey, YearText(ctx))];
    var a1 := if org.Some? then OrgAssignments(fmt, org.value) else [];
    var a2 := [(KpiM3EuKey, M3Text(fmt, ctx.kpiM3Eu)), (KpiM3AepKey, M3Text(fmt, ctx.kpiM3Aep))];
    var a3 := if org.Some? then EquivalentAssignments(fmt, org.value) else [];
    var a4 := if org.Some? && org.value.topPostes != [] then TopAssignments(ctx.posteLabels, org.value.topPostes) else [];
    var a5 := [(ComparisonKey, ctx.comparisonText.GetOr("")), (TopLengthKey, IntToString(ctx.topN.GetOr(4)))];
    assert KeysOf(Assignments(ctx, fmt)) == KeysOf(a0) + KeysOf(a1) + KeysOf(a2) + KeysOf(a3) + KeysOf(a4) + KeysOf(a5) by {
      assert Assignments(ctx, fmt) == a0 + a1 + a2 + a3 + a4 + a5;
      KeysOfConcat(a0, a1);
      KeysOfConcat(a0 + a1, a2);
      KeysOfConcat(a0 + a1 + a2, a3);
      KeysOfConcat(a0 + a1 + a2 + a3, a4);
      KeysOfConcat(a0 + a1 + a2 + a3 + a4, a5);
    }
    assert KeysOf(a0) == [AnneeKey];
    assert KeysOf(a1) == if org.Some? then OrgKeys()[..6] else [];
    assert KeysOf(a2) == [KpiM3EuKey, KpiM3AepKey];
    assert KeysOf(a3) == if org.Some? then OrgKeys()[6..] else [];
    assert KeysOf(a4) == TopKeys(TopCount(ctx));
    assert KeysOf(a5) == [ComparisonKey, TopLengthKey];
  }

  /** The top keys for `n` postes, by their literal values. */
  lemma TopKeysLiteral(n: nat)
    requires n <= 3
    ensures TopKeys(n) == ["{{TOP_POSTE_1}}", "{{TOP_POSTE_2}}", "{{TOP_POSTE_3}}"][..n]
  {
    assert TopPosteKey(1) == "{{TOP_POSTE_1}}";
    assert TopPosteKey(2) == "{{TOP_POSTE_2}}";
    assert TopPosteKey(3) == "{{TOP_POSTE_3}}";
  }

  /** Every key the source can assign, in assignment order. */
  lemma AllKeysDistinct()
    ensures Distinct([AnneeKey, OrgNameKey, TotalKey, TotalS1Key, TotalS2Key, TotalS3Key, PourcS3Key, KpiM3EuKey, KpiM3AepKey,
                      Kpi1Key, Kpi2Key, "{{TOP_POSTE_1}}", "{{TOP_POSTE_2}}", "{{TOP_POSTE_3}}", ComparisonKey, TopLengthKey])
  {
  }

  lemma AssignedKeysDistinct(org: bool, n: nat)
    requires n <= 3 && (!org ==> n == 0)
    ensures Distinct(AssignedKeys(org, n))
  {
    TopKeysLiteral(n);
    if !org {
      assert AssignedKeys(org, n) == [AnneeKey, KpiM3EuKey, KpiM3AepKey, ComparisonKey, TopLengthKey];
    } else {
      var all := [AnneeKey, OrgNameKey, TotalKey, TotalS1Key, TotalS2Key, TotalS3Key, PourcS3Key, KpiM3EuKey, KpiM3AepKey,
                  Kpi1Key, Kpi2Key, "{{TOP_POSTE_1}}", "{{TOP_POSTE_2}}", "{{TOP_POSTE_3}}", ComparisonKey, TopLengthKey];
      AllKeysDistinct();
      DistinctCut(all, 11 + n, 14);
      assert AssignedKeys(org, n) == all[..11 + n] + all[14..];
    }
  }

  /** No key is assigned twice, so the dict lists the placeholders in the
      order the source assigns them, each once. */
  lemma SimpleReplacementsInOrder(ctx: Context, fmt: Formatters)
    ensures SimpleReplacements(ctx, fmt) == Assignments(ctx, fmt)
    ensures KeysOf(SimpleReplacements(ctx, fmt)) == AssignedKeys(ctx.orgResult.Some?, TopCount(ctx))
    ensures DistinctKeys(SimpleReplacements(ctx, fmt))
  {
    var ps := Assignments(ctx, fmt);
    AssignmentsKeys(ctx, fmt);
    AssignedKeysDistinct(ctx.orgResult.Some?, TopCount(ctx));
    assert DistinctKeys(ps) by {
      forall i, j | 0 <= i < j < |ps| ensures ps[i].0 != ps[j].0 {
        assert ps[i].0 == KeysOf(ps)[i] && ps[j].0 == KeysOf(ps)[j];
      }
    }
    FromPairsDistinct(ps);
  }

  /** `k` is a placeholder: it opens with "{{" and closes with "}}". */
  predicate Braced(k: string) {
    |k| >= 4 && k[0] == '{' && k[1] == '{' && k[|k| - 2] == '}' && k[|k| - 1] == '}'
  }

  /** An assigned key is a fixed key or a numbered one. */
  lemma AssignedKeysFrom(org: bool, n: nat, k: string)
    requires k in AssignedKeys(org, n)
    ensures k in FixedKeys() || k in TopKeys(n)
  {
  }

  lemma FixedKeysBraced()
    ensures forall k :: k in FixedKeys() ==> Braced(k)
  {
    var f := FixedKeys();
    assert |f| == 13;
    assert Braced(f[0]) && Braced(f[1]) && Braced(f[2]) && Braced(f[3]) && Braced(f[4]) && Braced(f[5]) && Braced(f[6]);
    assert Braced(f[7]) && Braced(f[8]) && Braced(f[9]) && Braced(f[10]) && Braced(f[11]) && Braced(f[12]);
    forall k | k in f ensures Braced(k) {
      var i :| 0 <= i < 13 && f[i] == k;
    }
  }

  lemma AssignedKeysBraced(org: bool, n: nat)
    ensures forall k :: k in AssignedKeys(org, n) ==> Braced(k)
  {
    FixedKeysBraced();
    forall k | k in AssignedKeys(org, n) ensures Braced(k) {
      AssignedKeysFrom(org, n, k);
      if k !in FixedKeys() {
        var j :| 0 <= j < n && TopKeys(n)[j] == k;
        TopPosteKeyShape(j + 1);
      }
    }
  }

  /** Every key is a placeholder. */
  lemma SimpleReplacementsBraced(ctx: Context, fmt: Formatters)
    ensures forall k :: k in KeysOf(SimpleReplacements(ctx, fmt)) ==> Braced(k)
  {
    SimpleReplacementsInOrder(ctx, fmt);
    AssignedKeysBraced(ctx.orgResult.Some?, TopCount(ctx));
  }

  /** The keys defined whatever the context, with their defaults: the year
      ("2024"), both m³ KPIs ("N/A" without a value), the comparison text
      ("") and the number of top postes (4). */
  lemma SimpleReplacementsAlways(ctx: Context, fmt: Formatters)
    ensures var r := SimpleReplacements(ctx, fmt);
      && Find(r, AnneeKey) == Some(if ctx.annee.None? then "2024" else IntToString(ctx.annee.value))
      && Find(r, KpiM3EuKey) == Some(if ctx.kpiM3Eu.None? then "N/A" else M3Text(fmt, ctx.kpiM3Eu))
      && Find(r, KpiM3AepKey) == Some(if ctx.kpiM3Aep.None? then "N/A" else M3Text(fmt, ctx.kpiM3Aep))
      && Find(r, ComparisonKey) == Some(if ctx.comparisonText.None? then "" else ctx.comparisonText.value)
      && Find(r, TopLengthKey) == Some(IntToString(if ctx.topN.None? then 4 else ctx.topN.value))
  {
    SimpleReplacementsInOrder(ctx, fmt);
    var ps := Assignments(ctx, fmt);
    FindMember(ps, AnneeKey, YearText(ctx));
    FindMember(ps, KpiM3EuKey, M3Text(fmt, ctx.kpiM3Eu));
    FindMember(ps, KpiM3AepKey, M3Text(fmt, ctx.kpiM3Aep));
    FindMember(ps, ComparisonKey, ctx.comparisonText.GetOr(""));
    FindMember(ps, TopLengthKey, IntToString(ctx.topN.GetOr(4)));
  }

  /** An ORG key is assigned exactly when there is an ORG result. */
  lemma OrgKeyAssigned(org: bool, n: nat, k: string)
    requires k in OrgKeys() && (!org ==> n == 0)
    ensures k in AssignedKeys(org, n) <==> org
  {
    if org {
      var o := OrgKeys();
      assert o == o[..6] + o[6..];
    } else {
      assert AssignedKeys(org, n) == [AnneeKey, KpiM3EuKey, KpiM3AepKey, ComparisonKey, TopLengthKey];
    }
  }

  /** The ORG keys exist exactly when there is an ORG result. */
  lemma SimpleReplacementsOrgKeys(ctx: Context, fmt: Formatters, k: string)
    requires k in OrgKeys()
    ensures Find(SimpleReplacements(ctx, fmt), k).Some? <==> ctx.orgResult.Some?
  {
    SimpleReplacementsInOrder(ctx, fmt);
    OrgKeyAssigned(ctx.orgResult.Some?, TopCount(ctx), k);
  }

  /** The pair at position `j` of a dict with distinct keys: its key maps to its value. */
  lemma FindAt(d: Replacements, j: nat, k: string, v: string)
    requires DistinctKeys(d) && j < |d| && d[j] == (k, v)
    ensures Find(d, k) == Some(v)
  {
    FindMember(d, k, v);
  }

  /** Where the ORG assignments sit among all of them. */
  lemma OrgAssignmentsAt(ctx: Context, fmt: Formatters)
    requires ctx.orgResult.Some?
    ensures var ps, org := Assignments(ctx, fmt), ctx.orgResult.value;
      && |ps| >= 11
      && ps[1..7] == OrgAssignments(fmt, org)
      && ps[9..11] == EquivalentAssignments(fmt, org)
  {
  }

  /** With an ORG result, the ORG keys hold its name, its formatted totals,
      its scope-3 share and its two equivalents. */
  lemma SimpleReplacementsOrg(ctx: Context, fmt: Formatters)
    requires ctx.orgResult.Some?
    ensures var r, org := SimpleReplacements(ctx, fmt), ctx.orgResult.value;
      && Find(r, OrgNameKey) == Some(org.nodeName)
      && Find(r, TotalKey) == Some(fmt.formatNumber(org.total))
      && Find(r, TotalS1Key) == Some(fmt.formatNumber(org.scope1))
      && Find(r, TotalS2Key) == Some(fmt.formatNumber(org.scope2))
      && Find(r, TotalS3Key) == Some(fmt.formatNumber(org.scope3))
      && Find(r, PourcS3Key) == Some(fmt.formatNumber(org.ScopePercentage(3)))
      && Find(r, Kpi1Key) == Some(fmt.formatNumber(fmt.flightEquivalent(org.total)))
      && Find(r, Kpi2Key) == Some(fmt.formatNumber(fmt.personEquivalent(org.total)))
  {
    SimpleReplacementsInOrder(ctx, fmt);
    OrgAssignmentsAt(ctx, fmt);
    var r, org := SimpleReplacements(ctx, fmt), ctx.orgResult.value;
    FindOrgAssignments(r, fmt, org);
    FindEquivalentAssignments(r, fmt, org);
  }

  /** A dict holding the ORG assignments at positions 1 to 6 maps their keys to their values. */
  lemma FindOrgAssignments(d: Replacements, fmt: Formatters, org: EmissionResult)
    requires DistinctKeys(d) && |d| >= 7 && d[1..7] == OrgAssignments(fmt, org)
    ensures Find(d, OrgNameKey) == Some(org.nodeName)
    ensures Find(d, TotalKey) == Some(fmt.formatNumber(org.total))
    ensures Find(d, TotalS1Key) == Some(fmt.formatNumber(org.scope1))
    ensures Find(d, TotalS2Key) == Some(fmt.formatNumber(org.scope2))
    ensures Find(d, TotalS3Key) == Some(fmt.formatNumber(org.scope3))
    ensures Find(d, PourcS3Key) == Some(fmt.formatNumber(org.ScopePercentage(3)))
  {
    var os := OrgAssignments(fmt, org);
    assert d[1] == os[0] && d[2] == os[1] && d[3] == os[2] && d[4] == os[3] && d[5] == os[4] && d[6] == os[5];
    FindAt(d, 1, OrgNameKey, org.nodeName);
    FindAt(d, 2, TotalKey, fmt.formatNumber(org.total));
    FindAt(d, 3, TotalS1Key, fmt.formatNumber(org.scope1));
    FindAt(d, 4, TotalS2Key, fmt.formatNumber(org.scope2));
    FindAt(d, 5, TotalS3Key, fmt.formatNumber(org.scope3));
    FindAt(d, 6, PourcS3Key, fmt.formatNumber(org.ScopePercentage(3)));
  }

  /** A dict holding the two equivalents at positions 9 and 10 maps their keys to their values. */
  lemma FindEquivalentAssignments(d: Replacements, fmt: Formatters, org: EmissionResult)
    requires DistinctKeys(d) && |d| >= 11 && d[9..11] == EquivalentAssignments(fmt, org)
    ensures Find(d, Kpi1Key) == Some(fmt.formatNumber(fmt.flightEquivalent(org.total)))
    ensures Find(d, Kpi2Key) == Some(fmt.formatNumber(fmt.personEquivalent(org.total)))
  {
    var es := EquivalentAssignments(fmt, org);
    assert d[9] == es[0] && d[10] == es[1];
    FindAt(d, 9, Kpi1Key, fmt.formatNumber(fmt.flightEquivalent(org.total)));
    FindAt(d, 10, Kpi2Key, fmt.formatNumber(fmt.personEquivalent(org.total)));
  }

  /** `{{TOP_POSTE_i}}` exists exactly for 1 <= i <= min(3, |top_postes|) of
      an ORG result, and holds the label of the i-th top poste, its code when
      it has no label. */
  lemma SimpleReplacementsTop(ctx: Context, fmt: Formatters, i: nat)
    ensures var r, org := SimpleReplacements(ctx, fmt), ctx.orgResult;
      Find(r, TopPosteKey(i)) ==
        if org.Some? && 1 <= i <= |org.value.topPostes| && i <= 3
        then Some(PosteLabel(ctx.posteLabels, org.value.topPostes[i - 1].0))
        else None
  {
    var org := ctx.orgResult;
    if org.Some? && 1 <= i <= |org.value.topPostes| && i <= 3 {
      TopPresent(ctx, fmt, i);
    } else {
      TopAbsent(ctx, fmt, i);
    }
  }

  lemma TopPresent(ctx: Context, fmt: Formatters, i: nat)
    requires ctx.orgResult.Some? && 1 <= i <= |ctx.orgResult.value.topPostes| && i <= 3
    ensures Find(SimpleReplacements(ctx, fmt), TopPosteKey(i)) == Some(PosteLabel(ctx.posteLabels, ctx.orgResult.value.topPostes[i - 1].0))
  {
    SimpleReplacementsInOrder(ctx, fmt);
    var r, top := SimpleReplacements(ctx, fmt), TopAssignments(ctx.posteLabels, ctx.orgResult.value.topPostes);
    TopAssignmentsAt(ctx, fmt);
    var name := PosteLabel(ctx.posteLabels, ctx.orgResult.value.topPostes[i - 1].0);
    assert r[10 + i] == top[i - 1] == (TopPosteKey(i), name);
    FindAt(r, 10 + i, TopPosteKey(i), name);
  }

  lemma TopAbsent(ctx: Context, fmt: Formatters, i: nat)
    requires !(ctx.orgResult.Some? && 1 <= i <= |ctx.orgResult.value.topPostes| && i <= 3)
    ensures Find(SimpleReplacements(ctx, fmt), TopPosteKey(i)) == None
  {
    SimpleReplacementsInOrder(ctx, fmt);
    var n := TopCount(ctx);
    assert !(1 <= i <= n);
    TopKeyAssigned(ctx.orgResult.Some?, n, i);
  }

  /** Where the top-poste assignments sit among all of them. */
  lemma TopAssignmentsAt(ctx: Context, fmt: Formatters)
    requires ctx.orgResult.Some? && ctx.orgResult.value.topPostes != []
    ensures var ps, top := Assignments(ctx, fmt), TopAssignments(ctx.posteLabels, ctx.orgResult.value.topPostes);
      11 + |top| <= |ps| && ps[11..11 + |top|] == top
  {
  }

  /** `{{TOP_POSTE_i}}` is assigned exactly for 1 <= i <= n. */
  lemma TopKeyAssigned(org: bool, n: nat, i: nat)
    ensures TopPosteKey(i) in AssignedKeys(org, n) <==> 1 <= i <= n
  {
    var k := TopPosteKey(i);
    TopPosteKeyNotFixed(i);
    if k in AssignedKeys(org, n) {
      AssignedKeysFrom(org, n, k);
      var j :| 0 <= j < n && TopKeys(n)[j] == k;
      TopPosteKeyInjective(i, j + 1);
    }
    if 1 <= i <= n {
      assert TopKeys(n)[i - 1] == k;
      var front := [AnneeKey] + (if org then OrgKeys()[..6] else []) + [KpiM3EuKey, KpiM3AepKey] + (if org then OrgKeys()[6..] else []);
      assert AssignedKeys(org, n) == front + TopKeys(n) + [ComparisonKey, TopLengthKey];
      assert AssignedKeys(org, n)[|front| + i - 1] == k;
    }
  }


  // ---------------------------------------------------------------------
  // `_replace_in_paragraph`

  /** The paragraph after `_replace_in_paragraph`: untouched when its text
      has no "{{"; otherwise the replacements applied in dict order and
      written back, when the text changed, as `replace_in_block` does. */
  function ParagraphReplaced(p: Paragraph, reps: Replacements): Paragraph {
    if !Contains(ParagraphText(p), "{{") then p else Substituted(p, reps, false)
  }

  /** What the paragraph holds afterwards: the replaced text, all of it in
      the first run when it changed, the other runs emptied, every style
      kept; a paragraph whose text does not change is left exactly as it
      was. A paragraph without runs has no text, so it never changes. */
  lemma ParagraphReplacedFacts(p: Paragraph, reps: Replacements)
    ensures var r, text := ParagraphReplaced(p, reps), ParagraphText(p);
      && (!Contains(text, "{{") ==> r == p)
      && (Contains(text, "{{") ==> ParagraphText(r) == ReplaceAll(text, reps))
      && (ParagraphText(r) == text ==> r == p)
      && r.alignment == p.alignment
      && (ParagraphText(r) != text && p.runs != [] ==>
            && |r.runs| == |p.runs| && r.runs[0].text == ParagraphText(r)
            && (forall i :: 0 <= i < |r.runs| ==> r.runs[i].style == p.runs[i].style)
            && (forall i :: 1 <= i < |r.runs| ==> r.runs[i].text == []))
      && (p.runs == [] ==> r == p)
  {
    if Contains(ParagraphText(p), "{{") {
      SubstitutedText(p, reps, false);
    }
  }

  /** For replacements whose keys all open with "{{" (as every key the
      renderer builds does), the "{{" test only skips paragraphs that the
      replacements would leave as they are. */
  lemma GuardSkipsOnlyUnchanged(p: Paragraph, reps: Replacements)
    requires forall i :: 0 <= i < |reps| ==> "{{" <= reps[i].0
    ensures ParagraphReplaced(p, reps) == Substituted(p, reps, false)
  {
    var text := ParagraphText(p);
    if !Contains(text, "{{") {
      forall i | 0 <= i < |reps| ensures reps[i].0 != [] && !Contains(text, reps[i].0) {
        if Contains(text, reps[i].0) {
          ContainsPrefix(text, reps[i].0, "{{");
        }
      }
      ReplaceAllAbsent(text, reps);
    }
  }

  /** `_replace_in_paragraph`, on the paragraph's value. */
  method ReplaceInParagraph(p: Paragraph, reps: Replacements) returns (r: Paragraph)
    ensures r == ParagraphReplaced(p, reps)
  {
    var fullText := ParagraphText(p);
    if !Contains(fullText, "{{") {
      return p;
    }
    var newText := fullText;
    var j := 0;
    while j < |reps|
      invariant 0 <= j <= |reps|
      invariant ReplaceAll(newText, reps[j..]) == ReplaceAll(fullText, reps)
    {
      assert reps[j..][1..] == reps[j + 1..];
      newText := Replace(newText, reps[j].0, reps[j].1);
      j := j + 1;
    }
    r := if newText != fullText then Rewrite(p, newText) else p;
  }

  // ---------------------------------------------------------------------
  // `_replace_simple_placeholders`

  function ReplaceStep(reps: Replacements): Paragraph -> Paragraph {
    (p: Paragraph) => ParagraphReplaced(p, reps)
  }

  /** The body after the global pass: every body paragraph and every table
      cell paragraph replaced; other children untouched. */
  function SimpleReplaced(body: seq<Element>, reps: Replacements): (r: seq<Element>)
    ensures |r| == |body|
  {
    seq(|body|, k requires 0 <= k < |body| =>
      match body[k]
      case Para(p) => Para(ParagraphReplaced(p, reps))
      case Tbl(t) => Tbl(MapTable(t, ReplaceStep(reps)))
      case Other(_) => body[k])
  }

  /** A child whose kind is kept keeps the table view's shape; each table of
      the new view is `f` of the old one. */
  lemma {:induction false} TablesPointwise(a: seq<Element>, b: seq<Element>, f: Table -> Table)
    requires |a| == |b|
    requires forall k :: 0 <= k < |a| ==> (a[k].Tbl? <==> b[k].Tbl?)
    requires forall k :: 0 <= k < |a| && a[k].Tbl? ==> b[k].t == f(a[k].t)
    ensures |Tables(b)| == |Tables(a)|
    ensures forall i :: 0 <= i < |Tables(a)| ==> Tables(b)[i] == f(Tables(a)[i])
    decreases |a|
  {
    if a != [] {
      var n := |a|;
      TablesPointwise(a[..n - 1], b[..n - 1], f);
    }
  }

  /** In the views, the global pass replaces each body paragraph and each
      cell paragraph of each body table, and keeps their number. */
  lemma SimpleReplacedViews(body: seq<Element>, reps: Replacements)
    ensures var r := SimpleReplaced(body, reps);
      && |Paragraphs(r)| == |Paragraphs(body)|
      && (forall i :: 0 <= i < |Paragraphs(body)| ==> Paragraphs(r)[i] == ParagraphReplaced(Paragraphs(body)[i], reps))
      && |Tables(r)| == |Tables(body)|
      && (forall i :: 0 <= i < |Tables(body)| ==> Tables(r)[i] == MapTable(Tables(body)[i], ReplaceStep(reps)))
  {
    var r := SimpleReplaced(body, reps);
    ParagraphsPointwise(body, r, (i: nat, p: Paragraph) => ParagraphReplaced(p, reps));
    TablesPointwise(body, r, (t: Table) => MapTable(t, ReplaceStep(reps)));
  }

  // ---------------------------------------------------------------------
  // `_insert_image`

  /** `placeholder in paragraph.text`. */
  predicate Holds(p: Paragraph, placeholder: string) {
    Contains(ParagraphText(p), placeholder)
  }

  /** The position of the first element that passes `test`. */
  function FirstHit<T>(s: seq<T>, test: T -> bool): (r: Option<nat>)
    ensures r.Some? ==> r.value < |s| && test(s[r.value]) && forall j :: 0 <= j < r.value ==> !test(s[j])
    ensures r.None? ==> forall j :: 0 <= j < |s| ==> !test(s[j])
    decreases |s|
  {
    if s == [] then None
    else if test(s[0]) then Some(0)
    else match FirstHit(s[1..], test)
      case None => None
      case Some(i) => Some(i + 1)
  }

  function BodyHit(placeholder: string): Element -> bool {
    (x: Element) => x.Para? && Holds(x.p, placeholder)
  }

  function CellHit(placeholder: string): Paragraph -> bool {
    (p: Paragraph) => Holds(p, placeholder)
  }

  function TableHit(placeholder: string): Element -> bool {
    (x: Element) => x.Tbl? && FirstHit(TableParagraphs(x.t), CellHit(placeholder)).Some?
  }

  /** `paragraph.clear()` then `add_run().add_picture(...)`: the paragraph's
      content is a single run holding the picture; its formatting stays. */
  function Pictured(p: Paragraph, pic: Picture): (r: Paragraph)
    ensures ParagraphText(r) == [] && r.alignment == p.alignment
  {
    assert RunsText([Run([], "", Some(pic))]) == [] + RunsText([]);
    p.(runs := [Run([], "", Some(pic))])
  }

  /** The body after `_insert_image`: the first body paragraph holding the
      placeholder gets the picture; failing that, the first cell paragraph
      holding it in the first body table that has one; failing that,
      nothing changes. */
  function ImageInserted(body: seq<Element>, placeholder: string, pic: Picture): (r: seq<Element>)
    ensures |r| == |body|
  {
    match FirstHit(body, BodyHit(placeholder))
    case Some(k) => body[k := Para(Pictured(body[k].p, pic))]
    case None =>
      match FirstHit(body, TableHit(placeholder))
      case Some(k) =>
        var cells := TableParagraphs(body[k].t);
        var q := FirstHit(cells, CellHit(placeholder)).value;
        body[k := Tbl(SetTableParagraph(body[k].t, q, Pictured(cells[q], pic)))]
      case None => body
  }

  /** A body whose children differ only in a table keeps its paragraph view. */
  lemma ParagraphsKept(a: seq<Element>, b: seq<Element>)
    requires |a| == |b|
    requires forall k :: 0 <= k < |a| ==> (a[k].Para? <==> b[k].Para?) && (a[k].Para? ==> b[k] == a[k])
    ensures Paragraphs(b) == Paragraphs(a)
  {
    ParagraphsPointwise(a, b, (i: nat, p: Paragraph) => p);
  }

  /** A body whose children differ only in a paragraph keeps its table view. */
  lemma TablesKept(a: seq<Element>, b: seq<Element>)
    requires |a| == |b|
    requires forall k :: 0 <= k < |a| ==> (a[k].Tbl? <==> b[k].Tbl?) && (a[k].Tbl? ==> b[k] == a[k])
    ensures Tables(b) == Tables(a)
  {
    TablesPointwise(a, b, (t: Table) => t);
  }

  /** When a body paragraph holds the placeholder, only the first one that
      does (in `document.paragraphs` order) changes, to the picture; the
      tables are untouched. */
  lemma ImageInsertedInBody(body: seq<Element>, placeholder: string, pic: Picture, i: nat)
    requires i < |Paragraphs(body)| && Holds(Paragraphs(body)[i], placeholder)
    requires forall j :: 0 <= j < i ==> !Holds(Paragraphs(body)[j], placeholder)
    ensures var r, ps := ImageInserted(body, placeholder, pic), Paragraphs(body);
      Paragraphs(r) == ps[i := Pictured(ps[i], pic)] && Tables(r) == Tables(body)
  {
    var ps, pos := Paragraphs(body), ParaPositions(body);
    var hit := BodyHit(placeholder);
    assert hit(body[pos[i]]);
    var k := FirstHit(body, hit).value;
    ViewIndexAt(body, k);
    var i' := |Paragraphs(body[..k])|;
    assert pos[i'] == k && ps[i'] == body[k].p;
    assert i' == i;
    var r := ImageInserted(body, placeholder, pic);
    var f := (j: nat, p: Paragraph) => if j == i then Pictured(p, pic) else p;
    forall m | 0 <= m < |body| && body[m].Para? ensures r[m].p == f(|Paragraphs(body[..m])|, body[m].p) {
      if m != k {
        ViewIndexAt(body, m);
      }
    }
    ParagraphsPointwise(body, r, f);
    TablesKept(body, r);
  }

  /** When no body paragraph holds the placeholder, the body paragraphs stay
      as they are and only the first table that holds it in a cell changes,
      at its first cell paragraph that does. */
  lemma ImageInsertedInCell(body: seq<Element>, placeholder: string, pic: Picture, k: nat, q: nat)
    requires k < |body| && body[k].Tbl?
    requires forall m :: 0 <= m < |body| && body[m].Para? ==> !Holds(body[m].p, placeholder)
    requires forall m :: 0 <= m < k && body[m].Tbl? ==>
      forall j :: 0 <= j < |TableParagraphs(body[m].t)| ==> !Holds(TableParagraphs(body[m].t)[j], placeholder)
    requires q < |TableParagraphs(body[k].t)| && Holds(TableParagraphs(body[k].t)[q], placeholder)
    requires forall j :: 0 <= j < q ==> !Holds(TableParagraphs(body[k].t)[j], placeholder)
    ensures var r := ImageInserted(body, placeholder, pic);
      && Paragraphs(r) == Paragraphs(body)
      && (forall m :: 0 <= m < |body| && m != k ==> r[m] == body[m])
      && r[k].Tbl?
      && TableParagraphs(r[k].t) == TableParagraphs(body[k].t)[q := Pictured(TableParagraphs(body[k].t)[q], pic)]
  {
    var cells := TableParagraphs(body[k].t);
    assert FirstHit(body, BodyHit(placeholder)).None? by {
      forall m | 0 <= m < |body| ensures !BodyHit(placeholder)(body[m]) {
      }
    }
    var fc := FirstHit(cells, CellHit(placeholder));
    assert CellHit(placeholder)(cells[q]);
    assert fc == Some(q);
    var ft := FirstHit(body, TableHit(placeholder));
    assert TableHit(placeholder)(body[k]);
    assert ft == Some(k);
    var r := ImageInserted(body, placeholder, pic);
    ParagraphsKept(body, r);
  }

  /** With the placeholder in no body paragraph and no table cell, the
      document is unchanged. */
  lemma ImageInsertedNowhere(body: seq<Element>, placeholder: string, pic: Picture)
    requires forall m :: 0 <= m < |body| && body[m].Para? ==> !Holds(body[m].p, placeholder)
    requires forall m :: 0 <= m < |body| && body[m].Tbl? ==>
      forall j :: 0 <= j < |TableParagraphs(body[m].t)| ==> !Holds(TableParagraphs(body[m].t)[j], placeholder)
    ensures ImageInserted(body, placeholder, pic) == body
  {
    assert FirstHit(body, BodyHit(placeholder)).None? by {
      forall m | 0 <= m < |body| ensures !BodyHit(placeholder)(body[m]) {
      }
    }
  }

  // ---------------------------------------------------------------------
  // `_clean_empty_placeholders`

  /** A character of the class `[A-Z_0-9]`. */
  predicate TokenChar(c: char) {
    'A' <= c <= 'Z' || '0' <= c <= '9' || c == '_'
  }

  /** `re.match(r'^\{\{[A-Z_0-9]+\}\}$', s)` on a stripped text (which ends
      in no newline, so `$` can only match at its end). */
  predicate PlaceholderOnly(s: string) {
    && |s| >= 5 && s[..2] == "{{" && s[|s| - 2..] == "}}"
    && forall i :: 2 <= i < |s| - 2 ==> TokenChar(s[i])
  }

  /** A body paragraph the cleanup removes. */
  predicate BarePlaceholder(x: Element) {
    x.Para? && PlaceholderOnly(Stripped(x.p))
  }

  function KeepFilled(): Element -> bool {
    (x: Element) => !BarePlaceholder(x)
  }

  /** The body after `_clean_empty_placeholders`. */
  function Cleaned(body: seq<Element>): seq<Element> {
    Filter(body, KeepFilled())
  }

  function FilledParagraph(): Paragraph -> bool {
    (p: Paragraph) => !PlaceholderOnly(Stripped(p))
  }

  /** The cleaned body grows by its last child when that child is kept. */
  lemma CleanedSnoc(body: seq<Element>)
    requires body != []
    ensures var n := |body|;
      Cleaned(body) == Cleaned(body[..n - 1]) + if KeepFilled()(body[n - 1]) then [body[n - 1]] else []
  {
    assert body[..|body|] == body;
    FilterSnoc(body, |body|, KeepFilled());
  }

  /** The views of a single child. */
  lemma ViewsOne(x: Element)
    ensures Paragraphs([x]) == if x.Para? then [x.p] else []
    ensures Tables([x]) == if x.Tbl? then [x.t] else []
  {
    assert [x][..0] == [];
  }

  /** The cleanup filters the paragraph view by the same test. */
  lemma {:induction false} CleanedParagraphs(body: seq<Element>)
    ensures Paragraphs(Cleaned(body)) == Filter(Paragraphs(body), FilledParagraph())
    decreases |body|
  {
    if body != [] {
      var n := |body|;
      var init, last := body[..n - 1], body[n - 1];
      var keep := FilledParagraph();
      var kept := if KeepFilled()(last) then [last] else [];
      assert Paragraphs(Cleaned(body)) == Paragraphs(Cleaned(init)) + Paragraphs(kept) by {
        CleanedSnoc(body);
        ParagraphsConcat(Cleaned(init), kept);
      }
      assert Paragraphs(kept) == Filter(Paragraphs([last]), keep) by {
        ViewsOne(last);
      }
      assert Filter(Paragraphs(body), keep) == Filter(Paragraphs(init), keep) + Filter(Paragraphs([last]), keep) by {
        ViewsOne(last);
        assert Paragraphs(body) == Paragraphs(init) + Paragraphs([last]);
        FilterConcat(Paragraphs(init), Paragraphs([last]), keep);
      }
      CleanedParagraphs(init);
    }
  }

  /** The cleanup keeps the table view. */
  lemma {:induction false} CleanedTables(body: seq<Element>)
    ensures Tables(Cleaned(body)) == Tables(body)
    decreases |body|
  {
    if body != [] {
      var n := |body|;
      var init, last := body[..n - 1], body[n - 1];
      var kept := if KeepFilled()(last) then [last] else [];
      CleanedTables(init);
      assert Tables(Cleaned(body)) == Tables(Cleaned(init)) + Tables(kept) by {
        CleanedSnoc(body);
        TablesConcat(Cleaned(init), kept);
      }
      assert Tables(kept) == Tables([last]) by {
        ViewsOne(last);
      }
      assert Tables(body) == Tables(init) + Tables([last]) by {
        ViewsOne(last);
      }
    }
  }

  lemma {:induction false} TablesConcat(a: seq<Element>, b: seq<Element>)
    ensures Tables(a + b) == Tables(a) + Tables(b)
    decreases |b|
  {
    if b == [] {
      assert a + b == a;
    } else {
      var b' := b[..|b| - 1];
      assert (a + b)[..|a + b| - 1] == a + b';
      assert (a + b)[|a + b| - 1] == b[|b| - 1];
      TablesConcat(a, b');
    }
  }

  /** The cleanup removes exactly the body paragraphs whose stripped text is
      a single upper-case placeholder, keeps the other paragraphs in order,
      and never touches a table (so no cell paragraph is removed). */
  lemma CleanedSpec(body: seq<Element>)
    ensures var r := Cleaned(body);
      && (forall i :: 0 <= i < |r| ==> !BarePlaceholder(r[i]))
      && Paragraphs(r) == Filter(Paragraphs(body), FilledParagraph())
      && Tables(r) == Tables(body)
      && (forall x :: x in body && !BarePlaceholder(x) ==> x in r)
  {
    var r := Cleaned(body);
    FilterMembers(body, KeepFilled());
    forall i | 0 <= i < |r| ensures !BarePlaceholder(r[i]) {
      assert r[i] in r;
    }
    CleanedParagraphs(body);
    CleanedTables(body);
  }

  /** A second cleanup finds nothing more to remove. */
  lemma CleanedIdempotent(body: seq<Element>)
    ensures Cleaned(Cleaned(body)) == Cleaned(body)
  {
    var r := Cleaned(body);
    CleanedSpec(body);
    FilterAll(r, KeepFilled());
  }

  /** A placeholder with a lower-case letter, such as `{{annee}}` or
      `{{kpi_M3_EU}}`, never counts as bare, so its paragraph is kept. */
  lemma LowerCaseKept(s: string, i: nat)
    requires 2 <= i < |s| - 2 && 'a' <= s[i] <= 'z'
    ensures !PlaceholderOnly(s)
  {
  }

  // ---------------------------------------------------------------------
  // The ORG pictures: the insertion loop at the end of `_insert_org_charts`

  /** The width, in inches, `_insert_image` uses by default. */
  const ChartWidth: real := 5.0

  /** The body after inserting, in order, every chart that has an image. */
  function ChartsInserted(body: seq<Element>, charts: seq<(string, Option<string>)>): (r: seq<Element>)
    ensures |r| == |body|
    decreases |charts|
  {
    if charts == [] then body
    else
      var before := ChartsInserted(body, charts[..|charts| - 1]);
      var (placeholder, image) := charts[|charts| - 1];
      if image.Some? then ImageInserted(before, placeholder, Picture(image.value, ChartWidth)) else before
  }

  /** The document `render` returns for a template body. */
  function Rendered(template: seq<Element>, ctx: Context, fmt: Formatters, charts: seq<(string, Option<string>)>): seq<Element> {
    var replaced := SimpleReplaced(template, SimpleReplacements(ctx, fmt));
    var pictured := if ctx.orgResult.Some? then ChartsInserted(replaced, charts) else replaced;
    Cleaned(pictured)
  }

  /** The cleanup runs last: no body paragraph of a rendered document is a
      bare upper-case placeholder. */
  lemma RenderedHasNoBarePlaceholder(template: seq<Element>, ctx: Context, fmt: Formatters,
                                     charts: seq<(string, Option<string>)>)
    ensures var ps := Paragraphs(Rendered(template, ctx, fmt, charts));
      forall i :: 0 <= i < |ps| ==> !PlaceholderOnly(Stripped(ps[i]))
  {
    var replaced := SimpleReplaced(template, SimpleReplacements(ctx, fmt));
    var pictured := if ctx.orgResult.Some? then ChartsInserted(replaced, charts) else replaced;
    CleanedSpec(pictured);
    var ps := Paragraphs(pictured);
    FilterMembers(ps, FilledParagraph());
    var qs := Paragraphs(Cleaned(pictured));
    forall i | 0 <= i < |qs| ensures !PlaceholderOnly(Stripped(qs[i])) {
      assert qs[i] in qs;
    }
  }

  /** `pos` lists, in order, the positions of the paragraphs the cleanup removes. */
  predicate ListsBare(body: seq<Element>, pos: seq<nat>) {
    && Ascending(pos, |body|)
    && forall m :: 0 <= m < |body| ==> (m in pos <==> !KeepFilled()(body[m]))
  }

  /** The body positions of the paragraphs the cleanup removes. */
  method BarePositions(body: seq<Element>) returns (pos: seq<nat>)
    ensures ListsBare(body, pos)
  {
    pos := [];
    var k := 0;
    while k < |body|
      invariant 0 <= k <= |body|
      invariant Ascending(pos, k)
      invariant forall m :: 0 <= m < |body| ==> (m in pos <==> m < k && BarePlaceholder(body[m]))
    {
      if body[k].Para? && PlaceholderOnly(Strip(ParagraphText(body[k].p))) {
        pos := pos + [k];
      }
      k := k + 1;
    }
  }

  /** `WordRenderer`: the template (its body, or `None` when the file does
      not exist) and the document being rendered. */
  class WordRenderer {
    const template: Option<seq<Element>>
    var doc: Document?

    constructor(template: Option<seq<Element>>)
      ensures this.template == template && doc == null
    {
      this.template := template;
      doc := null;
    }

    /** `load_template`: a fresh document from the template, or the
        "template not found" error. */
    method LoadTemplate() returns (loaded: bool)
      modifies this
      ensures loaded <==> template.Some?
      ensures loaded ==> fresh(doc) && doc.body == template.value
      ensures !loaded ==> doc == old(doc)
    {
      if template.None? {
        return false;
      }
      doc := new Document(template.value);
      return true;
    }

    /** `_replace_simple_placeholders`: every body paragraph, then every cell
        paragraph of every body table, through `_replace_in_paragraph`. */
    method ReplaceSimplePlaceholders(ctx: Context, fmt: Formatters)
      requires doc != null
      modifies doc
      ensures doc.body == SimpleReplaced(old(doc.body), SimpleReplacements(ctx, fmt))
    {
      var reps := SimpleReplacements(ctx, fmt);
      var was := doc.body;
      var body := was;
      var k := 0;
      while k < |body|
        invariant 0 <= k <= |body| == |was|
        invariant forall m :: 0 <= m < |was| ==>
          body[m] == if m < k && was[m].Para? then Para(ParagraphReplaced(was[m].p, reps)) else was[m]
      {
        if body[k].Para? {
          var p := ReplaceInParagraph(body[k].p, reps);
          body := body[k := Para(p)];
        }
        k := k + 1;
      }
      k := 0;
      while k < |body|
        invariant 0 <= k <= |body| == |was|
        invariant forall m :: 0 <= m < |was| ==>
          body[m] == if m < k || was[m].Para? then SimpleReplaced(was, reps)[m] else was[m]
      {
        if body[k].Tbl? {
          // the walk over rows, cells and cell paragraphs
          body := body[k := Tbl(MapTable(body[k].t, ReplaceStep(reps)))];
        }
        k := k + 1;
      }
      doc.body := body;
    }

    /** `_process_org_activity_blocks`: not implemented in the source. */
    method ProcessOrgActivityBlocks(ctx: Context)
      requires doc != null
      ensures doc.body == old(doc.body)
    {
    }

    /** `_process_lot_blocks`: without lots it hands over to the ORG
        activity pass; with lots the duplication is not implemented. */
    method ProcessLotBlocks(ctx: Context)
      requires doc != null
      ensures doc.body == old(doc.body)
    {
      if !ctx.hasLots.GetOr(false) {
        ProcessOrgActivityBlocks(ctx);
      }
    }

    /** `_insert_image(placeholder, image, width)`. */
    method InsertImage(placeholder: string, image: string, width: real)
      requires doc != null
      modifies doc
      ensures doc.body == ImageInserted(old(doc.body), placeholder, Picture(image, width))
    {
      var body := doc.body;
      var pic := Picture(image, width);
      var hit := FindBodyHit(body, placeholder);
      if hit.Some? {
        var k := hit.value;
        doc.body := body[k := Para(Pictured(body[k].p, pic))];
        return;
      }
      var cell := FindCellHit(body, placeholder);
      if cell.Some? {
        var (k, q) := cell.value;
        var cells := TableParagraphs(body[k].t);
        doc.body := body[k := Tbl(SetTableParagraph(body[k].t, q, Pictured(cells[q], pic)))];
      }
    }

    /** The first loop of `_insert_image`: the first body paragraph holding
        the placeholder. */
    static method FindBodyHit(body: seq<Element>, placeholder: string) returns (r: Option<nat>)
      ensures r == FirstHit(body, BodyHit(placeholder))
    {
      var k := 0;
      while k < |body|
        invariant 0 <= k <= |body|
        invariant forall j :: 0 <= j < k ==> !BodyHit(placeholder)(body[j])
      {
        if body[k].Para? && Contains(ParagraphText(body[k].p), placeholder) {
          assert FirstHit(body, BodyHit(placeholder)) == Some(k);
          return Some(k);
        }
        k := k + 1;
      }
      assert FirstHit(body, BodyHit(placeholder)).None?;
      return None;
    }

    /** The second loop of `_insert_image`: the first table holding the
        placeholder in one of its cell paragraphs, and the first such
        paragraph of that table. */
    static method FindCellHit(body: seq<Element>, placeholder: string) returns (r: Option<(nat, nat)>)
      ensures r.None? <==> FirstHit(body, TableHit(placeholder)).None?
      ensures r.Some? ==> var (k, q) := r.value;
        && FirstHit(body, TableHit(placeholder)) == Some(k) && body[k].Tbl?
        && FirstHit(TableParagraphs(body[k].t), CellHit(placeholder)) == Some(q)
    {
      var k := 0;
      while k < |body|
        invariant 0 <= k <= |body|
        invariant forall j :: 0 <= j < k ==> !TableHit(placeholder)(body[j])
      {
        if body[k].Tbl? {
          var cells := TableParagraphs(body[k].t);
          var q := FindParagraphHit(cells, placeholder);
          if q.Some? {
            assert FirstHit(body, TableHit(placeholder)) == Some(k);
            return Some((k, q.value));
          }
        }
        k := k + 1;
      }
      assert FirstHit(body, TableHit(placeholder)).None?;
      return None;
    }

    /** The inner loop over a table's cell paragraphs. */
    static method FindParagraphHit(cells: seq<Paragraph>, placeholder: string) returns (r: Option<nat>)
      ensures r == FirstHit(cells, CellHit(placeholder))
    {
      var q := 0;
      while q < |cells|
        invariant 0 <= q <= |cells|
        invariant forall j :: 0 <= j < q ==> !CellHit(placeholder)(cells[j])
      {
        if Contains(ParagraphText(cells[q]), placeholder) {
          assert FirstHit(cells, CellHit(placeholder)) == Some(q);
          return Some(q);
        }
        q := q + 1;
      }
      assert FirstHit(cells, CellHit(placeholder)).None?;
      return None;
    }

    /** The end of `_insert_org_charts`: nothing without an ORG result;
        otherwise each chart that has an image, in order, through
        `_insert_image` at the default width. */
    method InsertOrgCharts(ctx: Context, charts: seq<(string, Option<string>)>)
      requires doc != null
      modifies doc
      ensures doc.body == if ctx.orgResult.Some? then ChartsInserted(old(doc.body), charts) else old(doc.body)
    {
      if ctx.orgResult.None? {
        return;
      }
      var i := 0;
      while i < |charts|
        invariant 0 <= i <= |charts|
        invariant doc.body == ChartsInserted(old(doc.body), charts[..i])
      {
        assert charts[..i + 1][..i] == charts[..i];
        var (placeholder, image) := charts[i];
        if image.Some? {
          InsertImage(placeholder, image.value, ChartWidth);
        }
        i := i + 1;
      }
      assert charts[..i] == charts;
    }

    /** `_delete_paragraph`: the child is removed from the body. */
    method DeleteParagraph(k: nat)
      requires doc != null && k < |doc.body|
      modifies doc
      ensures doc.body == old(doc.body)[..k] + old(doc.body)[k + 1..]
    {
      doc.body := doc.body[..k] + doc.body[k + 1..];
    }

    /** `_clean_empty_placeholders`: collects the bare-placeholder body
        paragraphs, then deletes them one by one. */
    method CleanEmptyPlaceholders()
      requires doc != null
      modifies doc
      ensures doc.body == Cleaned(old(doc.body))
    {
      var was := doc.body;
      var pos := BarePositions(was);
      DeleteListed(was, pos);
      WithoutIsFilter(was, pos, KeepFilled());
    }

    /** Deletes the listed paragraphs one at a time, each at its position
        less the number deleted before it. */
    method DeleteListed(ghost was: seq<Element>, pos: seq<nat>)
      requires doc != null && doc.body == was && Ascending(pos, |was|)
      modifies doc
      ensures doc.body == Without(was, pos)
    {
      var j := 0;
      while j < |pos|
        invariant j <= |pos| && doc.body == Removals(was, pos, j)
      {
        DeleteNext(was, pos, j);
        j := j + 1;
      }
      RemovalsDone(was, pos);
    }

    /** The `j`-th deletion. */
    method DeleteNext(ghost was: seq<Element>, pos: seq<nat>, j: nat)
      requires doc != null && Ascending(pos, |was|) && j < |pos| && doc.body == Removals(was, pos, j)
      modifies doc
      ensures doc.body == Removals(was, pos, j + 1)
    {
      RemovalInRange(was, pos, j);
      DeleteParagraph(pos[j] - j);
    }

    /** `render`: loads the template, then the global replacements, the
        block pass, the ORG pictures and the cleanup, in that order. A
        missing template is an error. */
    method Render(ctx: Context, fmt: Formatters, charts: seq<(string, Option<string>)>)
      returns (r: Result<Document, string>)
      modifies this
      ensures r.Success? <==> template.Some?
      ensures r.Success? ==> r.value == doc && fresh(doc) && doc.body == Rendered(template.value, ctx, fmt, charts)
    {
      var loaded := LoadTemplate();
      if !loaded {
        return Failure("template not found");
      }
      ReplaceSimplePlaceholders(ctx, fmt);
      ProcessLotBlocks(ctx);
      InsertOrgCharts(ctx, charts);
      CleanEmptyPlaceholders();
      return Success(doc);
    }
  }
}
