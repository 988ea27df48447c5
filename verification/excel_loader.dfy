/** The loader of the standard workbook: the required and optional sheets,
    their columns, and the business rules on ORG_TREE, EMISSIONS and
    TEXTE_RAPPORT. A workbook is given as the sheets it holds under the
    names the loader knows, as pandas reads them; the loader never reads
    any other sheet. */
module ExcelLoad {
  import opened Wrappers
  import opened Sequences
  import opened Text

  // ---------------------------------------------------------------------
  // Sheets and cells

  /** The sheets the loader knows. */
  datatype SheetName =
    | OrgTree | Emissions | EmissionsL2 | PostesL2Ref | PostesRef
    | Indicators | IndicatorsRef | EmissionsEvitees | TexteRapport | Icone

  /** The sheet's name in the workbook. */
  function Name(s: SheetName): string {
    match s
    case OrgTree => "ORG_TREE"
    case Emissions => "EMISSIONS"
    case EmissionsL2 => "EMISSIONS_L2"
    case PostesL2Ref => "POSTES_L2_REF"
    case PostesRef => "POSTES_REF"
    case Indicators => "INDICATORS"
    case IndicatorsRef => "INDICATORS_REF"
    case EmissionsEvitees => "EMISSIONS_EVITEES"
    case TexteRapport => "TEXTE_RAPPORT"
    case Icone => "ICONE"
  }

  /** A sheet the loader reads, with the columns it must have. */
  datatype SheetSpec = SheetSpec(sheet: SheetName, columns: seq<string>)

  /** The columns REQUIRED_SHEETS demands of each sheet. */
  const OrgTreeColumns: seq<string> := ["node_id", "parent_id", "node_type", "node_name", "activity"]
  const EmissionsColumns: seq<string> := ["node_id", "scope", "poste_l1_code", "tco2e", "comment"]
  const EmissionsL2Columns: seq<string> := ["node_id", "poste_l1_code", "poste_l2", "tco2e"]
  const PostesL2RefColumns: seq<string> := ["poste_l1_code", "poste_l2", "poste_l2_order"]
  const PostesRefColumns: seq<string> := ["poste_l1_code", "poste_l1_label", "commentaire"]
  const IndicatorsColumns: seq<string> := ["node_id", "activity", "indicator_code", "value", "unit", "comment"]
  const IndicatorsRefColumns: seq<string> :=
    ["indicator_code", "indicator_label", "default_unit", "activity_scope", "display_order"]
  const EmissionsEviteesColumns: seq<string> := ["node_id", "typologie", "tco2e"]
  const TexteRapportColumns: seq<string> :=
    ["poste_l1_code", "value", "icone", "CHART_KEY", "IMAGE_KEY", "TABLE_KEY", "activity", "DETAIL_SOUCE"]

  /** REQUIRED_SHEETS, in order. */
  const RequiredSheets: seq<SheetSpec> := [
    SheetSpec(OrgTree, OrgTreeColumns),
    SheetSpec(Emissions, EmissionsColumns),
    SheetSpec(EmissionsL2, EmissionsL2Columns),
    SheetSpec(PostesL2Ref, PostesL2RefColumns),
    SheetSpec(PostesRef, PostesRefColumns),
    SheetSpec(Indicators, IndicatorsColumns),
    SheetSpec(IndicatorsRef, IndicatorsRefColumns),
    SheetSpec(EmissionsEvitees, EmissionsEviteesColumns),
    SheetSpec(TexteRapport, TexteRapportColumns)
  ]

  /** OPTIONAL_SHEETS. */
  const OptionalSheets: seq<SheetSpec> := [SheetSpec(Icone, ["poste_l1"])]

  /** The names of a list of sheets, in order. */
  function Names(sheets: seq<SheetSpec>): (names: seq<string>)
    ensures |names| == |sheets| && forall i :: 0 <= i < |sheets| ==> names[i] == Name(sheets[i].sheet)
  {
    seq(|sheets|, i requires 0 <= i < |sheets| => Name(sheets[i].sheet))
  }

  /** A list of sheets that names each sheet once and, for each, each of
      its columns once. */
  predicate WellFormed(sheets: seq<SheetSpec>) {
    && Distinct(Names(sheets))
    && forall k :: 0 <= k < |sheets| ==> Distinct(sheets[k].columns)
  }

  /** A cell as pandas reads it: empty (NaN), a number, or text. */
  datatype Cell = Blank | Num(x: real) | Str(s: string)

  /** A sheet: its header, and its rows as cells by column; a row that
      lacks a cell of the header holds an empty one there. */
  datatype Sheet = Sheet(columns: set<string>, rows: seq<map<string, Cell>>)

  /** The cells of column `c`, row by row. */
  function Column(t: Sheet, c: string): (cells: seq<Cell>)
    ensures |cells| == |t.rows|
  {
    seq(|t.rows|, i requires 0 <= i < |t.rows| => if c in t.rows[i] then t.rows[i][c] else Blank)
  }

  // ---------------------------------------------------------------------
  // Missing columns

  /** The columns of `required` that `present` lacks, in order. */
  function AbsentColumns(required: seq<string>, present: set<string>): (absent: seq<string>)
    ensures forall c :: c in absent <==> c in required && c !in present
    decreases |required|
  {
    if required == [] then []
    else
      assert required == [required[0]] + required[1..];
      (if required[0] in present then [] else [required[0]]) + AbsentColumns(required[1..], present)
  }

  /** Without repetitions in `required`, none in what is absent. */
  lemma {:induction false} AbsentColumnsDistinct(required: seq<string>, present: set<string>)
    requires Distinct(required)
    ensures Distinct(AbsentColumns(required, present))
    decreases |required|
  {
    if required != [] {
      var rest := required[1..];
      assert Distinct(rest) by {
        forall i, j | 0 <= i < j < |rest| ensures rest[i] != rest[j] {
          assert rest[i] == required[i + 1] && rest[j] == required[j + 1];
        }
      }
      AbsentColumnsDistinct(rest, present);
      assert required[0] !in rest by {
        forall i | 0 <= i < |rest| ensures rest[i] != required[0] {
          assert rest[i] == required[i + 1];
        }
      }
      DistinctConcat(if required[0] in present then [] else [required[0]], AbsentColumns(rest, present));
    }
  }

  /** `sorted(set(required) - present)`. */
  function MissingOf(required: seq<string>, present: set<string>): seq<string> {
    SortBy(AbsentColumns(required, present), CodeBefore())
  }

  /** The missing columns are exactly the required ones not present, in
      ascending order, and each once when `required` repeats none. */
  lemma MissingOfSpec(required: seq<string>, present: set<string>)
    ensures var missing := MissingOf(required, present);
      && (forall c :: c in missing <==> c in required && c !in present)
      && (Distinct(required) ==> Distinct(missing))
      && SortedBy(missing, CodeBefore())
  {
    var kept := AbsentColumns(required, present);
    var missing := MissingOf(required, present);
    assert forall c :: c in missing <==> c in required && c !in present by {
      SortByMembers(kept, CodeBefore());
    }
    if Distinct(required) {
      AbsentColumnsDistinct(required, present);
      SortByDistinct(kept, CodeBefore());
    }
    assert SortedBy(missing, CodeBefore()) by {
      CodeBeforeOrder();
      SortBySorted(kept, CodeBefore());
    }
  }

  /** Nothing is missing exactly when every required column is present. */
  lemma NoneMissing(required: seq<string>, present: set<string>, missing: seq<string>)
    requires forall c :: c in missing <==> c in required && c !in present
    ensures missing == [] <==> forall c :: c in required ==> c in present
  {
    if missing != [] {
      assert missing[0] in missing;
    }
  }

  /** The sheets of a list, in order. */
  function SheetsOf(sheets: seq<SheetSpec>): (r: seq<SheetName>)
    ensures |r| == |sheets| && forall i :: 0 <= i < |sheets| ==> r[i] == sheets[i].sheet
  {
    seq(|sheets|, i requires 0 <= i < |sheets| => sheets[i].sheet)
  }

  /** A list naming each sheet once names each sheet name once. */
  lemma NamesDistinct(sheets: seq<SheetSpec>)
    requires Distinct(SheetsOf(sheets))
    ensures Distinct(Names(sheets))
  {
    var names, kinds := Names(sheets), SheetsOf(sheets);
    forall i, j | 0 <= i < j < |names| ensures names[i] != names[j] {
      assert kinds[i] != kinds[j];
      NameInjective(sheets[i].sheet, sheets[j].sheet);
    }
  }

  /** REQUIRED_SHEETS names nine different sheets. */
  lemma RequiredSheetsDistinct()
    ensures Distinct(SheetsOf(RequiredSheets))
  {
    assert SheetsOf(RequiredSheets) == [OrgTree, Emissions, EmissionsL2, PostesL2Ref, PostesRef,
                                        Indicators, IndicatorsRef, EmissionsEvitees, TexteRapport];
  }

  /** The column lists of ORG_TREE, EMISSIONS and EMISSIONS_L2 repeat no column. */
  lemma EmissionColumnsDistinct()
    ensures Distinct(OrgTreeColumns) && Distinct(EmissionsColumns) && Distinct(EmissionsL2Columns)
  {
  }

  /** Nor do those of POSTES_L2_REF, POSTES_REF and INDICATORS. */
  lemma PosteColumnsDistinct()
    ensures Distinct(PostesL2RefColumns) && Distinct(PostesRefColumns) && Distinct(IndicatorsColumns)
  {
  }

  /** Nor do those of INDICATORS_REF, EMISSIONS_EVITEES and TEXTE_RAPPORT. */
  lemma ReferenceColumnsDistinct()
    ensures Distinct(IndicatorsRefColumns) && Distinct(EmissionsEviteesColumns) && Distinct(TexteRapportColumns)
  {
  }

  /** No sheet of REQUIRED_SHEETS lists a column twice. */
  lemma RequiredColumnsDistinct()
    ensures forall k :: 0 <= k < |RequiredSheets| ==> Distinct(RequiredSheets[k].columns)
  {
    EmissionColumnsDistinct();
    PosteColumnsDistinct();
    ReferenceColumnsDistinct();
  }

  /** REQUIRED_SHEETS and OPTIONAL_SHEETS repeat no sheet and no column. */
  lemma SheetListsWellFormed()
    ensures WellFormed(RequiredSheets) && WellFormed(OptionalSheets)
  {
    RequiredSheetsDistinct();
    NamesDistinct(RequiredSheets);
    RequiredColumnsDistinct();
    NamesDistinct(OptionalSheets);
  }

  // ---------------------------------------------------------------------
  // Validation issues

  /** What the loader appends to its errors or warnings. Values gathered in
      a Python set are kept as a set: the order the messages list them in
      is that of the set. */
  datatype Issue =
    | MissingSheets(sheets: seq<string>)
    | MissingColumns(sheet: string, columns: seq<string>)
    | OptionalSheetAbsent(sheet: string)
    | InvalidNodeTypes(values: set<string>)
    | InvalidActivities(sheet: string, values: set<string>)
    | NoOrgNode
    | EntsWithoutActivity(count: nat)
    | InvalidScopes(scopes: set<Cell>)

  /** Why `load` falls into its generic loading error. */
  datatype Crash =
    | SheetNotFound(sheet: string)                   // `read_excel` of a sheet the workbook lacks
    | ColumnNotFound(sheet: string, column: string)  // a rule reads a column the sheet lacks
    | JoinOfNonText(sheet: string, column: string)   // `', '.join` meets a value that is not text

  /** Why `load` raises: its validation errors, or the generic loading error. */
  datatype LoadError = Validation(errors: seq<Issue>) | LoadFailure(crash: Crash)

  /** Every sheet of the list is among those available. */
  predicate AllAvailable(sheets: seq<SheetSpec>, available: set<string>) {
    forall k :: 0 <= k < |sheets| ==> Name(sheets[k].sheet) in available
  }

  /** What `_validate_required_sheets` reports, for the list `sheets`. */
  function SheetIssues(sheets: seq<SheetSpec>, available: set<string>): seq<Issue> {
    if AllAvailable(sheets, available) then []
    else [MissingSheets(MissingOf(Names(sheets), available))]
  }

  /** No issue exactly when every sheet is there; otherwise one, listing
      the absent sheets in ascending order (once each, when the list names
      each sheet once). */
  lemma SheetIssuesSpec(sheets: seq<SheetSpec>, available: set<string>)
    ensures SheetIssues(sheets, available) == [] <==> AllAvailable(sheets, available)
    ensures MissingOf(Names(sheets), available) == [] <==> AllAvailable(sheets, available)
    ensures SheetIssues(sheets, available) != [] ==>
      var missing := MissingOf(Names(sheets), available);
      && SheetIssues(sheets, available) == [MissingSheets(missing)]
      && (forall s :: s in missing <==> s in Names(sheets) && s !in available)
      && (WellFormed(sheets) ==> Distinct(missing)) && SortedBy(missing, CodeBefore())
  {
    var names := Names(sheets);
    MissingOfSpec(names, available);
    NoneMissing(names, available, MissingOf(names, available));
    if AllAvailable(sheets, available) {
      forall s | s in names ensures s in available {
        var k :| 0 <= k < |names| && names[k] == s;
      }
    } else {
      var k :| 0 <= k < |sheets| && Name(sheets[k].sheet) !in available;
      assert names[k] in names;
    }
  }

  /** The sheet has every column `spec` asks for. */
  predicate HasColumns(spec: SheetSpec, t: Sheet) {
    forall c :: c in spec.columns ==> c in t.columns
  }

  /** What `_validate_columns` reports for one sheet. */
  function ColumnIssue(spec: SheetSpec, t: Sheet): seq<Issue> {
    if HasColumns(spec, t) then [] else [MissingColumns(Name(spec.sheet), MissingOf(spec.columns, t.columns))]
  }

  /** No issue exactly when the sheet has every column it needs; otherwise
      one, naming the sheet and its absent columns in ascending order (once
      each, when the sheet's list repeats none). */
  lemma ColumnIssueSpec(spec: SheetSpec, t: Sheet)
    ensures ColumnIssue(spec, t) == [] <==> HasColumns(spec, t)
    ensures MissingOf(spec.columns, t.columns) == [] <==> HasColumns(spec, t)
    ensures ColumnIssue(spec, t) != [] ==>
      var missing := MissingOf(spec.columns, t.columns);
      && ColumnIssue(spec, t) == [MissingColumns(Name(spec.sheet), missing)]
      && (forall c :: c in missing <==> c in spec.columns && c !in t.columns)
      && (Distinct(spec.columns) ==> Distinct(missing)) && SortedBy(missing, CodeBefore())
  {
    MissingOfSpec(spec.columns, t.columns);
    NoneMissing(spec.columns, t.columns, MissingOf(spec.columns, t.columns));
  }

  // ---------------------------------------------------------------------
  // Business rules

  const NodeTypes: set<Cell> := {Str("ORG"), Str("LOT"), Str("ENT")}
  const TreeActivities: set<Cell> := {Str("EU"), Str("AEP"), Str("NA")}
  const TexteActivities: set<Cell> := {Str("EU"), Str("AEP"), Str("BOTH")}

  /** `{1, 2, 3, '1', '2', '3'}`: a number compares equal to an int. */
  const Scopes: set<Cell> := {Num(1.0), Num(2.0), Num(3.0), Str("1"), Str("2"), Str("3")}

  /** `set(col.dropna().unique()) - valid`. */
  function InvalidValues(col: seq<Cell>, valid: set<Cell>): set<Cell> {
    set v | v in col && v != Blank && v !in valid
  }

  /** No invalid value exactly when every cell is empty or valid. */
  lemma InvalidNone(col: seq<Cell>, valid: set<Cell>)
    ensures InvalidValues(col, valid) == {} <==> forall i :: 0 <= i < |col| ==> col[i] == Blank || col[i] in valid
  {
    if InvalidValues(col, valid) != {} {
      var v :| v in InvalidValues(col, valid);
      var i :| 0 <= i < |col| && col[i] == v;
    } else {
      forall i | 0 <= i < |col| ensures col[i] == Blank || col[i] in valid {
        assert col[i] !in InvalidValues(col, valid);
      }
    }
  }

  /** Every value is text, so `', '.join` accepts them. */
  predicate AllText(values: set<Cell>) {
    forall v :: v in values ==> v.Str?
  }

  /** The texts of the text values. */
  function Texts(values: set<Cell>): set<string> {
    set v | v in values && v.Str? :: v.s
  }

  /** The errors, the warnings and the raised error of some rules, in the
      order the rules append them. */
  datatype Checked = Checked(errors: seq<Issue>, warnings: seq<Issue>, crash: Option<Crash>)

  const Clean := Checked([], [], None)

  /** Running `next` after `first`, unless `first` raised. */
  function Then(first: Checked, next: Checked): Checked {
    if first.crash.Some? then first
    else Checked(first.errors + next.errors, first.warnings + next.warnings, next.crash)
  }

  /** The rows of ORG_TREE that are ORG nodes. */
  function OrgRows(t: Sheet): set<nat> {
    var types := Column(t, "node_type");
    set i | 0 <= i < |t.rows| && types[i] == Str("ORG")
  }

  /** The rows of ORG_TREE that are ENT nodes with no activity, or NA. */
  function BareEntRows(t: Sheet): set<nat> {
    var types, acts := Column(t, "node_type"), Column(t, "activity");
    set i | 0 <= i < |t.rows| && types[i] == Str("ENT") && (acts[i] == Blank || acts[i] == Str("NA"))
  }

  /** The rules on ORG_TREE: node types and activities among the known
      ones, at least one ORG node, and an activity on every ENT node. A
      column the sheet lacks, or an invalid value that is not text, makes
      the rules raise. */
  function OrgTreeRules(t: Sheet): Checked {
    if "node_type" !in t.columns then Checked([], [], Some(ColumnNotFound("ORG_TREE", "node_type")))
    else
      var badTypes := InvalidValues(Column(t, "node_type"), NodeTypes);
      if !AllText(badTypes) then Checked([], [], Some(JoinOfNonText("ORG_TREE", "node_type")))
      else
        var typeIssues := if badTypes == {} then [] else [InvalidNodeTypes(Texts(badTypes))];
        if "activity" !in t.columns then Checked(typeIssues, [], Some(ColumnNotFound("ORG_TREE", "activity")))
        else
          var badActs := InvalidValues(Column(t, "activity"), TreeActivities);
          if !AllText(badActs) then Checked(typeIssues, [], Some(JoinOfNonText("ORG_TREE", "activity")))
          else
            var actIssues := if badActs == {} then [] else [InvalidActivities("ORG_TREE", Texts(badActs))];
            var bare := BareEntRows(t);
            Checked(typeIssues + actIssues + (if OrgRows(t) == {} then [NoOrgNode] else [])
                      + (if bare == {} then [] else [EntsWithoutActivity(|bare|)]), [], None)
  }

  /** A well-formed ORG_TREE, row by row. */
  ghost predicate OrgTreeSound(t: Sheet) {
    var types, acts := Column(t, "node_type"), Column(t, "activity");
    && (forall i :: 0 <= i < |t.rows| ==> types[i] == Blank || types[i] in NodeTypes)
    && (forall i :: 0 <= i < |t.rows| ==> acts[i] == Blank || acts[i] in TreeActivities)
    && (exists i :: 0 <= i < |t.rows| && types[i] == Str("ORG"))
    && (forall i :: 0 <= i < |t.rows| && types[i] == Str("ENT") ==> acts[i] != Blank && acts[i] != Str("NA"))
  }

  /** No ORG row exactly when no row has the ORG type. */
  lemma OrgRowsNone(t: Sheet)
    ensures OrgRows(t) == {} <==> !exists i :: 0 <= i < |t.rows| && Column(t, "node_type")[i] == Str("ORG")
  {
    if exists i :: 0 <= i < |t.rows| && Column(t, "node_type")[i] == Str("ORG") {
      var i :| 0 <= i < |t.rows| && Column(t, "node_type")[i] == Str("ORG");
      assert i in OrgRows(t);
    }
  }

  /** No bare ENT row exactly when every ENT row has an activity. */
  lemma BareEntRowsNone(t: Sheet)
    ensures BareEntRows(t) == {} <==>
      var types, acts := Column(t, "node_type"), Column(t, "activity");
      forall i :: 0 <= i < |t.rows| && types[i] == Str("ENT") ==> acts[i] != Blank && acts[i] != Str("NA")
  {
    var types, acts := Column(t, "node_type"), Column(t, "activity");
    if !forall i :: 0 <= i < |t.rows| && types[i] == Str("ENT") ==> acts[i] != Blank && acts[i] != Str("NA") {
      var i :| 0 <= i < |t.rows| && types[i] == Str("ENT") && (acts[i] == Blank || acts[i] == Str("NA"));
      assert i in BareEntRows(t);
    }
  }

  /** The ORG_TREE rules pass silently exactly on a sheet with both columns
      that is well formed row by row. */
  lemma OrgTreeRulesSpec(t: Sheet)
    ensures OrgTreeRules(t) == Clean <==>
      "node_type" in t.columns && "activity" in t.columns && OrgTreeSound(t)
  {
    var types, acts := Column(t, "node_type"), Column(t, "activity");
    InvalidNone(types, NodeTypes);
    InvalidNone(acts, TreeActivities);
    OrgRowsNone(t);
    BareEntRowsNone(t);
    if "node_type" in t.columns && "activity" in t.columns
       && InvalidValues(types, NodeTypes) == {} && InvalidValues(acts, TreeActivities) == {} {
      assert OrgTreeRules(t) == Checked((if OrgRows(t) == {} then [NoOrgNode] else [])
        + (if BareEntRows(t) == {} then [] else [EntsWithoutActivity(|BareEntRows(t)|)]), [], None);
    }
  }

  /** The count of ENT rows without an activity is the number of such rows. */
  lemma BareEntCount(t: Sheet)
    requires "node_type" in t.columns && "activity" in t.columns
    requires OrgTreeRules(t).crash.None?
    ensures BareEntRows(t) != {} <==> EntsWithoutActivity(|BareEntRows(t)|) in OrgTreeRules(t).errors
  {
    var bare := BareEntRows(t);
    if bare != {} {
      assert OrgTreeRules(t).errors[|OrgTreeRules(t).errors| - 1] == EntsWithoutActivity(|bare|);
    }
  }

  /** The rule on EMISSIONS: every scope is 1, 2 or 3, as a number or as
      text. */
  function EmissionsRules(t: Sheet): Checked {
    if "scope" !in t.columns then Checked([], [], Some(ColumnNotFound("EMISSIONS", "scope")))
    else
      var bad := InvalidValues(Column(t, "scope"), Scopes);
      Checked(if bad == {} then [] else [InvalidScopes(bad)], [], None)
  }

  /** The EMISSIONS rule raises exactly when the sheet lacks its scope
      column, and passes silently exactly when every scope cell is empty or
      a valid scope. */
  lemma EmissionsRulesSpec(t: Sheet)
    ensures EmissionsRules(t).crash.None? <==> "scope" in t.columns
    ensures EmissionsRules(t) == Clean <==>
      "scope" in t.columns && forall i :: 0 <= i < |t.rows| ==> Column(t, "scope")[i] == Blank || Column(t, "scope")[i] in Scopes
  {
    InvalidNone(Column(t, "scope"), Scopes);
  }

  /** The rule on TEXTE_RAPPORT: an activity outside EU, AEP and BOTH is
      only a warning. */
  function TexteRules(t: Sheet): Checked {
    if "activity" !in t.columns then Checked([], [], Some(ColumnNotFound("TEXTE_RAPPORT", "activity")))
    else
      var bad := InvalidValues(Column(t, "activity"), TexteActivities);
      if !AllText(bad) then Checked([], [], Some(JoinOfNonText("TEXTE_RAPPORT", "activity")))
      else Checked([], if bad == {} then [] else [InvalidActivities("TEXTE_RAPPORT", Texts(bad))], None)
  }

  /** The TEXTE_RAPPORT rule never adds an error, and passes silently
      exactly when every activity cell is empty or known. */
  lemma TexteRulesSpec(t: Sheet)
    ensures TexteRules(t).errors == []
    ensures TexteRules(t) == Clean <==>
      "activity" in t.columns && forall i :: 0 <= i < |t.rows| ==> Column(t, "activity")[i] == Blank || Column(t, "activity")[i] in TexteActivities
  {
    InvalidNone(Column(t, "activity"), TexteActivities);
  }

  /** `_validate_business_rules` on the loaded sheets: ORG_TREE, then
      EMISSIONS, then TEXTE_RAPPORT, each when loaded. */
  function BusinessRules(data: map<SheetName, Sheet>): Checked {
    var org := if OrgTree in data then OrgTreeRules(data[OrgTree]) else Clean;
    var emissions := if Emissions in data then EmissionsRules(data[Emissions]) else Clean;
    var texte := if TexteRapport in data then TexteRules(data[TexteRapport]) else Clean;
    Then(Then(org, emissions), texte)
  }

  /** Warnings come only from TEXTE_RAPPORT; an error of ORG_TREE stops
      nothing, but a raise stops the later rules. */
  lemma BusinessRulesParts(data: map<SheetName, Sheet>)
    requires OrgTree in data && Emissions in data && TexteRapport in data
    ensures var org, em, tx := OrgTreeRules(data[OrgTree]), EmissionsRules(data[Emissions]), TexteRules(data[TexteRapport]);
      && (org.crash.Some? ==> BusinessRules(data) == org)
      && (org.crash.None? && em.crash.Some? ==> BusinessRules(data) == Checked(org.errors + em.errors, [], em.crash))
      && (org.crash.None? && em.crash.None? ==> BusinessRules(data) == Checked(org.errors + em.errors, tx.warnings, tx.crash))
  {
    TexteRulesSpec(data[TexteRapport]);
  }

  // ---------------------------------------------------------------------
  // Loading

  /** The sheet called `name`, if the loader knows one. */
  function SheetNamed(name: string): (r: Option<SheetName>)
    ensures r.Some? ==> Name(r.value) == name
  {
    if name == "ORG_TREE" then Some(OrgTree)
    else if name == "EMISSIONS" then Some(Emissions)
    else if name == "EMISSIONS_L2" then Some(EmissionsL2)
    else if name == "POSTES_L2_REF" then Some(PostesL2Ref)
    else if name == "POSTES_REF" then Some(PostesRef)
    else if name == "INDICATORS" then Some(Indicators)
    else if name == "INDICATORS_REF" then Some(IndicatorsRef)
    else if name == "EMISSIONS_EVITEES" then Some(EmissionsEvitees)
    else if name == "TEXTE_RAPPORT" then Some(TexteRapport)
    else if name == "ICONE" then Some(Icone)
    else None
  }

  /** Every known sheet is found again by its name. */
  lemma SheetNamedName(s: SheetName)
    ensures SheetNamed(Name(s)) == Some(s)
  {
  }

  /** No two sheets share a name. */
  lemma NameInjective(s: SheetName, t: SheetName)
    ensures Name(s) == Name(t) ==> s == t
  {
    SheetNamedName(s);
    SheetNamedName(t);
  }

  /** The names of the sheets a workbook holds. */
  function Available(workbook: map<SheetName, Sheet>): set<string> {
    set s | s in workbook :: Name(s)
  }

  /** The index of the first sheet of `sheets` the workbook lacks. */
  function FirstAbsent(workbook: map<SheetName, Sheet>, sheets: seq<SheetSpec>): (r: Option<nat>)
    ensures r.Some? ==>
      r.value < |sheets| && sheets[r.value].sheet !in workbook
      && forall k :: 0 <= k < r.value ==> sheets[k].sheet in workbook
    ensures r.None? ==> forall k :: 0 <= k < |sheets| ==> sheets[k].sheet in workbook
  {
    if sheets == [] then None
    else if sheets[0].sheet !in workbook then Some(0)
    else match FirstAbsent(workbook, sheets[1..])
      case None => None
      case Some(k) => Some(k + 1)
  }

  /** The first absent sheet is the one a walk in order stops at. */
  lemma FirstAbsentAt(workbook: map<SheetName, Sheet>, sheets: seq<SheetSpec>, i: nat)
    requires i < |sheets| && sheets[i].sheet !in workbook
    requires forall k :: 0 <= k < i ==> sheets[k].sheet in workbook
    ensures FirstAbsent(workbook, sheets) == Some(i)
  {
  }

  /** With no sheet of the list absent from the workbook, every one of
      them is available. */
  lemma NoneAbsent(workbook: map<SheetName, Sheet>, sheets: seq<SheetSpec>)
    requires FirstAbsent(workbook, sheets).None?
    ensures AllAvailable(sheets, Available(workbook))
  {
    forall k | 0 <= k < |sheets| ensures Name(sheets[k].sheet) in Available(workbook) {
      var s := sheets[k].sheet;
      assert s in workbook;
    }
  }

  /** The column issues of the first `n` sheets that the workbook has. */
  function ColumnIssuesUpTo(workbook: map<SheetName, Sheet>, sheets: seq<SheetSpec>, n: nat): seq<Issue>
    requires n <= |sheets|
  {
    if n == 0 then []
    else
      var spec := sheets[n - 1];
      ColumnIssuesUpTo(workbook, sheets, n - 1)
        + if spec.sheet in workbook then ColumnIssue(spec, workbook[spec.sheet]) else []
  }

  /** No column issue exactly when each of the `n` sheets has its columns. */
  lemma {:induction false} ColumnIssuesUpToNone(workbook: map<SheetName, Sheet>, sheets: seq<SheetSpec>, n: nat)
    requires n <= |sheets| && forall k :: 0 <= k < n ==> sheets[k].sheet in workbook
    ensures ColumnIssuesUpTo(workbook, sheets, n) == [] <==>
      forall k :: 0 <= k < n ==> HasColumns(sheets[k], workbook[sheets[k].sheet])
  {
    if n > 0 {
      var spec := sheets[n - 1];
      var before, last := ColumnIssuesUpTo(workbook, sheets, n - 1), ColumnIssue(spec, workbook[spec.sheet]);
      ColumnIssuesUpToNone(workbook, sheets, n - 1);
      ColumnIssueSpec(spec, workbook[spec.sheet]);
      assert ColumnIssuesUpTo(workbook, sheets, n) == before + last;
      assert before + last == [] <==> before == [] && last == [];
    }
  }

  /** What the walk over the first `n` optional sheets warns about: their
      columns when there, their absence otherwise. */
  function OptionalIssuesUpTo(workbook: map<SheetName, Sheet>, sheets: seq<SheetSpec>, n: nat): seq<Issue>
    requires n <= |sheets|
  {
    if n == 0 then []
    else
      var spec := sheets[n - 1];
      OptionalIssuesUpTo(workbook, sheets, n - 1)
        + if spec.sheet in workbook then ColumnIssue(spec, workbook[spec.sheet]) else [OptionalSheetAbsent(Name(spec.sheet))]
  }

  /** An absent ICONE sheet is reported once, as a warning. */
  lemma OptionalAbsentWarns(workbook: map<SheetName, Sheet>)
    requires Icone !in workbook
    ensures OptionalIssuesUpTo(workbook, OptionalSheets, |OptionalSheets|) == [OptionalSheetAbsent("ICONE")]
  {
    assert OptionalSheets[0].sheet == Icone;
  }

  /** `data` once the sheets of the list that the workbook has are stored
      in it, in order. */
  function Stored(data: map<SheetName, Sheet>, workbook: map<SheetName, Sheet>, sheets: seq<SheetSpec>): map<SheetName, Sheet>
    decreases |sheets|
  {
    if sheets == [] then data
    else
      var before := Stored(data, workbook, sheets[..|sheets| - 1]);
      var s := sheets[|sheets| - 1].sheet;
      if s in workbook then before[s := workbook[s]] else before
  }

  /** A stored sheet is the workbook's own. */
  lemma {:induction false} StoredFrom(data: map<SheetName, Sheet>, workbook: map<SheetName, Sheet>, sheets: seq<SheetSpec>, k: nat)
    requires k < |sheets| && sheets[k].sheet in workbook
    ensures var s := sheets[k].sheet;
      s in Stored(data, workbook, sheets) && Stored(data, workbook, sheets)[s] == workbook[s]
    decreases |sheets|
  {
    var front := sheets[..|sheets| - 1];
    if k < |sheets| - 1 {
      assert front[k] == sheets[k];
      StoredFrom(data, workbook, front, k);
    }
  }

  /** A sheet that already holds the workbook's own keeps it. */
  lemma {:induction false} StoredKeeps(data: map<SheetName, Sheet>, workbook: map<SheetName, Sheet>, sheets: seq<SheetSpec>, s: SheetName)
    requires s in data && s in workbook && data[s] == workbook[s]
    ensures s in Stored(data, workbook, sheets) && Stored(data, workbook, sheets)[s] == workbook[s]
    decreases |sheets|
  {
    if sheets != [] {
      StoredKeeps(data, workbook, sheets[..|sheets| - 1], s);
    }
  }

  /** The sheets `load` stores, over what `data` held before: the required
      ones, then the optional ones the workbook has. */
  function Loaded(data: map<SheetName, Sheet>, workbook: map<SheetName, Sheet>,
                  required: seq<SheetSpec>, optional: seq<SheetSpec>): map<SheetName, Sheet> {
    Stored(Stored(data, workbook, required), workbook, optional)
  }

  /** A load that reads every required sheet stores the workbook's own. */
  lemma LoadedFromWorkbook(data: map<SheetName, Sheet>, workbook: map<SheetName, Sheet>,
                           required: seq<SheetSpec>, optional: seq<SheetSpec>, k: nat)
    requires k < |required| && required[k].sheet in workbook
    ensures var s := required[k].sheet;
      s in Loaded(data, workbook, required, optional) && Loaded(data, workbook, required, optional)[s] == workbook[s]
  {
    StoredFrom(data, workbook, required, k);
    StoredKeeps(Stored(data, workbook, required), workbook, optional, required[k].sheet);
  }

  /** The loader's state after a call of `load`, and what the call returns. */
  datatype Outcome = Outcome(data: map<SheetName, Sheet>, errors: seq<Issue>, warnings: seq<Issue>,
                             result: Result<map<SheetName, Sheet>, LoadError>)

  /** `load` from a state holding `data`, `errors` and `warnings`, with the
      lists `required` and `optional`: at the first absent required sheet
      it stops with the generic loading error; otherwise it returns the
      stored sheets unless a rule raised or some error was ever recorded. */
  function LoadOutcome(data: map<SheetName, Sheet>, errors: seq<Issue>, warnings: seq<Issue>,
                       workbook: map<SheetName, Sheet>, required: seq<SheetSpec>, optional: seq<SheetSpec>): Outcome
  {
    var sheetIssues := SheetIssues(required, Available(workbook));
    match FirstAbsent(workbook, required)
    case Some(k) =>
      Outcome(Stored(data, workbook, required[..k]), errors + sheetIssues + ColumnIssuesUpTo(workbook, required, k),
              warnings, Failure(LoadFailure(SheetNotFound(Name(required[k].sheet)))))
    case None =>
      var stored := Loaded(data, workbook, required, optional);
      var rules := BusinessRules(stored);
      var errs := errors + sheetIssues + ColumnIssuesUpTo(workbook, required, |required|) + rules.errors;
      Outcome(stored, errs, warnings + OptionalIssuesUpTo(workbook, optional, |optional|) + rules.warnings,
              if rules.crash.Some? then Failure(LoadFailure(rules.crash.value))
              else if errs != [] then Failure(Validation(errs))
              else Success(stored))
  }

  /** A successful load returns what it stored, having recorded no error
      ever; a failed one raises the errors it recorded or a crash. */
  lemma LoadOutcomeResult(data: map<SheetName, Sheet>, errors: seq<Issue>, warnings: seq<Issue>,
                          workbook: map<SheetName, Sheet>, required: seq<SheetSpec>, optional: seq<SheetSpec>)
    ensures var o := LoadOutcome(data, errors, warnings, workbook, required, optional);
      && (o.result.Success? ==> o.errors == [] && o.result.value == o.data)
      && (o.result.Failure? && o.result.error.Validation? ==> o.result.error.errors == o.errors != [])
      && (errors != [] ==> o.result.Failure?)
  {
  }

  /** A load with a required sheet absent fails with the generic loading
      error naming the first one absent, after recording every absent one
      (sorted, each once when the list names each sheet once). */
  lemma LoadOutcomeAbsent(data: map<SheetName, Sheet>, errors: seq<Issue>, warnings: seq<Issue>,
                          workbook: map<SheetName, Sheet>, required: seq<SheetSpec>, optional: seq<SheetSpec>)
    requires FirstAbsent(workbook, required).Some?
    ensures var o, k := LoadOutcome(data, errors, warnings, workbook, required, optional), FirstAbsent(workbook, required).value;
      var missing := MissingOf(Names(required), Available(workbook));
      && o.result == Failure(LoadFailure(SheetNotFound(Name(required[k].sheet))))
      && o.errors == errors + [MissingSheets(missing)] + ColumnIssuesUpTo(workbook, required, k)
      && Name(required[k].sheet) in missing
      && (WellFormed(required) ==> Distinct(missing))
  {
    var k := FirstAbsent(workbook, required).value;
    var s := required[k].sheet;
    assert Name(s) !in Available(workbook) by {
      if Name(s) in Available(workbook) {
        var t :| t in workbook && Name(t) == Name(s);
        NameInjective(s, t);
      }
    }
    assert !AllAvailable(required, Available(workbook));
    SheetIssuesSpec(required, Available(workbook));
    assert Names(required)[k] == Name(s);
  }

  /** `ExcelLoader`: the sheets loaded so far and the errors and warnings
      found so far; nothing clears them between loads. `required` and
      `optional` are REQUIRED_SHEETS and OPTIONAL_SHEETS. */
  class ExcelLoader {
    const required: seq<SheetSpec>
    const optional: seq<SheetSpec>
    var data: map<SheetName, Sheet>
    var validationErrors: seq<Issue>
    var validationWarnings: seq<Issue>

    constructor()
      ensures required == RequiredSheets && optional == OptionalSheets
      ensures data == map[] && validationErrors == [] && validationWarnings == []
    {
      required := RequiredSheets;
      optional := OptionalSheets;
      data := map[];
      validationErrors := [];
      validationWarnings := [];
    }

    /** `_validate_required_sheets`. */
    method ValidateRequiredSheets(available: set<string>)
      modifies this
      ensures validationErrors == old(validationErrors) + SheetIssues(required, available)
      ensures validationWarnings == old(validationWarnings) && data == old(data)
    {
      var missing := MissingOf(Names(required), available);
      SheetIssuesSpec(required, available);
      if missing != [] {
        validationErrors := validationErrors + [MissingSheets(missing)];
      }
    }

    /** `_validate_columns`: missing columns are an error, or only a warning
        for an optional sheet. */
    method ValidateColumns(spec: SheetSpec, t: Sheet, optional: bool)
      modifies this
      ensures !optional ==> validationErrors == old(validationErrors) + ColumnIssue(spec, t)
      ensures !optional ==> validationWarnings == old(validationWarnings)
      ensures optional ==> validationWarnings == old(validationWarnings) + ColumnIssue(spec, t)
      ensures optional ==> validationErrors == old(validationErrors)
      ensures data == old(data)
    {
      var missing := MissingOf(spec.columns, t.columns);
      ColumnIssueSpec(spec, t);
      if missing != [] {
        if optional {
          validationWarnings := validationWarnings + [MissingColumns(Name(spec.sheet), missing)];
        } else {
          validationErrors := validationErrors + [MissingColumns(Name(spec.sheet), missing)];
        }
      }
    }

    /** `_validate_business_rules`; `crash` is what it raises, if anything. */
    method ValidateBusinessRules() returns (crash: Option<Crash>)
      modifies this
      ensures var c := BusinessRules(old(data));
        && validationErrors == old(validationErrors) + c.errors
        && validationWarnings == old(validationWarnings) + c.warnings
        && crash == c.crash
      ensures data == old(data)
    {
      var done := Clean;
      if OrgTree in data {
        done := OrgTreeRules(data[OrgTree]);
        validationErrors := validationErrors + done.errors;
      }
      if done.crash.None? && Emissions in data {
        var c := EmissionsRules(data[Emissions]);
        validationErrors := validationErrors + c.errors;
        done := Then(done, c);
      }
      if done.crash.None? && TexteRapport in data {
        var c := TexteRules(data[TexteRapport]);
        TexteRulesSpec(data[TexteRapport]);
        validationWarnings := validationWarnings + c.warnings;
        done := Then(done, c);
      }
      crash := done.crash;
    }

    /** `load`: the required sheets are checked, then read in order (reading
        an absent one raises, so a missing required sheet always ends in the
        generic loading error), their columns checked and stored; the
        optional sheets are checked when present and warned about when
        absent; then the business rules run. */
    method Load(workbook: map<SheetName, Sheet>) returns (r: Result<map<SheetName, Sheet>, LoadError>)
      modifies this
      ensures Outcome(data, validationErrors, validationWarnings, r)
        == LoadOutcome(old(data), old(validationErrors), old(validationWarnings), workbook, required, optional)
    {
      ValidateRequiredSheets(Available(workbook));
      var stop := ReadRequired(workbook, required);
      if stop.Some? {
        return Failure(LoadFailure(SheetNotFound(Name(required[stop.value].sheet))));
      }
      NoneAbsent(workbook, required);
      ReadOptional(workbook, optional);
      var crash := ValidateBusinessRules();
      if crash.Some? {
        return Failure(LoadFailure(crash.value));
      }
      if validationErrors != [] {
        return Failure(Validation(validationErrors));
      }
      return Success(data);
    }

    /** The walk of `load` over the required sheets, in order: each is
        checked and stored, until one the workbook lacks (`stop`). */
    method ReadRequired(workbook: map<SheetName, Sheet>, sheets: seq<SheetSpec>) returns (stop: Option<nat>)
      modifies this
      ensures stop == FirstAbsent(workbook, sheets)
      ensures stop.Some? ==>
        && validationErrors == old(validationErrors) + ColumnIssuesUpTo(workbook, sheets, stop.value)
        && data == Stored(old(data), workbook, sheets[..stop.value])
      ensures stop.None? ==>
        && validationErrors == old(validationErrors) + ColumnIssuesUpTo(workbook, sheets, |sheets|)
        && data == Stored(old(data), workbook, sheets)
      ensures validationWarnings == old(validationWarnings)
    {
      for i := 0 to |sheets|
        invariant forall k :: 0 <= k < i ==> sheets[k].sheet in workbook
        invariant validationErrors == old(validationErrors) + ColumnIssuesUpTo(workbook, sheets, i)
        invariant validationWarnings == old(validationWarnings)
        invariant data == Stored(old(data), workbook, sheets[..i])
      {
        if sheets[i].sheet !in workbook {
          FirstAbsentAt(workbook, sheets, i);
          return Some(i);
        }
        ReadSheet(workbook, sheets, i, old(validationErrors), old(data));
      }
      assert sheets[..|sheets|] == sheets;
      return None;
    }

    /** One step of that walk: the `i`-th sheet, which the workbook has, is
        checked and stored. */
    method ReadSheet(workbook: map<SheetName, Sheet>, sheets: seq<SheetSpec>, i: nat,
                     ghost errors0: seq<Issue>, ghost data0: map<SheetName, Sheet>)
      requires i < |sheets| && sheets[i].sheet in workbook
      requires validationErrors == errors0 + ColumnIssuesUpTo(workbook, sheets, i)
      requires data == Stored(data0, workbook, sheets[..i])
      modifies this
      ensures validationErrors == errors0 + ColumnIssuesUpTo(workbook, sheets, i + 1)
      ensures data == Stored(data0, workbook, sheets[..i + 1])
      ensures validationWarnings == old(validationWarnings)
    {
      var spec := sheets[i];
      ValidateColumns(spec, workbook[spec.sheet], false);
      assert sheets[..i + 1][..i] == sheets[..i];
      data := data[spec.sheet := workbook[spec.sheet]];
    }

    /** The walk of `load` over the optional sheets: each is checked and
        stored when there, and warned about when absent. */
    method ReadOptional(workbook: map<SheetName, Sheet>, sheets: seq<SheetSpec>)
      modifies this
      ensures validationErrors == old(validationErrors)
      ensures validationWarnings == old(validationWarnings) + OptionalIssuesUpTo(workbook, sheets, |sheets|)
      ensures data == Stored(old(data), workbook, sheets)
    {
      for j := 0 to |sheets|
        invariant validationErrors == old(validationErrors)
        invariant validationWarnings == old(validationWarnings) + OptionalIssuesUpTo(workbook, sheets, j)
        invariant data == Stored(old(data), workbook, sheets[..j])
      {
        var spec := sheets[j];
        assert sheets[..j + 1][..j] == sheets[..j];
        if spec.sheet in workbook {
          ValidateColumns(spec, workbook[spec.sheet], true);
          data := data[spec.sheet := workbook[spec.sheet]];
        } else {
          validationWarnings := validationWarnings + [OptionalSheetAbsent(Name(spec.sheet))];
        }
      }
      assert sheets[..|sheets|] == sheets;
    }

    /** `get_validation_report`. */
    method GetValidationReport() returns (errors: seq<Issue>, warnings: seq<Issue>)
      ensures errors == validationErrors && warnings == validationWarnings
    {
      errors, warnings := validationErrors, validationWarnings;
    }

    /** `get_sheet`: the sheet of that name when loaded, else nothing. */
    function GetSheet(name: string): (r: Option<Sheet>)
      reads this
      ensures r.Some? <==> exists s :: s in data && Name(s) == name
      ensures forall s :: s in data && Name(s) == name ==> r == Some(data[s])
    {
      match SheetNamed(name)
      case Some(s) => if s in data then Some(data[s]) else None
      case None => None
    }

    /** `get_all_data`. */
    function GetAllData(): (r: map<SheetName, Sheet>)
      reads this
      ensures r == data
    {
      data
    }
  }

  /** For a fresh loader, `load` succeeds exactly when every required sheet
      is there with its columns, the ORG_TREE and EMISSIONS rules record
      nothing and raise nothing, and the TEXTE_RAPPORT rule raises nothing
      (its findings are only warnings); for any lists in which the three
      rule sheets are required. */
  lemma LoadSucceedsWhen(workbook: map<SheetName, Sheet>, required: seq<SheetSpec>, optional: seq<SheetSpec>,
                         org: nat, emissions: nat, texte: nat)
    requires org < |required| && emissions < |required| && texte < |required|
    requires required[org].sheet == OrgTree && required[emissions].sheet == Emissions
    requires required[texte].sheet == TexteRapport
    ensures LoadOutcome(map[], [], [], workbook, required, optional).result.Success? <==>
      && (forall k :: 0 <= k < |required| ==> required[k].sheet in workbook)
      && OrgTree in workbook && Emissions in workbook && TexteRapport in workbook
      && (forall k :: 0 <= k < |required| ==> HasColumns(required[k], workbook[required[k].sheet]))
      && OrgTreeRules(workbook[OrgTree]).errors == [] && OrgTreeRules(workbook[OrgTree]).crash.None?
      && EmissionsRules(workbook[Emissions]).errors == [] && EmissionsRules(workbook[Emissions]).crash.None?
      && TexteRules(workbook[TexteRapport]).crash.None?
  {
    if FirstAbsent(workbook, required).None? {
      LoadSucceedsAllPresent(workbook, required, optional, org, emissions, texte);
    } else {
      var k := FirstAbsent(workbook, required).value;
      assert required[k].sheet !in workbook;
      assert LoadOutcome(map[], [], [], workbook, required, optional).result.Failure?;
    }
  }

  /** The case where every required sheet is there. */
  lemma LoadSucceedsAllPresent(workbook: map<SheetName, Sheet>, required: seq<SheetSpec>, optional: seq<SheetSpec>,
                               org: nat, emissions: nat, texte: nat)
    requires org < |required| && emissions < |required| && texte < |required|
    requires required[org].sheet == OrgTree && required[emissions].sheet == Emissions
    requires required[texte].sheet == TexteRapport
    requires FirstAbsent(workbook, required).None?
    ensures OrgTree in workbook && Emissions in workbook && TexteRapport in workbook
    ensures LoadOutcome(map[], [], [], workbook, required, optional).result.Success? <==>
      && (forall k :: 0 <= k < |required| ==> HasColumns(required[k], workbook[required[k].sheet]))
      && OrgTreeRules(workbook[OrgTree]).errors == [] && OrgTreeRules(workbook[OrgTree]).crash.None?
      && EmissionsRules(workbook[Emissions]).errors == [] && EmissionsRules(workbook[Emissions]).crash.None?
      && TexteRules(workbook[TexteRapport]).crash.None?
  {
    var stored := Loaded(map[], workbook, required, optional);
    LoadResultAllPresent(workbook, required, optional);
    ColumnIssuesUpToNone(workbook, required, |required|);
    LoadedFromWorkbook(map[], workbook, required, optional, org);
    LoadedFromWorkbook(map[], workbook, required, optional, emissions);
    LoadedFromWorkbook(map[], workbook, required, optional, texte);
    BusinessRulesParts(stored);
  }

  /** With every required sheet there, the load succeeds exactly when no
      column is missing and the business rules record nothing and raise
      nothing. */
  lemma LoadResultAllPresent(workbook: map<SheetName, Sheet>, required: seq<SheetSpec>, optional: seq<SheetSpec>)
    requires FirstAbsent(workbook, required).None?
    ensures var rules := BusinessRules(Loaded(map[], workbook, required, optional));
      LoadOutcome(map[], [], [], workbook, required, optional).result.Success? <==>
        ColumnIssuesUpTo(workbook, required, |required|) == [] && rules.errors == [] && rules.crash.None?
  {
    NoneAbsent(workbook, required);
    SheetIssuesSpec(required, Available(workbook));
  }

  /** The same for REQUIRED_SHEETS and OPTIONAL_SHEETS. */
  lemma LoadSucceedsIff(workbook: map<SheetName, Sheet>)
    ensures LoadOutcome(map[], [], [], workbook, RequiredSheets, OptionalSheets).result.Success? <==>
      && (forall k :: 0 <= k < |RequiredSheets| ==> RequiredSheets[k].sheet in workbook)
      && OrgTree in workbook && Emissions in workbook && TexteRapport in workbook
      && (forall k :: 0 <= k < |RequiredSheets| ==> HasColumns(RequiredSheets[k], workbook[RequiredSheets[k].sheet]))
      && OrgTreeRules(workbook[OrgTree]).errors == [] && OrgTreeRules(workbook[OrgTree]).crash.None?
      && EmissionsRules(workbook[Emissions]).errors == [] && EmissionsRules(workbook[Emissions]).crash.None?
      && TexteRules(workbook[TexteRapport]).crash.None?
  {
    LoadSucceedsWhen(workbook, RequiredSheets, OptionalSheets, 0, 1, 8);
  }

  /** `load_and_validate_excel`: a fresh loader's sheets and report when
      `load` returns, its error when `load` raises; the report returned
      beside the sheets never holds an error. */
  method LoadAndValidate(workbook: map<SheetName, Sheet>)
    returns (r: Result<(map<SheetName, Sheet>, seq<Issue>, seq<Issue>), LoadError>)
    ensures var o := LoadOutcome(map[], [], [], workbook, RequiredSheets, OptionalSheets);
      && (o.result.Success? ==> r == Success((o.data, [], o.warnings)))
      && (o.result.Failure? ==> r == Failure(o.result.error))
  {
    var loader := new ExcelLoader();
    var loaded := loader.Load(workbook);
    LoadOutcomeResult(map[], [], [], workbook, loader.required, loader.optional);
    if loaded.Failure? {
      return Failure(loaded.error);
    }
    var errors, warnings := loader.GetValidationReport();
    return Success((loaded.value, errors, warnings));
  }
}
