/** The part of a WordprocessingML document that the template machinery reads
    and rewrites, as python-docx exposes it: the body (ECMA-376 Part 1,
    section 17.2.2) is a list of children, of which paragraphs (section 17.3)
    hold runs and tables (section 17.4) hold rows, cells and paragraphs. */
module Docx {
  import opened Wrappers

  /** `paragraph.alignment`; `Inherited` stands for None. */
  datatype Alignment = Inherited | Left | Center | Right | Justify

  /** An inline picture added by `run.add_picture(image, width=Inches(w))`. */
  datatype Picture = Picture(image: string, widthInches: real)

  /** A run: its text, its character style ("" for the default one) and,
      possibly, a drawing, which contributes no text. */
  datatype Run = Run(text: string, style: string, picture: Option<Picture>)

  datatype Paragraph = Paragraph(runs: seq<Run>, alignment: Alignment)
  datatype Cell = Cell(paragraphs: seq<Paragraph>)
  datatype Row = Row(cells: seq<Cell>)
  datatype Table = Table(rows: seq<Row>)

  /** A child of the body: a paragraph, a table, or anything else (section
      properties, bookmarks, content controls), named by its tag. */
  datatype Element = Para(p: Paragraph) | Tbl(t: Table) | Other(tag: string)

  function RunsText(runs: seq<Run>): string {
    if runs == [] then [] else runs[0].text + RunsText(runs[1..])
  }

  /** `paragraph.text`: the texts of its runs, joined. */
  function ParagraphText(p: Paragraph): string {
    RunsText(p.runs)
  }

  /** Every run after `run.text = ''`: no text, no drawing, same style. */
  function Blanked(runs: seq<Run>): (r: seq<Run>)
    ensures |r| == |runs|
    ensures forall i :: 0 <= i < |r| ==> r[i] == Run([], runs[i].style, None)
    ensures RunsText(r) == []
  {
    if runs == [] then [] else [Run([], runs[0].style, None)] + Blanked(runs[1..])
  }

  /** The write-back both placeholder passes use once a paragraph's text has
      changed: with runs, the first run receives the whole text and the others
      are emptied, every run keeping its style; without runs,
      `paragraph.text = t` leaves one run of default style. */
  function Rewrite(p: Paragraph, t: string): (r: Paragraph)
    ensures ParagraphText(r) == t
    ensures r.alignment == p.alignment
    ensures |r.runs| == if p.runs == [] then 1 else |p.runs|
    ensures p.runs != [] ==> forall i :: 0 <= i < |r.runs| ==> r.runs[i].style == p.runs[i].style
    ensures forall i :: 1 <= i < |r.runs| ==> r.runs[i].text == []
  {
    if p.runs == [] then
      assert RunsText([Run(t, "", None)]) == t + RunsText([]);
      p.(runs := [Run(t, "", None)])
    else
      var rest := Blanked(p.runs[1..]);
      assert ([Run(t, p.runs[0].style, None)] + rest)[1..] == rest;
      p.(runs := [Run(t, p.runs[0].style, None)] + rest)
  }

  // ---------------------------------------------------------------------
  // The paragraph view `document.paragraphs`: the body children that are
  // paragraphs, in order. Block indices are positions in this view.

  function Paragraphs(body: seq<Element>): (ps: seq<Paragraph>)
    ensures |ps| <= |body|
  {
    if body == [] then []
    else Paragraphs(body[..|body| - 1]) + (if body[|body| - 1].Para? then [body[|body| - 1].p] else [])
  }

  /** The body position of each paragraph of the view. */
  function ParaPositions(body: seq<Element>): (pos: seq<nat>)
    ensures |pos| == |Paragraphs(body)|
    ensures forall i :: 0 <= i < |pos| ==> pos[i] < |body| && body[pos[i]] == Para(Paragraphs(body)[i])
    ensures forall i, j :: 0 <= i < j < |pos| ==> pos[i] < pos[j]
  {
    if body == [] then []
    else
      var init := ParaPositions(body[..|body| - 1]);
      init + (if body[|body| - 1].Para? then [|body| - 1] else [])
  }

  /** The view of a concatenation is the concatenation of the views. */
  lemma {:induction false} ParagraphsConcat(a: seq<Element>, b: seq<Element>)
    ensures Paragraphs(a + b) == Paragraphs(a) + Paragraphs(b)
    decreases |b|
  {
    if b == [] {
      assert a + b == a;
    } else {
      var b' := b[..|b| - 1];
      assert (a + b)[..|a + b| - 1] == a + b';
      assert (a + b)[|a + b| - 1] == b[|b| - 1];
      ParagraphsConcat(a, b');
    }
  }

  /** The body up to a paragraph's position shows exactly the paragraphs
      before it in the view. */
  lemma ParagraphsBefore(body: seq<Element>, i: nat)
    requires i < |Paragraphs(body)|
    ensures Paragraphs(body[..ParaPositions(body)[i]]) == Paragraphs(body)[..i]
    ensures Paragraphs(body[..ParaPositions(body)[i] + 1]) == Paragraphs(body)[..i + 1]
  {
    ParagraphsUpTo(body, i);
    ParagraphsThrough(body, i, ParaPositions(body)[i]);
  }

  /** The view of the body through the paragraph at position `k`, the `i`-th
      of the view. */
  lemma ParagraphsThrough(body: seq<Element>, i: nat, k: nat)
    requires i < |Paragraphs(body)| && k < |body| && body[k] == Para(Paragraphs(body)[i])
    requires Paragraphs(body[..k]) == Paragraphs(body)[..i]
    ensures Paragraphs(body[..k + 1]) == Paragraphs(body)[..i + 1]
  {
    var ps := Paragraphs(body);
    assert body[..k + 1][..k] == body[..k];
    assert ps[..i + 1] == ps[..i] + [ps[i]];
  }

  lemma {:induction false} ParagraphsUpTo(body: seq<Element>, i: nat)
    requires i < |Paragraphs(body)|
    ensures Paragraphs(body[..ParaPositions(body)[i]]) == Paragraphs(body)[..i]
    decreases |body|
  {
    var n := |body|;
    var init := body[..n - 1];
    var k := ParaPositions(body)[i];
    if body[n - 1].Para? && i == |Paragraphs(body)| - 1 {
      assert body[..k] == init;
    } else {
      assert k == ParaPositions(init)[i];
      assert Paragraphs(body)[..i] == Paragraphs(init)[..i];
      assert body[..k] == init[..k];
      ParagraphsUpTo(init, i);
    }
  }

  /** Paragraphs occupy distinct, increasing view indices: the one at body
      position `k` has as view index the number of paragraphs before it. */
  lemma {:induction false} ViewIndexAt(body: seq<Element>, k: nat)
    requires k < |body| && body[k].Para?
    ensures |Paragraphs(body[..k])| < |Paragraphs(body)|
    ensures ParaPositions(body)[|Paragraphs(body[..k])|] == k
    decreases |body|
  {
    var init := body[..|body| - 1];
    if k == |body| - 1 {
      assert body[..k] == init;
    } else {
      assert body[..k] == init[..k];
      ViewIndexAt(init, k);
    }
  }

  /** The body-level tables, `document.tables`. */
  function Tables(body: seq<Element>): (ts: seq<Table>)
    ensures |ts| <= |body|
  {
    if body == [] then []
    else Tables(body[..|body| - 1]) + (if body[|body| - 1].Tbl? then [body[|body| - 1].t] else [])
  }

  // ---------------------------------------------------------------------
  // Tables: rows, then cells, then paragraphs, as python-docx walks them.

  function CellsParagraphs(cells: seq<Cell>): seq<Paragraph> {
    if cells == [] then [] else cells[0].paragraphs + CellsParagraphs(cells[1..])
  }

  function RowsParagraphs(rows: seq<Row>): seq<Paragraph> {
    if rows == [] then [] else CellsParagraphs(rows[0].cells) + RowsParagraphs(rows[1..])
  }

  /** The cell paragraphs of a table in the order of
      `for row in table.rows: for cell in row.cells: for paragraph in cell.paragraphs`. */
  function TableParagraphs(t: Table): seq<Paragraph> {
    RowsParagraphs(t.rows)
  }

  /** Every cell paragraph of a table passed through `f`, the shape kept. */
  function MapTable(t: Table, f: Paragraph -> Paragraph): (r: Table)
    ensures |r.rows| == |t.rows|
  {
    Table(seq(|t.rows|, i requires 0 <= i < |t.rows| =>
      Row(seq(|t.rows[i].cells|, j requires 0 <= j < |t.rows[i].cells| =>
        Cell(seq(|t.rows[i].cells[j].paragraphs|, k requires 0 <= k < |t.rows[i].cells[j].paragraphs| =>
          f(t.rows[i].cells[j].paragraphs[k])))))))
  }

  function SetInCells(cells: seq<Cell>, q: nat, p: Paragraph): (r: seq<Cell>)
    requires q < |CellsParagraphs(cells)|
    ensures |r| == |cells|
    ensures CellsParagraphs(r) == CellsParagraphs(cells)[q := p]
    decreases |cells|
  {
    var here := cells[0].paragraphs;
    if q < |here| then
      assert CellsParagraphs([Cell(here[q := p])] + cells[1..]) == here[q := p] + CellsParagraphs(cells[1..]);
      [Cell(here[q := p])] + cells[1..]
    else
      var rest := SetInCells(cells[1..], q - |here|, p);
      assert ([cells[0]] + rest)[1..] == rest;
      [cells[0]] + rest
  }

  function SetInRows(rows: seq<Row>, q: nat, p: Paragraph): (r: seq<Row>)
    requires q < |RowsParagraphs(rows)|
    ensures |r| == |rows|
    ensures RowsParagraphs(r) == RowsParagraphs(rows)[q := p]
    decreases |rows|
  {
    var here := CellsParagraphs(rows[0].cells);
    if q < |here| then
      var row := Row(SetInCells(rows[0].cells, q, p));
      assert ([row] + rows[1..])[1..] == rows[1..];
      [row] + rows[1..]
    else
      var rest := SetInRows(rows[1..], q - |here|, p);
      assert ([rows[0]] + rest)[1..] == rest;
      [rows[0]] + rest
  }

  /** The table with its `q`-th cell paragraph (in walking order) replaced. */
  function SetTableParagraph(t: Table, q: nat, p: Paragraph): (r: Table)
    requires q < |TableParagraphs(t)|
    ensures |r.rows| == |t.rows|
    ensures TableParagraphs(r) == TableParagraphs(t)[q := p]
  {
    Table(SetInRows(t.rows, q, p))
  }

  // ---------------------------------------------------------------------
  // Removal of collected children, `p.getparent().remove(p)` for each.

  /** Positions below `n`, in increasing order. */
  predicate Ascending(pos: seq<nat>, n: nat) {
    && (forall i, j :: 0 <= i < j < |pos| ==> pos[i] < pos[j])
    && (forall i :: 0 <= i < |pos| ==> pos[i] < n)
  }

  /** `s` without the elements at the positions listed in `pos`. */
  function Without<T>(s: seq<T>, pos: seq<nat>): seq<T> {
    Kept(s, pos, |s|)
  }

  /** The first `c` elements of `s`, less those at listed positions. */
  function Kept<T>(s: seq<T>, pos: seq<nat>, c: nat): seq<T>
    requires c <= |s|
  {
    if c == 0 then [] else Kept(s, pos, c - 1) + (if c - 1 in pos then [] else [s[c - 1]])
  }

  /** A stretch none of whose positions is listed is kept whole. */
  lemma {:induction false} KeptStretch<T>(s: seq<T>, pos: seq<nat>, c: nat, m: nat)
    requires c <= m <= |s|
    requires forall k :: c <= k < m ==> k !in pos
    ensures Kept(s, pos, m) == Kept(s, pos, c) + s[c..m]
    decreases m - c
  {
    if m > c {
      KeptStretch(s, pos, c, m - 1);
      assert s[c..m] == s[c..m - 1] + [s[m - 1]];
    }
  }

  /** Between two consecutive listed positions nothing is listed. */
  lemma Unlisted(pos: seq<nat>, n: nat, j: nat, k: nat)
    requires Ascending(pos, n) && j <= |pos|
    requires (if j == 0 then 0 else pos[j - 1] + 1) <= k && (j == |pos| || k < pos[j])
    ensures k !in pos
  {
    forall m | 0 <= m < |pos| ensures pos[m] != k {
      if m < j - 1 {
        assert pos[m] < pos[j - 1];
      }
    }
  }

  /** The kept children up to the `j`-th listed position and up to just
      after it. */
  lemma KeptUpTo<T>(was: seq<T>, pos: seq<nat>, j: nat)
    requires Ascending(pos, |was|) && j < |pos|
    ensures var c := if j == 0 then 0 else pos[j - 1] + 1;
      c <= pos[j] < |was| && Kept(was, pos, pos[j] + 1) == Kept(was, pos, c) + was[c..pos[j]]
  {
    var c := if j == 0 then 0 else pos[j - 1] + 1;
    var p := pos[j];
    if j > 0 {
      assert pos[j - 1] < p;
    }
    forall k | c <= k < p ensures k !in pos {
      Unlisted(pos, |was|, j, k);
    }
    KeptStretch(was, pos, c, p);
    assert p in pos;
  }

  /** Removing the element at `p - j` from `kept + was[c..]`, when `kept`
      has `c - j` elements. */
  lemma DropAt<T>(was: seq<T>, kept: seq<T>, kept': seq<T>, c: nat, p: nat, j: nat, rest: seq<T>)
    requires c <= p < |was| && |kept| == c - j && rest == kept + was[c..] && kept' == kept + was[c..p]
    ensures p - j < |rest| && |kept'| == p - j && rest[..p - j] + rest[p - j + 1..] == kept' + was[p + 1..]
  {
    assert rest[..p - j] == kept';
    assert rest[p - j + 1..] == was[p + 1..];
  }

  /** Where the removal loop stands after `j` removals: what is left is the
      kept part of the children up to the `j`-th listed position, followed
      by all the children after it. */
  ghost predicate RemovedSoFar<T>(was: seq<T>, pos: seq<nat>, j: nat, rest: seq<T>)
    requires j <= |pos|
  {
    var c := if j == 0 then 0 else pos[j - 1] + 1;
    c <= |was| && |Kept(was, pos, c)| == c - j && rest == Kept(was, pos, c) + was[c..]
  }

  /** The `j`-th removal, at position `pos[j] - j` of what is left. */
  lemma RemoveNext<T>(was: seq<T>, pos: seq<nat>, j: nat, rest: seq<T>)
    requires Ascending(pos, |was|) && j < |pos| && RemovedSoFar(was, pos, j, rest)
    ensures 0 <= pos[j] - j < |rest| && RemovedSoFar(was, pos, j + 1, rest[..pos[j] - j] + rest[pos[j] - j + 1..])
  {
    var c := if j == 0 then 0 else pos[j - 1] + 1;
    KeptUpTo(was, pos, j);
    DropAt(was, Kept(was, pos, c), Kept(was, pos, pos[j] + 1), c, pos[j], j, rest);
  }

  lemma SameRest<T>(was: seq<T>, pos: seq<nat>, j: nat, rest: seq<T>, rest': seq<T>)
    requires j <= |pos| && rest == rest' && RemovedSoFar(was, pos, j, rest)
    ensures RemovedSoFar(was, pos, j, rest')
  {
  }

  /** After the last removal, what is left is the children less the listed ones. */
  lemma RemoveDone<T>(was: seq<T>, pos: seq<nat>, rest: seq<T>)
    requires Ascending(pos, |was|) && RemovedSoFar(was, pos, |pos|, rest)
    ensures rest == Without(was, pos)
  {
    var c := if pos == [] then 0 else pos[|pos| - 1] + 1;
    forall k | c <= k < |was| ensures k !in pos {
      Unlisted(pos, |was|, |pos|, k);
    }
    KeptStretch(was, pos, c, |was|);
  }

  /** The first `j` removals, one after the other, the `i`-th at position
      `pos[i] - i` of what the earlier ones left. */
  ghost function Removals<T>(was: seq<T>, pos: seq<nat>, j: nat): seq<T>
    requires j <= |pos|
    decreases j
  {
    if j == 0 then was
    else
      var r, i := Removals(was, pos, j - 1), pos[j - 1] - (j - 1);
      if 0 <= i < |r| then r[..i] + r[i + 1..] else r
  }

  lemma {:induction false} RemovalsSoFar<T>(was: seq<T>, pos: seq<nat>, j: nat)
    requires Ascending(pos, |was|) && j <= |pos|
    ensures RemovedSoFar(was, pos, j, Removals(was, pos, j))
    decreases j
  {
    if j == 0 {
      assert Kept(was, pos, 0) + was[0..] == was;
    } else {
      RemovalsSoFar(was, pos, j - 1);
      RemovalStep(was, pos, j - 1);
    }
  }

  lemma RemovalStep<T>(was: seq<T>, pos: seq<nat>, j: nat)
    requires Ascending(pos, |was|) && j < |pos| && RemovedSoFar(was, pos, j, Removals(was, pos, j))
    ensures RemovedSoFar(was, pos, j + 1, Removals(was, pos, j + 1))
  {
    var r, i := Removals(was, pos, j), pos[j] - j;
    RemoveNext(was, pos, j, r);
    SameRest(was, pos, j + 1, r[..i] + r[i + 1..], Removals(was, pos, j + 1));
  }

  /** The `j`-th removal always finds its child: `pos[j] - j` is a position of what is left. */
  lemma RemovalInRange<T>(was: seq<T>, pos: seq<nat>, j: nat)
    requires Ascending(pos, |was|) && j < |pos|
    ensures 0 <= pos[j] - j < |Removals(was, pos, j)|
  {
    RemovalsSoFar(was, pos, j);
    RemoveNext(was, pos, j, Removals(was, pos, j));
  }

  /** Once every listed child is removed, what is left is the children less the listed ones. */
  lemma RemovalsDone<T>(was: seq<T>, pos: seq<nat>)
    requires Ascending(pos, |was|)
    ensures Removals(was, pos, |pos|) == Without(was, pos)
  {
    RemovalsSoFar(was, pos, |pos|);
    RemoveDone(was, pos, Removals(was, pos, |pos|));
  }

  /** The removals of `Document.RemoveEach`, on the body's value. */
  method RemovedEach<T>(was: seq<T>, pos: seq<nat>) returns (rest: seq<T>)
    requires Ascending(pos, |was|)
    ensures rest == Without(was, pos)
  {
    rest := was;
    var j := 0;
    while j < |pos|
      invariant j <= |pos| && rest == Removals(was, pos, j)
    {
      RemovalInRange(was, pos, j);
      rest := rest[..pos[j] - j] + rest[pos[j] - j + 1..];
      j := j + 1;
    }
    RemovalsDone(was, pos);
  }

  /** The document: its body, changed in place by the passes. */
  class Document {
    var body: seq<Element>

    constructor(body: seq<Element>)
      ensures this.body == body
    {
      this.body := body;
    }

    /** Removes the children at the listed (increasing) positions, one at a
        time, as `p.getparent().remove(p)` does for each collected paragraph. */
    method RemoveEach(pos: seq<nat>)
      requires Ascending(pos, |body|)
      modifies this
      ensures body == Without(old(body), pos)
    {
      body := RemovedEach(body, pos);
    }
  }
}
