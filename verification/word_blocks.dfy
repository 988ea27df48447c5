/** Repeatable blocks of a Word template: an extent of paragraphs that opens
    with a start marker paragraph (`[[START_LOT]]`) and closes with an end
    marker paragraph (`[[END_LOT]]`). Block indices are positions in the
    paragraph view `document.paragraphs`, not in the body. */
module WordBlocks {
  import opened Wrappers
  import opened Text
  import opened Sequences
  import opened Docx
  import opened Dicts


  /** `paragraph.text.strip()`. */
  function Stripped(p: Paragraph): string {
    Strip(ParagraphText(p))
  }

  /** For each paragraph of the view, whether its stripped text contains
      `marker` (`marker in paragraph.text.strip()`). */
  function Hits(ps: seq<Paragraph>, marker: string): (h: seq<bool>)
    ensures |h| == |ps|
  {
    seq(|ps|, k requires 0 <= k < |ps| => Contains(Stripped(ps[k]), marker))
  }

  /** Paragraph `j` closes a block: it holds the end marker but not the start
      marker, and a start marker was seen in an earlier paragraph. `hs` and
      `he` are the start and end marker hits of the view. */
  predicate Closes(hs: seq<bool>, he: seq<bool>, j: nat)
    requires j < |hs| && j < |he|
  {
    !hs[j] && he[j] && exists i :: 0 <= i < j && hs[i]
  }

  /** (s, e) is the block a left-to-right scan reports: `e` is the first
      paragraph that closes a block and `s` the last start marker before it. */
  predicate IsFoundBlock(hs: seq<bool>, he: seq<bool>, s: nat, e: nat) {
    && s < e < |hs| && e < |he|
    && hs[s]
    && Closes(hs, he, e)
    && (forall k :: s < k < e ==> !hs[k])
    && (forall k :: 0 <= k < e ==> !Closes(hs, he, k))
  }

  /** A well-formed block at (a, b): start marker at `a`, end marker (and no
      start marker) at `b`, neither marker strictly between. */
  predicate BlockAt(hs: seq<bool>, he: seq<bool>, a: nat, b: nat) {
    && a < b < |hs| && b < |he|
    && hs[a] && he[b] && !hs[b]
    && (forall k :: a < k < b ==> !hs[k] && !he[k])
  }

  /** The block a scan finds is well formed: nothing between its markers is a marker. */
  lemma FoundBlockIsBlock(hs: seq<bool>, he: seq<bool>, s: nat, e: nat)
    requires IsFoundBlock(hs, he, s, e)
    ensures BlockAt(hs, he, s, e)
  {
    forall k | s < k < e ensures !he[k] {
      assert !Closes(hs, he, k);
    }
  }

  /** The scan's answer is unique. */
  lemma FoundBlockUnique(hs: seq<bool>, he: seq<bool>, s: nat, e: nat, s': nat, e': nat)
    requires IsFoundBlock(hs, he, s, e) && IsFoundBlock(hs, he, s', e')
    ensures s == s' && e == e'
  {
  }

  /** Only the paragraphs up to the end marker decide the scan. */
  lemma FoundBlockPrefix(hs: seq<bool>, he: seq<bool>, hs': seq<bool>, he': seq<bool>, s: nat, e: nat)
    requires e < |hs'| && e < |he'|
    requires IsFoundBlock(hs, he, s, e)
    requires hs[..e + 1] == hs'[..e + 1] && he[..e + 1] == he'[..e + 1]
    ensures IsFoundBlock(hs', he', s, e)
  {
    forall k | 0 <= k <= e ensures hs[k] == hs'[k] && he[k] == he'[k] {
      assert hs[k] == hs[..e + 1][k] && he[k] == he[..e + 1][k];
    }
    forall k | 0 <= k <= e ensures Closes(hs, he, k) == Closes(hs', he', k) {
    }
  }

  lemma HitsConcat(a: seq<Paragraph>, b: seq<Paragraph>, marker: string)
    ensures Hits(a + b, marker) == Hits(a, marker) + Hits(b, marker)
  {
    assert forall k :: 0 <= k < |b| ==> (a + b)[|a| + k] == b[k];
  }

  lemma HitsSlice(ps: seq<Paragraph>, i: nat, j: nat, marker: string)
    requires i <= j <= |ps|
    ensures Hits(ps[i..j], marker) == Hits(ps, marker)[i..j]
  {
  }

  lemma {:induction false} HitsRepeat(ps: seq<Paragraph>, n: nat, marker: string)
    ensures Hits(Repeat(ps, n), marker) == Repeat(Hits(ps, marker), n)
    decreases n
  {
    if n > 0 {
      HitsRepeat(ps, n - 1, marker);
      HitsConcat(Repeat(ps, n - 1), ps, marker);
    }
  }

  /** `n` copies of the extent `xs[s..e]` inserted right after position `e`. */
  function Spliced<T>(xs: seq<T>, s: nat, e: nat, n: nat): seq<T>
    requires s <= e < |xs|
  {
    xs[..e + 1] + Repeat(xs[s..e + 1], n) + xs[e + 1..]
  }

  /** The extent has `e - s + 1` elements, each copy adds as many. */
  lemma SplicedLength<T>(xs: seq<T>, s: nat, e: nat, n: nat)
    requires s <= e < |xs|
    ensures |Spliced(xs, s, e, n)| == |xs| + n * (e - s + 1)
  {
    var x := xs[s..e + 1];
    assert |x| == e - s + 1;
    assert |Repeat(x, n)| == n * (e - s + 1);
  }

  lemma HitsSpliced(ps: seq<Paragraph>, s: nat, e: nat, n: nat, marker: string)
    requires s <= e < |ps|
    ensures Hits(Spliced(ps, s, e, n), marker) == Spliced(Hits(ps, marker), s, e, n)
  {
    HitsConcat(ps[..e + 1] + Repeat(ps[s..e + 1], n), ps[e + 1..], marker);
    HitsConcat(ps[..e + 1], Repeat(ps[s..e + 1], n), marker);
    HitsRepeat(ps[s..e + 1], n, marker);
    HitsSlice(ps, 0, e + 1, marker);
    HitsSlice(ps, s, e + 1, marker);
    HitsSlice(ps, e + 1, |ps|, marker);
    assert ps[0..e + 1] == ps[..e + 1];
    assert Hits(ps, marker)[0..e + 1] == Hits(ps, marker)[..e + 1];
  }

  /** `_is_element_in_range`'s `list.index`: the first position of `x`. */
  function IndexOf<T(==)>(xs: seq<T>, x: T): (r: Option<nat>)
    ensures r.Some? <==> x in xs
    ensures r.Some? ==> r.value < |xs| && xs[r.value] == x && forall k :: 0 <= k < r.value ==> xs[k] != x
  {
    if xs == [] then None
    else if xs[0] == x then Some(0)
    else match IndexOf(xs[1..], x)
      case None => None
      case Some(i) => Some(i + 1)
  }

  /** Whether `element` lies between `startElement` and `endElement`
      (inclusive) among the body children; false when any of the three is
      not a child of the body (the `ValueError` branch). */
  function IsElementInRange<T(==)>(elements: seq<T>, element: T, startElement: T, endElement: T): (b: bool)
    ensures b ==> element in elements && startElement in elements && endElement in elements
  {
    match (IndexOf(elements, startElement), IndexOf(elements, endElement), IndexOf(elements, element))
    case (Some(s), Some(e), Some(x)) => s <= x <= e
    case _ => false
  }

  /** Among distinct children the test is a comparison of positions. */
  lemma InRangeByPosition<T>(elements: seq<T>, i: nat, s: nat, e: nat)
    requires forall a, b :: 0 <= a < b < |elements| ==> elements[a] != elements[b]
    requires i < |elements| && s < |elements| && e < |elements|
    ensures IsElementInRange(elements, elements[i], elements[s], elements[e]) <==> s <= i <= e
  {
    IndexOfDistinct(elements, s);
    IndexOfDistinct(elements, e);
    IndexOfDistinct(elements, i);
  }

  lemma IndexOfDistinct<T>(xs: seq<T>, i: nat)
    requires forall a, b :: 0 <= a < b < |xs| ==> xs[a] != xs[b]
    requires i < |xs|
    ensures IndexOf(xs, xs[i]) == Some(i)
  {
    assert forall k :: 0 <= k < |xs| && k != i ==> xs[k] != xs[i] by {
      forall k | 0 <= k < |xs| && k != i ensures xs[k] != xs[i] {
        if k < i { assert xs[k] != xs[i]; } else { assert xs[i] != xs[k]; }
      }
    }
    assert xs[i] in xs;
  }

  /** The identity of each body child: lxml compares elements by identity,
      which the model writes as the child's body position. */
  function Identities(n: nat): (ids: seq<nat>)
    ensures |ids| == n && forall k :: 0 <= k < n ==> ids[k] == k
  {
    seq(n, k => k)
  }

  /** The placeholder whose presence left-aligns a block paragraph. */
  const TopPostesList := "{{ENTITY_TOP_POSTES_LIST}}"

  /** One paragraph of `replace_in_block`: the replacements applied in dict
      order, the paragraph left-aligned when it is a body paragraph that
      contains `{{ENTITY_TOP_POSTES_LIST}}` and that key is being replaced,
      and the text written back only when it changed. */
  function Substituted(p: Paragraph, reps: Replacements, alignList: bool): Paragraph {
    var text := ParagraphText(p);
    var aligned := if alignList && TopPostesList in KeysOf(reps) && Contains(text, TopPostesList)
      then p.(alignment := Left) else p;
    var t := ReplaceAll(text, reps);
    if t != text then Rewrite(aligned, t) else aligned
  }

  /** What a substituted paragraph holds: the replaced text; when that text
      changed, the first run holds it all and the others are empty, with
      their styles kept. */
  lemma SubstitutedText(p: Paragraph, reps: Replacements, alignList: bool)
    ensures var r := Substituted(p, reps, alignList);
      && ParagraphText(r) == ReplaceAll(ParagraphText(p), reps)
      && (ParagraphText(r) != ParagraphText(p) && p.runs != [] ==>
            |r.runs| == |p.runs| && r.runs[0].text == ParagraphText(r)
            && (forall i :: 0 <= i < |r.runs| ==> r.runs[i].style == p.runs[i].style)
            && (forall i :: 1 <= i < |r.runs| ==> r.runs[i].text == []))
  {
    var r := Substituted(p, reps, alignList);
    if ParagraphText(r) != ParagraphText(p) && p.runs != [] {
      var rest := r.runs[1..];
      assert r.runs == [r.runs[0]] + rest;
      assert RunsText(rest) == [] by {
        RunsTextEmpty(rest);
      }
    }
  }

  lemma {:induction false} RunsTextEmpty(runs: seq<Run>)
    requires forall i :: 0 <= i < |runs| ==> runs[i].text == []
    ensures RunsText(runs) == []
    decreases |runs|
  {
    if runs != [] {
      RunsTextEmpty(runs[1..]);
    }
  }

  /** A paragraph in which no (non-empty) placeholder occurs is left alone. */
  lemma SubstitutedUntouched(p: Paragraph, reps: Replacements, alignList: bool)
    requires forall i :: 0 <= i < |reps| ==> reps[i].0 != [] && !Contains(ParagraphText(p), reps[i].0)
    ensures Substituted(p, reps, alignList) == p
  {
    ReplaceAllAbsent(ParagraphText(p), reps);
    if TopPostesList in KeysOf(reps) {
      var i :| 0 <= i < |reps| && KeysOf(reps)[i] == TopPostesList;
      assert reps[i].0 == TopPostesList;
    }
  }

  /** The per-paragraph map applied to the cells of an in-range table. */
  function CellPass(reps: Replacements): Paragraph -> Paragraph {
    p => Substituted(p, reps, false)
  }

  /** Whether body child `k` is a table `replace_in_block` rewrites: both
      block indices are valid and the child lies between the two marker
      paragraphs. */
  predicate TableInBlock(body: seq<Element>, s: nat, e: nat, k: nat) {
    var ps := Paragraphs(body);
    var pos := ParaPositions(body);
    s < |ps| && e < |ps| && IsElementInRange(Identities(|body|), k, pos[s], pos[e])
  }

  /** The document after the first step of `replace_in_block`: each body
      paragraph whose view index lies in [s, e] substituted, with the list
      alignment rule. */
  function RangeSubstituted(body: seq<Element>, s: nat, e: nat, reps: Replacements): (r: seq<Element>)
    ensures |r| == |body|
  {
    seq(|body|, k requires 0 <= k < |body| =>
      if body[k].Para? && s <= |Paragraphs(body[..k])| <= e then Para(Substituted(body[k].p, reps, true))
      else body[k])
  }

  /** The document after `replace_in_block(s, e, reps)`: the first step, then
      the in-range tables with their cells substituted. */
  function ReplacedInBlock(body: seq<Element>, s: nat, e: nat, reps: Replacements): (r: seq<Element>)
    ensures |r| == |body|
  {
    var mid := RangeSubstituted(body, s, e, reps);
    seq(|body|, k requires 0 <= k < |body| =>
      if body[k].Tbl? && TableInBlock(body, s, e, k) then Tbl(MapTable(body[k].t, CellPass(reps)))
      else mid[k])
  }

  /** A child whose paragraph view does not change its kind keeps the view's
      shape; each paragraph of the new view is `f` of the old one. */
  lemma {:induction false} ParagraphsPointwise(a: seq<Element>, b: seq<Element>, f: (nat, Paragraph) -> Paragraph)
    requires |a| == |b|
    requires forall k :: 0 <= k < |a| ==> (a[k].Para? <==> b[k].Para?)
    requires forall k :: 0 <= k < |a| && a[k].Para? ==> b[k].p == f(|Paragraphs(a[..k])|, a[k].p)
    ensures |Paragraphs(b)| == |Paragraphs(a)|
    ensures forall i :: 0 <= i < |Paragraphs(a)| ==> Paragraphs(b)[i] == f(i, Paragraphs(a)[i])
    decreases |a|
  {
    if a != [] {
      var n := |a|;
      PointwisePrefix(a, b, f);
      ParagraphsPointwise(a[..n - 1], b[..n - 1], f);
      PointwiseLast(a, b, f);
    }
  }

  lemma PointwisePrefix(a: seq<Element>, b: seq<Element>, f: (nat, Paragraph) -> Paragraph)
    requires 0 < |a| == |b|
    requires forall k :: 0 <= k < |a| ==> (a[k].Para? <==> b[k].Para?)
    requires forall k :: 0 <= k < |a| && a[k].Para? ==> b[k].p == f(|Paragraphs(a[..k])|, a[k].p)
    ensures var a', b' := a[..|a| - 1], b[..|a| - 1];
      && (forall k :: 0 <= k < |a'| ==> (a'[k].Para? <==> b'[k].Para?))
      && (forall k :: 0 <= k < |a'| && a'[k].Para? ==> b'[k].p == f(|Paragraphs(a'[..k])|, a'[k].p))
  {
    var a', b' := a[..|a| - 1], b[..|a| - 1];
    forall k | 0 <= k < |a'| && a'[k].Para? ensures b'[k].p == f(|Paragraphs(a'[..k])|, a'[k].p) {
      assert a'[..k] == a[..k];
    }
  }

  /** The step of `ParagraphsPointwise` for the last child. */
  lemma PointwiseLast(a: seq<Element>, b: seq<Element>, f: (nat, Paragraph) -> Paragraph)
    requires 0 < |a| == |b|
    requires a[|a| - 1].Para? <==> b[|a| - 1].Para?
    requires a[|a| - 1].Para? ==> b[|a| - 1].p == f(|Paragraphs(a[..|a| - 1])|, a[|a| - 1].p)
    requires var pa, pb := Paragraphs(a[..|a| - 1]), Paragraphs(b[..|a| - 1]);
      |pb| == |pa| && forall i :: 0 <= i < |pa| ==> pb[i] == f(i, pa[i])
    ensures |Paragraphs(b)| == |Paragraphs(a)|
    ensures forall i :: 0 <= i < |Paragraphs(a)| ==> Paragraphs(b)[i] == f(i, Paragraphs(a)[i])
  {
  }

  /** In the paragraph view, `replace_in_block` substitutes exactly the
      paragraphs with index in [s, e]; every other paragraph is unchanged,
      and the view keeps its length. */
  lemma ReplacedInBlockView(body: seq<Element>, s: nat, e: nat, reps: Replacements)
    ensures var ps, qs := Paragraphs(body), Paragraphs(ReplacedInBlock(body, s, e, reps));
      && |qs| == |ps|
      && forall i :: 0 <= i < |ps| ==> qs[i] == if s <= i <= e then Substituted(ps[i], reps, true) else ps[i]
  {
    var r := ReplacedInBlock(body, s, e, reps);
    ParagraphsPointwise(body, r, (i, p) => if s <= i <= e then Substituted(p, reps, true) else p);
  }

  /** A table is rewritten only between the two marker paragraphs, and only
      when both block indices are valid. */
  lemma TableInBlockByPosition(body: seq<Element>, s: nat, e: nat, k: nat)
    requires k < |body|
    ensures TableInBlock(body, s, e, k) <==>
      s < |Paragraphs(body)| && e < |Paragraphs(body)|
      && ParaPositions(body)[s] <= k <= ParaPositions(body)[e]
  {
    var ps := Paragraphs(body);
    if s < |ps| && e < |ps| {
      var pos := ParaPositions(body);
      var ids := Identities(|body|);
      InRangeByPosition(ids, k, pos[s], pos[e]);
      assert ids[k] == k && ids[pos[s]] == pos[s] && ids[pos[e]] == pos[e];
    }
  }

  /** The paragraphs of a list, as body children. */
  function AsElements(ps: seq<Paragraph>): (es: seq<Element>)
    ensures |es| == |ps| && forall i :: 0 <= i < |ps| ==> es[i] == Para(ps[i])
  {
    seq(|ps|, i requires 0 <= i < |ps| => Para(ps[i]))
  }

  lemma {:induction false} ParagraphsAsElements(ps: seq<Paragraph>)
    ensures Paragraphs(AsElements(ps)) == ps
    decreases |ps|
  {
    if ps != [] {
      var n := |ps|;
      assert AsElements(ps)[..n - 1] == AsElements(ps[..n - 1]);
      ParagraphsAsElements(ps[..n - 1]);
      assert ps[..n - 1] + [ps[n - 1]] == ps;
    }
  }

  lemma {:induction false} ParagraphsRepeat(ps: seq<Paragraph>, n: nat)
    ensures Paragraphs(Repeat(AsElements(ps), n)) == Repeat(ps, n)
    decreases n
  {
    if n > 0 {
      ParagraphsRepeat(ps, n - 1);
      ParagraphsConcat(Repeat(AsElements(ps), n - 1), AsElements(ps));
      ParagraphsAsElements(ps);
    }
  }


  /** The paragraphs `duplicate_block` copies: START through END. */
  function Extent(ps: seq<Paragraph>, s: nat, e: nat): seq<Paragraph>
    requires e < |ps|
  {
    if s <= e then ps[s..e + 1] else []
  }

  /** The document after `duplicate_block(s, e, n)`: `n` copies of the
      extent's paragraphs (tables inside it are not copied) inserted right
      after the END paragraph. */
  function Duplicated(body: seq<Element>, s: nat, e: nat, n: nat): seq<Element>
    requires e < |Paragraphs(body)|
  {
    var pe := ParaPositions(body)[e];
    body[..pe + 1] + Repeat(AsElements(Extent(Paragraphs(body), s, e)), n) + body[pe + 1..]
  }

  /** In the paragraph view, duplication inserts the copies right after
      paragraph `e` and leaves every original paragraph in place. */
  lemma DuplicatedView(body: seq<Element>, s: nat, e: nat, n: nat)
    requires e < |Paragraphs(body)|
    ensures var ps := Paragraphs(body);
      Paragraphs(Duplicated(body, s, e, n)) == ps[..e + 1] + Repeat(Extent(ps, s, e), n) + ps[e + 1..]
  {
    var ps := Paragraphs(body);
    var pe := ParaPositions(body)[e];
    var copies := Repeat(AsElements(Extent(ps, s, e)), n);
    ParagraphsBefore(body, e);
    ParagraphsConcat(body[..pe + 1], body[pe + 1..]);
    assert body[..pe + 1] + body[pe + 1..] == body;
    assert Paragraphs(body[pe + 1..]) == ps[e + 1..];
    ParagraphsConcat(body[..pe + 1], copies);
    ParagraphsConcat(body[..pe + 1] + copies, body[pe + 1..]);
    ParagraphsRepeat(Extent(ps, s, e), n);
  }

  /** Duplicating a found block: the view grows by `n` extents, a new scan
      finds the same block, and each of the `n` copies that follow it is a
      well-formed block of its own. */
  lemma DuplicatedBlocks(body: seq<Element>, start: string, end: string, s: nat, e: nat, n: nat)
    requires IsFoundBlock(Hits(Paragraphs(body), start), Hits(Paragraphs(body), end), s, e)
    ensures var qs := Paragraphs(Duplicated(body, s, e, n));
      && |qs| == |Paragraphs(body)| + n * (e - s + 1)
      && IsFoundBlock(Hits(qs, start), Hits(qs, end), s, e)
      && forall m :: 0 <= m <= n ==> CopyAt(Hits(qs, start), Hits(qs, end), s, e, m)
  {
    DuplicatedView(body, s, e, n);
    SplicedView(Paragraphs(body), Paragraphs(Duplicated(body, s, e, n)), start, end, s, e, n);
  }

  /** The same, on the paragraph views. */
  lemma SplicedView(ps: seq<Paragraph>, qs: seq<Paragraph>, start: string, end: string, s: nat, e: nat, n: nat)
    requires IsFoundBlock(Hits(ps, start), Hits(ps, end), s, e)
    requires qs == ps[..e + 1] + Repeat(Extent(ps, s, e), n) + ps[e + 1..]
    ensures && |qs| == |ps| + n * (e - s + 1)
      && IsFoundBlock(Hits(qs, start), Hits(qs, end), s, e)
      && forall m :: 0 <= m <= n ==> CopyAt(Hits(qs, start), Hits(qs, end), s, e, m)
  {
    assert Extent(ps, s, e) == ps[s..e + 1];
    assert qs == Spliced(ps, s, e, n);
    SplicedLength(ps, s, e, n);
    HitsSpliced(ps, s, e, n, start);
    HitsSpliced(ps, s, e, n, end);
    SplicedBlocks(Hits(ps, start), Hits(ps, end), s, e, n);
  }

  /** The same, on the marker hits: splicing copies after a found block. */
  lemma SplicedBlocks(hs: seq<bool>, he: seq<bool>, s: nat, e: nat, n: nat)
    requires IsFoundBlock(hs, he, s, e)
    ensures IsFoundBlock(Spliced(hs, s, e, n), Spliced(he, s, e, n), s, e)
    ensures forall m :: 0 <= m <= n ==> CopyAt(Spliced(hs, s, e, n), Spliced(he, s, e, n), s, e, m)
  {
    var hs', he' := Spliced(hs, s, e, n), Spliced(he, s, e, n);
    assert hs'[..e + 1] == hs[..e + 1];
    assert he'[..e + 1] == he[..e + 1];
    FoundBlockPrefix(hs, he, hs', he', s, e);
    FoundBlockIsBlock(hs, he, s, e);
    forall m | 0 <= m <= n ensures CopyAt(hs', he', s, e, m) {
      CopyIsBlock(hs, he, s, e, n, m);
    }
  }

  /** Each copy of a well-formed block is well formed. */
  lemma CopyIsBlock(hs: seq<bool>, he: seq<bool>, s: nat, e: nat, n: nat, m: nat)
    requires BlockAt(hs, he, s, e) && m <= n
    ensures CopyAt(Spliced(hs, s, e, n), Spliced(he, s, e, n), s, e, m)
  {
    if m == 0 {
      FirstCopyInSpliced(hs, s, e, n);
      FirstCopyInSpliced(he, s, e, n);
      BlockAtCopy(hs, he, Spliced(hs, s, e, n), Spliced(he, s, e, n), s, e, s);
    } else {
      LaterCopyIsBlock(hs, he, s, e, n, m);
    }
  }

  lemma LaterCopyIsBlock(hs: seq<bool>, he: seq<bool>, s: nat, e: nat, n: nat, m: nat)
    requires BlockAt(hs, he, s, e) && 1 <= m <= n
    ensures CopyAt(Spliced(hs, s, e, n), Spliced(he, s, e, n), s, e, m)
  {
    var lo := e + 1 + (m - 1) * (e - s + 1);
    CopyOffset(s, e, m);
    SplicedCopy(hs, s, e, n, m);
    SplicedCopy(he, s, e, n, m);
    BlockAtCopy(hs, he, Spliced(hs, s, e, n), Spliced(he, s, e, n), s, e, lo);
  }

  /** Copy number `m` (from 1) starts right after `m - 1` earlier copies. */
  lemma CopyOffset(s: nat, e: nat, m: nat)
    requires s <= e && 1 <= m
    ensures 0 <= (m - 1) * (e - s + 1)
    ensures s + m * (e - s + 1) == e + 1 + (m - 1) * (e - s + 1)
    ensures e + m * (e - s + 1) == e + 1 + (m - 1) * (e - s + 1) + (e - s)
  {
    assert m * (e - s + 1) == (m - 1) * (e - s + 1) + (e - s + 1);
  }

  /** Copy number `m` (from 1) of a spliced extent. */
  lemma SplicedCopy<T>(xs: seq<T>, s: nat, e: nat, n: nat, m: nat)
    requires s <= e < |xs| && 1 <= m <= n
    ensures 0 <= (m - 1) * (e - s + 1)
    ensures var lo := e + 1 + (m - 1) * (e - s + 1);
      lo + (e - s + 1) <= |Spliced(xs, s, e, n)| && Spliced(xs, s, e, n)[lo..lo + (e - s + 1)] == xs[s..e + 1]
  {
    CopyOffset(s, e, m);
    var a, x, c := xs[..e + 1], xs[s..e + 1], xs[e + 1..];
    assert |a| == e + 1 && |x| == e - s + 1;
    assert Spliced(xs, s, e, n) == a + Repeat(x, n) + c;
    LaterCopyInSpliced(a, x, c, n, m);
  }

  /** Copy 0 is the original extent, in place. */
  lemma FirstCopyInSpliced<T>(xs: seq<T>, s: nat, e: nat, n: nat)
    requires s <= e < |xs|
    ensures e + 1 <= |Spliced(xs, s, e, n)|
    ensures Spliced(xs, s, e, n)[s..e + 1] == xs[s..e + 1]
  {
    assert Spliced(xs, s, e, n)[s..e + 1] == xs[..e + 1][s..e + 1];
  }

  /** Copy number `m` (from 1) follows `m - 1` earlier copies. */
  lemma LaterCopyInSpliced<T>(a: seq<T>, x: seq<T>, c: seq<T>, n: nat, m: nat)
    requires 1 <= m <= n
    ensures |a| + (m - 1) * |x| + |x| <= |a + Repeat(x, n) + c|
    ensures (a + Repeat(x, n) + c)[|a| + (m - 1) * |x|..|a| + (m - 1) * |x| + |x|] == x
  {
    RepeatCopy(x, n, m - 1);
    SliceMiddle(a, Repeat(x, n), c, (m - 1) * |x|, m * |x|);
    assert m * |x| == (m - 1) * |x| + |x|;
  }

  /** Copy number `m` of the block (s, e) is well formed, `m` extents further on. */
  predicate CopyAt(hs: seq<bool>, he: seq<bool>, s: nat, e: nat, m: nat)
    requires s <= e
  {
    BlockAt(hs, he, s + m * (e - s + 1), e + m * (e - s + 1))
  }

  /** A block is well formed wherever its marker hits reappear. */
  lemma BlockAtCopy(hs: seq<bool>, he: seq<bool>, hs': seq<bool>, he': seq<bool>, s: nat, e: nat, lo: nat)
    requires BlockAt(hs, he, s, e)
    requires lo + (e - s + 1) <= |hs'| && hs'[lo..lo + (e - s + 1)] == hs[s..e + 1]
    requires lo + (e - s + 1) <= |he'| && he'[lo..lo + (e - s + 1)] == he[s..e + 1]
    ensures BlockAt(hs', he', lo, lo + (e - s))
  {
    forall j | lo <= j <= lo + (e - s) ensures hs'[j] == hs[s + (j - lo)] && he'[j] == he[s + (j - lo)] {
      assert hs'[j] == hs'[lo..lo + (e - s + 1)][j - lo];
      assert he'[j] == he'[lo..lo + (e - s + 1)][j - lo];
    }
  }

  /** `remove_block_markers` removes a paragraph whose stripped text is
      exactly one of the markers. */
  predicate IsMarkerParagraph(x: Element, start: string, end: string) {
    x.Para? && (Stripped(x.p) == start || Stripped(x.p) == end)
  }

  function KeepNonMarkers(start: string, end: string): Element -> bool {
    x => !IsMarkerParagraph(x, start, end)
  }

  /** The document after `remove_block_markers`. */
  function WithoutMarkers(body: seq<Element>, start: string, end: string): seq<Element> {
    Filter(body, KeepNonMarkers(start, end))
  }

  /** Removal keeps every other child, in order, and removes each marker
      paragraph. */
  lemma WithoutMarkersSpec(body: seq<Element>, start: string, end: string)
    ensures var r := WithoutMarkers(body, start, end);
      && (forall i :: 0 <= i < |r| ==> !IsMarkerParagraph(r[i], start, end))
      && (forall k :: 0 <= k < |body| && !IsMarkerParagraph(body[k], start, end) ==> body[k] in r)
  {
    var r := WithoutMarkers(body, start, end);
    var keep := KeepNonMarkers(start, end);
    FilterMembers(body, keep);
    forall i | 0 <= i < |r| ensures !IsMarkerParagraph(r[i], start, end) {
      assert r[i] in r && keep(r[i]);
    }
    forall k | 0 <= k < |body| && !IsMarkerParagraph(body[k], start, end) ensures body[k] in r {
      assert keep(body[k]);
    }
  }

  /** A second removal finds nothing more to remove. */
  lemma WithoutMarkersIdempotent(body: seq<Element>, start: string, end: string)
    ensures WithoutMarkers(WithoutMarkers(body, start, end), start, end) == WithoutMarkers(body, start, end)
  {
    var r := WithoutMarkers(body, start, end);
    var keep := KeepNonMarkers(start, end);
    FilterMembers(body, keep);
    forall i | 0 <= i < |r| ensures keep(r[i]) {
      assert r[i] in r;
    }
    FilterAll(r, keep);
  }

  /** Markers are found by containment but removed only on an exact match:
      a paragraph reading "[[START_LOT]] Lot A" opens a block that
      `find_block` reports, yet `remove_block_markers` keeps it. */
  lemma MarkerMatchingDiffers()
    ensures var p := Paragraph([Run("[[START_LOT]] Lot A", "", None)], Inherited);
      Contains(Stripped(p), "[[START_LOT]]") && !IsMarkerParagraph(Para(p), "[[START_LOT]]", "[[END_LOT]]")
  {
    var p := Paragraph([Run("[[START_LOT]] Lot A", "", None)], Inherited);
    var x := "[[START_LOT]] Lot A";
    assert ParagraphText(p) == x + RunsText([]);
    assert !IsSpace(x[0]) && !IsSpace(x[|x| - 1]);
    assert StripLeft(x) == x;
    assert StripRight(x) == x;
    assert "[[START_LOT]]" <= x;
  }

  /** Removing the children listed in `pos` is filtering them out when `pos`
      lists exactly those that `keep` rejects. */
  lemma WithoutIsFilter<T>(s: seq<T>, pos: seq<nat>, keep: T -> bool)
    requires forall k :: 0 <= k < |s| ==> (k in pos <==> !keep(s[k]))
    ensures Without(s, pos) == Filter(s, keep)
  {
    KeptIsFilter(s, pos, keep, |s|);
    assert s[..|s|] == s;
  }

  lemma {:induction false} KeptIsFilter<T>(s: seq<T>, pos: seq<nat>, keep: T -> bool, c: nat)
    requires c <= |s| && forall k :: 0 <= k < |s| ==> (k in pos <==> !keep(s[k]))
    ensures Kept(s, pos, c) == Filter(s[..c], keep)
    decreases c
  {
    if c > 0 {
      KeptIsFilter(s, pos, keep, c - 1);
      FilterSnoc(s, c, keep);
    } else {
      assert s[..0] == [];
    }
  }

  /** `n` copies of `block` inserted one after the other right after child
      `pe`, each insertion going after the previous one (`addnext`). */
  method InsertCopies(was: seq<Element>, pe: nat, block: seq<Paragraph>, n: nat) returns (body: seq<Element>)
    requires pe < |was|
    ensures body == was[..pe + 1] + Repeat(AsElements(block), n) + was[pe + 1..]
  {
    ghost var elems := AsElements(block);
    body := was;
    assert was[..pe + 1] + Repeat(elems, 0) + was[pe + 1..] == was;
    var current := pe;
    var copy := 0;
    while copy < n
      invariant 0 <= copy <= n
      invariant body == was[..pe + 1] + Repeat(elems, copy) + was[pe + 1..]
      invariant current == pe + |Repeat(elems, copy)|
    {
      ghost var front := was[..pe + 1] + Repeat(elems, copy);
      body := InsertBlockAfter(body, current, block, front, was[pe + 1..]);
      assert Repeat(elems, copy + 1) == Repeat(elems, copy) + elems;
      current := current + |block|;
      copy := copy + 1;
    }
  }

  /** One copy of `block`, paragraph after paragraph, right after child
      `current`, the last child of `front`. */
  method InsertBlockAfter(was: seq<Element>, current: nat, block: seq<Paragraph>, ghost front: seq<Element>, ghost rest: seq<Element>)
    returns (body: seq<Element>)
    requires was == front + rest && |front| == current + 1
    ensures body == front + AsElements(block) + rest
  {
    ghost var elems := AsElements(block);
    body := was;
    assert front + elems[..0] == front;
    var at := current;
    var k := 0;
    while k < |block|
      invariant 0 <= k <= |block|
      invariant body == (front + elems[..k]) + rest
      invariant at + 1 == |front + elems[..k]|
    {
      InsertAfter(front + elems[..k], rest, Para(block[k]));
      assert elems[..k] + [Para(block[k])] == elems[..k + 1];
      body := body[..at + 1] + [Para(block[k])] + body[at + 1..];
      at := at + 1;
      k := k + 1;
    }
    assert elems[..|block|] == elems;
  }

  /** Inserting `x` right after a prefix `a`. */
  lemma InsertAfter<T>(a: seq<T>, b: seq<T>, x: T)
    ensures (a + b)[..|a|] + [x] + (a + b)[|a|..] == a + [x] + b
  {
    assert (a + b)[..|a|] == a && (a + b)[|a|..] == b;
  }

  /** The first step of `replace_in_block`: the paragraphs of the view with
      index in [s, e] substituted (an index past the view is skipped). */
  method SubstituteRange(was: seq<Element>, s: nat, e: nat, reps: Replacements) returns (body: seq<Element>)
    ensures body == RangeSubstituted(was, s, e, reps)
  {
    var ps := Paragraphs(was);
    var pos := ParaPositions(was);
    body := was;
    var i := s;
    while i <= e
      invariant s <= i <= if s <= e then e + 1 else s
      invariant |body| == |was|
      invariant forall k :: 0 <= k < |was| ==>
        body[k] == (if was[k].Para? && s <= |Paragraphs(was[..k])| < i then Para(Substituted(was[k].p, reps, true)) else was[k])
    {
      if i < |ps| {
        var p := SubstituteParagraph(ps[i], reps, true);
        forall k | 0 <= k < |was| ensures (was[k].Para? && |Paragraphs(was[..k])| == i) <==> k == pos[i] {
          ViewIndexIs(was, i, k);
        }
        body := body[pos[i] := Para(p)];
      } else {
        forall k | 0 <= k < |was| && was[k].Para? ensures |Paragraphs(was[..k])| < i {
          ViewIndexAt(was, k);
        }
      }
      i := i + 1;
    }
    assert forall k :: 0 <= k < |was| ==> body[k] == RangeSubstituted(was, s, e, reps)[k];
  }

  /** Child `k` is paragraph `i` of the view exactly when it sits at the
      `i`-th paragraph position. */
  lemma ViewIndexIs(body: seq<Element>, i: nat, k: nat)
    requires i < |Paragraphs(body)| && k < |body|
    ensures (body[k].Para? && |Paragraphs(body[..k])| == i) <==> k == ParaPositions(body)[i]
  {
    ParagraphsBefore(body, i);
    if body[k].Para? {
      ViewIndexAt(body, k);
    }
  }

  /** The second step of `replace_in_block`, run when both indices are
      valid: every body table between the START and END paragraphs has the
      paragraphs of its cells substituted. */
  method SubstituteTables(was: seq<Element>, mid: seq<Element>, s: nat, e: nat, reps: Replacements) returns (body: seq<Element>)
    requires mid == RangeSubstituted(was, s, e, reps)
    requires s < |Paragraphs(was)| && e < |Paragraphs(was)|
    ensures body == ReplacedInBlock(was, s, e, reps)
  {
    var pos := ParaPositions(was);
    body := PassTables(mid, Identities(|was|), pos[s], pos[e], reps);
    TablesPassed(was, mid, s, e, reps, body);
  }

  /** The table loop of `replace_in_block`: each table child whose identity
      lies between the identities `ps` and `pe` gets its cells substituted. */
  method PassTables(mid: seq<Element>, ids: seq<nat>, ps: nat, pe: nat, reps: Replacements) returns (body: seq<Element>)
    ensures |body| == |mid|
    ensures forall m :: 0 <= m < |mid| ==> body[m] == TablePassed(mid, ids, ps, pe, reps, m, |mid|)
  {
    body := mid;
    var k := 0;
    while k < |mid|
      invariant 0 <= k <= |mid| == |body|
      invariant forall m :: 0 <= m < |mid| ==> body[m] == TablePassed(mid, ids, ps, pe, reps, m, k)
    {
      TablePassedStep(mid, ids, ps, pe, reps, body, k);
      if body[k].Tbl? && IsElementInRange(ids, k, ps, pe) {
        body := body[k := Tbl(MapTable(body[k].t, CellPass(reps)))];
      }
      k := k + 1;
    }
  }

  /** Child `m` once the table loop has visited the children before `k`. */
  function TablePassed(mid: seq<Element>, ids: seq<nat>, ps: nat, pe: nat, reps: Replacements, m: nat, k: nat): Element
    requires m < |mid|
  {
    if m < k && mid[m].Tbl? && IsElementInRange(ids, m, ps, pe) then Tbl(MapTable(mid[m].t, CellPass(reps))) else mid[m]
  }

  /** One turn of the table loop. */
  lemma TablePassedStep(mid: seq<Element>, ids: seq<nat>, ps: nat, pe: nat, reps: Replacements, body: seq<Element>, k: nat)
    requires k < |mid| == |body|
    requires forall m :: 0 <= m < |mid| ==> body[m] == TablePassed(mid, ids, ps, pe, reps, m, k)
    ensures var next := if body[k].Tbl? && IsElementInRange(ids, k, ps, pe)
        then body[k := Tbl(MapTable(body[k].t, CellPass(reps)))] else body;
      forall m :: 0 <= m < |mid| ==> next[m] == TablePassed(mid, ids, ps, pe, reps, m, k + 1)
  {
    assert body[k] == mid[k];
  }

  /** After the table loop has visited every child, the body is the
      document after `replace_in_block`. */
  lemma TablesPassed(was: seq<Element>, mid: seq<Element>, s: nat, e: nat, reps: Replacements, body: seq<Element>)
    requires mid == RangeSubstituted(was, s, e, reps)
    requires s < |Paragraphs(was)| && e < |Paragraphs(was)|
    requires |body| == |was|
    requires forall m :: 0 <= m < |was| ==>
      body[m] == TablePassed(mid, Identities(|was|), ParaPositions(was)[s], ParaPositions(was)[e], reps, m, |was|)
    ensures body == ReplacedInBlock(was, s, e, reps)
  {
    var r := ReplacedInBlock(was, s, e, reps);
    forall m | 0 <= m < |was| ensures body[m] == r[m] {
      assert mid[m].Tbl? <==> was[m].Tbl?;
      if was[m].Tbl? {
        assert mid[m] == was[m];
      }
    }
  }

  /** The first loop of `duplicate_block`: the paragraphs with index `s`
      through `e` that exist in the view. */
  method CollectExtent(ps: seq<Paragraph>, s: nat, e: nat) returns (block: seq<Paragraph>)
    ensures e < |ps| ==> block == Extent(ps, s, e)
    ensures e >= |ps| ==> block == if s < |ps| then ps[s..] else []
  {
    block := [];
    var i := s;
    while i <= e
      invariant s <= i <= if s <= e then e + 1 else s
      invariant block == if s < |ps| then ps[s..if i < |ps| then i else |ps|] else []
    {
      if i < |ps| {
        block := block + [ps[i]];
      }
      i := i + 1;
    }
  }

  /** The loop of `find_block`: scans the paragraph view once. A paragraph
      holding the start marker (re)sets the start; one holding the end marker
      ends the scan if a start was seen; an end marker before any start is
      ignored. */
  method ScanBlock(ps: seq<Paragraph>, start: string, end: string) returns (r: Option<(nat, nat)>)
    ensures var hs, he := Hits(ps, start), Hits(ps, end);
      && (r.Some? ==> IsFoundBlock(hs, he, r.value.0, r.value.1))
      && (r.None? <==> forall j :: 0 <= j < |hs| ==> !Closes(hs, he, j))
  {
    ghost var hs, he := Hits(ps, start), Hits(ps, end);
    var startIdx: Option<nat> := None;
    var endIdx: Option<nat> := None;
    var i := 0;
    while i < |ps| && endIdx.None?
      invariant 0 <= i <= |ps|
      invariant startIdx.None? <==> forall k :: 0 <= k < i ==> !hs[k]
      invariant startIdx.Some? ==> startIdx.value < i && hs[startIdx.value]
      invariant startIdx.Some? ==> forall k :: startIdx.value < k < i ==> !hs[k]
      invariant forall k :: 0 <= k < i ==> !Closes(hs, he, k)
      invariant endIdx.Some? ==> endIdx.value == i < |ps| && startIdx.Some? && Closes(hs, he, i)
      decreases |ps| - i, if endIdx.None? then 1 else 0
    {
      var text := Strip(ParagraphText(ps[i]));
      assert hs[i] == Contains(text, start) && he[i] == Contains(text, end);
      if Contains(text, start) {
        startIdx := Some(i);
        i := i + 1;
      } else if Contains(text, end) && startIdx.Some? {
        endIdx := Some(i);
      } else {
        assert !Closes(hs, he, i);
        i := i + 1;
      }
    }
    if startIdx.Some? && endIdx.Some? {
      r := Some((startIdx.value, endIdx.value));
    } else {
      r := None;
    }
  }

  /** The body of a `BlockProcessor`: the document whose paragraphs it scans. */
  class BlockProcessor {
    var doc: Document

    constructor(doc: Document)
      ensures this.doc == doc
    {
      this.doc := doc;
    }

    /** `find_block`: scans the paragraph view of the document. */
    method FindBlock(start: string, end: string) returns (r: Option<(nat, nat)>)
      ensures var hs, he := Hits(Paragraphs(doc.body), start), Hits(Paragraphs(doc.body), end);
        && (r.Some? ==> IsFoundBlock(hs, he, r.value.0, r.value.1))
        && (r.None? <==> forall j :: 0 <= j < |hs| ==> !Closes(hs, he, j))
    {
      r := ScanBlock(Paragraphs(doc.body), start, end);
    }

    /** `duplicate_block(s, e, n)`: deep copies of the extent's paragraphs,
        START and END included, are inserted one after the other following
        the END paragraph, `n` times. `paragraphs[end_idx]` raises when `e`
        is not a valid index, before anything is inserted; otherwise the
        source returns an empty list. */
    method DuplicateBlock(s: nat, e: nat, n: nat) returns (r: Result<seq<(nat, nat)>, string>)
      modifies doc
      ensures e >= |Paragraphs(old(doc.body))| ==> r.Failure? && doc.body == old(doc.body)
      ensures e < |Paragraphs(old(doc.body))| ==> r == Success([]) && doc.body == Duplicated(old(doc.body), s, e, n)
    {
      var ps := Paragraphs(doc.body);
      var block := CollectExtent(ps, s, e);
      if e >= |ps| {
        return Failure("IndexError: list index out of range");
      }
      var body := InsertCopies(doc.body, ParaPositions(doc.body)[e], block, n);
      doc.body := body;
      r := Success([]);
    }

    /** `remove_block_markers`: collects the paragraphs whose stripped text
        equals either marker, then removes each of them. */
    method RemoveBlockMarkers(start: string, end: string)
      modifies doc
      ensures doc.body == WithoutMarkers(old(doc.body), start, end)
    {
      var body := doc.body;
      var pos := MarkerPositions(body, start, end);
      doc.RemoveEach(pos);
      WithoutIsFilter(body, pos, KeepNonMarkers(start, end));
    }

    /** The positions, in increasing order, of the paragraphs whose stripped
        text equals either marker. */
    static method MarkerPositions(body: seq<Element>, start: string, end: string) returns (pos: seq<nat>)
      ensures Ascending(pos, |body|)
      ensures forall m :: 0 <= m < |body| ==> (m in pos <==> IsMarkerParagraph(body[m], start, end))
    {
      pos := [];
      var k := 0;
      while k < |body|
        invariant 0 <= k <= |body|
        invariant forall i :: 0 <= i < |pos| ==> pos[i] < k
        invariant forall i, j :: 0 <= i < j < |pos| ==> pos[i] < pos[j]
        invariant forall m :: 0 <= m < |body| ==> (m in pos <==> m < k && IsMarkerParagraph(body[m], start, end))
      {
        if body[k].Para? {
          var text := Strip(ParagraphText(body[k].p));
          if text == start || text == end {
            pos := pos + [k];
          }
        }
        k := k + 1;
      }
    }

    /** `replace_in_block(s, e, reps)`: substitutes the paragraphs of the view
        with index in [s, e], then, when both indices are valid, the cells of
        every body table lying between the START and END paragraphs. */
    method ReplaceInBlock(s: nat, e: nat, reps: Replacements)
      modifies doc
      ensures doc.body == ReplacedInBlock(old(doc.body), s, e, reps)
    {
      var was := doc.body;
      var body := SubstituteRange(was, s, e, reps);
      var ps := Paragraphs(was);
      if s < |ps| && e < |ps| {
        body := SubstituteTables(was, body, s, e, reps);
      } else {
        assert body == ReplacedInBlock(was, s, e, reps);
      }
      doc.body := body;
    }
  }

  /** The per-paragraph loop of `replace_in_block`: each replacement in dict
      order, and the alignment forced to the left when the list placeholder
      is among them and occurs in the paragraph's original text. */
  method SubstituteParagraph(p: Paragraph, reps: Replacements, alignList: bool) returns (r: Paragraph)
    ensures r == Substituted(p, reps, alignList)
  {
    var original := ParagraphText(p);
    var text := original;
    var left := false;
    var j := 0;
    while j < |reps|
      invariant 0 <= j <= |reps|
      invariant ReplaceAll(text, reps[j..]) == ReplaceAll(original, reps)
      invariant left <==> alignList && TopPostesList in KeysOf(reps[..j]) && Contains(original, TopPostesList)
    {
      assert reps[j..][1..] == reps[j + 1..];
      assert KeysOf(reps[..j + 1]) == KeysOf(reps[..j]) + [reps[j].0];
      text := Replace(text, reps[j].0, reps[j].1);
      if alignList && reps[j].0 == TopPostesList && Contains(original, TopPostesList) {
        left := true;
      }
      j := j + 1;
    }
    assert reps[..j] == reps;
    r := if left then p.(alignment := Left) else p;
    if text != original {
      r := Rewrite(r, text);
    }
  }

  /** `BlockTemplate`: a pair of markers and the replacement dicts of its
      instances. */
  class BlockTemplate {
    var startMarker: string
    var endMarker: string
    var instances: seq<Replacements>

    constructor(startMarker: string, endMarker: string)
      ensures this.startMarker == startMarker && this.endMarker == endMarker && instances == []
    {
      this.startMarker := startMarker;
      this.endMarker := endMarker;
      instances := [];
    }

    /** `add_instance`: appends one instance's replacements. */
    method AddInstance(reps: Replacements)
      modifies this
      ensures instances == old(instances) + [reps]
      ensures startMarker == old(startMarker) && endMarker == old(endMarker)
    {
      instances := instances + [reps];
    }
  }
}
