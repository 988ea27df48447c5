/** String operations with the semantics of the Python built-ins the source
    relies on: `in`, `str.replace`, `str.strip`, `str.lower`, `str(int)` and
    the code-point ordering used by `sorted`. */
module Text {
  import opened Sequences
  import opened Dicts

  /** `t in s` for strings: `t` occurs as a contiguous piece of `s`. */
  predicate Contains(s: string, t: string)
    decreases |s|
  {
    t <= s || (|s| > 0 && Contains(s[1..], t))
  }

  /** `s.replace(pat, rep)`: every non-overlapping occurrence of `pat`,
      scanning from the left, is replaced by `rep`. An empty `pat` inserts
      `rep` before every character and at the end, as Python does. */
  function Replace(s: string, pat: string, rep: string): string
    decreases |s|
  {
    if pat == [] then
      if s == [] then rep else rep + [s[0]] + Replace(s[1..], pat, rep)
    else if s == [] then []
    else if pat <= s then rep + Replace(s[|pat|..], pat, rep)
    else [s[0]] + Replace(s[1..], pat, rep)
  }

  /** Replacing a non-empty pattern that does not occur leaves the string as it is. */
  lemma {:induction false} ReplaceAbsent(s: string, pat: string, rep: string)
    requires pat != [] && !Contains(s, pat)
    ensures Replace(s, pat, rep) == s
    decreases |s|
  {
    if s != [] {
      ReplaceAbsent(s[1..], pat, rep);
    }
  }

  /** Replacing a pattern by itself changes nothing. */
  lemma {:induction false} ReplaceByItself(s: string, pat: string)
    requires pat != []
    ensures Replace(s, pat, pat) == s
    decreases |s|
  {
    if s != [] {
      if pat <= s {
        ReplaceByItself(s[|pat|..], pat);
        assert pat + s[|pat|..] == s;
      } else {
        ReplaceByItself(s[1..], pat);
        assert [s[0]] + s[1..] == s;
      }
    }
  }

  /** A text that contains `t` contains every prefix of `t`. */
  lemma {:induction false} ContainsPrefix(s: string, t: string, pre: string)
    requires pre <= t && Contains(s, t)
    ensures Contains(s, pre)
    decreases |s|
  {
    if !(t <= s) {
      ContainsPrefix(s[1..], t, pre);
    }
  }

  /** The ordered (placeholder, value) pairs of a Python dict. */
  type Replacements = Dict<string, string>

  /** `for key, value in replacements.items(): text = text.replace(key, value)`. */
  function ReplaceAll(s: string, reps: Replacements): string
    decreases |reps|
  {
    if reps == [] then s else ReplaceAll(Replace(s, reps[0].0, reps[0].1), reps[1..])
  }

  /** When no key occurs in the text (and none is empty), sequential
      replacement changes nothing. */
  lemma {:induction false} ReplaceAllAbsent(s: string, reps: Replacements)
    requires forall i :: 0 <= i < |reps| ==> reps[i].0 != [] && !Contains(s, reps[i].0)
    ensures ReplaceAll(s, reps) == s
    decreases |reps|
  {
    if reps != [] {
      ReplaceAbsent(s, reps[0].0, reps[0].1);
      ReplaceAllAbsent(s, reps[1..]);
    }
  }

  /** Python's `str.isspace()` for a single character (`str.strip()` with no
      argument removes exactly these). */
  predicate IsSpace(c: char) {
    c in Whitespace
  }

  const Whitespace: set<char> := {
    ' ', '\t', '\n', '\U{0B}', '\U{0C}', '\r', '\U{1C}', '\U{1D}', '\U{1E}', '\U{1F}',
    '\U{85}', '\U{A0}', '\U{1680}',
    '\U{2000}', '\U{2001}', '\U{2002}', '\U{2003}', '\U{2004}', '\U{2005}',
    '\U{2006}', '\U{2007}', '\U{2008}', '\U{2009}', '\U{200A}',
    '\U{2028}', '\U{2029}', '\U{202F}', '\U{205F}', '\U{3000}'
  }

  function StripLeft(s: string): string {
    if s != [] && IsSpace(s[0]) then StripLeft(s[1..]) else s
  }

  function StripRight(s: string): string {
    if s != [] && IsSpace(s[|s| - 1]) then StripRight(s[..|s| - 1]) else s
  }

  /** `s.strip()`: leading and trailing whitespace removed. */
  function Strip(s: string): string {
    StripRight(StripLeft(s))
  }

  /** What `strip` leaves: a piece of `s` that neither starts nor ends with
      whitespace, all that was cut off being whitespace. */
  lemma {:induction false} StripLeftSpec(s: string)
    ensures var r := StripLeft(s);
      && |r| <= |s| && r == s[|s| - |r|..]
      && (r != [] ==> !IsSpace(r[0]))
      && forall i :: 0 <= i < |s| - |r| ==> IsSpace(s[i])
    decreases |s|
  {
    if s != [] && IsSpace(s[0]) {
      StripLeftSpec(s[1..]);
    }
  }

  lemma {:induction false} StripRightSpec(s: string)
    ensures var r := StripRight(s);
      && |r| <= |s| && r == s[..|r|]
      && (r != [] ==> !IsSpace(r[|r| - 1]))
      && forall i :: |r| <= i < |s| ==> IsSpace(s[i])
    decreases |s|
  {
    if s != [] && IsSpace(s[|s| - 1]) {
      StripRightSpec(s[..|s| - 1]);
    }
  }

  /** A stripped string has no whitespace at either end, and stripping again
      changes nothing. */
  lemma StripSpec(s: string)
    ensures var r := Strip(s);
      && |r| <= |s|
      && (r != [] ==> !IsSpace(r[0]) && !IsSpace(r[|r| - 1]))
      && Strip(r) == r
  {
    var l := StripLeft(s);
    var r := StripRight(l);
    StripLeftSpec(s);
    StripRightSpec(l);
    if r != [] {
      assert r[0] == l[0];
    }
    assert StripLeft(r) == r;
    assert StripRight(r) == r;
  }

  /** Python's `str.lower()` on one character, for the Basic Latin and
      Latin-1 letters. */
  function LowerChar(c: char): char {
    if 'A' <= c <= 'Z' then (c as int + 32) as char
    else if 'À' <= c <= 'Þ' && c != '×' then (c as int + 32) as char
    else c
  }

  function Lower(s: string): (r: string)
    ensures |r| == |s|
    ensures forall i :: 0 <= i < |s| ==> r[i] == LowerChar(s[i])
  {
    if s == [] then [] else [LowerChar(s[0])] + Lower(s[1..])
  }

  /** Python's `str.upper()` on one character of Basic Latin. */
  function UpperChar(c: char): char {
    if 'a' <= c <= 'z' then (c as int - 32) as char else c
  }

  function Upper(s: string): (r: string)
    ensures |r| == |s|
  {
    if s == [] then [] else [UpperChar(s[0])] + Upper(s[1..])
  }

  /** `str.upper()` works one character at a time. */
  lemma {:induction false} UpperSpec(s: string)
    ensures forall i :: 0 <= i < |s| ==> Upper(s)[i] == UpperChar(s[i])
    decreases |s|
  {
    if s != [] {
      UpperSpec(s[1..]);
    }
  }

  /** Python's `<` on strings: lexicographic by code point. */
  predicate LexLess(a: string, b: string)
    decreases |a|
  {
    if a == [] then b != []
    else if b == [] then false
    else if a[0] != b[0] then a[0] < b[0]
    else LexLess(a[1..], b[1..])
  }

  lemma {:induction false} LexLessIrreflexive(a: string)
    ensures !LexLess(a, a)
    decreases |a|
  {
    if a != [] {
      LexLessIrreflexive(a[1..]);
    }
  }

  lemma {:induction false} LexLessTransitive(a: string, b: string, c: string)
    requires LexLess(a, b) && LexLess(b, c)
    ensures LexLess(a, c)
    decreases |a|
  {
    if a != [] && b != [] && c != [] && a[0] == b[0] && b[0] == c[0] {
      LexLessTransitive(a[1..], b[1..], c[1..]);
    }
  }

  /** Two different strings are ordered one way or the other. */
  lemma {:induction false} LexLessTotal(a: string, b: string)
    requires a != b
    ensures LexLess(a, b) || LexLess(b, a)
    decreases |a|
  {
    if a != [] && b != [] && a[0] == b[0] {
      assert a == [a[0]] + a[1..] && b == [b[0]] + b[1..];
      LexLessTotal(a[1..], b[1..]);
    }
  }

  lemma LexLessAsymmetric(a: string, b: string)
    requires LexLess(a, b)
    ensures !LexLess(b, a)
  {
    if LexLess(b, a) {
      LexLessTransitive(a, b, a);
      LexLessIrreflexive(a);
    }
  }

  function DigitChar(d: nat): char
    requires d < 10
  {
    ('0' as int + d) as char
  }

  /** `str(n)` for a natural number: its decimal digits, most significant first. */
  function NatToString(n: nat): (r: string)
    ensures |r| >= 1
    ensures forall i :: 0 <= i < |r| ==> '0' <= r[i] <= '9'
    decreases n
  {
    if n < 10 then [DigitChar(n)] else NatToString(n / 10) + [DigitChar(n % 10)]
  }

  /** `sep.join(items)`. */
  function Join(sep: string, items: seq<string>): string
    decreases |items|
  {
    if items == [] then []
    else if |items| == 1 then items[0]
    else items[0] + sep + Join(sep, items[1..])
  }

  /** `str(i)` for an integer. */
  function IntToString(i: int): string {
    if i < 0 then "-" + NatToString(-i) else NatToString(i)
  }

  /** Python's `<` on strings, as `sorted` and `groupby` order codes. */
  function CodeBefore(): (string, string) -> bool {
    (a: string, b: string) => LexLess(a, b)
  }

  /** Python's `<` on strings is a strict weak order. */
  lemma CodeBeforeOrder()
    ensures StrictWeakOrder(CodeBefore())
  {
    var before := CodeBefore();
    forall a, b | before(a, b) ensures !before(b, a) {
      LexLessAsymmetric(a, b);
    }
    forall a, b, c | !before(a, b) && !before(b, c) ensures !before(a, c) {
      if a != b {
        LexLessTotal(a, b);
      }
      if b != c {
        LexLessTotal(b, c);
      }
      if a != c && b != c && a != b {
        LexLessTransitive(c, b, a);
        LexLessAsymmetric(c, a);
      } else if a == c {
        LexLessIrreflexive(a);
      }
    }
  }
}
