/**
 * The pieces of Python's string handling that the normaliser relies on:
 * the character classes its two regular expressions use, greedy runs of a
 * class (what `[^,]*`, `\s*` and `\w+` consume), `str.split` with a
 * one-character separator and `str.strip()`.
 */
module Text {

  /** The code points for which Python's `str.isspace()` holds; `re` uses the
      same set for `\s` in a str pattern, and `str.strip()` removes them. */
  predicate IsSpace(c: char) {
    c == ' ' || '\t' <= c <= '\r' || '\U{1C}' <= c <= '\U{1F}'
    || c == '\U{85}' || c == '\U{A0}' || c == '\U{1680}'
    || '\U{2000}' <= c <= '\U{200A}' || c == '\U{2028}' || c == '\U{2029}'
    || c == '\U{202F}' || c == '\U{205F}' || c == '\U{3000}'
  }

  /** `\w`: letters, digits and the underscore (ASCII only in this model). */
  predicate IsWordChar(c: char) {
    'a' <= c <= 'z' || 'A' <= c <= 'Z' || '0' <= c <= '9' || c == '_'
  }

  /** A one-character class of a regular expression. */
  datatype CharClass =
    | Space                         // \s
    | Word                          // \w
    | NoneOf(excluded: seq<char>)   // [^...], and `.` as [^\n]

  const NotComma: CharClass := NoneOf([','])
  const NotSemicolonOrQuote: CharClass := NoneOf([';', '\''])
  const NotNewline: CharClass := NoneOf(['\n'])

  predicate InClass(c: char, cls: CharClass) {
    match cls
    case Space => IsSpace(c)
    case Word => IsWordChar(c)
    case NoneOf(excluded) => c !in excluded
  }

  /** Every character of `s[i..j]` is in `cls` (never, when j passes the end). */
  predicate AllInRange(s: string, i: nat, j: nat, cls: CharClass)
    decreases j - i
  {
    j <= i || (i < |s| && InClass(s[i], cls) && AllInRange(s, i + 1, j, cls))
  }

  /** Every character of `t` is in `cls`. */
  predicate AllIn(t: string, cls: CharClass) {
    AllInRange(t, 0, |t|, cls)
  }

  /** AllInRange says of each character in the range that it is in the class. */
  lemma {:induction false} AllInRangeIff(s: string, i: nat, j: nat, cls: CharClass)
    requires i <= j <= |s|
    ensures AllInRange(s, i, j, cls) <==> forall k :: i <= k < j ==> InClass(s[k], cls)
    decreases j - i
  {
    if i < j {
      AllInRangeIff(s, i + 1, j, cls);
    }
  }

  /** A range of `s` is all in `cls` exactly when that slice of `s` is. */
  lemma {:induction false} AllInSlice(s: string, i: nat, j: nat, cls: CharClass)
    requires i <= j <= |s|
    ensures AllInRange(s, i, j, cls) <==> AllIn(s[i..j], cls)
  {
    AllInRangeIff(s, i, j, cls);
    AllInRangeIff(s[i..j], 0, j - i, cls);
    forall k | i <= k < j ensures s[k] == s[i..j][k - i] {
    }
  }

  /** A text is all in `cls` exactly when its first character is and the rest is. */
  lemma {:induction false} AllInTail(t: string, cls: CharClass)
    requires |t| > 0
    ensures AllIn(t, cls) <==> InClass(t[0], cls) && AllIn(t[1..], cls)
  {
    AllInRangeIff(t, 0, |t|, cls);
    AllInRangeIff(t[1..], 0, |t| - 1, cls);
    forall k | 1 <= k < |t| ensures t[k] == t[1..][k - 1] {
    }
  }

  /** A concatenation is all in a class exactly when both parts are. */
  lemma {:induction false} AllInConcat(a: string, b: string, cls: CharClass)
    ensures AllIn(a + b, cls) <==> AllIn(a, cls) && AllIn(b, cls)
  {
    AllInRangeIff(a + b, 0, |a + b|, cls);
    AllInRangeIff(a, 0, |a|, cls);
    AllInRangeIff(b, 0, |b|, cls);
    if AllIn(a + b, cls) {
      forall k | 0 <= k < |a| ensures InClass(a[k], cls) {
        assert (a + b)[k] == a[k];
      }
      forall k | 0 <= k < |b| ensures InClass(b[k], cls) {
        assert (a + b)[|a| + k] == b[k];
      }
    }
    if AllIn(a, cls) && AllIn(b, cls) {
      forall k | 0 <= k < |a + b| ensures InClass((a + b)[k], cls) {
        if k >= |a| {
          assert (a + b)[k] == b[k - |a|];
        }
      }
    }
  }

  /** The end of the longest run of `cls` characters that starts at `i`:
      where a greedy `cls*` starting at `i` stops. */
  function RunEnd(s: string, i: nat, cls: CharClass): (j: nat)
    requires i <= |s|
    ensures i <= j <= |s|
    ensures AllInRange(s, i, j, cls)
    ensures j < |s| ==> !InClass(s[j], cls)
    decreases |s| - i
  {
    if i == |s| || !InClass(s[i], cls) then i else RunEnd(s, i + 1, cls)
  }

  /** A run is determined by where it stops: any `j` with the two properties
      of RunEnd is RunEnd. */
  lemma {:induction false} RunEndAt(s: string, i: nat, cls: CharClass, j: nat)
    requires i <= j <= |s|
    requires AllInRange(s, i, j, cls)
    requires j < |s| ==> !InClass(s[j], cls)
    ensures RunEnd(s, i, cls) == j
    decreases j - i
  {
    if i < j {
      RunEndAt(s, i + 1, cls, j);
    }
  }

  /** A run reaches at least as far as any stretch of `cls` characters from `i`. */
  lemma {:induction false} RunEndPast(s: string, i: nat, cls: CharClass, j: nat)
    requires i <= j <= |s|
    requires AllInRange(s, i, j, cls)
    ensures RunEnd(s, i, cls) >= j
    decreases j - i
  {
    if i < j {
      RunEndPast(s, i + 1, cls, j);
    }
  }

  /** A range is all in [^d] exactly when that slice has no `d`. */
  lemma {:induction false} RangeNoneOf(s: string, i: nat, j: nat, d: char)
    requires i <= j <= |s|
    ensures AllInRange(s, i, j, NoneOf([d])) <==> d !in s[i..j]
  {
    AllInRangeIff(s, i, j, NoneOf([d]));
    forall k | i <= k < j ensures s[k] == s[i..j][k - i] {
    }
  }

  /** A range is all in [^ab] exactly when that slice has neither `a` nor `b`. */
  lemma {:induction false} RangeNoneOfPair(s: string, i: nat, j: nat, a: char, b: char)
    requires i <= j <= |s|
    ensures AllInRange(s, i, j, NoneOf([a, b])) <==> a !in s[i..j] && b !in s[i..j]
  {
    AllInRangeIff(s, i, j, NoneOf([a, b]));
    forall k | i <= k < j ensures s[k] == s[i..j][k - i] {
    }
  }

  /** A stretch inside a stretch without `d` has no `d` either. */
  lemma {:induction false} NotInWithin(s: string, d: char, i: nat, j: nat, i': nat, j': nat)
    requires i <= i' <= j' <= j <= |s|
    requires d !in s[i..j]
    ensures d !in s[i'..j']
  {
    forall k | 0 <= k < j' - i' ensures s[i'..j'][k] != d {
      assert s[i'..j'][k] == s[i..j][k + i' - i];
    }
  }

  /** A suffix is split at any later index into a slice and a shorter suffix. */
  lemma {:induction false} SliceSplit(s: string, i: nat, j: nat)
    requires i <= j <= |s|
    ensures s[i..] == s[i..j] + s[j..]
  {
  }

  /** A run of characters other than `d` stops at the first `d`. */
  lemma {:induction false} RunStopsAt(s: string, i: nat, j: nat, d: char)
    requires i <= j <= |s| && d !in s[i..j] && (j < |s| ==> s[j] == d)
    ensures RunEnd(s, i, NoneOf([d])) == j
  {
    RangeNoneOf(s, i, j, d);
    RunEndAt(s, i, NoneOf([d]), j);
  }

  /** A run of characters other than `a` and `b` stops at the first of them. */
  lemma {:induction false} RunStopsAtPair(s: string, i: nat, j: nat, a: char, b: char)
    requires i <= j <= |s| && a !in s[i..j] && b !in s[i..j]
    requires j < |s| ==> s[j] == a || s[j] == b
    ensures RunEnd(s, i, NoneOf([a, b])) == j
  {
    RangeNoneOfPair(s, i, j, a, b);
    RunEndAt(s, i, NoneOf([a, b]), j);
  }

  /** A run of characters other than `d` gets past a stretch without `d`. */
  lemma {:induction false} RunGoesPast(s: string, i: nat, j: nat, d: char)
    requires i <= j <= |s| && d !in s[i..j]
    ensures RunEnd(s, i, NoneOf([d])) >= j
  {
    RangeNoneOf(s, i, j, d);
    RunEndPast(s, i, NoneOf([d]), j);
  }

  /** Index of the first `d` in `s`, or |s| when there is none. */
  function IndexOf(s: string, d: char): (i: nat)
    ensures i <= |s|
    ensures d !in s[..i]
    ensures i < |s| <==> d in s
    ensures i < |s| ==> s[i] == d
  {
    var i := RunEnd(s, 0, NoneOf([d]));
    RangeNoneOf(s, 0, i, d);
    assert s[0..i] == s[..i];
    i
  }

  /** Python's `s.split(d)` for a one-character separator `d`. */
  function Split(s: string, d: char): (parts: seq<string>)
    ensures |parts| >= 1
    ensures forall k :: 0 <= k < |parts| ==> d !in parts[k]
    decreases |s|
  {
    var i := IndexOf(s, d);
    if i == |s| then [s] else [s[..i]] + Split(s[i + 1..], d)
  }

  /** A character that is not in the text is in none of its parts. */
  lemma {:induction false} SplitNotIn(s: string, d: char, x: char)
    requires x !in s
    ensures forall k :: 0 <= k < |Split(s, d)| ==> x !in Split(s, d)[k]
    decreases |s|
  {
    var i := IndexOf(s, d);
    if i < |s| {
      assert s == s[..i] + [s[i]] + s[i + 1..];
      SplitNotIn(s[i + 1..], d, x);
    }
  }

  /** Python's `d.join(parts)`: the text starts with the first part, which
      the separator follows when there are more. */
  function Join(parts: seq<string>, d: char): (r: string)
    requires |parts| >= 1
    ensures parts[0] <= r
    ensures |parts| > 1 ==> |parts[0]| < |r| && r[|parts[0]|] == d
  {
    if |parts| == 1 then parts[0] else parts[0] + [d] + Join(parts[1..], d)
  }

  /** Parts free of `d` are joined with exactly one `d` between each two. */
  lemma {:induction false} JoinCount(parts: seq<string>, d: char)
    requires |parts| >= 1
    requires forall k :: 0 <= k < |parts| ==> d !in parts[k]
    ensures multiset(Join(parts, d))[d] == |parts| - 1
    decreases |parts|
  {
    if |parts| > 1 {
      var rest := Join(parts[1..], d);
      assert forall k :: 0 <= k < |parts| - 1 ==> parts[1..][k] == parts[k + 1];
      JoinCount(parts[1..], d);
      assert multiset(parts[0] + [d] + rest) == multiset(parts[0]) + multiset([d]) + multiset(rest);
    }
  }

  /** A join of several parts is the first, the separator and the join of the rest. */
  lemma {:induction false} JoinCons(parts: seq<string>, x: char)
    requires |parts| > 1
    ensures Join(parts, x) == parts[0] + [x] + Join(parts[1..], x)
  {
  }

  /** Joining adds no character but the separator. */
  lemma {:induction false} JoinNotIn(parts: seq<string>, d: char, x: char)
    requires |parts| >= 1 && x != d
    requires forall k :: 0 <= k < |parts| ==> x !in parts[k]
    ensures x !in Join(parts, d)
    decreases |parts|
  {
    if |parts| > 1 {
      JoinNotIn(parts[1..], d, x);
    }
  }

  /** Splitting the text before a first separator. */
  lemma {:induction false} SplitCons(a: string, d: char, b: string)
    requires d !in a
    ensures Split(a + [d] + b, d) == [a] + Split(b, d)
  {
    var s := a + [d] + b;
    assert s[..|a|] == a;
    assert s[|a| + 1..] == b;
    RangeNoneOf(s, 0, |a|, d);
    assert s[0..|a|] == a;
    RunEndAt(s, 0, NoneOf([d]), |a|);
  }

  /** Joining the parts of a split gives back the text. */
  lemma {:induction false} JoinSplit(s: string, d: char)
    ensures Join(Split(s, d), d) == s
    decreases |s|
  {
    var i := IndexOf(s, d);
    if i < |s| {
      var rest := Split(s[i + 1..], d);
      var parts := [s[..i]] + rest;
      assert Split(s, d) == parts;
      assert parts[0] == s[..i] && parts[1..] == rest;
      assert Join(parts, d) == s[..i] + [d] + Join(rest, d);
      JoinSplit(s[i + 1..], d);
      assert s[i] == d;
      assert s == s[..i] + [d] + s[i + 1..];
    }
  }

  /** Splitting a join of separator-free parts gives back the parts. */
  lemma {:induction false} SplitJoin(parts: seq<string>, d: char)
    requires |parts| >= 1
    requires forall k :: 0 <= k < |parts| ==> d !in parts[k]
    ensures Split(Join(parts, d), d) == parts
  {
    if |parts| == 1 {
      assert IndexOf(parts[0], d) == |parts[0]|;
    } else {
      var rest := Join(parts[1..], d);
      assert forall k :: 0 <= k < |parts| - 1 ==> parts[1..][k] == parts[k + 1];
      SplitJoin(parts[1..], d);
      JoinCons(parts, d);
      SplitCons(parts[0], d, rest);
      calc {
        Split(Join(parts, d), d);
      == // JoinCons
        Split(parts[0] + [d] + rest, d);
      == // SplitCons
        [parts[0]] + Split(rest, d);
      == // SplitJoin on the rest
        [parts[0]] + parts[1..];
      == { HeadTail(parts); }
        parts;
      }
    }
  }

  /** A sequence is its first element followed by the rest (stated apart,
      to be proved without the definitions of split and join in view). */
  lemma {:induction false} HeadTail<T>(s: seq<T>)
    requires |s| > 0
    ensures [s[0]] + s[1..] == s
  {
  }

  /** `s.split(d)` has one more part than `s` has separators. */
  lemma {:induction false} SplitLength(s: string, d: char)
    ensures |Split(s, d)| == multiset(s)[d] + 1
    decreases |s|
  {
    var i := IndexOf(s, d);
    if i == |s| {
      assert s[..i] == s;
    } else {
      var rest := s[i + 1..];
      SplitLength(rest, d);
      assert s == s[..i] + [d] + rest;
      assert multiset(s) == multiset(s[..i]) + multiset([d]) + multiset(rest);
    }
  }

  /** `str.lstrip()`: drop the leading whitespace, so that what is left
      does not start with whitespace (StripStartFacts: it is the rest of the
      text from its first non-whitespace character on). */
  function StripStart(s: string): (r: string)
    ensures |r| <= |s|
    ensures r == [] || !IsSpace(r[0])
    decreases |s|
  {
    if |s| > 0 && IsSpace(s[0]) then StripStart(s[1..]) else s
  }

  /** StripStart removes an all-whitespace prefix, and no more. */
  lemma {:induction false} StripStartFacts(s: string)
    ensures var r := StripStart(s);
      r == s[|s| - |r|..] && AllIn(s[..|s| - |r|], Space) && (r == [] || !IsSpace(r[0]))
    decreases |s|
  {
    if |s| > 0 && IsSpace(s[0]) {
      var r := StripStart(s[1..]);
      StripStartFacts(s[1..]);
      assert s[..|s| - |r|][1..] == s[1..][..|s| - 1 - |r|];
      AllInTail(s[..|s| - |r|], Space);
    } else {
      assert s[..0] == [];
    }
  }

  /** `str.rstrip()`: drop the trailing whitespace, so that what is left
      does not end with whitespace (StripEndFacts: it is the text up to its
      last non-whitespace character). */
  function StripEnd(s: string): (r: string)
    ensures |r| <= |s|
    ensures r == [] || !IsSpace(r[|r| - 1])
    decreases |s|
  {
    if |s| > 0 && IsSpace(s[|s| - 1]) then StripEnd(s[..|s| - 1]) else s
  }

  /** StripEnd removes an all-whitespace suffix, and no more. */
  lemma {:induction false} StripEndFacts(s: string)
    ensures var r := StripEnd(s);
      r == s[..|r|] && AllIn(s[|r|..], Space) && (r == [] || !IsSpace(r[|r| - 1]))
      && (|s| > 0 && !IsSpace(s[0]) ==> |r| > 0)
    decreases |s|
  {
    if |s| > 0 && IsSpace(s[|s| - 1]) {
      var r := StripEnd(s[..|s| - 1]);
      StripEndFacts(s[..|s| - 1]);
      assert s[|r|..] == s[..|s| - 1][|r|..] + [s[|s| - 1]];
      AllInConcat(s[..|s| - 1][|r|..], [s[|s| - 1]], Space);
    } else {
      assert s[|s|..] == [];
    }
  }

  /** Neither end of `s` is whitespace. */
  predicate IsStripped(s: string) {
    s == [] || (!IsSpace(s[0]) && !IsSpace(s[|s| - 1]))
  }

  /** Python's `s.strip()`: `s` without its leading and trailing whitespace. */
  function Strip(s: string): (r: string)
    ensures IsStripped(r)
    ensures |r| <= |s|
  {
    StripStartFacts(s);
    StripEndFacts(StripStart(s));
    StripEnd(StripStart(s))
  }

  /** Stripping adds no character. */
  lemma {:induction false} StripWithin(s: string, d: char)
    requires d !in s
    ensures d !in Strip(s)
  {
    var t := StripStart(s);
    StripStartFacts(s);
    StripEndFacts(t);
    assert d !in t;
    assert Strip(s) == t[..|Strip(s)|];
  }

  /** StripStart removes exactly an all-whitespace prefix. */
  lemma {:induction false} StripStartAfter(p: string, t: string)
    requires AllIn(p, Space)
    requires t == [] || !IsSpace(t[0])
    ensures StripStart(p + t) == t
  {
    if p == [] {
      assert p + t == t;
    } else {
      assert (p + t)[1..] == p[1..] + t;
      AllInTail(p, Space);
      StripStartAfter(p[1..], t);
    }
  }

  /** StripEnd removes exactly an all-whitespace suffix. */
  lemma {:induction false} StripEndBefore(t: string, q: string)
    requires AllIn(q, Space)
    requires t == [] || !IsSpace(t[|t| - 1])
    ensures StripEnd(t + q) == t
  {
    if q == [] {
      assert t + q == t;
    } else {
      assert (t + q)[..|t + q| - 1] == t + q[..|q| - 1];
      assert q == q[..|q| - 1] + [q[|q| - 1]];
      AllInConcat(q[..|q| - 1], [q[|q| - 1]], Space);
      StripEndBefore(t, q[..|q| - 1]);
    }
  }

  /** Strip removes exactly an all-whitespace prefix and suffix: whatever
      whitespace surrounds a stripped text, Strip gives that text back. */
  lemma {:induction false} StripSurrounded(p: string, m: string, q: string)
    requires AllIn(p, Space) && AllIn(q, Space)
    requires IsStripped(m)
    ensures Strip(p + m + q) == m
  {
    if m == [] {
      assert p + m + q == p + q;
      StripSpaces(p, q);
    } else {
      StripAround(p, m, q);
    }
  }

  lemma {:induction false} StripAround(p: string, m: string, q: string)
    requires AllIn(p, Space) && AllIn(q, Space)
    requires m != [] && !IsSpace(m[0]) && !IsSpace(m[|m| - 1])
    ensures Strip(p + m + q) == m
  {
    assert p + m + q == p + (m + q);
    assert (m + q)[0] == m[0];
    StripStartAfter(p, m + q);
    StripEndBefore(m, q);
  }

  lemma {:induction false} StripSpaces(p: string, q: string)
    requires AllIn(p, Space) && AllIn(q, Space)
    ensures Strip(p + q) == []
  {
    AllInConcat(p, q, Space);
    StripAllSpace(p + q);
  }

  /** Strip of an all-whitespace text is empty. */
  lemma {:induction false} StripAllSpace(s: string)
    requires AllIn(s, Space)
    ensures Strip(s) == []
  {
    assert s + [] == s;
    StripStartAfter(s, []);
  }
}
