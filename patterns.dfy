/**
 * Hand-written matchers for the two regular expressions of the normaliser
 * (process_to_csv.py, lines 46-51), used with `re.match`, so anchored at
 * the start of the text:
 *
 *   name_pattern    ^(?P<last_name>[^,]+), (?P<first_name>[^;']+)(?: '(?P<trail_name>.+?)')?$
 *   origin_pattern  ^(?P<state>[^,]*),\s*(?P<country>[^,]*),?\s*(?P<hike_type>\w+)?
 *
 * Each matcher is one deterministic scan.  The regular-expression engine
 * itself is not modelled: instead each matcher is proved equivalent to a
 * declarative description of the texts the pattern accepts and the groups
 * it captures (NameShape, OriginLayout).  Why the scan finds the groups the
 * backtracking engine finds:
 *
 * - name_pattern: `[^,]+` runs to the first comma, and no shorter last name
 *   is followed by a comma.  `[^;']+` first runs to the first `;` or `'` at
 *   k.  With a trail name, ` '` cannot start at k, so the engine gives back
 *   one character: the first name ends at k - 1, which must be a space
 *   before a `'` at k.  Giving back more cannot help, since a ` '` earlier
 *   would need a `'` inside the first name.  The lazy `.+?` then ends at the
 *   only closing quote that `$` accepts (MatchTrailName).
 * - origin_pattern: `[^,]*` runs to the first comma, and no shorter state is
 *   followed by a comma.  Everything after that comma (`\s*`, `[^,]*`, `,?`,
 *   `\s*`, `(\w+)?`) can match the empty text, and the pattern has no `$`,
 *   so the engine's first attempt, with every piece greedy, succeeds and is
 *   the match.
 */
module Patterns {
  import opened Wrappers
  import opened Text

  /** The groups of a successful name_pattern match, as captured (unstripped). */
  datatype NameGroups = NameGroups(lastName: string, firstName: string, trailName: Option<string>)

  /** The groups of a successful origin_pattern match, as captured (unstripped). */
  datatype OriginGroups = OriginGroups(state: string, country: string, hikeType: Option<string>)

  /** Where `$` (without MULTILINE) matches: at the end, or just before a final newline. */
  predicate AtEnd(s: string, i: nat) {
    i == |s| || (i + 1 == |s| && s[i] == '\n')
  }

  /** The end of `s` without its final newline, if it has one. */
  function ContentEnd(s: string): (e: nat)
    ensures e <= |s| && AtEnd(s, e)
    ensures e == |s| || e == |s| - 1
  {
    if |s| > 0 && s[|s| - 1] == '\n' then |s| - 1 else |s|
  }

  /** The shape name_pattern accepts, stated over its groups: a last name
      without commas, ", ", a first name without `;` or `'`, and optionally
      " '", a trail name without newlines and a closing `'`; then `$`. */
  predicate NameShape(s: string, g: NameGroups) {
    |g.lastName| > 0 && ',' !in g.lastName
    && |g.firstName| > 0 && ';' !in g.firstName && '\'' !in g.firstName
    && match g.trailName
       case None => s == g.lastName + ", " + g.firstName
       case Some(t) =>
         |t| > 0 && '\n' !in t
         && (s == g.lastName + ", " + g.firstName + " '" + t + "'"
             || s == g.lastName + ", " + g.firstName + " '" + t + "'\n")
  }

  /** name_pattern.match: the last name runs to the first comma, which must be
      followed by a space; the first name runs to the first `;` or `'`.  With
      neither, the rest is the first name.  Otherwise the stop must be a `'`
      preceded by a space that ends the first name, and the text must end in
      `'` (before `$`), the trail name being everything between the two
      quotes. */
  function MatchName(s: string): (r: Option<NameGroups>)
    ensures r.Some? ==> |r.value.lastName| > 0 && r.value.lastName == s[..IndexOf(s, ',')]
    ensures r.Some? ==> |r.value.lastName| + 2 <= |s| && s[|r.value.lastName|..|r.value.lastName| + 2] == ", "
  {
    var c := RunEnd(s, 0, NotComma);
    if c == 0 || c + 2 > |s| || s[c + 1] != ' ' then None
    else MatchFirstName(s, c)
  }

  /** name_pattern after the last name `s[..c]` and ", ": the first name runs
      from c + 2 to the first `;` or `'`, or to the end. */
  function MatchFirstName(s: string, c: nat): Option<NameGroups>
    requires c + 2 <= |s|
  {
    var k := RunEnd(s, c + 2, NotSemicolonOrQuote);
    if k == |s| then
      if k > c + 2 then Some(NameGroups(s[..c], s[c + 2..], None)) else None
    else MatchTrailName(s, c, k)
  }

  /** The optional trail-name group, where the first name stopped at k before
      the end: " '" must straddle k (the first name giving back its final
      space), and the text must end in `'` before `$`, with no newline between
      the two quotes. */
  function MatchTrailName(s: string, c: nat, k: nat): Option<NameGroups>
    requires c + 2 <= k < |s|
  {
    var e := ContentEnd(s);
    if s[k] == '\'' && k - 1 > c + 2 && s[k - 1] == ' '
       && k + 2 < e && s[e - 1] == '\'' && RunEnd(s, k + 1, NotNewline) >= e - 1
    then Some(NameGroups(s[..c], s[c + 2..k - 1], Some(s[k + 1..e - 1])))
    else None
  }

  /** Every match of name_pattern has the name shape. */
  lemma {:induction false} MatchNameSound(s: string)
    ensures MatchName(s).Some? ==> NameShape(s, MatchName(s).value)
  {
    var c := RunEnd(s, 0, NotComma);
    if MatchName(s).Some? {
      RangeNoneOf(s, 0, c, ',');
      FirstNameSound(s, c);
    }
  }

  lemma {:induction false} FirstNameSound(s: string, c: nat)
    requires 0 < c && c + 2 <= |s| && s[c] == ',' && s[c + 1] == ' ' && ',' !in s[..c]
    ensures MatchFirstName(s, c).Some? ==> NameShape(s, MatchFirstName(s, c).value)
  {
    var k := RunEnd(s, c + 2, NotSemicolonOrQuote);
    RangeNoneOfPair(s, c + 2, k, ';', '\'');
    if k == |s| {
      if k > c + 2 {
        assert s[c + 2..k] == s[c + 2..];
        NamePlainShape(s, c);
      }
    } else {
      TrailNameSound(s, c, k);
    }
  }

  lemma {:induction false} TrailNameSound(s: string, c: nat, k: nat)
    requires 0 < c && c + 2 <= k < |s| && s[c] == ',' && s[c + 1] == ' ' && ',' !in s[..c]
    requires ';' !in s[c + 2..k] && '\'' !in s[c + 2..k]
    ensures MatchTrailName(s, c, k).Some? ==> NameShape(s, MatchTrailName(s, c, k).value)
  {
    if MatchTrailName(s, c, k).Some? {
      var e := ContentEnd(s);
      var j := RunEnd(s, k + 1, NotNewline);
      RangeNoneOf(s, k + 1, j, '\n');
      NotInWithin(s, ';', c + 2, k, c + 2, k - 1);
      NotInWithin(s, '\'', c + 2, k, c + 2, k - 1);
      NotInWithin(s, '\n', k + 1, j, k + 1, e - 1);
      NameTrailShape(s, c, k, e);
    }
  }

  lemma {:induction false} NamePlainShape(s: string, c: nat)
    requires 0 < c && c + 2 < |s| && s[c] == ',' && s[c + 1] == ' '
    requires ',' !in s[..c] && ';' !in s[c + 2..] && '\'' !in s[c + 2..]
    ensures NameShape(s, NameGroups(s[..c], s[c + 2..], None))
  {
    assert s == s[..c] + ", " + s[c + 2..];
  }

  lemma {:induction false} NameTrailShape(s: string, c: nat, k: nat, e: nat)
    requires 0 < c && c + 3 < k && k + 2 < e && e == ContentEnd(s)
    requires s[c] == ',' && s[c + 1] == ' ' && s[k - 1] == ' ' && s[k] == '\'' && s[e - 1] == '\''
    requires ',' !in s[..c] && ';' !in s[c + 2..k - 1] && '\'' !in s[c + 2..k - 1]
    requires '\n' !in s[k + 1..e - 1]
    ensures NameShape(s, NameGroups(s[..c], s[c + 2..k - 1], Some(s[k + 1..e - 1])))
  {
    var last, first, t := s[..c], s[c + 2..k - 1], s[k + 1..e - 1];
    assert s[..c + 2] == last + ", ";
    assert s[..k - 1] == s[..c + 2] + first;
    assert s[..k + 1] == s[..k - 1] + " '";
    assert s[..e - 1] == s[..k + 1] + t;
    if e == |s| {
      assert s == s[..e - 1] + "'";
    } else {
      assert s == s[..e - 1] + "'\n";
    }
  }

  /** Every text of the name shape is matched, with exactly its groups. */
  lemma {:induction false} NameShapeMatches(s: string, g: NameGroups)
    requires NameShape(s, g)
    ensures MatchName(s) == Some(g)
  {
    var c := |g.lastName|;
    assert s[..c] == g.lastName && s[c] == ',';
    RangeNoneOf(s, 0, c, ',');
    RunEndAt(s, 0, NotComma, c);
    if g.trailName.None? {
      NamePlainMatches(s, g);
    } else {
      NameTrailMatches(s, g);
    }
  }

  lemma {:induction false} NamePlainMatches(s: string, g: NameGroups)
    requires NameShape(s, g) && g.trailName.None?
    requires RunEnd(s, 0, NotComma) == |g.lastName|
    ensures MatchName(s) == Some(g)
  {
    var c := |g.lastName|;
    var p := c + 2;
    assert s[..c] == g.lastName && s[c] == ',' && s[c + 1] == ' ';
    assert s[p..|s|] == g.firstName;
    RangeNoneOfPair(s, p, |s|, ';', '\'');
    RunEndAt(s, p, NotSemicolonOrQuote, |s|);
  }

  /** Where each piece of a name with a trail name sits. */
  lemma {:induction false} NameTrailSlices(x: string, last: string, first: string, t: string)
    requires x == last + ", " + first + " '" + t + "'"
    ensures var c := |last|; var k := c + 2 + |first| + 1;
      k + 1 + |t| + 1 == |x| && x[..c] == last && x[c] == ',' && x[c + 1] == ' '
      && x[c + 2..k] == first + " " && x[c + 2..k - 1] == first && x[k - 1] == ' ' && x[k] == '\''
      && x[k + 1..|x| - 1] == t && x[|x| - 1] == '\''
  {
  }

  lemma {:induction false} NameTrailMatches(s: string, g: NameGroups)
    requires NameShape(s, g) && g.trailName.Some?
    ensures MatchName(s) == Some(g)
  {
    var x := g.lastName + ", " + g.firstName + " '" + g.trailName.value + "'";
    TrailNameEnd(s, x);
    NameTrailAt(s, x, g);
  }

  lemma {:induction false} NameTrailAt(s: string, x: string, g: NameGroups)
    requires g.trailName.Some? && x == g.lastName + ", " + g.firstName + " '" + g.trailName.value + "'"
    requires |g.lastName| > 0 && ',' !in g.lastName
    requires |g.firstName| > 0 && ';' !in g.firstName && '\'' !in g.firstName
    requires |g.trailName.value| > 0 && '\n' !in g.trailName.value
    requires |x| <= |s| && s[..|x|] == x && ContentEnd(s) == |x|
    ensures MatchName(s) == Some(g)
  {
    var t := g.trailName.value;
    var c := |g.lastName|;
    var k := c + 2 + |g.firstName| + 1;
    var e := |x|;
    NameTrailSlices(x, g.lastName, g.firstName, t);
    PrefixSlice(s, x, 0, c);
    PrefixSlice(s, x, c + 2, k);
    PrefixSlice(s, x, c + 2, k - 1);
    PrefixSlice(s, x, k + 1, e - 1);
    NameTrailScan(s, c, k, e);
  }

  /** A text that is `x` with an optional final newline, `x` ending in a
      quote, has `x` as its content. */
  lemma {:induction false} TrailNameEnd(s: string, x: string)
    requires |x| > 0 && x[|x| - 1] == '\''
    requires s == x || s == x + "\n"
    ensures |x| <= |s| && s[..|x|] == x && ContentEnd(s) == |x|
  {
  }

  lemma {:induction false} PrefixSlice(s: string, x: string, i: nat, j: nat)
    requires i <= j <= |x| <= |s| && s[..|x|] == x
    ensures s[i..j] == x[i..j]
  {
    assert forall k :: 0 <= k < j - i ==> s[i..j][k] == s[..|x|][i..j][k];
  }

  /** The scan of MatchName on a text whose comma, quotes and end are known. */
  lemma {:induction false} NameTrailScan(s: string, c: nat, k: nat, e: nat)
    requires 0 < c && c + 3 < k && k + 2 < e && e == ContentEnd(s)
    requires s[c] == ',' && s[c + 1] == ' ' && s[k - 1] == ' ' && s[k] == '\'' && s[e - 1] == '\''
    requires ',' !in s[..c] && ';' !in s[c + 2..k] && '\'' !in s[c + 2..k]
    requires '\n' !in s[k + 1..e - 1]
    ensures MatchName(s) == Some(NameGroups(s[..c], s[c + 2..k - 1], Some(s[k + 1..e - 1])))
  {
    assert s[0..c] == s[..c];
    RunStopsAt(s, 0, c, ',');
    RunStopsAtPair(s, c + 2, k, ';', '\'');
    TrailScan(s, c, k, e);
  }

  /** The trail-name step of NameTrailScan. */
  lemma {:induction false} TrailScan(s: string, c: nat, k: nat, e: nat)
    requires c + 3 < k && k + 2 < e && e == ContentEnd(s)
    requires s[k - 1] == ' ' && s[k] == '\'' && s[e - 1] == '\''
    requires '\n' !in s[k + 1..e - 1]
    ensures MatchTrailName(s, c, k) == Some(NameGroups(s[..c], s[c + 2..k - 1], Some(s[k + 1..e - 1])))
  {
    RunGoesPast(s, k + 1, e - 1, '\n');
  }

  /** name_pattern matches exactly the texts of the name shape, and its
      groups are the ones the shape names. */
  lemma {:induction false} MatchNameIff(s: string, g: NameGroups)
    ensures MatchName(s) == Some(g) <==> NameShape(s, g)
  {
    MatchNameSound(s);
    if NameShape(s, g) {
      NameShapeMatches(s, g);
    }
  }

  /** What name_pattern's groups hold, whatever surrounds them: a non-empty
      last name without commas, a non-empty first name without `;` or `'`,
      and, when present, a non-empty trail name without newlines. */
  predicate NameGroupsValid(g: NameGroups) {
    |g.lastName| > 0 && ',' !in g.lastName
    && |g.firstName| > 0 && ';' !in g.firstName && '\'' !in g.firstName
    && (g.trailName.Some? ==> |g.trailName.value| > 0 && '\n' !in g.trailName.value)
  }

  /** The groups of every name_pattern match are valid. */
  lemma {:induction false} MatchNameValid(s: string)
    ensures MatchName(s).Some? ==> NameGroupsValid(MatchName(s).value)
  {
    MatchNameSound(s);
  }

  /** The groups are cut out of the text: a character the text lacks is in
      no group. */
  lemma {:induction false} MatchNameWithin(s: string, x: char)
    requires x !in s
    ensures MatchName(s).Some? ==>
      var g := MatchName(s).value;
      x !in g.lastName && x !in g.firstName && (g.trailName.Some? ==> x !in g.trailName.value)
  {
    MatchNameSound(s);
  }

  /** origin_pattern.match.  With no `$`, every text that reaches the first
      comma matches: the state is the text before the first comma, and the
      rest of the pattern can always match (possibly empty). */
  function MatchOrigin(s: string): (r: Option<OriginGroups>)
    ensures r.Some? <==> ',' in s
    ensures r.Some? ==> r.value.state == s[..IndexOf(s, ',')]
  {
    var c := RunEnd(s, 0, NotComma);
    assert c == IndexOf(s, ',');
    if c == |s| then None else Some(MatchCountry(s, c))
  }

  /** origin_pattern after the state `s[..c]` and its comma: `\s*`, then the
      country up to the next comma or the end. */
  function MatchCountry(s: string, c: nat): OriginGroups
    requires c < |s|
  {
    var p := RunEnd(s, c + 1, Space);
    var e := RunEnd(s, p, NotComma);
    MatchHikeType(s, c, p, e)
  }

  /** origin_pattern after the country `s[p..e]`: the optional comma (there
      is one unless the country reached the end), `\s*` and the optional
      `\w+` hike type, absent when no word character follows. */
  function MatchHikeType(s: string, c: nat, p: nat, e: nat): OriginGroups
    requires c <= p <= e <= |s|
  {
    var q := if e < |s| then e + 1 else e;
    var h := RunEnd(s, q, Space);
    var w := RunEnd(s, h, Word);
    OriginGroups(s[..c], s[p..e], if h < w then Some(s[h..w]) else None)
  }

  /** origin_pattern matches exactly when the text has a comma; the state is
      all of the text before the first comma, the country has no comma and
      does not start with whitespace, and a hike type is a non-empty run of
      word characters. */
  lemma {:induction false} MatchOriginFields(s: string)
    ensures MatchOrigin(s).Some? <==> ',' in s
    ensures MatchOrigin(s).Some? ==>
      var g := MatchOrigin(s).value;
      |g.state| < |s| && s[..|g.state|] == g.state && s[|g.state|] == ',' && ',' !in g.state
    ensures MatchOrigin(s).Some? ==> CountryAndHikeType(MatchOrigin(s).value)
    ensures MatchOrigin(s).Some? ==> MatchOrigin(s).value.state == s[..IndexOf(s, ',')]
  {
    var c := RunEnd(s, 0, NotComma);
    RangeNoneOf(s, 0, c, ',');
    if c < |s| {
      CountryFields(s, c);
    } else {
      assert s[..c] == s;
    }
  }

  /** The country has no comma and does not start with whitespace; a hike
      type is a non-empty run of word characters. */
  predicate CountryAndHikeType(g: OriginGroups) {
    ',' !in g.country && (g.country == [] || !IsSpace(g.country[0]))
    && (g.hikeType.Some? ==> |g.hikeType.value| > 0 && AllIn(g.hikeType.value, Word))
  }

  lemma {:induction false} CountryFields(s: string, c: nat)
    requires c < |s|
    ensures CountryAndHikeType(MatchCountry(s, c))
  {
    var p := RunEnd(s, c + 1, Space);
    var e := RunEnd(s, p, NotComma);
    RangeNoneOf(s, p, e, ',');
    if p < e {
      assert s[p..e][0] == s[p];
    }
    HikeTypeField(s, c, p, e);
  }

  /** The hike type origin_pattern captures is a non-empty word. */
  lemma {:induction false} HikeTypeField(s: string, c: nat, p: nat, e: nat)
    requires c <= p <= e <= |s|
    ensures var g := MatchHikeType(s, c, p, e);
      g.country == s[p..e] && (g.hikeType.Some? ==> |g.hikeType.value| > 0 && AllIn(g.hikeType.value, Word))
  {
    var q := if e < |s| then e + 1 else e;
    var h := RunEnd(s, q, Space);
    var w := RunEnd(s, h, Word);
    AllInSlice(s, h, w, Word);
  }

  /** The layout origin_pattern's greedy match gives a text: the state, a
      comma, whitespace, the country, the optional comma, whitespace, the
      hike-type word and whatever follows, each run as long as it can be
      (the state and the country stop at a comma or the end, the
      whitespace runs before a non-space, the word before a non-word
      character). */
  predicate OriginLayout(s: string, g: OriginGroups, gap1: string, sep: string,
                         gap2: string, word: string, rest: string)
  {
    s == g.state + [','] + (gap1 + (g.country + (sep + (gap2 + (word + rest)))))
    && OriginPieces(g, gap1, sep, gap2, word, rest)
  }

  /** What each piece of OriginLayout must be. */
  predicate OriginPieces(g: OriginGroups, gap1: string, sep: string,
                         gap2: string, word: string, rest: string)
  {
    ',' !in g.state && ',' !in g.country
    && AllIn(gap1, Space) && (g.country == [] || !IsSpace(g.country[0]))
    && (sep == "," || (sep == "" && gap2 == "" && word == "" && rest == ""))
    && AllIn(gap2, Space) && (word == [] && rest != [] ==> !IsSpace(rest[0]))
    && AllIn(word, Word) && (rest == [] || !IsWordChar(rest[0]))
    && g.hikeType == (if word == [] then None else Some(word))
  }

  /** The runs origin_pattern consumes end at c (state), p (whitespace),
      e (country), q (optional comma), h (whitespace) and w (hike type). */
  predicate RunsEndAt(s: string, c: nat, p: nat, e: nat, q: nat, h: nat, w: nat) {
    c < p <= e <= q <= h <= w <= |s|
    && s[c] == ',' && AllInRange(s, 0, c, NotComma)
    && AllInRange(s, c + 1, p, Space) && (p < |s| ==> !InClass(s[p], Space))
    && AllInRange(s, p, e, NotComma) && (e < |s| ==> s[e] == ',')
    && q == (if e < |s| then e + 1 else e)
    && AllInRange(s, q, h, Space) && (h < |s| ==> !InClass(s[h], Space))
    && AllInRange(s, h, w, Word) && (w < |s| ==> !InClass(s[w], Word))
  }

  /** What MatchOrigin captures when its runs end at the given indices. */
  lemma {:induction false} OriginRunsAt(s: string, c: nat, p: nat, e: nat, q: nat, h: nat, w: nat)
    requires RunsEndAt(s, c, p, e, q, h, w)
    ensures MatchOrigin(s) == Some(OriginGroups(s[..c], s[p..e], if h < w then Some(s[h..w]) else None))
  {
    RunEndAt(s, 0, NotComma, c);
    CountryRunsAt(s, c, p, e);
    HikeTypeRunsAt(s, c, p, e, q, h, w);
  }

  lemma {:induction false} CountryRunsAt(s: string, c: nat, p: nat, e: nat)
    requires c < p <= e <= |s|
    requires AllInRange(s, c + 1, p, Space) && (p < |s| ==> !InClass(s[p], Space))
    requires AllInRange(s, p, e, NotComma) && (e < |s| ==> s[e] == ',')
    ensures MatchCountry(s, c) == MatchHikeType(s, c, p, e)
  {
    RunEndAt(s, c + 1, Space, p);
    RunEndAt(s, p, NotComma, e);
  }

  lemma {:induction false} HikeTypeRunsAt(s: string, c: nat, p: nat, e: nat, q: nat, h: nat, w: nat)
    requires c <= p <= e <= q <= h <= w <= |s| && q == (if e < |s| then e + 1 else e)
    requires AllInRange(s, q, h, Space) && (h < |s| ==> !InClass(s[h], Space))
    requires AllInRange(s, h, w, Word) && (w < |s| ==> !InClass(s[w], Word))
    ensures MatchHikeType(s, c, p, e) == OriginGroups(s[..c], s[p..e], if h < w then Some(s[h..w]) else None)
  {
    RunEndAt(s, q, Space, h);
    RunEndAt(s, h, Word, w);
  }

  /** The runs MatchOrigin scans on a text with a comma. */
  lemma {:induction false} OriginScan(s: string, c: nat, p: nat, e: nat, q: nat, h: nat, w: nat)
    requires c == RunEnd(s, 0, NotComma) && c < |s|
    requires p == RunEnd(s, c + 1, Space) && e == RunEnd(s, p, NotComma)
    requires q == (if e < |s| then e + 1 else e)
    requires h == RunEnd(s, q, Space) && w == RunEnd(s, h, Word)
    ensures RunsEndAt(s, c, p, e, q, h, w)
  {
  }

  /** A match of origin_pattern lays the text out as OriginLayout says. */
  lemma {:induction false} MatchOriginLayout(s: string)
    requires MatchOrigin(s).Some?
    ensures exists gap1, sep, gap2, word, rest ::
      OriginLayout(s, MatchOrigin(s).value, gap1, sep, gap2, word, rest)
  {
    var c := RunEnd(s, 0, NotComma);
    var p := RunEnd(s, c + 1, Space);
    var e := RunEnd(s, p, NotComma);
    var q := if e < |s| then e + 1 else e;
    var h := RunEnd(s, q, Space);
    var w := RunEnd(s, h, Word);
    OriginScan(s, c, p, e, q, h, w);
    OriginRunsAt(s, c, p, e, q, h, w);
    OriginLayoutAt(s, c, p, e, q, h, w);
    LayoutWitness(s, MatchOrigin(s).value, s[c + 1..p], s[e..q], s[q..h], s[h..w], s[w..]);
  }

  lemma {:induction false} LayoutWitness(s: string, g: OriginGroups, gap1: string, sep: string,
                                         gap2: string, word: string, rest: string)
    requires OriginLayout(s, g, gap1, sep, gap2, word, rest)
    ensures exists gap1', sep', gap2', word', rest' :: OriginLayout(s, g, gap1', sep', gap2', word', rest')
  {
  }

  /** The layout of a text whose runs end at the given indices. */
  lemma {:induction false} OriginLayoutAt(s: string, c: nat, p: nat, e: nat, q: nat, h: nat, w: nat)
    requires RunsEndAt(s, c, p, e, q, h, w)
    ensures OriginLayout(s, OriginGroups(s[..c], s[p..e], if h < w then Some(s[h..w]) else None),
                         s[c + 1..p], s[e..q], s[q..h], s[h..w], s[w..])
  {
    OriginConcat(s, c, p, e, q, h, w);
    RangeNoneOf(s, 0, c, ',');
    CountryPieceAt(s, c, p, e);
    SepPieceAt(s, e, q, h, w);
    HikePieceAt(s, q, h, w);
  }

  lemma {:induction false} CountryPieceAt(s: string, c: nat, p: nat, e: nat)
    requires c < p <= e <= |s|
    requires AllInRange(s, c + 1, p, Space) && (p < |s| ==> !InClass(s[p], Space))
    requires AllInRange(s, p, e, NotComma)
    ensures ',' !in s[p..e] && AllIn(s[c + 1..p], Space)
    ensures s[p..e] == [] || !IsSpace(s[p..e][0])
  {
    RangeNoneOf(s, p, e, ',');
    AllInSlice(s, c + 1, p, Space);
    if p < e {
      assert s[p..e][0] == s[p];
    }
  }

  lemma {:induction false} SepPieceAt(s: string, e: nat, q: nat, h: nat, w: nat)
    requires e <= q <= h <= w <= |s| && (e < |s| ==> s[e] == ',')
    requires q == (if e < |s| then e + 1 else e)
    ensures s[e..q] == "," || (s[e..q] == "" && s[q..h] == "" && s[h..w] == "" && s[w..] == "")
  {
    if e < |s| {
      assert s[e..q] == [s[e]];
    }
  }

  lemma {:induction false} HikePieceAt(s: string, q: nat, h: nat, w: nat)
    requires q <= h <= w <= |s|
    requires AllInRange(s, q, h, Space) && (h < |s| ==> !InClass(s[h], Space))
    requires AllInRange(s, h, w, Word) && (w < |s| ==> !InClass(s[w], Word))
    ensures AllIn(s[q..h], Space) && AllIn(s[h..w], Word)
    ensures s[h..w] == [] && s[w..] != [] ==> !IsSpace(s[w..][0])
    ensures s[w..] == [] || !IsWordChar(s[w..][0])
  {
    AllInSlice(s, q, h, Space);
    AllInSlice(s, h, w, Word);
    if w < |s| {
      assert s[w..][0] == s[w];
    }
  }

  lemma {:induction false} OriginConcat(s: string, c: nat, p: nat, e: nat, q: nat, h: nat, w: nat)
    requires c < p <= e <= q <= h <= w <= |s| && s[c] == ','
    ensures s == s[..c] + [','] + (s[c + 1..p] + (s[p..e] + (s[e..q] + (s[q..h] + (s[h..w] + s[w..])))))
  {
    SliceSplit(s, h, w);
    SliceSplit(s, q, h);
    SliceSplit(s, e, q);
    SliceSplit(s, p, e);
    SliceSplit(s, c + 1, p);
    assert s == s[..c] + [','] + s[c + 1..];
  }

  /** Every text laid out as OriginLayout says is matched, with exactly
      those groups. */
  lemma {:induction false} OriginLayoutMatches(s: string, g: OriginGroups, gap1: string, sep: string,
                                               gap2: string, word: string, rest: string)
    requires OriginLayout(s, g, gap1, sep, gap2, word, rest)
    ensures MatchOrigin(s) == Some(g)
  {
    var c := |g.state|;
    var p := c + 1 + |gap1|;
    var e := p + |g.country|;
    var q := e + |sep|;
    var h := q + |gap2|;
    var w := h + |word|;
    LayoutSlices(s, g.state, gap1, g.country, sep, gap2, word, rest, c, p, e, q, h, w);
    PiecesRun(s, g, gap1, sep, gap2, word, rest, c, p, e, q, h, w);
  }

  /** The runs of a laid-out text end where its pieces end. */
  lemma {:induction false} PiecesRun(s: string, g: OriginGroups, gap1: string, sep: string,
                                     gap2: string, word: string, rest: string,
                                     c: nat, p: nat, e: nat, q: nat, h: nat, w: nat)
    requires OriginPieces(g, gap1, sep, gap2, word, rest)
    requires c == |g.state| && p == c + 1 + |gap1| && e == p + |g.country|
    requires q == e + |sep| && h == q + |gap2| && w == h + |word| && w <= |s|
    requires s[..c] == g.state && s[c] == ',' && s[c + 1..p] == gap1
    requires s[p..] == g.country + (sep + (gap2 + (word + rest))) && s[p..e] == g.country
    requires s[e..] == sep + (gap2 + (word + rest))
    requires s[q..h] == gap2 && s[h..] == word + rest && s[h..w] == word && s[w..] == rest
    ensures MatchOrigin(s) == Some(g)
  {
    RangeNoneOf(s, 0, c, ',');
    CountryRunsFrom(s, c, p, e, g.country, sep + (gap2 + (word + rest)));
    GapRuns(s, c + 1, p, gap1);
    SepRunsFrom(s, e, sep, gap2 + (word + rest));
    GapRuns(s, q, h, gap2);
    HikeRunsFrom(s, q, h, w, word, rest);
    OriginRunsAt(s, c, p, e, q, h, w);
  }

  lemma {:induction false} GapRuns(s: string, i: nat, j: nat, gap: string)
    requires i <= j <= |s| && s[i..j] == gap && AllIn(gap, Space)
    ensures AllInRange(s, i, j, Space)
  {
    AllInSlice(s, i, j, Space);
  }

  lemma {:induction false} CountryRunsFrom(s: string, c: nat, p: nat, e: nat, country: string, after: string)
    requires c < p <= e <= |s| && s[p..e] == country && s[p..] == country + after
    requires ',' !in country && (country == [] || !IsSpace(country[0]))
    requires after == [] || after[0] == ','
    ensures AllInRange(s, p, e, NotComma) && (e < |s| ==> s[e] == ',')
    ensures p < |s| ==> !InClass(s[p], Space)
  {
    RangeNoneOf(s, p, e, ',');
    if e < |s| {
      assert s[e] == s[p..][e - p];
    }
    if p < |s| {
      assert s[p] == s[p..][0];
    }
  }

  lemma {:induction false} SepRunsFrom(s: string, e: nat, sep: string, after: string)
    requires e <= |s| && s[e..] == sep + after
    requires sep == "," || (sep == "" && after == "")
    ensures e + |sep| == if e < |s| then e + 1 else e
  {
  }

  lemma {:induction false} HikeRunsFrom(s: string, q: nat, h: nat, w: nat, word: string, rest: string)
    requires q <= h <= w <= |s| && s[h..] == word + rest && s[h..w] == word && s[w..] == rest
    requires AllIn(word, Word) && (word == [] && rest != [] ==> !IsSpace(rest[0]))
    requires rest == [] || !IsWordChar(rest[0])
    ensures h < |s| ==> !InClass(s[h], Space)
    ensures AllInRange(s, h, w, Word) && (w < |s| ==> !InClass(s[w], Word))
  {
    AllInSlice(s, h, w, Word);
    if w < |s| {
      assert s[w] == rest[0];
    }
    if h < w {
      AllInTail(word, Word);
      assert s[h] == word[0];
    } else if h < |s| {
      assert s[h] == rest[0];
    }
  }

  /** Where each piece of a laid-out origin text sits. */
  lemma {:induction false} LayoutSlices(s: string, state: string, gap1: string, country: string, sep: string,
                                        gap2: string, word: string, rest: string,
                                        c: nat, p: nat, e: nat, q: nat, h: nat, w: nat)
    requires s == state + [','] + (gap1 + (country + (sep + (gap2 + (word + rest)))))
    requires c == |state| && p == c + 1 + |gap1| && e == p + |country|
    requires q == e + |sep| && h == q + |gap2| && w == h + |word|
    ensures w <= |s| && s[..c] == state && s[c] == ','
      && s[c + 1..p] == gap1 && s[p..] == country + (sep + (gap2 + (word + rest)))
      && s[p..e] == country && s[e..] == sep + (gap2 + (word + rest))
      && s[e..q] == sep && s[q..] == gap2 + (word + rest)
      && s[q..h] == gap2 && s[h..] == word + rest
      && s[h..w] == word && s[w..] == rest
  {
  }

  /** The origin groups are cut out of the text: a character the text
      lacks is in no group. */
  lemma {:induction false} MatchOriginWithin(s: string, x: char)
    requires x !in s
    ensures MatchOrigin(s).Some? ==>
      var g := MatchOrigin(s).value;
      x !in g.state && x !in g.country && (g.hikeType.Some? ==> x !in g.hikeType.value)
  {
    if MatchOrigin(s).Some? {
      MatchOriginLayout(s);
    }
  }

  /** origin_pattern matches exactly the texts OriginLayout describes, and
      its groups are the ones the layout names. */
  lemma {:induction false} MatchOriginIff(s: string, g: OriginGroups)
    ensures MatchOrigin(s) == Some(g) <==>
      exists gap1, sep, gap2, word, rest :: OriginLayout(s, g, gap1, sep, gap2, word, rest)
  {
    if MatchOrigin(s) == Some(g) {
      MatchOriginLayout(s);
    }
    if exists gap1, sep, gap2, word, rest :: OriginLayout(s, g, gap1, sep, gap2, word, rest) {
      var gap1, sep, gap2, word, rest :| OriginLayout(s, g, gap1, sep, gap2, word, rest);
      OriginLayoutMatches(s, g, gap1, sep, gap2, word, rest);
    }
  }
}
