/** A model of Python's `re.search(pattern, s)` for patterns of the form `prefix(C+)`: a
    literal prefix followed by one capturing group over a character class C, which is all the
    two patterns of the signature report use. `re.search` tries the start positions of `s` from
    left to right and takes the first at which the whole pattern matches; there the group,
    being greedy with nothing after it, captures the longest run of C-characters. */
module RegexSearch {
  import opened Wrappers

  /** The classes of the two groups: `[^,]` and `[\d-]`. */
  datatype CharClass = NotComma | DigitOrHyphen

  /** `\d`, restricted to the ASCII decimal digits. */
  predicate IsDigit(c: char) {
    '0' <= c <= '9'
  }

  predicate InClass(k: CharClass, c: char) {
    match k
    case NotComma => c != ','
    case DigitOrHyphen => IsDigit(c) || c == '-'
  }

  /** `prefix(C+)` matches `s` at start index `i`: the prefix is there and is followed by at
      least one character of the class. */
  predicate MatchesAt(s: string, prefix: string, k: CharClass, i: nat) {
    i + |prefix| < |s| && s[i..i + |prefix|] == prefix && InClass(k, s[i + |prefix|])
  }

  /** `g` is the longest run of class-`k` characters of `s` that starts at index `j`. */
  predicate IsMaximalRun(s: string, k: CharClass, j: nat, g: string) {
    && j + |g| <= |s|
    && s[j..j + |g|] == g
    && (forall c :: c in g ==> InClass(k, c))
    && (j + |g| == |s| || !InClass(k, s[j + |g|]))
  }

  /** Some start index of `s` matches the pattern. */
  ghost predicate HasMatch(s: string, prefix: string, k: CharClass) {
    exists i: nat :: MatchesAt(s, prefix, k, i)
  }

  /** Reference definition of the group `re.search` returns: `i` is the leftmost matching
      start index and `g` the greedy run right after the prefix there. */
  ghost predicate CapturedAt(s: string, prefix: string, k: CharClass, i: nat, g: string) {
    && MatchesAt(s, prefix, k, i)
    && (forall j: nat :: j < i ==> !MatchesAt(s, prefix, k, j))
    && IsMaximalRun(s, k, i + |prefix|, g)
  }

  ghost predicate IsCapture(s: string, prefix: string, k: CharClass, g: string) {
    exists i: nat :: CapturedAt(s, prefix, k, i, g)
  }

  /** The first start index at or after `from` at which the pattern matches. */
  function FirstMatchFrom(s: string, prefix: string, k: CharClass, from: nat): (r: Option<nat>)
    decreases |s| - from
    ensures r.Some? ==> from <= r.value && MatchesAt(s, prefix, k, r.value)
    ensures forall j: nat :: from <= j && (r.None? || j < r.value) ==> !MatchesAt(s, prefix, k, j)
  {
    if |s| <= from + |prefix| then None
    else if MatchesAt(s, prefix, k, from) then Some(from)
    else FirstMatchFrom(s, prefix, k, from + 1)
  }

  /** The characters a greedy `C+` (or `C*`) consumes from index `j` on. */
  function RunFrom(s: string, k: CharClass, j: nat): (g: string)
    requires j <= |s|
    decreases |s| - j
    ensures IsMaximalRun(s, k, j, g)
  {
    if j == |s| || !InClass(k, s[j]) then []
    else
      var rest := RunFrom(s, k, j + 1);
      assert s[j..j + 1 + |rest|] == [s[j]] + s[j + 1..j + 1 + |rest|];
      [s[j]] + rest
  }

  /** `re.search(prefix + "(C+)", s)`, giving group 1 of the match or `None`. */
  function Search(s: string, prefix: string, k: CharClass): (r: Option<string>)
    ensures r.Some? <==> HasMatch(s, prefix, k)
    ensures r.Some? ==> 0 < |r.value| && IsCapture(s, prefix, k, r.value)
  {
    match FirstMatchFrom(s, prefix, k, 0)
    case None => None
    case Some(i) =>
      var g := RunFrom(s, k, i + |prefix|);
      assert CapturedAt(s, prefix, k, i, g);
      Some(g)
  }

  /** Two maximal runs from the same index are the same run. */
  lemma MaximalRunUnique(s: string, k: CharClass, j: nat, g1: string, g2: string)
    requires IsMaximalRun(s, k, j, g1) && IsMaximalRun(s, k, j, g2)
    ensures g1 == g2
  {
    forall t | j <= t < j + |g1| ensures InClass(k, s[t]) {
      assert s[t] == g1[t - j] && g1[t - j] in g1;
    }
    forall t | j <= t < j + |g2| ensures InClass(k, s[t]) {
      assert s[t] == g2[t - j] && g2[t - j] in g2;
    }
  }

  /** The reference definition determines the captured group uniquely. */
  lemma CaptureUnique(s: string, prefix: string, k: CharClass, g1: string, g2: string)
    requires IsCapture(s, prefix, k, g1) && IsCapture(s, prefix, k, g2)
    ensures g1 == g2
  {
    var i1: nat :| CapturedAt(s, prefix, k, i1, g1);
    var i2: nat :| CapturedAt(s, prefix, k, i2, g2);
    assert i1 == i2;
    MaximalRunUnique(s, k, i1 + |prefix|, g1, g2);
  }

  /** `Search` returns exactly the group the reference definition describes, and nothing
      when no start index matches. */
  lemma SearchIsCapture(s: string, prefix: string, k: CharClass, g: string)
    ensures Search(s, prefix, k) == Some(g) <==> IsCapture(s, prefix, k, g)
    ensures Search(s, prefix, k) == None <==> !HasMatch(s, prefix, k)
  {
    if IsCapture(s, prefix, k, g) {
      var i: nat :| CapturedAt(s, prefix, k, i, g);
      assert HasMatch(s, prefix, k);
      CaptureUnique(s, prefix, k, Search(s, prefix, k).value, g);
    }
  }

  /** A match needs every character of the prefix in `s`: if one of them never occurs,
      the search finds nothing. */
  lemma NoMatchWithoutPrefixChar(s: string, prefix: string, k: CharClass, c: char)
    requires c in prefix && c !in s
    ensures Search(s, prefix, k) == None
  {
    var p :| 0 <= p < |prefix| && prefix[p] == c;
    forall t | 0 <= t < |s| ensures s[t] != c {
      assert s[t] in s;
    }
    forall i: nat ensures !MatchesAt(s, prefix, k, i) {
      if i + |prefix| <= |s| {
        assert s[i..i + |prefix|][p] == s[i + p];
      }
    }
  }
}
