/**
 * The `re.search` patterns the Android helpers apply to shell output.
 * `re.search` tries start positions from the left and reports the first one
 * where the pattern matches; a greedy `k+` there takes the longest run of
 * `k` characters. Two shapes occur:
 *   - a literal tag followed by a captured run, `tag(k+)`
 *     (`level: (\d+)`, `versionName=([^\s]+)`, `versionCode=(\d+)`, `codePath=([^\s]+)`);
 *   - two runs around a separator, `(k+)sep(k+)`
 *     (`(\d+)x(\d+)`, `([\w\.]+/[\w\.]+)`).
 */
module Patterns {
  import opened Wrappers
  import opened Text

  /** The character classes of the patterns: `\d`, `[^\s]` and `[\w\.]`. */
  datatype CharClass = Digit | NonSpace | WordOrDot

  predicate InClass(c: char, k: CharClass) {
    match k
    case Digit => IsDigit(c)
    case NonSpace => !IsSpace(c)
    case WordOrDot => IsWordChar(c) || c == '.'
  }

  predicate AllInClass(s: String, k: CharClass) {
    forall j :: 0 <= j < |s| ==> InClass(s[j], k)
  }

  /** How many characters a greedy `k+` (or `k*`) consumes at index `i`: the longest run of class `k`. */
  function RunLength(s: String, i: nat, k: CharClass): (n: nat)
    requires i <= |s|
    ensures i + n <= |s|
    ensures forall j :: i <= j < i + n ==> InClass(s[j], k)
    ensures i + n == |s| || !InClass(s[i + n], k)
    decreases |s| - i
  {
    if i < |s| && InClass(s[i], k) then 1 + RunLength(s, i + 1, k) else 0
  }

  /** A run of class `k` that cannot be extended is the one `RunLength` measures. */
  lemma RunLengthIs(s: String, i: nat, k: CharClass, n: nat)
    requires i + n <= |s|
    requires forall j :: i <= j < i + n ==> InClass(s[j], k)
    requires i + n == |s| || !InClass(s[i + n], k)
    ensures RunLength(s, i, k) == n
  {
  }

  // ---------------------------------------------------------------------------
  // tag(k+)

  /** `tag(k+)` matches at index `i`. */
  predicate TagAt(s: String, tag: String, k: CharClass, i: int) {
    OccursAt(s, tag, i) && i + |tag| < |s| && InClass(s[i + |tag|], k)
  }

  /** The first index at or after `from` where `tag(k+)` matches. */
  function FindTagFrom(s: String, tag: String, k: CharClass, from: nat): (r: Option<nat>)
    ensures r.Some? ==> from <= r.value && TagAt(s, tag, k, r.value)
    ensures r.Some? ==> forall j :: from <= j < r.value ==> !TagAt(s, tag, k, j)
    ensures r.None? ==> forall j :: from <= j ==> !TagAt(s, tag, k, j)
    decreases |s| - from
  {
    if from + |tag| >= |s| then None
    else if TagAt(s, tag, k, from) then Some(from)
    else FindTagFrom(s, tag, k, from + 1)
  }

  /** `group(1)` of a match of `tag(k+)` at `i`: the whole run after the tag. */
  function TagGroup(s: String, tag: String, k: CharClass, i: nat): (g: String)
    requires TagAt(s, tag, k, i)
    ensures g != [] && AllInClass(g, k)
  {
    var start := i + |tag|;
    s[start..start + RunLength(s, start, k)]
  }

  /** `m = re.search(tag + '(k+)', s)`: `m.group(1)`, or `None` when nothing matches. */
  function SearchTag(s: String, tag: String, k: CharClass): (r: Option<String>)
    ensures r.Some? <==> exists i :: TagAt(s, tag, k, i)
    ensures r.Some? ==> r.value != [] && AllInClass(r.value, k)
  {
    match FindTagFrom(s, tag, k, 0)
    case None => None
    case Some(i) => Some(TagGroup(s, tag, k, i))
  }

  /** Writing `tag` and a value, then searching, gives the value back. */
  lemma {:induction false} SearchTagRoundTrip(tag: String, v: String, tail: String, k: CharClass)
    requires v != [] && AllInClass(v, k)
    requires tail == [] || !InClass(tail[0], k)
    ensures SearchTag(tag + v + tail, tag, k) == Some(v)
  {
    var s := tag + v + tail;
    assert s[..|tag|] == tag;
    assert s[|tag|] == v[0];
    assert TagAt(s, tag, k, 0);
    assert FindTagFrom(s, tag, k, 0) == Some(0);
    forall j | |tag| <= j < |tag| + |v|
      ensures InClass(s[j], k)
    {
      assert s[j] == v[j - |tag|];
    }
    if tail != [] {
      assert s[|tag| + |v|] == tail[0];
    }
    RunLengthIs(s, |tag|, k, |v|);
    assert s[|tag|..|tag| + |v|] == v;
  }

  // ---------------------------------------------------------------------------
  // (k+)sep(k+)

  /** `(k+)sep(k+)` matches at index `i`. */
  predicate PairAt(s: String, k: CharClass, sep: char, i: int) {
    && 0 <= i < |s|
    && InClass(s[i], k)
    && var j := i + RunLength(s, i, k);
       j + 1 < |s| && s[j] == sep && InClass(s[j + 1], k)
  }

  /** The first index at or after `from` where `(k+)sep(k+)` matches. */
  function FindPairFrom(s: String, k: CharClass, sep: char, from: nat): (r: Option<nat>)
    ensures r.Some? ==> from <= r.value && PairAt(s, k, sep, r.value)
    ensures r.Some? ==> forall j :: from <= j < r.value ==> !PairAt(s, k, sep, j)
    ensures r.None? ==> forall j :: from <= j ==> !PairAt(s, k, sep, j)
    decreases |s| - from
  {
    if from >= |s| then None
    else if PairAt(s, k, sep, from) then Some(from)
    else FindPairFrom(s, k, sep, from + 1)
  }

  /** Where the second run of a match at `i` ends. */
  function PairEnd(s: String, k: CharClass, sep: char, i: nat): (e: nat)
    requires PairAt(s, k, sep, i)
    ensures i < e <= |s|
  {
    var j := i + RunLength(s, i, k);
    j + 1 + RunLength(s, j + 1, k)
  }

  /** The two captured runs of a match at `i`; together with `sep` they are the whole match. */
  function PairGroups(s: String, k: CharClass, sep: char, i: nat): (g: (String, String))
    requires PairAt(s, k, sep, i)
    ensures g.0 != [] && AllInClass(g.0, k) && g.1 != [] && AllInClass(g.1, k)
    ensures g.0 + [sep] + g.1 == s[i..PairEnd(s, k, sep, i)]
  {
    var j := i + RunLength(s, i, k);
    var e := PairEnd(s, k, sep, i);
    assert s[i..e] == s[i..j] + [sep] + s[j + 1..e];
    (s[i..j], s[j + 1..e])
  }

  /** `re.search('(k+)sep(k+)', s)`: the two groups of the first match, or `None`. */
  function SearchPair(s: String, k: CharClass, sep: char): (r: Option<(String, String)>)
    ensures r.Some? <==> exists i :: PairAt(s, k, sep, i)
  {
    match FindPairFrom(s, k, sep, 0)
    case None => None
    case Some(i) => Some(PairGroups(s, k, sep, i))
  }

  /** `re.search('(k+sep k+)', s).group(1)`: the text of the first match, or `None`. */
  function SearchSpan(s: String, k: CharClass, sep: char): (r: Option<String>)
    ensures r.Some? <==> exists i :: PairAt(s, k, sep, i)
    ensures r.Some? ==> SearchPair(s, k, sep).Some?
                        && r.value == SearchPair(s, k, sep).value.0 + [sep] + SearchPair(s, k, sep).value.1
  {
    match FindPairFrom(s, k, sep, 0)
    case None => None
    case Some(i) => Some(s[i..PairEnd(s, k, sep, i)])
  }

  /** A text without the separator never matches. */
  lemma NoSeparatorNoPair(s: String, k: CharClass, sep: char)
    requires sep !in s
    ensures SearchPair(s, k, sep) == None && SearchSpan(s, k, sep) == None
  {
    forall i | 0 <= i < |s| && InClass(s[i], k)
      ensures !PairAt(s, k, sep, i)
    {
      var j := i + RunLength(s, i, k);
      if j < |s| {
        assert s[j] in s;
      }
    }
  }

  /** A run of class `k` reaching the end of the text is measured to the end. */
  lemma RunToEnd(s: String, start: nat, k: CharClass)
    requires start <= |s|
    requires forall x :: start <= x < |s| ==> InClass(s[x], k)
    ensures RunLength(s, start, k) == |s| - start
  {
    RunLengthIs(s, start, k, |s| - start);
  }

  /** A text that opens with a run of `n` class-`k` characters, `sep` and another class-`k` character matches at 0. */
  lemma PairAtStart(s: String, k: CharClass, sep: char, n: nat)
    requires !InClass(sep, k)
    requires 0 < n && n + 1 < |s| && s[n] == sep && InClass(s[n + 1], k)
    requires forall x :: 0 <= x < n ==> InClass(s[x], k)
    ensures RunLength(s, 0, k) == n
    ensures FindPairFrom(s, k, sep, 0) == Some(0)
  {
    RunLengthIs(s, 0, k, n);
    assert PairAt(s, k, sep, 0);
  }

  /** The text of a match at `i`: a run of `k`, `sep`, and a run of `k` to its end. */
  lemma MatchShape(s: String, k: CharClass, sep: char, i: nat)
    requires PairAt(s, k, sep, i)
    ensures var m, n := s[i..PairEnd(s, k, sep, i)], RunLength(s, i, k);
            && 0 < n && n + 1 < |m| && m[n] == sep
            && forall x :: 0 <= x < |m| && x != n ==> InClass(m[x], k)
  {
    var m, n := s[i..PairEnd(s, k, sep, i)], RunLength(s, i, k);
    forall x | 0 <= x < |m| && x != n
      ensures InClass(m[x], k)
    {
      assert m[x] == s[i + x];
    }
  }

  /** `SearchSpan` returns the text of the match that `FindPairFrom` locates. */
  lemma SearchSpanAt(s: String, k: CharClass, sep: char, i: nat)
    requires FindPairFrom(s, k, sep, 0) == Some(i)
    ensures SearchSpan(s, k, sep) == Some(s[i..PairEnd(s, k, sep, i)])
  {
  }

  /** A text made of a run of `k`, `sep` and a run of `k` is one whole match. */
  lemma WholeMatch(m: String, k: CharClass, sep: char, n: nat)
    requires !InClass(sep, k)
    requires 0 < n && n + 1 < |m| && m[n] == sep
    requires forall x :: 0 <= x < |m| && x != n ==> InClass(m[x], k)
    ensures SearchSpan(m, k, sep) == Some(m)
  {
    PairAtStart(m, k, sep, n);
    RunToEnd(m, n + 1, k);
    SearchSpanAt(m, k, sep, 0);
    assert m[0..|m|] == m;
  }

  /** The text of a match matches itself whole: searching it again returns it unchanged. */
  lemma {:induction false} SearchSpanIdempotent(s: String, k: CharClass, sep: char)
    requires !InClass(sep, k)
    requires SearchSpan(s, k, sep).Some?
    ensures SearchSpan(SearchSpan(s, k, sep).value, k, sep) == SearchSpan(s, k, sep)
  {
    var i := FindPairFrom(s, k, sep, 0).value;
    SearchSpanAt(s, k, sep, i);
    MatchShape(s, k, sep, i);
    WholeMatch(s[i..PairEnd(s, k, sep, i)], k, sep, RunLength(s, i, k));
  }

  /** The groups of a text made of a run of `k`, `sep` and a run of `k` are the two runs. */
  lemma WholePair(m: String, k: CharClass, sep: char, n: nat)
    requires !InClass(sep, k)
    requires 0 < n && n + 1 < |m| && m[n] == sep
    requires forall x :: 0 <= x < |m| && x != n ==> InClass(m[x], k)
    ensures SearchPair(m, k, sep) == Some((m[..n], m[n + 1..]))
  {
    PairAtStart(m, k, sep, n);
    RunToEnd(m, n + 1, k);
    assert PairEnd(m, k, sep, 0) == |m|;
    assert PairGroups(m, k, sep, 0) == (m[0..n], m[n + 1..|m|]);
    assert m[0..n] == m[..n] && m[n + 1..|m|] == m[n + 1..];
  }

  /** Writing two runs around the separator, then searching, gives them back. */
  lemma {:induction false} SearchPairRoundTrip(a: String, b: String, k: CharClass, sep: char)
    requires !InClass(sep, k)
    requires a != [] && AllInClass(a, k) && b != [] && AllInClass(b, k)
    ensures SearchPair(a + [sep] + b, k, sep) == Some((a, b))
  {
    var s := a + [sep] + b;
    forall x | 0 <= x < |s| && x != |a|
      ensures InClass(s[x], k)
    {
      if x < |a| {
        assert s[x] == a[x];
      } else {
        assert s[x] == b[x - |a| - 1];
      }
    }
    WholePair(s, k, sep, |a|);
    assert s[..|a|] == a;
    assert s[|a| + 1..] == b;
  }
}
