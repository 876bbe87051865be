/**
 * The Python `str` operations the scripts rely on, over `seq<char>`:
 * `in`, `find`, `startswith`, `endswith`, `split` on one character and its
 * inverse `join`, `strip`, `lower`, `upper`, `replace` and `int` of a digit
 * string.
 */
module Text {
  import opened Wrappers

  type String = seq<char>

  // ---------------------------------------------------------------------------
  // Character classes

  /** `c.isspace()`, the set `str.strip()` removes and the regex class `\s` matches. */
  predicate IsSpace(c: char) {
    || ('\t' <= c <= '\r')
    || ('\U{1c}' <= c <= '\U{1f}')
    || c == ' ' || c == '\U{85}' || c == '\U{a0}' || c == '\U{1680}'
    || ('\U{2000}' <= c <= '\U{200a}')
    || c == '\U{2028}' || c == '\U{2029}' || c == '\U{202f}' || c == '\U{205f}' || c == '\U{3000}'
  }

  /** The ASCII digits, the part of `\d` this model covers. */
  predicate IsDigit(c: char) {
    '0' <= c <= '9'
  }

  /** The ASCII part of the regex class `\w`. */
  predicate IsWordChar(c: char) {
    ('a' <= c <= 'z') || ('A' <= c <= 'Z') || IsDigit(c) || c == '_'
  }

  predicate AllDigits(s: String) {
    forall i :: 0 <= i < |s| ==> IsDigit(s[i])
  }

  // ---------------------------------------------------------------------------
  // startswith, endswith, in, find

  /** `s.startswith(p)` */
  predicate StartsWith(s: String, p: String) {
    |p| <= |s| && s[..|p|] == p
  }

  /** `s.endswith(p)` */
  predicate EndsWith(s: String, p: String) {
    |p| <= |s| && s[|s| - |p|..] == p
  }

  /** `p` occurs in `s` starting at index `i`. */
  predicate OccursAt(s: String, p: String, i: int) {
    0 <= i && i + |p| <= |s| && s[i..i + |p|] == p
  }

  /** `s.find(p, from)`: the first index at or after `from` where `p` occurs. */
  function FindFrom(s: String, p: String, from: nat): (r: Option<nat>)
    ensures r.Some? ==> from <= r.value && OccursAt(s, p, r.value)
    ensures r.Some? ==> forall j :: from <= j < r.value ==> !OccursAt(s, p, j)
    ensures r.None? ==> forall j :: from <= j ==> !OccursAt(s, p, j)
    decreases |s| - from
  {
    if from + |p| > |s| then None
    else if s[from..from + |p|] == p then Some(from)
    else FindFrom(s, p, from + 1)
  }

  /** `p in s` */
  function Contains(s: String, p: String): (r: bool)
    ensures r <==> exists i :: OccursAt(s, p, i)
  {
    FindFrom(s, p, 0).Some?
  }

  /** Containment is transitive: a keyword found inside a found keyword is found too. */
  lemma ContainsTransitive(s: String, a: String, b: String)
    requires Contains(s, a) && Contains(a, b)
    ensures Contains(s, b)
  {
    var i :| OccursAt(s, a, i);
    var j :| OccursAt(a, b, j);
    OccursInSlice(s, i, i + |a|, b, j);
  }

  /** A prefix is contained. */
  lemma StartsWithContains(s: String, p: String)
    requires StartsWith(s, p)
    ensures Contains(s, p)
  {
    assert OccursAt(s, p, 0);
  }

  /** An occurrence inside a slice is an occurrence in the whole string. */
  lemma OccursInSlice(s: String, lo: nat, hi: nat, p: String, i: int)
    requires lo <= hi <= |s| && OccursAt(s[lo..hi], p, i)
    ensures OccursAt(s, p, lo + i)
  {
    forall k | 0 <= k < |p|
      ensures s[lo + i..lo + i + |p|][k] == p[k]
    {
      assert s[lo..hi][i..i + |p|][k] == p[k];
    }
  }

  // ---------------------------------------------------------------------------
  // lower, upper

  function LowerChar(c: char): char {
    if 'A' <= c <= 'Z' then (c as int + 32) as char else c
  }

  function UpperChar(c: char): char {
    if 'a' <= c <= 'z' then (c as int - 32) as char else c
  }

  /** `s.lower()` on ASCII letters. */
  function Lower(s: String): (r: String)
    ensures |r| == |s| && forall i :: 0 <= i < |s| ==> r[i] == LowerChar(s[i])
  {
    seq(|s|, i requires 0 <= i < |s| => LowerChar(s[i]))
  }

  /** `s.upper()` on ASCII letters. */
  function Upper(s: String): (r: String)
    ensures |r| == |s| && forall i :: 0 <= i < |s| ==> r[i] == UpperChar(s[i])
  {
    seq(|s|, i requires 0 <= i < |s| => UpperChar(s[i]))
  }

  /** Upper-casing first changes nothing once the text is lower-cased. */
  lemma LowerOfUpper(s: String)
    ensures Lower(Upper(s)) == Lower(s)
  {
    forall i | 0 <= i < |s|
      ensures Lower(Upper(s))[i] == Lower(s)[i]
    {
      var c := s[i];
      if 'a' <= c <= 'z' {
        assert UpperChar(c) as int == c as int - 32;
      }
    }
  }

  /** Two texts are equal once upper-cased exactly when they are equal once lower-cased. */
  lemma CaseFoldAgree(p: String, q: String)
    ensures Upper(p) == Upper(q) <==> Lower(p) == Lower(q)
  {
    if |p| == |q| {
      if Upper(p) == Upper(q) {
        forall i | 0 <= i < |p|
          ensures Lower(p)[i] == Lower(q)[i]
        {
          assert Upper(p)[i] == Upper(q)[i];
        }
      }
      if Lower(p) == Lower(q) {
        forall i | 0 <= i < |p|
          ensures Upper(p)[i] == Upper(q)[i]
        {
          assert Lower(p)[i] == Lower(q)[i];
        }
      }
    } else {
      assert |Upper(p)| != |Upper(q)| && |Lower(p)| != |Lower(q)|;
    }
  }

  // ---------------------------------------------------------------------------
  // split on one character, and join

  /** `s.split(sep)` for a one-character separator: never empty, pieces free of `sep`. */
  function Split(s: String, sep: char): (r: seq<String>)
    ensures |r| >= 1
    ensures forall k :: 0 <= k < |r| ==> sep !in r[k]
    decreases |s|
  {
    if s == [] then [[]]
    else
      var rest := Split(s[1..], sep);
      if s[0] == sep then [[]] + rest
      else [[s[0]] + rest[0]] + rest[1..]
  }

  /** `sep.join(parts)` */
  function JoinWith(parts: seq<String>, sep: char): String
    requires |parts| >= 1
  {
    if |parts| == 1 then parts[0] else parts[0] + [sep] + JoinWith(parts[1..], sep)
  }

  /** Joining the pieces of a split gives back the text. */
  lemma {:induction false} JoinSplit(s: String, sep: char)
    ensures JoinWith(Split(s, sep), sep) == s
  {
    if s != [] {
      JoinSplit(s[1..], sep);
      var rest := Split(s[1..], sep);
      if s[0] == sep {
        assert ([[]] + rest)[1..] == rest;
      } else if |rest| > 1 {
        var r := [[s[0]] + rest[0]] + rest[1..];
        assert r[1..] == rest[1..];
        assert JoinWith(rest, sep) == rest[0] + [sep] + JoinWith(rest[1..], sep);
      }
    }
  }

  /** The first piece of a split is the text before the first separator. */
  lemma SplitHead(s: String, sep: char)
    ensures StartsWith(s, Split(s, sep)[0])
    ensures |Split(s, sep)[0]| < |s| ==> s[|Split(s, sep)[0]|] == sep
  {
    JoinSplit(s, sep);
    var parts := Split(s, sep);
    if |parts| > 1 {
      assert s == parts[0] + [sep] + JoinWith(parts[1..], sep);
    }
  }

  /** A text without the separator splits into itself. */
  lemma {:induction false} SplitNoSep(a: String, sep: char)
    requires sep !in a
    ensures Split(a, sep) == [a]
  {
    if a != [] {
      SplitNoSep(a[1..], sep);
      assert [a[0]] + a[1..] == a;
    }
  }

  /** Splitting `a + sep + b` peels off the separator-free first piece `a`. */
  lemma {:induction false} SplitFirst(a: String, b: String, sep: char)
    requires sep !in a
    ensures Split(a + [sep] + b, sep) == [a] + Split(b, sep)
  {
    if a == [] {
      assert ([sep] + b)[1..] == b;
    } else {
      assert (a + [sep] + b)[1..] == a[1..] + [sep] + b;
      SplitFirst(a[1..], b, sep);
      assert [a[0]] + a[1..] == a;
    }
  }

  /** Splitting the join of separator-free pieces gives back the pieces. */
  lemma {:induction false} SplitJoin(parts: seq<String>, sep: char)
    requires |parts| >= 1
    requires forall k :: 0 <= k < |parts| ==> sep !in parts[k]
    ensures Split(JoinWith(parts, sep), sep) == parts
  {
    if |parts| == 1 {
      SplitNoSep(parts[0], sep);
    } else {
      SplitJoin(parts[1..], sep);
      SplitFirst(parts[0], JoinWith(parts[1..], sep), sep);
    }
  }

  /** Joining the first `k` pieces gives a prefix of joining them all. */
  lemma {:induction false} JoinPrefix(parts: seq<String>, k: nat, sep: char)
    requires 1 <= k <= |parts|
    ensures StartsWith(JoinWith(parts, sep), JoinWith(parts[..k], sep))
    decreases k
  {
    if k == 1 {
      assert parts[..1] == [parts[0]];
    } else {
      JoinPrefix(parts[1..], k - 1, sep);
      assert parts[..k][1..] == parts[1..][..k - 1];
      var head := parts[0] + [sep];
      var all := JoinWith(parts[1..], sep);
      var some := JoinWith(parts[1..][..k - 1], sep);
      assert JoinWith(parts, sep) == head + all;
      assert JoinWith(parts[..k], sep) == head + some;
      assert (head + all)[..|head + some|] == head + all[..|some|];
    }
  }

  // ---------------------------------------------------------------------------
  // strip

  /** `s.lstrip()` */
  function LStrip(s: String): (r: String)
    ensures |r| <= |s| && r == s[|s| - |r|..]
    ensures forall i :: 0 <= i < |s| - |r| ==> IsSpace(s[i])
    ensures r == [] || !IsSpace(r[0])
    decreases |s|
  {
    if s != [] && IsSpace(s[0]) then LStrip(s[1..]) else s
  }

  /** `s.rstrip()` */
  function RStrip(s: String): (r: String)
    ensures |r| <= |s| && r == s[..|r|]
    ensures forall i :: |r| <= i < |s| ==> IsSpace(s[i])
    ensures r == [] || !IsSpace(r[|r| - 1])
    decreases |s|
  {
    if s != [] && IsSpace(s[|s| - 1]) then RStrip(s[..|s| - 1]) else s
  }

  /** `s.strip()` */
  function Strip(s: String): String {
    RStrip(LStrip(s))
  }

  predicate HasNonSpace(s: String) {
    exists i :: 0 <= i < |s| && !IsSpace(s[i])
  }

  /** Left-stripping stops inside a head that holds a non-space character. */
  lemma {:induction false} LStripAppend(a: String, b: String)
    requires HasNonSpace(a)
    ensures LStrip(a + b) == LStrip(a) + b
    decreases |a|
  {
    if IsSpace(a[0]) {
      assert (a + b)[1..] == a[1..] + b;
      assert HasNonSpace(a[1..]) by {
        var i :| 0 <= i < |a| && !IsSpace(a[i]);
        assert a[1..][i - 1] == a[i];
      }
      LStripAppend(a[1..], b);
    }
  }

  /** A slice of a text without `c` is without `c`. */
  lemma SliceAvoids(s: String, lo: nat, hi: nat, c: char)
    requires lo <= hi <= |s| && c !in s
    ensures c !in s[lo..hi]
  {
    forall k | 0 <= k < hi - lo
      ensures s[lo..hi][k] != c
    {
      assert s[lo..hi][k] == s[lo + k];
    }
  }

  /** Right-stripping stops inside a tail that holds a non-space character. */
  lemma {:induction false} RStripAppend(a: String, b: String)
    requires HasNonSpace(b)
    ensures RStrip(a + b) == a + RStrip(b)
    decreases |b|
  {
    if IsSpace(b[|b| - 1]) {
      assert (a + b)[..|a + b| - 1] == a + b[..|b| - 1];
      assert HasNonSpace(b[..|b| - 1]) by {
        var i :| 0 <= i < |b| && !IsSpace(b[i]);
        assert b[..|b| - 1][i] == b[i];
      }
      RStripAppend(a, b[..|b| - 1]);
    }
  }

  /** A tail of blanks is removed whole by right-stripping. */
  lemma {:induction false} RStripBlankTail(a: String, b: String)
    requires !HasNonSpace(b)
    ensures RStrip(a + b) == RStrip(a)
    decreases |b|
  {
    if b != [] {
      assert IsSpace(b[|b| - 1]);
      assert (a + b)[..|a + b| - 1] == a + b[..|b| - 1];
      RStripBlankTail(a, b[..|b| - 1]);
    } else {
      assert a + b == a;
    }
  }

  // ---------------------------------------------------------------------------
  // replace

  /** `s.replace(pat, rep)`: every non-overlapping occurrence, scanning left to right. */
  function Replace(s: String, pat: String, rep: String): String
    requires pat != []
    decreases |s|
  {
    if |s| < |pat| then s
    else if s[..|pat|] == pat then rep + Replace(s[|pat|..], pat, rep)
    else [s[0]] + Replace(s[1..], pat, rep)
  }

  /** A leading occurrence of the pattern is replaced. */
  lemma ReplaceAtStart(pat: String, b: String, rep: String)
    requires pat != []
    ensures Replace(pat + b, pat, rep) == rep + Replace(b, pat, rep)
  {
    assert (pat + b)[..|pat|] == pat;
    assert (pat + b)[|pat|..] == b;
  }

  /** Text that lacks the pattern's first character is copied through up to the pattern, which is replaced. */
  lemma {:induction false} ReplaceAfterPlain(a: String, pat: String, b: String, rep: String)
    requires pat != [] && pat[0] !in a
    ensures Replace(a + pat + b, pat, rep) == a + rep + Replace(b, pat, rep)
    decreases |a|
  {
    if a == [] {
      assert a + pat + b == pat + b;
      ReplaceAtStart(pat, b, rep);
    } else {
      var s := a + pat + b;
      assert s[..|pat|][0] == a[0] && a[0] in a;
      assert s[1..] == a[1..] + pat + b;
      ReplaceAfterPlain(a[1..], pat, b, rep);
      var r := Replace(b, pat, rep);
      assert a + rep + r == [a[0]] + (a[1..] + rep + r);
    }
  }

  /** Replacing a pattern that does not occur changes nothing. */
  lemma {:induction false} ReplaceAbsent(s: String, pat: String, rep: String)
    requires pat != [] && !Contains(s, pat)
    ensures Replace(s, pat, rep) == s
    decreases |s|
  {
    if |s| >= |pat| {
      assert !OccursAt(s, pat, 0);
      assert !Contains(s[1..], pat) by {
        if Contains(s[1..], pat) {
          var i :| OccursAt(s[1..], pat, i);
          assert s[1..] == s[1..|s|];
          OccursInSlice(s, 1, |s|, pat, i);
        }
      }
      ReplaceAbsent(s[1..], pat, rep);
      assert [s[0]] + s[1..] == s;
    }
  }

  // ---------------------------------------------------------------------------
  // int() of a digit string, and its decimal rendering

  function DigitValue(c: char): nat
    requires IsDigit(c)
  {
    c as int - '0' as int
  }

  /** `int(ds)` for a string of ASCII digits. */
  function DecimalValue(ds: String): nat
    requires AllDigits(ds)
  {
    if ds == [] then 0 else DecimalValue(ds[..|ds| - 1]) * 10 + DigitValue(ds[|ds| - 1])
  }

  function DigitChar(d: nat): (c: char)
    requires d < 10
    ensures IsDigit(c) && DigitValue(c) == d
  {
    ('0' as int + d) as char
  }

  /** `str(n)` for a natural number: a non-empty digit string. */
  function DecimalString(n: nat): (r: String)
    ensures r != [] && AllDigits(r)
  {
    if n < 10 then [DigitChar(n)] else DecimalString(n / 10) + [DigitChar(n % 10)]
  }

  /** `int(str(n)) == n` */
  lemma {:induction false} DecimalRoundTrip(n: nat)
    ensures DecimalValue(DecimalString(n)) == n
  {
    if n >= 10 {
      DecimalRoundTrip(n / 10);
      var r := DecimalString(n);
      assert r[..|r| - 1] == DecimalString(n / 10);
    }
  }
}
