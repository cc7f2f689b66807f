/** Character and string primitives shared by every parser of the model: Python's `str.strip()`,
    `str.lower()`, `str.split()` and the substring test `a in b`.

    `IsSpace` is exactly the set of characters for which Python's `str.isspace()` holds, which is
    what `str.strip()`, `str.split()` and the regex class `\s` use. Case is ASCII-only: `LowerChar`
    maps only `A`-`Z`. */
module Text {
  import opened Wrappers

  /** Tab, line feed, vertical tab, form feed, carriage return, the four separators U+001C-U+001F,
      space, U+0085, no-break space, and the Unicode space and line/paragraph separators. */
  predicate IsSpace(c: char) {
    || ('\t' <= c <= '\r')
    || ('\U{001C}' <= c <= ' ')
    || c == '\U{0085}' || c == '\U{00A0}' || c == '\U{1680}'
    || ('\U{2000}' <= c <= '\U{200A}')
    || c == '\U{2028}' || c == '\U{2029}' || c == '\U{202F}' || c == '\U{205F}' || c == '\U{3000}'
  }

  predicate AllSpace(s: string) {
    forall i | 0 <= i < |s| :: IsSpace(s[i])
  }

  /** Neither starts nor ends with whitespace: what `str.strip()` returns. */
  predicate IsStripped(s: string) {
    s == [] || (!IsSpace(s[0]) && !IsSpace(s[|s| - 1]))
  }

  /** The regex `.` matches every character except a line feed. */
  predicate NoNewline(s: string) {
    forall i | 0 <= i < |s| :: s[i] != '\n'
  }

  /** Number of whitespace characters `str.lstrip()` removes. */
  function LeadingSpaces(s: string): (n: nat)
    ensures n <= |s|
    ensures n == |s| || !IsSpace(s[n])
  {
    if |s| > 0 && IsSpace(s[0]) then 1 + LeadingSpaces(s[1..]) else 0
  }

  /** Number of whitespace characters `str.rstrip()` removes. */
  function TrailingSpaces(s: string): (n: nat)
    ensures n <= |s|
    ensures n == |s| || !IsSpace(s[|s| - 1 - n])
  {
    if |s| > 0 && IsSpace(s[|s| - 1]) then 1 + TrailingSpaces(s[..|s| - 1]) else 0
  }

  lemma {:induction false} LeadingSpacesAreSpaces(s: string)
    ensures AllSpace(s[..LeadingSpaces(s)])
  {
    if |s| > 0 && IsSpace(s[0]) {
      LeadingSpacesAreSpaces(s[1..]);
      assert s[..LeadingSpaces(s)] == [s[0]] + s[1..][..LeadingSpaces(s[1..])];
    }
  }

  lemma TrailingSpacesAreSpaces(s: string)
    ensures AllSpace(s[|s| - TrailingSpaces(s)..])
  {
    TrailingSpacesPointwise(s);
  }

  lemma {:induction false} TrailingSpacesPointwise(s: string)
    ensures forall i | |s| - TrailingSpaces(s) <= i < |s| :: IsSpace(s[i])
  {
    if |s| > 0 && IsSpace(s[|s| - 1]) {
      var t := s[..|s| - 1];
      TrailingSpacesPointwise(t);
      forall i | |s| - TrailingSpaces(s) <= i < |s| - 1
        ensures IsSpace(s[i])
      {
        assert s[i] == t[i];
      }
    }
  }

  /** `str.rstrip()` with no argument. */
  function TrimRight(s: string): (r: string)
    ensures |r| <= |s| && r == s[..|r|]
    ensures r == [] || !IsSpace(r[|r| - 1])
  {
    s[..|s| - TrailingSpaces(s)]
  }

  /** `str.strip()` with no argument. */
  function Strip(s: string): (r: string)
    ensures IsStripped(r)
    ensures |r| <= |s|
  {
    var t := s[LeadingSpaces(s)..];
    var r := t[..|t| - TrailingSpaces(t)];
    assert r != [] ==> r[0] == s[LeadingSpaces(s)];
    r
  }

  /** What `str.strip()` keeps is a contiguous piece of its input, with only whitespace around it. */
  lemma {:induction false} StripSlice(s: string)
    ensures var a := LeadingSpaces(s); var b := |s| - TrailingSpaces(s[a..]);
      && a <= b <= |s| && Strip(s) == s[a..b]
      && AllSpace(s[..a]) && AllSpace(s[b..])
  {
    var a := LeadingSpaces(s);
    var t := s[a..];
    var b := |s| - TrailingSpaces(t);
    assert Strip(s) == s[a..b] by {
      assert t[..b - a] == s[a..b];
    }
    assert AllSpace(s[b..]) by {
      TrailingSpacesAreSpaces(t);
      assert t[b - a..] == s[b..];
    }
    LeadingSpacesAreSpaces(s);
  }

  lemma StripEmpty(s: string)
    ensures Strip(s) == [] <==> AllSpace(s)
  {
    StripSlice(s);
    var a := LeadingSpaces(s);
    var b := |s| - TrailingSpaces(s[a..]);
    if Strip(s) == [] {
      assert a == b;
      assert s[..a] == s;
    } else {
      assert !IsSpace(s[a]);
    }
  }

  lemma StripOfStripped(s: string)
    requires IsStripped(s)
    ensures Strip(s) == s
  {
    if s != [] {
      assert LeadingSpaces(s) == 0;
      assert TrailingSpaces(s) == 0;
    }
  }

  lemma StripIdempotent(s: string)
    ensures Strip(Strip(s)) == Strip(s)
  {
    StripOfStripped(Strip(s));
  }

  lemma StripNoNewline(s: string)
    requires NoNewline(s)
    ensures NoNewline(Strip(s))
  {
    StripSlice(s);
  }

  function LowerChar(c: char): char {
    if 'A' <= c <= 'Z' then (c as int + 32) as char else c
  }

  /** `str.lower()` on ASCII letters. */
  function Lower(s: string): (r: string)
    ensures |r| == |s|
    ensures forall i | 0 <= i < |s| :: r[i] == LowerChar(s[i])
  {
    seq(|s|, i requires 0 <= i < |s| => LowerChar(s[i]))
  }

  lemma LowerIdempotent(s: string)
    ensures Lower(Lower(s)) == Lower(s)
  {
  }

  /** `sub` occurs in `s` starting at index `k`. */
  predicate OccursAt(s: string, sub: string, k: nat) {
    k + |sub| <= |s| && s[k..k + |sub|] == sub
  }

  /** `str.find(sub, from)`: the first occurrence of `sub` at or after `from`. */
  function IndexOfFrom(s: string, sub: string, from: nat): (r: Option<nat>)
    ensures r.Some? ==> from <= r.value && OccursAt(s, sub, r.value)
    ensures r.Some? ==> forall k | from <= k < r.value :: !OccursAt(s, sub, k)
    ensures r.None? ==> forall k | from <= k :: !OccursAt(s, sub, k)
    decreases |s| - from
  {
    if from + |sub| > |s| then None
    else if OccursAt(s, sub, from) then Some(from)
    else IndexOfFrom(s, sub, from + 1)
  }

  function IndexOf(s: string, sub: string): Option<nat> {
    IndexOfFrom(s, sub, 0)
  }

  /** Python's substring test `sub in s`. */
  predicate Contains(s: string, sub: string) {
    IndexOf(s, sub).Some?
  }

  lemma ContainsIff(s: string, sub: string)
    ensures Contains(s, sub) <==> exists k: nat :: OccursAt(s, sub, k)
  {
    if !Contains(s, sub) {
      assert forall k: nat :: !OccursAt(s, sub, k);
    }
  }

  lemma ContainsAt(s: string, sub: string, k: nat)
    requires OccursAt(s, sub, k)
    ensures Contains(s, sub)
  {
    ContainsIff(s, sub);
  }

  /** What occurs in a string still occurs after something is appended to it. */
  lemma ContainsExtend(p: string, s: string, x: string)
    requires Contains(p, x)
    ensures Contains(p + s, x)
  {
    var k := IndexOf(p, x).value;
    assert (p + s)[k..k + |x|] == p[k..k + |x|];
    ContainsAt(p + s, x, k);
  }

  /** Both halves of a concatenation are in it, and so is whatever is in its second half. */
  lemma ContainsInConcat(p: string, s: string, x: string)
    ensures Contains(p + s, p) && Contains(p + s, s)
    ensures Contains(s, x) ==> Contains(p + s, x)
  {
    assert (p + s)[..|p|] == p;
    ContainsAt(p + s, p, 0);
    assert (p + s)[|p|..] == s;
    ContainsAt(p + s, s, |p|);
    if Contains(s, x) {
      var k := IndexOf(s, x).value;
      assert (p + s)[|p| + k..|p| + k + |x|] == s[k..k + |x|];
      ContainsAt(p + s, x, |p| + k);
    }
  }

  /** The empty string is in every string, as in Python. */
  lemma ContainsEmpty(s: string)
    ensures Contains(s, "")
  {
    ContainsAt(s, "", 0);
  }

  /** A string longer than `s` is never in `s`. */
  lemma NotContainsLonger(s: string, sub: string)
    requires |sub| > |s|
    ensures !Contains(s, sub)
  {
  }

  /** Lowercasing both sides preserves an occurrence. */
  lemma OccursAtLower(s: string, sub: string, k: nat)
    requires OccursAt(s, sub, k)
    ensures OccursAt(Lower(s), Lower(sub), k)
  {
    assert Lower(s)[k..k + |sub|] == Lower(sub) by {
      forall i | 0 <= i < |sub|
        ensures Lower(s)[k..k + |sub|][i] == Lower(sub)[i]
      {
        assert s[k..k + |sub|][i] == sub[i];
      }
    }
  }

  /** A string holding a character that `s` lacks is not in `s`. */
  lemma NotContainsMissingChar(s: string, sub: string, i: nat)
    requires i < |sub| && sub[i] !in s
    ensures !Contains(s, sub)
  {
  }

  /** A substring of a substring is a substring. */
  lemma ContainsTransitive(s: string, mid: string, sub: string)
    requires Contains(s, mid) && Contains(mid, sub)
    ensures Contains(s, sub)
  {
    var i := IndexOf(s, mid).value;
    var j := IndexOf(mid, sub).value;
    assert s[i..i + |mid|] == mid;
    assert s[i + j..i + j + |sub|] == mid[j..j + |sub|] by {
      forall t | j <= t < j + |sub|
        ensures s[i + t] == mid[t]
      {
        assert s[i..i + |mid|][t] == mid[t];
      }
    }
    ContainsAt(s, sub, i + j);
  }

  /** Length of the run of non-whitespace characters at the start of `s`. */
  function WordLength(s: string): (n: nat)
    ensures n <= |s|
    ensures forall i | 0 <= i < n :: !IsSpace(s[i])
    ensures n == |s| || IsSpace(s[n])
  {
    if |s| == 0 || IsSpace(s[0]) then 0 else 1 + WordLength(s[1..])
  }

  /** A run of exactly `n` non-whitespace characters ending at the input's end or at whitespace. */
  lemma {:induction false} WordLengthExact(s: string, n: nat)
    requires n <= |s| && (n == |s| || IsSpace(s[n]))
    requires forall i | 0 <= i < n :: !IsSpace(s[i])
    ensures WordLength(s) == n
  {
    if n > 0 {
      WordLengthExact(s[1..], n - 1);
    }
  }

  /** A non-empty run of non-whitespace characters. */
  predicate IsWord(w: string) {
    w != [] && forall i | 0 <= i < |w| :: !IsSpace(w[i])
  }

  /** `str.split()` with no argument: the maximal runs of non-whitespace characters, in order. */
  function Words(s: string): (r: seq<string>)
    ensures forall w | w in r :: IsWord(w)
    ensures r == [] <==> AllSpace(s)
    decreases |s|
  {
    if |s| == 0 then []
    else if IsSpace(s[0]) then
      var r := Words(s[1..]);
      assert AllSpace(s) <==> AllSpace(s[1..]);
      r
    else
      var n := WordLength(s);
      assert IsWord(s[..n]);
      [s[..n]] + Words(s[n..])
  }

  /** `str.split()` on a string that starts with a word of length `n`. */
  lemma WordsFirst(s: string, n: nat)
    requires 0 < n <= |s| && (n == |s| || IsSpace(s[n]))
    requires forall i | 0 <= i < n :: !IsSpace(s[i])
    ensures Words(s) == [s[..n]] + Words(s[n..])
  {
    WordLengthExact(s, n);
  }

  /** Two words joined by one space split back into those two words. */
  lemma TwoWords(w1: string, w2: string)
    requires IsWord(w1) && IsWord(w2)
    ensures Words(w1 + " " + w2) == [w1, w2]
  {
    var s := w1 + " " + w2;
    WordsFirst(s, |w1|);
    assert s[..|w1|] == w1 && s[|w1|..] == " " + w2;
    WordsSkipSpace(" " + w2);
    assert (" " + w2)[1..] == w2;
    OneWord(w2);
  }

  /** A single word splits into itself. */
  lemma OneWord(w: string)
    requires IsWord(w)
    ensures Words(w) == [w]
  {
    WordsFirst(w, |w|);
    assert w[..|w|] == w && w[|w|..] == [];
  }

  /** `str.split()` keeps order: cutting the input in front of a whitespace character splits its
      word list at the same place. */
  lemma {:induction false} WordsSplitAtSpace(a: string, b: string)
    requires b != [] && IsSpace(b[0])
    ensures Words(a + b) == Words(a) + Words(b)
    decreases |a|
  {
    if a == [] {
      assert a + b == b;
    } else if IsSpace(a[0]) {
      assert (a + b)[1..] == a[1..] + b;
      WordsSplitAtSpace(a[1..], b);
    } else {
      var m := WordLength(a);
      assert forall i | 0 <= i < m :: !IsSpace((a + b)[i]);
      WordLengthExact(a + b, m);
      assert (a + b)[..m] == a[..m] && (a + b)[m..] == a[m..] + b;
      WordsSplitAtSpace(a[m..], b);
    }
  }

  /** Every maximal run of non-whitespace characters is one of the words `str.split()` returns. */
  lemma {:induction false} MaximalRunInWords(s: string, i: nat, j: nat)
    requires i < j <= |s|
    requires forall k | i <= k < j :: !IsSpace(s[k])
    requires i == 0 || IsSpace(s[i - 1])
    requires j == |s| || IsSpace(s[j])
    ensures s[i..j] in Words(s)
  {
    FirstRunInWords(s[i..], j - i);
    assert s[i..][..j - i] == s[i..j];
    assert s[i..j] in Words(s[i..]);
    if i > 0 {
      WordsAfterSpace(s, i);
      InAppendRight(Words(s[..i - 1]), Words(s[i..]), s[i..j]);
    } else {
      assert s[i..] == s;
    }
  }

  lemma InAppendRight(a: seq<string>, b: seq<string>, w: string)
    requires w in b
    ensures w in a + b
  {
    var k :| 0 <= k < |b| && b[k] == w;
    assert (a + b)[|a| + k] == w;
  }

  /** A run of non-whitespace characters at the start, ended by whitespace or the end, is a word. */
  lemma FirstRunInWords(t: string, n: nat)
    requires 0 < n <= |t| && (n == |t| || IsSpace(t[n]))
    requires forall k | 0 <= k < n :: !IsSpace(t[k])
    ensures t[..n] in Words(t)
  {
    WordsFirst(t, n);
  }

  /** The words after a whitespace character are the last words of the whole. */
  lemma WordsAfterSpace(s: string, i: nat)
    requires 0 < i <= |s| && IsSpace(s[i - 1])
    ensures Words(s) == Words(s[..i - 1]) + Words(s[i..])
  {
    var u := s[i - 1..];
    assert s == s[..i - 1] + u;
    WordsSplitAtSpace(s[..i - 1], u);
    assert u[1..] == s[i..];
    assert Words(u) == Words(s[i..]);
  }

  /** A suffix of `s` occurs in `s` wherever a string occurs in that suffix. */
  lemma OccursInSuffix(s: string, d: nat, sub: string, k: nat)
    requires d <= |s|
    requires OccursAt(s[d..], sub, k)
    ensures OccursAt(s, sub, d + k)
  {
    assert s[d + k..d + k + |sub|] == s[d..][k..k + |sub|];
  }

  /** Every word `str.split()` returns is a substring of its input. */
  lemma WordsOccur(s: string)
    ensures forall w | w in Words(s) :: Contains(s, w)
  {
    forall w | w in Words(s)
      ensures Contains(s, w)
    {
      var k := WordPosition(s, w);
      ContainsAt(s, w, k);
    }
  }

  /** `w` occurs in `s` at `k` with whitespace or an end of `s` on each side. */
  predicate BoundedAt(s: string, w: string, k: nat) {
    && OccursAt(s, w, k)
    && (k == 0 || IsSpace(s[k - 1]))
    && (k + |w| == |s| || IsSpace(s[k + |w|]))
  }

  /** Where a word of `s` sits in `s`: a run with whitespace or an end of `s` on each side. */
  lemma {:induction false} WordPosition(s: string, w: string) returns (k: nat)
    requires w in Words(s)
    ensures BoundedAt(s, w, k)
    decreases |s|, 1
  {
    if IsSpace(s[0]) {
      SkipSpaceKeepsWord(s, w);
      var j := WordPosition(s[1..], w);
      BoundedInSuffix(s, 1, w, j);
      k := 1 + j;
    } else {
      k := WordPositionPastFirst(s, w);
    }
  }

  lemma SkipSpaceKeepsWord(s: string, w: string)
    requires |s| > 0 && IsSpace(s[0]) && w in Words(s)
    ensures w in Words(s[1..])
  {
    WordsSkipSpace(s);
  }

  lemma WordsSkipSpace(s: string)
    requires |s| > 0 && IsSpace(s[0])
    ensures Words(s) == Words(s[1..])
  {
  }

  /** `WordPosition` when `s` starts with a word. */
  lemma {:induction false} WordPositionPastFirst(s: string, w: string) returns (k: nat)
    requires w in Words(s) && |s| > 0 && !IsSpace(s[0])
    ensures BoundedAt(s, w, k)
    decreases |s|, 0
  {
    var n := WordLength(s);
    var u := s[n..];
    WordsFirst(s, n);
    if w == s[..n] {
      k := 0;
    } else {
      var j := WordPosition(u, w);
      NotAtSpace(u, w, j);
      BoundedInSuffix(s, n, w, j);
      k := n + j;
    }
  }

  /** A word does not occur where whitespace starts. */
  lemma NotAtSpace(u: string, w: string, j: nat)
    requires IsWord(w) && OccursAt(u, w, j) && IsSpace(u[0])
    ensures j > 0
  {
    assert u[j] == w[0];
  }

  /** An occurrence in a suffix, bounded by whitespace or the ends, is one in the whole string. */
  lemma BoundedInSuffix(s: string, d: nat, w: string, j: nat)
    requires d <= |s| && BoundedAt(s[d..], w, j)
    requires j == 0 ==> d == 0 || IsSpace(s[d - 1])
    ensures BoundedAt(s, w, d + j)
  {
    OccursInSuffix(s, d, w, j);
    assert j > 0 ==> s[d..][j - 1] == s[d + j - 1];
    assert d + j + |w| < |s| ==> s[d..][j + |w|] == s[d + j + |w|];
  }

  /** The words of `s` are exactly its maximal runs of non-whitespace characters. */
  lemma {:induction false} WordsAreMaximalRuns(s: string, w: string)
    ensures w in Words(s) <==> exists i: nat, j: nat | i < j <= |s| && s[i..j] == w ::
      && (forall k | i <= k < j :: !IsSpace(s[k]))
      && (i == 0 || IsSpace(s[i - 1])) && (j == |s| || IsSpace(s[j]))
  {
    if w in Words(s) {
      var k := WordPosition(s, w);
      assert IsWord(w);
      assert forall t | k <= t < k + |w| :: s[t] == w[t - k];
      assert s[k..k + |w|] == w;
    }
    if exists i: nat, j: nat | i < j <= |s| && s[i..j] == w ::
      && (forall k | i <= k < j :: !IsSpace(s[k]))
      && (i == 0 || IsSpace(s[i - 1])) && (j == |s| || IsSpace(s[j]))
    {
      var i: nat, j: nat :| i < j <= |s| && s[i..j] == w
        && (forall k | i <= k < j :: !IsSpace(s[k]))
        && (i == 0 || IsSpace(s[i - 1])) && (j == |s| || IsSpace(s[j]));
      MaximalRunInWords(s, i, j);
    }
  }

  /** The least index in `[from, n)` satisfying `p`: the shape of every lazy, left-to-right scan. */
  function FirstIndex(n: nat, p: nat -> bool, from: nat): (r: Option<nat>)
    ensures r.Some? ==> from <= r.value < n && p(r.value)
    ensures r.Some? ==> forall k | from <= k < r.value :: !p(k)
    ensures r.None? ==> forall k | from <= k < n :: !p(k)
    decreases n - from
  {
    if from >= n then None
    else if p(from) then Some(from)
    else FirstIndex(n, p, from + 1)
  }

  /** `FirstIndex` finds exactly the least satisfying index. */
  lemma FirstIndexIsLeast(n: nat, p: nat -> bool, j: nat)
    requires j < n && p(j)
    requires forall k | 0 <= k < j :: !p(k)
    ensures FirstIndex(n, p, 0) == Some(j)
  {
  }
}
