/** The parts of JavaScript's string built-ins that the log parser relies on:
    `trim`, `indexOf` (as used by a leftmost regular-expression match),
    `lastIndexOf`, `substring`, and, for the copy text, `Array.prototype.join`
    and `split` with a one-character separator. A string is a sequence of
    characters. */
module JsStrings {

  /** The WhiteSpace and LineTerminator code points of ECMAScript (sections
      12.2 and 12.3 of ECMA-262): the characters `trim` removes. The space
      separators (category Zs) are U+0020, U+00A0, U+1680, U+2000 to U+200A,
      U+202F, U+205F and U+3000. */
  predicate IsWhiteSpace(c: char) {
    || c == '\t' || c == '\n' || c == '\U{000B}' || c == '\U{000C}' || c == '\r'
    || c == ' ' || c == '\U{00A0}' || c == '\U{1680}'
    || ('\U{2000}' <= c <= '\U{200A}')
    || c == '\U{2028}' || c == '\U{2029}' || c == '\U{202F}' || c == '\U{205F}'
    || c == '\U{3000}' || c == '\U{FEFF}'
  }

  predicate AllWhiteSpace(s: string) {
    forall i :: 0 <= i < |s| ==> IsWhiteSpace(s[i])
  }

  /** `r` neither starts nor ends with white space. */
  predicate NoOuterWhiteSpace(r: string) {
    r == [] || (!IsWhiteSpace(r[0]) && !IsWhiteSpace(r[|r| - 1]))
  }

  /** `r` sits at index `i` of `s` with only white space around it. */
  ghost predicate TrimmedAt(s: string, r: string, i: int) {
    && 0 <= i && i + |r| <= |s|
    && s[i..i + |r|] == r
    && AllWhiteSpace(s[..i])
    && AllWhiteSpace(s[i + |r|..])
  }

  /** `r` is `s` with its leading and trailing white space taken off. */
  ghost predicate IsTrimOf(s: string, r: string) {
    NoOuterWhiteSpace(r) && exists i :: TrimmedAt(s, r, i)
  }

  /** White space taken off the start of `s`. */
  function TrimStart(s: string): string
    decreases |s|
  {
    if s != [] && IsWhiteSpace(s[0]) then TrimStart(s[1..]) else s
  }

  /** White space taken off the end of `s`. */
  function TrimEnd(s: string): string
    decreases |s|
  {
    if s != [] && IsWhiteSpace(s[|s| - 1]) then TrimEnd(s[..|s| - 1]) else s
  }

  /** String.prototype.trim. */
  function Trim(s: string): string {
    TrimEnd(TrimStart(s))
  }

  /** `TrimStart` drops the longest all-white-space prefix of `s`. */
  lemma {:induction false} TrimStartSpec(s: string)
    ensures var n := |s| - |TrimStart(s)|;
      && 0 <= n && TrimStart(s) == s[n..]
      && (forall k :: 0 <= k < n ==> IsWhiteSpace(s[k]))
      && (n < |s| ==> !IsWhiteSpace(s[n]))
    decreases |s|
  {
    if s != [] && IsWhiteSpace(s[0]) {
      TrimStartSpec(s[1..]);
      var n := |s| - |TrimStart(s)|;
      assert TrimStart(s) == TrimStart(s[1..]);
      assert s[1..][n - 1..] == s[n..];
      forall k | 1 <= k < n ensures IsWhiteSpace(s[k]) {
        assert s[1..][k - 1] == s[k];
      }
      if n < |s| {
        assert s[1..][n - 1] == s[n];
      }
    }
  }

  /** `TrimEnd` drops the longest all-white-space suffix of `s`. */
  lemma {:induction false} TrimEndSpec(s: string)
    ensures var m := |TrimEnd(s)|;
      && m <= |s| && TrimEnd(s) == s[..m]
      && (forall k :: m <= k < |s| ==> IsWhiteSpace(s[k]))
      && (0 < m ==> !IsWhiteSpace(s[m - 1]))
    decreases |s|
  {
    if s != [] && IsWhiteSpace(s[|s| - 1]) {
      var p := s[..|s| - 1];
      TrimEndSpec(p);
      var m := |TrimEnd(s)|;
      assert TrimEnd(s) == TrimEnd(p);
      assert p[..m] == s[..m];
      forall k | m <= k < |s| - 1 ensures IsWhiteSpace(s[k]) {
        assert p[k] == s[k];
      }
      if 0 < m {
        assert p[m - 1] == s[m - 1];
      }
    }
  }

  /** `Trim` takes off exactly the leading and trailing white space. */
  lemma TrimIsTrimOf(s: string)
    ensures IsTrimOf(s, Trim(s))
  {
    TrimStartSpec(s);
    TrimEndSpec(TrimStart(s));
    var t := TrimStart(s);
    var r := Trim(s);
    var n := |s| - |t|;
    var m := |r|;
    assert r == t[..m];
    assert s[n..n + m] == r;
    forall k | 0 <= k < n ensures IsWhiteSpace(s[..n][k]) {
      assert s[..n][k] == s[k];
    }
    var tail := s[n + m..];
    forall k | 0 <= k < |tail| ensures IsWhiteSpace(tail[k]) {
      assert tail[k] == t[m + k];
    }
    if r != [] {
      assert r[0] == s[n] && r[m - 1] == t[m - 1];
    }
    assert TrimmedAt(s, r, n);
  }

  /** `pat` occurs in `s` starting at index `i`. */
  predicate OccursAt(s: string, pat: string, i: int) {
    0 <= i && i + |pat| <= |s| && s[i..i + |pat|] == pat
  }

  ghost predicate Contains(s: string, pat: string) {
    exists i :: OccursAt(s, pat, i)
  }

  function IndexOfFrom(s: string, pat: string, k: nat): (r: int)
    ensures r == -1 || (k <= r && OccursAt(s, pat, r))
    ensures forall i :: k <= i && (r == -1 || i < r) ==> !OccursAt(s, pat, i)
    decreases |s| - k
  {
    if k + |pat| > |s| then -1
    else if OccursAt(s, pat, k) then k
    else IndexOfFrom(s, pat, k + 1)
  }

  /** String.prototype.indexOf: the first index at which `pat` occurs, or -1. */
  function IndexOf(s: string, pat: string): (r: int)
    ensures r == -1 || OccursAt(s, pat, r)
    ensures forall i :: 0 <= i && (r == -1 || i < r) ==> !OccursAt(s, pat, i)
  {
    IndexOfFrom(s, pat, 0)
  }

  function LastIndexFrom(s: string, pat: string, k: int): (r: int)
    ensures r == -1 || (0 <= r <= k && OccursAt(s, pat, r))
    ensures forall i :: r < i <= k ==> !OccursAt(s, pat, i)
    decreases k + 1
  {
    if k < 0 then -1
    else if OccursAt(s, pat, k) then k
    else LastIndexFrom(s, pat, k - 1)
  }

  /** String.prototype.lastIndexOf: the last index at which `pat` occurs, or -1. */
  function LastIndexOf(s: string, pat: string): (r: int)
    ensures r == -1 || OccursAt(s, pat, r)
    ensures forall i :: r < i ==> !OccursAt(s, pat, i)
  {
    LastIndexFrom(s, pat, |s| - |pat|)
  }

  function Clamp(x: int, n: nat): (r: nat)
    ensures r <= n
  {
    if x < 0 then 0 else if x > n then n else x
  }

  /** String.prototype.substring: both ends clamped into the string, and
      swapped when the start lies after the end. */
  function Substring(s: string, start: int, end: int): (r: string)
    ensures 0 <= start <= end <= |s| ==> r == s[start..end]
    ensures end <= 0 && start <= 0 ==> r == []
  {
    var a := Clamp(start, |s|);
    var b := Clamp(end, |s|);
    if a <= b then s[a..b] else s[b..a]
  }

  /** Array.prototype.join over strings. */
  function Join(parts: seq<string>, sep: string): string {
    if |parts| == 0 then ""
    else if |parts| == 1 then parts[0]
    else parts[0] + sep + Join(parts[1..], sep)
  }

  /** String.prototype.split with a one-character separator: the maximal
      separator-free pieces, in order; the empty string splits into one
      empty piece. */
  function Split(s: string, sep: char): (parts: seq<string>)
    ensures |parts| >= 1
    ensures forall i :: 0 <= i < |parts| ==> sep !in parts[i]
    decreases |s|
  {
    if s == [] then [""]
    else
      var rest := Split(s[1..], sep);
      if s[0] == sep then [""] + rest
      else [[s[0]] + rest[0]] + rest[1..]
  }

  lemma TrimmedAtChars(s: string, r: string, i: int)
    requires TrimmedAt(s, r, i)
    ensures forall k :: 0 <= k < i ==> IsWhiteSpace(s[k])
    ensures forall k :: i + |r| <= k < |s| ==> IsWhiteSpace(s[k])
    ensures forall k :: i <= k < i + |r| ==> s[k] == r[k - i]
  {
    forall k | 0 <= k < i ensures IsWhiteSpace(s[k]) {
      assert s[..i][k] == s[k];
    }
    forall k | i + |r| <= k < |s| ensures IsWhiteSpace(s[k]) {
      assert s[i + |r|..][k - i - |r|] == s[k];
    }
  }

  /** Two trims of the same string placed at `i` and `j` coincide. */
  lemma TrimmedAtUnique(s: string, r: string, i: int, t: string, j: int)
    requires TrimmedAt(s, r, i) && NoOuterWhiteSpace(r)
    requires TrimmedAt(s, t, j) && NoOuterWhiteSpace(t)
    ensures r == t
  {
    TrimmedAtChars(s, r, i);
    TrimmedAtChars(s, t, j);
    if r != [] && t != [] {
      assert i == j;
      assert i + |r| == j + |t|;
    }
  }

  /** `Trim` is the only function that satisfies `IsTrimOf`: trimming is
      fully determined by the characterisation. */
  lemma TrimUnique(s: string, r: string)
    requires IsTrimOf(s, r)
    ensures r == Trim(s)
  {
    var i :| TrimmedAt(s, r, i);
    var t := Trim(s);
    TrimIsTrimOf(s);
    var j :| TrimmedAt(s, t, j);
    TrimmedAtUnique(s, r, i, t, j);
  }

  /** A string trims to nothing exactly when it is all white space. */
  lemma TrimEmptyIff(s: string)
    ensures Trim(s) == [] <==> AllWhiteSpace(s)
  {
    TrimStartSpec(s);
    var t := TrimStart(s);
    var n := |s| - |t|;
    if AllWhiteSpace(s) {
      assert n == |s|;
      assert t == [];
    }
    if Trim(s) == [] {
      TrimEndSpec(t);
      assert n == |s|;
    }
  }

  /** Trimming a trimmed string changes nothing. */
  lemma TrimIdempotent(s: string)
    ensures Trim(Trim(s)) == Trim(s)
  {
    var t := Trim(s);
    TrimIsTrimOf(s);
    assert t[..0] == [] && t[0 + |t|..] == [] && t[0..0 + |t|] == t;
    assert TrimmedAt(t, t, 0);
    TrimUnique(t, t);
  }

  /** An occurrence inside a suffix is an occurrence in the whole string. */
  lemma OccursInSuffix(s: string, pat: string, a: nat, j: int)
    requires a <= |s| && OccursAt(s[a..], pat, j)
    ensures OccursAt(s, pat, a + j)
  {
    assert s[a..][j..j + |pat|] == s[a + j..a + j + |pat|];
  }

  /** An occurrence inside a slice is an occurrence in the whole string. */
  lemma OccursInSlice(s: string, pat: string, a: nat, b: nat, j: int)
    requires a <= b <= |s| && OccursAt(s[a..b], pat, j)
    ensures OccursAt(s, pat, a + j)
  {
    var u, v := s[a..b][j..j + |pat|], s[a + j..a + j + |pat|];
    assert forall k :: 0 <= k < |pat| ==> u[k] == v[k];
  }

  /** A slice holds no pattern the whole string lacks. */
  lemma SliceKeepsAbsence(s: string, pat: string, a: nat, b: nat)
    requires a <= b <= |s| && !Contains(s, pat)
    ensures !Contains(s[a..b], pat)
  {
    forall j | OccursAt(s[a..b], pat, j) ensures false {
      OccursInSlice(s, pat, a, b, j);
    }
  }

  lemma {:induction false} SplitAfterSeparatorFree(a: string, sep: char, b: string)
    requires sep !in a
    ensures Split(a + [sep] + b, sep) == [a] + Split(b, sep)
    decreases |a|
  {
    if a == [] {
      assert a + [sep] + b == [sep] + b;
      assert ([sep] + b)[1..] == b;
    } else {
      assert (a + [sep] + b)[1..] == a[1..] + [sep] + b;
      SplitAfterSeparatorFree(a[1..], sep, b);
      assert [a[0]] + a[1..] == a;
    }
  }

  lemma {:induction false} SplitSeparatorFree(a: string, sep: char)
    requires sep !in a
    ensures Split(a, sep) == [a]
    decreases |a|
  {
    if a != [] {
      SplitSeparatorFree(a[1..], sep);
      assert [a[0]] + a[1..] == a;
    }
  }

  /** Splitting a join of separator-free pieces gives the pieces back. */
  lemma {:induction false} SplitJoin(parts: seq<string>, sep: char)
    requires |parts| >= 1
    requires forall i :: 0 <= i < |parts| ==> sep !in parts[i]
    ensures Split(Join(parts, [sep]), sep) == parts
    decreases |parts|
  {
    if |parts| == 1 {
      SplitSeparatorFree(parts[0], sep);
    } else {
      SplitJoin(parts[1..], sep);
      SplitAfterSeparatorFree(parts[0], sep, Join(parts[1..], [sep]));
      assert [parts[0]] + parts[1..] == parts;
    }
  }

  /** Joining the pieces of a split gives the string back. */
  lemma {:induction false} JoinSplit(s: string, sep: char)
    ensures Join(Split(s, sep), [sep]) == s
    decreases |s|
  {
    if s != [] {
      var rest := Split(s[1..], sep);
      JoinSplit(s[1..], sep);
      if s[0] == sep {
        assert ([""] + rest)[1..] == rest;
      } else {
        var parts := [[s[0]] + rest[0]] + rest[1..];
        if |rest| == 1 {
          assert parts == [[s[0]] + rest[0]];
        } else {
          assert parts[1..] == rest[1..];
          assert Join(rest, [sep]) == rest[0] + [sep] + Join(rest[1..], [sep]);
        }
        assert [s[0]] + s[1..] == s;
      }
    }
  }
}
