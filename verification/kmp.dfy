/** `q_next_KMP`, `q_find_KMP` and `q_find` of common/qfunc.h: two searches for a pattern in a buffer. */
module Kmp {

  /** The pattern stands at position `q`. */
  ghost predicate MatchAt(s: seq<char>, p: seq<char>, q: int)
  {
    0 <= q && q + |p| <= |s| && s[q..q + |p|] == p
  }

  /** `r` is the least match position at or after `k`, or -1 if there is none. */
  ghost predicate IsFirst(s: seq<char>, p: seq<char>, k: nat, r: int)
  {
    && (r == -1 || (k <= r && MatchAt(s, p, r)))
    && forall q :: k <= q && (r == -1 || q < r) ==> !MatchAt(s, p, q)
  }

  /** A proper prefix of `p[..i]` of length `b` that is also a suffix of it. */
  ghost predicate Border(p: seq<char>, i: nat, b: int)
  {
    0 <= b < i <= |p| && p[..b] == p[i - b..i]
  }

  /** The table entry: the length of the longest border, -1 for the empty prefix. */
  ghost predicate IsNext(p: seq<char>, i: nat, v: int)
  {
    if i == 0 then v == -1
    else Border(p, i, v) && forall b :: Border(p, i, b) ==> b <= v
  }

  ghost predicate IsTable(p: seq<char>, next: seq<int>)
  {
    |next| == |p| + 1 && forall i :: 0 <= i <= |p| ==> IsNext(p, i, next[i])
  }

  lemma BorderOfBorder(p: seq<char>, i: nat, j: int, b: int)
    requires Border(p, i, j) && Border(p, i, b) && b < j
    ensures Border(p, j, b)
  {
    assert p[..j][j - b..j] == p[j - b..j];
    assert p[i - j..i][j - b..j] == p[i - b..i];
  }

  lemma BorderTransitive(p: seq<char>, i: nat, j: int, b: int)
    requires Border(p, i, j) && Border(p, j, b)
    ensures Border(p, i, b)
  {
    assert p[..j][j - b..j] == p[j - b..j];
    assert p[i - j..i][j - b..j] == p[i - b..i];
  }

  lemma BorderGrows(p: seq<char>, i: nat, b: int)
    requires i < |p|
    ensures Border(p, i + 1, b + 1) && b >= 0 ==> (b == i || Border(p, i, b)) && p[b] == p[i]
    ensures Border(p, i, b) && p[b] == p[i] ==> Border(p, i + 1, b + 1)
  {
    if 0 <= b < i {
      assert p[..b + 1] == p[..b] + [p[b]];
      assert p[i - b..i + 1] == p[i - b..i] + [p[i]];
    }
  }

  /** The loop invariant of `q_next_KMP`: every longer border has been ruled out. */
  ghost predicate Ruled(p: seq<char>, i: nat, j: int)
  {
    && (j == -1 || Border(p, i, j))
    && (i < |p| ==> forall b :: Border(p, i, b) && b > j ==> p[b] != p[i])
  }

  lemma Advance(p: seq<char>, i: nat, j: int)
    requires i < |p| && Ruled(p, i, j) && (j == -1 || p[i] == p[j])
    ensures IsNext(p, i + 1, j + 1)
  {
    if j >= 0 { BorderGrows(p, i, j); }
    var n := i + 1;
    forall b | Border(p, n, b) ensures b <= j + 1 {
      if b > 0 { BorderGrows(p, i, b - 1); }
    }
  }

  lemma Retreat(p: seq<char>, i: nat, j: int, v: int)
    requires i < |p| && Ruled(p, i, j) && j >= 0 && p[i] != p[j] && IsNext(p, j, v)
    ensures v < j && Ruled(p, i, v)
  {
    if v >= 0 { BorderTransitive(p, i, j, v); }
    forall b | Border(p, i, b) && b > v ensures p[b] != p[i] {
      if b < j { BorderOfBorder(p, i, j, b); }
    }
  }

  /** `q_next_KMP` */
  method NextKMP(p: seq<char>, next: array<int>)
    requires next.Length == |p| + 1
    modifies next
    ensures IsTable(p, next[..])
  {
    var i, j := 0, -1;
    next[0] := -1;
    while i < |p|
      invariant 0 <= i <= |p| && Ruled(p, i, j)
      invariant forall k :: 0 <= k <= i ==> IsNext(p, k, next[k])
      decreases |p| - i, j + 1
    {
      if j == -1 || p[i] == p[j] {
        Advance(p, i, j);
        i, j := i + 1, j + 1;
        next[i] := j;
      } else {
        Retreat(p, i, j, next[j]);
        j := next[j];
      }
    }
  }

  /** The loop invariant of `q_find_KMP`: `b` characters of the pattern stand before `i`, and no match
      starts earlier. */
  ghost predicate Searching(s: seq<char>, p: seq<char>, k: nat, b: int, i: int)
  {
    && -1 <= b <= |p| && k <= i - b && i <= |s|
    && (b >= 0 ==> s[i - b..i] == p[..b])
    && forall q :: k <= q < i - b ==> !MatchAt(s, p, q)
  }

  lemma StepForward(s: seq<char>, p: seq<char>, k: nat, b: int, i: int)
    requires Searching(s, p, k, b, i) && b < |p| && i < |s| && (b == -1 || p[b] == s[i])
    ensures Searching(s, p, k, b + 1, i + 1)
  {
    if b >= 0 {
      assert s[i - b..i + 1] == s[i - b..i] + [s[i]];
      assert p[..b + 1] == p[..b] + [p[b]];
    }
  }

  lemma MatchChar(s: seq<char>, p: seq<char>, q: int, c: nat)
    requires MatchAt(s, p, q) && c < |p|
    ensures s[q + c] == p[c]
  {
    assert s[q..q + |p|][c] == p[c];
  }

  /** Shifting the pattern by the table skips no match. */
  lemma Shift(s: seq<char>, p: seq<char>, k: nat, b: int, i: int, v: int)
    requires Searching(s, p, k, b, i) && 0 <= b < |p| && i < |s| && p[b] != s[i] && IsNext(p, b, v)
    ensures v < b && Searching(s, p, k, v, i)
  {
    var start := i - b;
    if v >= 0 {
      assert s[i - v..i] == s[start..i][b - v..b] == p[..b][b - v..b] == p[b - v..b];
    }
    forall q | start <= q < i - v ensures !MatchAt(s, p, q) {
      if MatchAt(s, p, q) {
        if q == start { MatchChar(s, p, q, b); } else if q < i { SkippedIsBorder(s, p, b, i, q); }
      }
    }
  }

  lemma SkippedIsBorder(s: seq<char>, p: seq<char>, b: int, i: int, q: int)
    requires 0 <= b <= |p| && b <= i <= |s| && s[i - b..i] == p[..b]
    requires i - b < q < i && MatchAt(s, p, q)
    ensures Border(p, b, i - q)
  {
    var n := i - q;
    assert p[..n] == s[q..q + |p|][..n] == s[q..i];
    assert p[b - n..b] == p[..b][b - n..b] == s[i - b..i][b - n..b] == s[q..i];
  }

  /** What the search has found when the pattern or the text is used up. */
  lemma SearchEnds(s: seq<char>, p: seq<char>, k: nat, b: int, i: int)
    requires Searching(s, p, k, b, i) && (b == |p| || i == |s|)
    ensures IsFirst(s, p, k, if b < |p| then -1 else i - |p|)
  {
    if b < |p| {
      forall q | k <= q ensures !MatchAt(s, p, q) {
        if q < i - b { assert !MatchAt(s, p, q); }
      }
    }
  }

  /** `q_find_KMP` with the table of the pattern: the least match at or after `k`.  An empty pattern is
      reported at `k` itself, even beyond the end. */
  method FindKMP(s: seq<char>, p: seq<char>, next: array<int>, k: nat) returns (r: int)
    requires IsTable(p, next[..])
    ensures |p| > 0 || k <= |s| ==> IsFirst(s, p, k, r)
    ensures |p| == 0 ==> r == k
  {
    var posP, posS := 0, k;
    while posP < |p| && posS < |s|
      invariant k <= |s| ==> Searching(s, p, k, posP, posS)
      invariant k > |s| || |p| == 0 ==> posP == 0 && posS == k
      decreases |s| - posS, posP + 1
    {
      if posP == -1 || p[posP] == s[posS] {
        StepForward(s, p, k, posP, posS);
        posP, posS := posP + 1, posS + 1;
      } else {
        Shift(s, p, k, posP, posS, next[posP]);
        posP := next[posP];
      }
    }
    r := if posP < |p| then -1 else posS - |p|;
    if k <= |s| { SearchEnds(s, p, k, posP, posS); }
  }

  /** `q_find`: try every position. */
  method Find(s: seq<char>, p: seq<char>) returns (r: int)
    ensures IsFirst(s, p, 0, r)
  {
    var i := 0;
    while i <= |s| - |p|
      invariant 0 <= i
      invariant forall q :: 0 <= q < i ==> !MatchAt(s, p, q)
    {
      var j := 0;
      while j < |p| && s[i + j] == p[j]
        invariant 0 <= j <= |p| && forall c :: 0 <= c < j ==> s[i + c] == p[c]
      {
        j := j + 1;
      }
      if j == |p| {
        assert s[i..i + |p|] == p;
        return i;
      }
      assert s[i..i + |p|][j] != p[j];
      i := i + 1;
    }
    r := -1;
  }

  /** Two first matches are the same position: the fast search and the naive one agree from 0 on every
      input. */
  lemma FirstIsUnique(s: seq<char>, p: seq<char>, k: nat, r: int, r': int)
    requires IsFirst(s, p, k, r) && IsFirst(s, p, k, r')
    ensures r == r'
  {
  }

  method FindsAgree(s: seq<char>, p: seq<char>) returns (fast: int, naive: int)
    ensures IsFirst(s, p, 0, fast) && fast == naive
  {
    var next := new int[|p| + 1];
    NextKMP(p, next);
    fast := FindKMP(s, p, next, 0);
    naive := Find(s, p);
    FirstIsUnique(s, p, 0, fast, naive);
  }
}
