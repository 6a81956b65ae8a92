/** What several models share: bytes as they lie in memory or in a file, and sequences with one changed entry. */
module Common {

  type Bytes = seq<bv8>

  /** What an update does to membership. */
  lemma MovedIn<T>(xs: seq<T>, i: nat, x: T, p: T)
    requires i < |xs|
    ensures p in xs[i := x] ==> p in xs || p == x
    ensures (p in xs && p != xs[i]) || p == x ==> p in xs[i := x]
  {
    if p in xs && p != xs[i] {
      var j :| 0 <= j < |xs| && xs[j] == p;
      assert xs[i := x][j] == p;
    }
    if p == x { assert xs[i := x][i] == p; }
  }
}
