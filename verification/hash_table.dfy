/** The chained hash table of common/qhashsearch.h over the recycling allocator, for fixed-length data. */
module HashSearch {
  import opened Arithmetic
  import opened Common
  import opened RecyclingAllocator

  datatype Option = None | Some(value: Bytes)

  /** The `%` of C++ truncates toward zero; the code then drops the sign. */
  function HashValue(key: int, n: int): (b: int)
    requires 0 < n
    ensures 0 <= b < n
  {
    var r := if key >= 0 then key % n else -((-key) % n);
    if r < 0 then -r else r
  }

  /** The bucket is the remainder of the absolute value of the key. */
  lemma BucketIsRemainder(key: int, n: int, q: int)
    requires 0 < n
    ensures HashValue(key, n) == HashValue(-key, n)
    ensures key >= 0 && 0 <= key - n * q < n ==> HashValue(key, n) == key - n * q
  {
    if key >= 0 && 0 <= key - n * q < n { Quotient(key, n, q, key - n * q); }
  }

  // ---------------------------------------------------------------- the layout of the chunks

  /** What the buckets and the chunks hold, and the ghost chains behind them. */
  datatype Layout = Layout(heads: seq<Ptr>, next: map<Ptr, Ptr>, keys: map<Ptr, int>, chains: seq<seq<Ptr>>)
  {
    predicate Buckets()
    {
      && |heads| == |chains| > 0
      && forall b :: 0 <= b < |chains| ==> Chained(next, heads[b], chains[b]) && Distinct(chains[b])
    }

    /** A chunk is on the chain of its key's bucket and on no other. */
    predicate Housed(given: set<Ptr>)
      requires |chains| > 0
    {
      && (forall p :: p in given ==> p in keys && p in chains[HashValue(keys[p], |chains|)])
      && (forall b :: 0 <= b < |chains| ==> Homed(keys, given, |chains|, b, chains[b]))
    }
  }

  predicate Homed(keys: map<Ptr, int>, given: set<Ptr>, n: int, b: int, ps: seq<Ptr>)
    requires 0 < n
  {
    forall p :: p in ps ==> p in given && p in keys && HashValue(keys[p], n) == b
  }

  /** Where each key lives: a bijection between the keys and the given chunks. */
  predicate Located(keys: map<Ptr, int>, given: set<Ptr>, at: map<int, Ptr>)
  {
    && (forall p :: p in given ==> p in keys && keys[p] in at && at[keys[p]] == p)
    && (forall k :: k in at ==> at[k] in given && keys[at[k]] == k)
  }

  // ---------------------------------------------------------------- chains

  /** The chain without its cell `i`. */
  function Without(ps: seq<Ptr>, i: nat): (qs: seq<Ptr>)
    requires i < |ps|
  {
    ps[..i] + ps[i + 1..]
  }

  lemma WithoutMembers(ps: seq<Ptr>, i: nat)
    requires i < |ps| && Distinct(ps)
    ensures Distinct(Without(ps, i)) && forall p :: p in Without(ps, i) <==> p in ps && p != ps[i]
  {
    var qs := Without(ps, i);
    assert forall j :: 0 <= j < |qs| ==> qs[j] == ps[if j < i then j else j + 1];
    forall p | p in ps && p != ps[i] ensures p in qs {
      var j :| 0 <= j < |ps| && ps[j] == p;
      assert qs[if j < i then j else j - 1] == p;
    }
  }

  /** `*q = *p` takes cell `i` out: `q` is the bucket for the first cell, the cell before it otherwise. */
  lemma Unlink(next: map<Ptr, Ptr>, head: Ptr, ps: seq<Ptr>, i: nat, head': Ptr, next': map<Ptr, Ptr>)
    requires i < |ps| && Chained(next, head, ps) && Distinct(ps)
    requires head' == if i == 0 then next[ps[0]] else head
    requires next' == (if i == 0 then next else next[ps[i - 1] := next[ps[i]]])[ps[i] := Null]
    ensures Chained(next', head', Without(ps, i))
  {
    var qs := Without(ps, i);
    forall j | 0 <= j < |qs| ensures qs[j] in next' && next'[qs[j]] == First(qs[j + 1..]) {
      if j < i {
        assert qs[j] == ps[j];
        assert First(qs[j + 1..]) == if j + 1 < i then ps[j + 1] else First(ps[i + 1..]);
      } else {
        assert qs[j] == ps[j + 1];
        assert qs[j + 1..] == ps[j + 2..];
      }
    }
  }

  // ---------------------------------------------------------------- traversal order

  function Concat(cs: seq<seq<Ptr>>): (ps: seq<Ptr>)
  {
    if cs == [] then [] else cs[0] + Concat(cs[1..])
  }

  lemma {:induction false} ConcatMembers(cs: seq<seq<Ptr>>, p: Ptr)
    ensures p in Concat(cs) <==> exists b :: 0 <= b < |cs| && p in cs[b]
  {
    if cs != [] {
      ConcatMembers(cs[1..], p);
      if b :| 0 <= b < |cs| && p in cs[b] {
        if b > 0 { assert cs[1..][b - 1] == cs[b]; }
      }
    }
  }

  /** No pointer comes twice when no chain repeats one and no two chains share one. */
  lemma {:induction false} ConcatDistinct(cs: seq<seq<Ptr>>)
    requires forall b :: 0 <= b < |cs| ==> Distinct(cs[b])
    requires forall b, c, p :: 0 <= b < c < |cs| && p in cs[b] ==> p !in cs[c]
    ensures Distinct(Concat(cs))
  {
    if cs != [] {
      ConcatDistinct(cs[1..]);
      var ps, qs := cs[0], Concat(cs[1..]);
      forall i, j | 0 <= i < j < |ps + qs| ensures (ps + qs)[i] != (ps + qs)[j] {
        if i < |ps| <= j {
          ConcatMembers(cs[1..], ps[i]);
          assert qs[j - |ps|] in qs;
        }
      }
    }
  }

  lemma OneBucket(l: Layout, given: set<Ptr>, b: int, c: int, p: Ptr)
    requires |l.chains| > 0 && l.Housed(given) && 0 <= b < |l.chains| && 0 <= c < |l.chains| && b != c
    requires p in l.chains[b]
    ensures p !in l.chains[c]
  {
    assert Homed(l.keys, given, |l.chains|, b, l.chains[b]) && Homed(l.keys, given, |l.chains|, c, l.chains[c]);
  }

  lemma ChainedIsGiven(l: Layout, given: set<Ptr>, p: Ptr)
    requires |l.chains| > 0 && l.Housed(given)
    ensures p in given <==> exists b :: 0 <= b < |l.chains| && p in l.chains[b]
  {
    if b :| 0 <= b < |l.chains| && p in l.chains[b] {
      assert Homed(l.keys, given, |l.chains|, b, l.chains[b]);
    }
  }

  /** The chains of a table name every given chunk exactly once. */
  lemma EachChunkOnce(l: Layout, given: set<Ptr>)
    requires l.Buckets() && l.Housed(given)
    ensures Distinct(Concat(l.chains)) && forall p :: p in Concat(l.chains) <==> p in given
  {
    forall b, c, p | 0 <= b < c < |l.chains| && p in l.chains[b] ensures p !in l.chains[c] {
      OneBucket(l, given, b, c, p);
    }
    ConcatDistinct(l.chains);
    forall p ensures p in Concat(l.chains) <==> p in given {
      ConcatMembers(l.chains, p);
      ChainedIsGiven(l, given, p);
    }
  }

  function KeysOf(keys: map<Ptr, int>, ps: seq<Ptr>): (ks: seq<int>)
    ensures |ks| == |ps| && forall i :: 0 <= i < |ps| ==> ks[i] == if ps[i] in keys then keys[ps[i]] else 0
  {
    seq(|ps|, i requires 0 <= i < |ps| => if ps[i] in keys then keys[ps[i]] else 0)
  }

  lemma KeysOfRest(keys: map<Ptr, int>, ps: seq<Ptr>)
    requires ps != [] && ps[0] in keys
    ensures KeysOf(keys, ps) == [keys[ps[0]]] + KeysOf(keys, ps[1..])
  {
  }

  /** The chunks still to come for a cursor before cell `i` of bucket `b`. */
  function Ahead(cs: seq<seq<Ptr>>, b: nat, i: nat): seq<Ptr>
    requires b < |cs| && i <= |cs[b]|
  {
    cs[b][i..] + Concat(cs[b + 1..])
  }

  predicate Standing(cs: seq<seq<Ptr>>, b: int, i: nat, p: Ptr)
  {
    0 <= b < |cs| && i <= |cs[b]| && p == First(cs[b][i..])
  }

  predicate NoNulls(cs: seq<seq<Ptr>>)
  {
    forall b, i :: 0 <= b < |cs| && 0 <= i < |cs[b]| ==> cs[b][i] != Null
  }

  /** The links of the chains. */
  predicate Chaining(cs: seq<seq<Ptr>>, next: map<Ptr, Ptr>, keys: map<Ptr, int>)
  {
    forall b, i :: 0 <= b < |cs| && 0 <= i < |cs[b]| ==>
      cs[b][i] in keys && cs[b][i] in next && next[cs[b][i]] == First(cs[b][i + 1..])
  }

  lemma ConcatStep(cs: seq<seq<Ptr>>, b: nat)
    requires b < |cs|
    ensures Concat(cs[b..]) == cs[b] + Concat(cs[b + 1..])
  {
    assert cs[b..][1..] == cs[b + 1..];
  }

  lemma StandingAt(cs: seq<seq<Ptr>>, b: nat, i: nat, p: Ptr)
    requires NoNulls(cs) && Standing(cs, b, i, p)
    ensures p == Null <==> i == |cs[b]|
    ensures p == Null ==> Ahead(cs, b, i) == Concat(cs[b + 1..])
  {
    if i < |cs[b]| { assert cs[b][i] != Null; }
  }

  lemma AheadStep(cs: seq<seq<Ptr>>, b: nat, i: nat)
    requires b < |cs| && i < |cs[b]|
    ensures Ahead(cs, b, i) != [] && Ahead(cs, b, i)[0] == cs[b][i] && Ahead(cs, b, i)[1..] == Ahead(cs, b, i + 1)
  {
  }

  // ---------------------------------------------------------------- what the operations do to the layout

  /** The layout after a new chunk `p` for `key` goes to the front of its chain. */
  function Pushed(l: Layout, p: Ptr, key: int): Layout
    requires |l.heads| == |l.chains| > 0
  {
    var b := HashValue(key, |l.chains|);
    Layout(l.heads[b := p], l.next[p := l.heads[b]], l.keys[p := key], l.chains[b := [p] + l.chains[b]])
  }

  lemma PushKeepsBuckets(l: Layout, given: set<Ptr>, p: Ptr, key: int)
    requires l.Buckets() && l.Housed(given) && p !in given
    ensures Pushed(l, p, key).Buckets()
  {
    var b, l' := HashValue(key, |l.chains|), Pushed(l, p, key);
    forall c | 0 <= c < |l'.chains| ensures Chained(l'.next, l'.heads[c], l'.chains[c]) && Distinct(l'.chains[c]) {
      assert p !in l.chains[c];
      if c == b {
        ChainPush(l.next, l.heads[b], l.chains[b], p);
      } else {
        ChainFrame(l.next, l'.next, l.heads[c], l.chains[c]);
      }
    }
  }

  lemma PushKeepsHoused(l: Layout, given: set<Ptr>, p: Ptr, key: int)
    requires l.Buckets() && l.Housed(given) && p !in given
    ensures Pushed(l, p, key).Housed(given + {p})
  {
    var b, l' := HashValue(key, |l.chains|), Pushed(l, p, key);
    forall c | 0 <= c < |l.chains| ensures Homed(l'.keys, given + {p}, |l.chains|, c, l'.chains[c]) {
      assert Homed(l.keys, given, |l.chains|, c, l.chains[c]);
    }
  }

  /** The layout after cell `i` of bucket `b` is taken out. */
  function Popped(l: Layout, b: nat, i: nat): Layout
    requires l.Buckets() && b < |l.chains| && i < |l.chains[b]|
  {
    var p := l.chains[b][i];
    var rest := l.next[p];
    var heads := if i == 0 then l.heads[b := rest] else l.heads;
    var next := if i == 0 then l.next else l.next[l.chains[b][i - 1] := rest];
    Layout(heads, next[p := Null], l.keys, l.chains[b := Without(l.chains[b], i)])
  }

  lemma PopKeepsBuckets(l: Layout, given: set<Ptr>, b: nat, i: nat)
    requires l.Buckets() && l.Housed(given) && b < |l.chains| && i < |l.chains[b]|
    ensures Popped(l, b, i).Buckets()
  {
    var l' := Popped(l, b, i);
    forall c | 0 <= c < |l'.chains| ensures Chained(l'.next, l'.heads[c], l'.chains[c]) && Distinct(l'.chains[c]) {
      if c == b {
        WithoutMembers(l.chains[b], i);
        Unlink(l.next, l.heads[b], l.chains[b], i, l'.heads[b], l'.next);
      } else {
        OneBucket(l, given, b, c, l.chains[b][i]);
        if i > 0 { OneBucket(l, given, b, c, l.chains[b][i - 1]); }
        ChainFrame(l.next, l'.next, l.heads[c], l.chains[c]);
      }
    }
  }

  lemma PopKeepsHoused(l: Layout, given: set<Ptr>, b: nat, i: nat)
    requires l.Buckets() && l.Housed(given) && b < |l.chains| && i < |l.chains[b]|
    ensures Popped(l, b, i).Housed(given - {l.chains[b][i]})
  {
    WithoutMembers(l.chains[b], i);
    var l', p, n := Popped(l, b, i), l.chains[b][i], |l.chains|;
    forall q | q in given - {p} ensures q in l'.keys && q in l'.chains[HashValue(l'.keys[q], n)] {
      assert q in l.chains[HashValue(l.keys[q], n)];
    }
    forall c | 0 <= c < n ensures Homed(l.keys, given - {p}, n, c, l'.chains[c]) {
      assert Homed(l.keys, given, n, c, l.chains[c]);
      if c != b { OneBucket(l, given, b, c, p); }
    }
  }

  // ---------------------------------------------------------------- keys and chunks

  lemma LocateNew(keys: map<Ptr, int>, given: set<Ptr>, at: map<int, Ptr>, p: Ptr, key: int)
    requires Located(keys, given, at) && p !in given && key !in at
    ensures Located(keys[p := key], given + {p}, at[key := p])
  {
  }

  lemma Forget(keys: map<Ptr, int>, given: set<Ptr>, at: map<int, Ptr>, key: int)
    requires Located(keys, given, at) && key in at
    ensures Located(keys, given - {at[key]}, at - {key})
  {
  }

  /** As many keys as chunks. */
  lemma {:induction false} AsManyKeys(keys: map<Ptr, int>, given: set<Ptr>, at: map<int, Ptr>)
    requires Located(keys, given, at)
    ensures |at| == |given|
    decreases |given|
  {
    if given == {} {
      assert forall k :: k in at ==> at[k] in given;
      assert at.Keys == {};
    } else {
      var p :| p in given;
      var k := keys[p];
      Forget(keys, given, at, k);
      AsManyKeys(keys, given - {p}, at - {k});
      assert (at - {k}).Keys == at.Keys - {k};
    }
  }

  // ---------------------------------------------------------------- the table as a value

  /** The layout and the data, with the finite map they stand for. */
  datatype Store = Store(layout: Layout, data: map<Ptr, Bytes>, at: map<int, Ptr>, contents: map<int, Bytes>)

  predicate Filled(data: map<Ptr, Bytes>, at: map<int, Ptr>, contents: map<int, Bytes>, len: nat)
  {
    && contents.Keys == at.Keys
    && (forall k :: k in at ==> at[k] in data && data[at[k]] == contents[k])
    && (forall p :: p in data ==> |data[p]| == len)
  }

  /** The chains hold exactly the given chunks, one for each key of the map, with its data. */
  predicate Sound(s: Store, given: set<Ptr>, len: nat)
  {
    && s.layout.Buckets() && s.layout.Housed(given) && Located(s.layout.keys, given, s.at)
    && Filled(s.data, s.at, s.contents, len)
  }

  lemma Counted(s: Store, given: set<Ptr>, len: nat)
    requires Sound(s, given, len)
    ensures |s.contents| == |given|
  {
    AsManyKeys(s.layout.keys, given, s.at);
    assert |s.contents| == |s.contents.Keys| && |s.at| == |s.at.Keys|;
  }

  function Empty(n: nat): Store
  {
    Store(Layout(seq(n, _ => Null), map[], map[], seq(n, _ => [])), map[], map[], map[])
  }

  /** Buckets emptied over whatever the chunks hold. */
  function Cleared(s: Store, n: nat): Store
  {
    s.(layout := s.layout.(heads := seq(n, _ => Null), chains := seq(n, _ => [])), at := map[], contents := map[])
  }

  lemma ClearedIsSound(s: Store, n: nat, len: nat)
    requires 0 < n && forall p :: p in s.data ==> |s.data[p]| == len
    ensures Sound(Cleared(s, n), {}, len)
  {
  }

  function Added(s: Store, p: Ptr, key: int, d: Bytes): Store
    requires |s.layout.heads| == |s.layout.chains| > 0
  {
    Store(Pushed(s.layout, p, key), s.data[p := d], s.at[key := p], s.contents[key := d])
  }

  lemma AddedIsSound(s: Store, given: set<Ptr>, len: nat, p: Ptr, key: int, d: Bytes)
    requires Sound(s, given, len) && p !in given && key !in s.contents && |d| == len
    ensures Sound(Added(s, p, key, d), given + {p}, len)
  {
    PushKeepsBuckets(s.layout, given, p, key);
    PushKeepsHoused(s.layout, given, p, key);
    LocateNew(s.layout.keys, given, s.at, p, key);
  }

  function Updated(s: Store, p: Ptr, key: int, d: Bytes): Store
  {
    s.(data := s.data[p := d], contents := s.contents[key := d])
  }

  lemma UpdatedIsSound(s: Store, given: set<Ptr>, len: nat, p: Ptr, key: int, d: Bytes)
    requires Sound(s, given, len) && key in s.at && p == s.at[key] && |d| == len
    ensures Sound(Updated(s, p, key, d), given, len)
  {
  }

  function Removed(s: Store, b: nat, i: nat, key: int): Store
    requires s.layout.Buckets() && b < |s.layout.chains| && i < |s.layout.chains[b]|
  {
    s.(layout := Popped(s.layout, b, i), at := s.at - {key}, contents := s.contents - {key})
  }

  lemma RemovedIsSound(s: Store, given: set<Ptr>, len: nat, b: nat, i: nat, key: int)
    requires Sound(s, given, len) && b < |s.layout.chains| && i < |s.layout.chains[b]|
    requires key in s.at && s.at[key] == s.layout.chains[b][i]
    ensures Sound(Removed(s, b, i, key), given - {s.at[key]}, len)
  {
    PopKeepsBuckets(s.layout, given, b, i);
    PopKeepsHoused(s.layout, given, b, i);
    Forget(s.layout.keys, given, s.at, key);
  }

  // ---------------------------------------------------------------- walking a chain

  /** `p` is the chunk of `key`, cell `i` of its chain, and `q` the cell before it (null at the front). */
  predicate Hit(s: Store, key: int, p: Ptr, q: Ptr, i: nat)
    requires |s.layout.chains| > 0
  {
    var b := HashValue(key, |s.layout.chains|);
    && i < |s.layout.chains[b]| && p == s.layout.chains[b][i]
    && q == (if i == 0 then Null else s.layout.chains[b][i - 1])
    && key in s.at && p == s.at[key]
  }

  /** No key among the first `i` cells. */
  predicate NotYet(l: Layout, b: nat, i: nat, key: int)
    requires b < |l.chains|
  {
    i <= |l.chains[b]| && forall j :: 0 <= j < i ==> l.chains[b][j] in l.keys && l.keys[l.chains[b][j]] != key
  }

  lemma Missed(s: Store, given: set<Ptr>, len: nat, key: int)
    requires Sound(s, given, len)
    requires var b := HashValue(key, |s.layout.chains|); NotYet(s.layout, b, |s.layout.chains[b]|, key)
    ensures key !in s.at
  {
  }

  /** What the walk of a chain relies on. */
  predicate Walkable(next: map<Ptr, Ptr>, keys: map<Ptr, int>, ps: seq<Ptr>)
  {
    forall i :: 0 <= i < |ps| ==> ps[i] != Null && ps[i] in keys && ps[i] in next && next[ps[i]] == First(ps[i + 1..])
  }

  lemma WalkOn(next: map<Ptr, Ptr>, keys: map<Ptr, int>, ps: seq<Ptr>, i: nat)
    requires Walkable(next, keys, ps) && i < |ps|
    ensures ps[i] in next && next[ps[i]] == if i + 1 < |ps| then ps[i + 1] else Null
  {
  }

  lemma ChainIsWalkable(l: Layout, given: set<Ptr>, b: nat)
    requires l.Buckets() && l.Housed(given) && Null !in given && b < |l.chains|
    ensures Walkable(l.next, l.keys, l.chains[b]) && l.heads[b] == First(l.chains[b])
  {
    assert Chained(l.next, l.heads[b], l.chains[b]);
    var ps := l.chains[b];
    forall i | 0 <= i < |ps|
      ensures ps[i] != Null && ps[i] in l.keys && ps[i] in l.next && l.next[ps[i]] == First(ps[i + 1..])
    {
      CellIsGiven(l, given, b, i);
    }
  }

  lemma Met(s: Store, given: set<Ptr>, len: nat, key: int, p: Ptr, q: Ptr, i: nat)
    requires Sound(s, given, len)
    requires var cs := s.layout.chains; var b := HashValue(key, |cs|);
             i < |cs[b]| && p == cs[b][i] && p in s.layout.keys && s.layout.keys[p] == key
             && q == if i == 0 then Null else cs[b][i - 1]
    ensures key in s.contents && Hit(s, key, p, q, i)
  {
    CellIsGiven(s.layout, given, HashValue(key, |s.layout.chains|), i);
  }

  lemma CellIsGiven(l: Layout, given: set<Ptr>, b: nat, i: nat)
    requires l.Buckets() && l.Housed(given) && b < |l.chains| && i < |l.chains[b]|
    ensures var p := l.chains[b][i];
            p in given && p in l.keys && p in l.next && l.next[p] == First(l.chains[b][i + 1..])
  {
    assert Homed(l.keys, given, |l.chains|, b, l.chains[b]);
    assert l.chains[b][i] in l.chains[b];
    assert Chained(l.next, l.heads[b], l.chains[b]);
  }

  lemma Traversable(s: Store, given: set<Ptr>, len: nat)
    requires Sound(s, given, len) && Null !in given
    ensures NoNulls(s.layout.chains) && Chaining(s.layout.chains, s.layout.next, s.layout.keys)
    ensures forall b :: 0 <= b < |s.layout.chains| ==> s.layout.heads[b] == First(s.layout.chains[b])
  {
    var l := s.layout;
    forall b, i | 0 <= b < |l.chains| && 0 <= i < |l.chains[b]|
      ensures var p := l.chains[b][i];
              p != Null && p in l.keys && p in l.next && l.next[p] == First(l.chains[b][i + 1..])
    {
      CellIsGiven(l, given, b, i);
    }
    forall b | 0 <= b < |l.chains| ensures l.heads[b] == First(l.chains[b]) {
      assert Chained(l.next, l.heads[b], l.chains[b]);
    }
  }

  /** Every key of the map, exactly once. */
  ghost predicate Enumerates(ks: seq<int>, m: map<int, Bytes>)
  {
    (forall k :: k in ks <==> k in m) && (forall i, j :: 0 <= i < j < |ks| ==> ks[i] != ks[j])
  }

  /** In traversal order every key of the map comes exactly once. */
  lemma EachKeyOnce(s: Store, given: set<Ptr>, len: nat)
    requires Sound(s, given, len)
    ensures var ks := KeysOf(s.layout.keys, Concat(s.layout.chains));
            Enumerates(ks, s.contents)
  {
    EachChunkOnce(s.layout, given);
    KeysOnce(s.layout.keys, given, s.at, Concat(s.layout.chains));
  }

  lemma KeysOnce(keys: map<Ptr, int>, given: set<Ptr>, at: map<int, Ptr>, order: seq<Ptr>)
    requires Located(keys, given, at) && Distinct(order) && forall p :: p in order <==> p in given
    ensures var ks := KeysOf(keys, order);
            && (forall k :: k in ks <==> k in at)
            && (forall i, j :: 0 <= i < j < |ks| ==> ks[i] != ks[j])
  {
    var ks := KeysOf(keys, order);
    forall i | 0 <= i < |order| ensures ks[i] in at && at[ks[i]] == order[i] {
      assert order[i] in order;
    }
    forall k | k in at ensures k in ks {
      var i :| 0 <= i < |order| && order[i] == at[k];
      assert ks[i] == k;
    }
  }

  // ---------------------------------------------------------------- the table

  /** One more key, with the given data or else with any. */
  predicate Grown(before: map<int, Bytes>, after: map<int, Bytes>, key: int, d: Option)
  {
    key in after && after == before[key := after[key]] && (d.Some? ==> after[key] == d.value)
  }

  class Table {
    const bucketSize: int
    const dataLen: nat
    const table: array<Ptr>           // hash_table_
    var next: map<Ptr, Ptr>           // the three parts of every chunk
    var keys: map<Ptr, int>
    var data: map<Ptr, Bytes>
    var dataNum: int
    var traversalIndex: int
    var traversalPos: Ptr
    const allocator: Allocator
    ghost var chains: seq<seq<Ptr>>
    ghost var at: map<int, Ptr>
    ghost var cell: nat                  // the place of the traversal in its chain
    ghost var contents: map<int, Bytes>   // the finite map the table stands for

    ghost function Value(): Store
      reads this`next, this`keys, this`data, this`chains, this`at, this`contents, table
    {
      Store(Layout(table[..], next, keys, chains), data, at, contents)
    }

    /** Chains and free list never share a chunk: the chains hold exactly the chunks given out by the
        allocator, and its free list none of these. */
    ghost predicate Valid()
      reads this, table, allocator
    {
      && 0 < bucketSize == |chains| && allocator.Valid()
      && Sound(Value(), allocator.given, dataLen)
      && dataNum == |contents| == allocator.allocNum - allocator.recycleNum
    }

    function Capacity(): int { allocator.Capacity() }

    /** `init`, where memory is always there; 1000000 blocks of 1000 chunks are its defaults. */
    constructor (bucket_size: int, data_len: nat, blocks: int, chunks: int)
      requires 0 < bucket_size && 0 < blocks && 0 < chunks
      ensures Valid() && contents == map[] && fresh(table) && fresh(allocator)
      ensures bucketSize == bucket_size && dataLen == data_len && Capacity() == blocks * chunks
      ensures traversalIndex == 0 && traversalPos == Null
    {
      dataLen, dataNum, bucketSize := data_len, 0, bucket_size;
      table := new Ptr[bucket_size](_ => Null);
      allocator := new Allocator(8 + 8 + data_len, blocks, chunks);
      next, keys, data := map[], map[], map[];
      traversalIndex, traversalPos := 0, Null;
      chains, at, contents := seq(bucket_size, _ => []), map[], map[];
      new;
      assert Value() == Cleared(Empty(bucket_size), bucket_size);
      ClearedIsSound(Empty(bucket_size), bucket_size, data_len);
    }

    /** A caller may give the bucket of its key. */
    ghost predicate BucketOf(key: int, iIndex: int)
      requires 0 < bucketSize
    {
      iIndex < 0 || iIndex == HashValue(key, bucketSize)
    }

    /** The loop over a chain, up to the key; `q` is the cell before `p`. */
    method WalkChain(start: Ptr, key: int, ghost ps: seq<Ptr>) returns (p: Ptr, q: Ptr, ghost i: nat)
      requires Walkable(next, keys, ps) && start == First(ps)
      ensures p == Null ==> i == |ps|
      ensures p != Null ==> i < |ps| && p == ps[i] && keys[p] == key && q == if i == 0 then Null else ps[i - 1]
      ensures i <= |ps| && forall j :: 0 <= j < i ==> keys[ps[j]] != key
    {
      p, q, i := start, Null, 0;
      while p != Null && keys[p] != key
        invariant i <= |ps| && p == (if i < |ps| then ps[i] else Null) && q == if i == 0 then Null else ps[i - 1]
        invariant forall j :: 0 <= j < i ==> keys[ps[j]] != key
        decreases |ps| - i
      {
        WalkOn(next, keys, ps, i);
        q, p, i := p, next[p], i + 1;
      }
    }

    /** The walk of a bucket that `addKey_FL`, `searchKey_FL`, `updateKey_FL` and `deleteKey_FL` share; `q` is
        the cell before `p`, null for the bucket itself. */
    method Walk(key: int, iIndex: int) returns (p: Ptr, q: Ptr, ghost i: nat)
      requires 0 < bucketSize == |chains| && BucketOf(key, iIndex)
      requires Sound(Value(), allocator.given, dataLen) && Null !in allocator.given
      ensures p == Null ==> key !in contents
      ensures p != Null ==> key in contents && Hit(Value(), key, p, q, i)
    {
      var b := if iIndex < 0 then HashValue(key, bucketSize) else iIndex;
      ghost var s, given := Value(), allocator.given;
      ChainIsWalkable(s.layout, given, b);
      p, q, i := WalkChain(table[b], key, chains[b]);
      if p != Null { Met(s, given, dataLen, key, p, q, i); } else { Missed(s, given, dataLen, key); }
    }

    /** `*vppRetBuf`: the data of a chunk, null when the table holds keys only. */
    function RetBuf(p: Ptr): Ptr
    {
      if dataLen == 0 then Null else p
    }

    /** Whatever an earlier user left in the chunk. */
    method Leftover(p: Ptr) returns (d: Bytes)
      requires p in data ==> |data[p]| == dataLen
      ensures |d| == dataLen && (p in data ==> d == data[p])
    {
      if p in data { return data[p]; }
      assert |seq(dataLen, _ => 0 as bv8)| == dataLen;
      d :| |d| == dataLen;
    }

    /** The writes of `addKey_FL`: a new chunk at the front of its chain. */
    method Insert(key: int, p: Ptr, d: Bytes)
      requires 0 < bucketSize == |chains| == table.Length
      modifies this`next, this`keys, this`data, this`dataNum, this`chains, this`at, this`contents, table
      ensures Value() == Added(old(Value()), p, key, d) && dataNum == old(dataNum) + 1
    {
      var b := HashValue(key, bucketSize);
      keys := keys[p := key];
      data := data[p := d];
      next := next[p := table[b]];
      table[b] := p;
      dataNum := dataNum + 1;
      chains := chains[b := [p] + chains[b]];
      at, contents := at[key := p], contents[key := d];
    }

    /** Insertion keeps the table sound over one more chunk. */
    method PutNew(key: int, p: Ptr, vpData: Option, ghost given: set<Ptr>)
      requires 0 < bucketSize == |chains| && Sound(Value(), given, dataLen)
      requires p !in given && key !in contents && (vpData.Some? ==> |vpData.value| == dataLen)
      modifies this`next, this`keys, this`data, this`dataNum, this`chains, this`at, this`contents, table
      ensures 0 < bucketSize == |chains| && Sound(Value(), given + {p}, dataLen)
      ensures Grown(old(contents), contents, key, vpData)
      ensures dataNum == old(dataNum) + 1 && |contents| == |given + {p}|
      ensures key in at && at[key] == p
    {
      var d;
      if vpData.Some? { d := vpData.value; } else { d := Leftover(p); }
      AddedIsSound(Value(), given, dataLen, p, key, d);
      Insert(key, p, d);
      Counted(Value(), given + {p}, dataLen);
    }

    /** The writes of `deleteKey_FL`. */
    method Unchain(key: int, p: Ptr, q: Ptr, ghost i: nat)
      requires 0 < bucketSize == |chains| && Value().layout.Buckets() && Hit(Value(), key, p, q, i)
      requires i > 0 ==> q != Null
      modifies this`next, this`dataNum, this`chains, this`at, this`contents, table
      ensures Value() == Removed(old(Value()), HashValue(key, bucketSize), i, key) && dataNum == old(dataNum) - 1
    {
      var b := HashValue(key, bucketSize);
      assert Chained(next, table[..][b], chains[b]);
      if q == Null { table[b] := next[p]; } else { next := next[q := next[p]]; }
      next := next[p := Null];
      dataNum := dataNum - 1;
      chains := chains[b := Without(chains[b], i)];
      at, contents := at - {key}, contents - {key};
    }

    /** Unlinking keeps the table sound over one chunk less. */
    method TakeOut(key: int, p: Ptr, q: Ptr, ghost i: nat)
      requires 0 < bucketSize == |chains| && Sound(Value(), allocator.given, dataLen) && Null !in allocator.given
      requires Hit(Value(), key, p, q, i)
      modifies this`next, this`dataNum, this`chains, this`at, this`contents, table
      ensures 0 < bucketSize == |chains| && Sound(Value(), allocator.given - {p}, dataLen)
      ensures contents == old(contents) - {key} && dataNum == old(dataNum) - 1
    {
      ghost var s, given, b := Value(), allocator.given, HashValue(key, bucketSize);
      if i > 0 { CellIsGiven(s.layout, given, b, i - 1); }
      RemovedIsSound(s, given, dataLen, b, i, key);
      Unchain(key, p, q, i);
    }

    /** The buckets emptied. */
    method EmptyBuckets()
      requires 0 < bucketSize == table.Length
      modifies this, table
      ensures Value() == Cleared(old(Value()), bucketSize) && dataNum == 0
      ensures traversalIndex == 0 && traversalPos == Null
    {
      dataNum := 0;
      forall b | 0 <= b < table.Length { table[b] := Null; }
      traversalIndex, traversalPos := 0, table[0];
      chains, at, contents := seq(bucketSize, _ => []), map[], map[];
    }

    /** `addKey_FL` for a key that is not there. */
    method AddMissing(key: int, vpData: Option) returns (p: Ptr)
      requires Valid() && (vpData.Some? ==> |vpData.value| == dataLen) && key !in contents
      modifies this`next, this`keys, this`data, this`dataNum, this`chains, this`at, this`contents, table, allocator
      ensures Valid()
      ensures p == Null <==> |old(contents)| == Capacity()
      ensures p == Null ==> contents == old(contents)
      ensures p != Null ==> Grown(old(contents), contents, key, vpData) && key in at && p == at[key]
    {
      ghost var given := allocator.given;
      Counted(Value(), given, dataLen);
      p := allocator.Alloc();
      allocator.Facts();
      if p == Null { return; }
      PutNew(key, p, vpData, given);
    }

    /** `addKey_FL`: 1 and no change for a key that is there, -1 exactly when the table is full, 0 otherwise.
        Without data the new chunk keeps what was in its memory. */
    method AddKey(key: int, vpData: Option, iIndex: int := -1) returns (r: int, ret: Ptr)
      requires Valid() && BucketOf(key, iIndex) && (vpData.Some? ==> |vpData.value| == dataLen)
      modifies this`next, this`keys, this`data, this`dataNum, this`chains, this`at, this`contents, table, allocator
      ensures Valid()
      ensures r == if key in old(contents) then 1 else if |old(contents)| == Capacity() then -1 else 0
      ensures r != 0 ==> contents == old(contents)
      ensures r == 0 ==> Grown(old(contents), contents, key, vpData)
      ensures r != -1 ==> key in at && ret == RetBuf(at[key])
    {
      allocator.Facts();
      ghost var i;
      var p, q;
      p, q, i := Walk(key, iIndex);
      if p != Null { return 1, RetBuf(p); }
      p := AddMissing(key, vpData);
      r, ret := if p == Null then -1 else 0, RetBuf(p);
    }

    /** `searchKey_FL`: 0 exactly for the keys of the map, and then the place of the data. */
    method SearchKey(key: int, iIndex: int := -1) returns (r: int, ret: Ptr)
      requires Valid() && BucketOf(key, iIndex)
      ensures r == if key in contents then 0 else -1
      ensures r == 0 ==> key in at && ret == RetBuf(at[key]) && at[key] in data && data[at[key]] == contents[key]
    {
      allocator.Facts();
      ghost var i;
      var p, q;
      p, q, i := Walk(key, iIndex);
      r, ret := if p != Null then 0 else -1, RetBuf(p);
    }

    /** `updateKey_FL`: overwrites the data of a key that is there. */
    method UpdateKey(key: int, vpData: Option, iIndex: int := -1) returns (r: int, ret: Ptr)
      requires Valid() && BucketOf(key, iIndex) && (vpData.Some? ==> |vpData.value| == dataLen)
      modifies this`data, this`contents
      ensures Valid()
      ensures r == if key in old(contents) then 0 else -1
      ensures contents == if r == 0 && vpData.Some? then old(contents)[key := vpData.value] else old(contents)
      ensures r == 0 ==> key in at && ret == RetBuf(at[key])
    {
      allocator.Facts();
      ghost var s := Value();
      ghost var i;
      var p, q;
      p, q, i := Walk(key, iIndex);
      ret := RetBuf(p);
      if p == Null { return -1, ret; }
      r := 0;
      if vpData.Some? {
        data := data[p := vpData.value];
        contents := contents[key := vpData.value];
        assert Value() == Updated(s, p, key, vpData.value);
        UpdatedIsSound(s, allocator.given, dataLen, p, key, vpData.value);
        Counted(Value(), allocator.given, dataLen);
      }
    }

    /** `deleteKey_FL`: the key is gone and its chunk is the next to be handed out. */
    method DeleteKey(key: int, iIndex: int := -1) returns (r: int)
      requires Valid() && BucketOf(key, iIndex)
      modifies this`next, this`dataNum, this`chains, this`at, this`contents, table, allocator
      ensures Valid()
      ensures r == if key in old(contents) then 0 else -1
      ensures contents == old(contents) - {key}
      ensures r == 0 ==> key in old(at) && allocator.free == [old(at)[key]] + old(allocator.free)
    {
      allocator.Facts();
      ghost var i;
      var p, q;
      p, q, i := Walk(key, iIndex);
      if p == Null { return -1; }
      Remove(key, p, q, i);
      r := 0;
    }

    /** The rest of `deleteKey_FL` for a key that is there. */
    method Remove(key: int, p: Ptr, q: Ptr, ghost i: nat)
      requires Valid() && key in contents && Hit(Value(), key, p, q, i)
      modifies this`next, this`dataNum, this`chains, this`at, this`contents, table, allocator
      ensures Valid() && contents == old(contents) - {key} && allocator.free == [p] + old(allocator.free)
    {
      allocator.Facts();
      CellIsGiven(Value().layout, allocator.given, HashValue(key, bucketSize), i);
      TakeOut(key, p, q, i);
      allocator.Free(p);
      allocator.Facts();
      Counted(Value(), allocator.given, dataLen);
    }

    /** `clear` */
    method Clear()
      requires Valid()
      modifies this, table, allocator
      ensures Valid() && contents == map[] && traversalIndex == 0 && traversalPos == Null
    {
      ClearedIsSound(Value(), bucketSize, dataLen);
      allocator.Reset();
      EmptyBuckets();
    }

    // -------------------------------------------------------------- traversal

    ghost predicate Cursor()
      reads this`traversalIndex, this`traversalPos, this`chains, this`cell
    {
      Standing(chains, traversalIndex, cell, traversalPos)
    }

    ghost predicate Fronted()
      reads this`chains, table
    {
      |chains| == table.Length && forall b :: 0 <= b < table.Length ==> table[b] == First(chains[b])
    }

    /** `prepareTraversal` */
    method PrepareTraversal()
      requires 0 < bucketSize == |chains| && Fronted()
      modifies this`traversalIndex, this`traversalPos, this`cell
      ensures Cursor() && Ahead(chains, traversalIndex, cell) == Concat(chains)
    {
      traversalIndex := 0;
      traversalPos := table[traversalIndex];
      cell := 0;
      assert chains[0][0..] == chains[0];
    }

    /** The search of `traverse` for the next bucket in use. */
    method NextBucket()
      requires |chains| == bucketSize && Fronted() && NoNulls(chains)
      requires 0 <= traversalIndex < |chains|
      modifies this`traversalIndex, this`traversalPos, this`cell
      ensures var rest := Concat(chains[old(traversalIndex) + 1..]);
              if rest == [] then traversalIndex == bucketSize
              else Cursor() && Ahead(chains, traversalIndex, cell) == rest && cell < |chains[traversalIndex]|
    {
      ghost var rest := Concat(chains[traversalIndex + 1..]);
      traversalIndex := traversalIndex + 1;
      while traversalIndex < bucketSize
        invariant 0 <= traversalIndex <= bucketSize
        invariant rest == Concat(chains[traversalIndex..])
      {
        traversalPos := table[traversalIndex];
        ghost var ps := chains[traversalIndex];
        ConcatStep(chains, traversalIndex);
        cell := 0;
        assert ps[0..] == ps;
        assert ps != [] ==> ps[0] != Null;
        if traversalPos != Null { break; }
        traversalIndex := traversalIndex + 1;
      }
    }

    /** The first half of `traverse`: the cursor moves to the next entry, if there is one. */
    method Settle() returns (more: bool)
      requires |chains| == bucketSize && Fronted() && NoNulls(chains) && Cursor()
      modifies this`traversalIndex, this`traversalPos, this`cell
      ensures var ahead := Ahead(chains, old(traversalIndex), old(cell));
              if ahead == [] then !more && traversalIndex == bucketSize
              else more && Cursor() && cell < |chains[traversalIndex]| && Ahead(chains, traversalIndex, cell) == ahead
    {
      StandingAt(chains, traversalIndex, cell, traversalPos);
      if traversalPos == Null { NextBucket(); }
      more := traversalIndex != bucketSize;
    }

    /** `traverse`: the next entry, or -1 after the last; it must not be called again then.  The length is left alone
        for a table of keys only. */
    method Traverse(current: int) returns (r: int, key: int, ret: Ptr, len: int)
      requires |chains| == bucketSize && Fronted() && NoNulls(chains) && Cursor()
      requires Chaining(chains, next, keys)
      modifies this`traversalIndex, this`traversalPos, this`cell
      ensures var ahead := Ahead(chains, old(traversalIndex), old(cell));
              if ahead == [] then r == -1 && traversalIndex == bucketSize
              else
                && r == 0 && Cursor() && Ahead(chains, traversalIndex, cell) == ahead[1..]
                && ahead[0] in keys && key == keys[ahead[0]] && ret == RetBuf(ahead[0])
      ensures len == if r == 0 && dataLen > 0 then dataLen else current
    {
      var more := Settle();
      if !more { return -1, 0, Null, current; }
      key, ret := Take();
      r, len := 0, if dataLen > 0 then dataLen else current;
    }

    /** The second half of `traverse`. */
    method Take() returns (key: int, ret: Ptr)
      requires Cursor() && Chaining(chains, next, keys) && cell < |chains[traversalIndex]|
      modifies this`traversalPos, this`cell
      ensures Cursor()
      ensures var ahead := Ahead(chains, traversalIndex, old(cell));
              && ahead != [] && Ahead(chains, traversalIndex, cell) == ahead[1..]
              && ahead[0] in keys && key == keys[ahead[0]] && ret == RetBuf(ahead[0])
    {
      AheadStep(chains, traversalIndex, cell);
      key, ret := keys[traversalPos], RetBuf(traversalPos);
      traversalPos := next[traversalPos];
      cell := cell + 1;
    }

    /** Calls of `traverse` until it fails. */
    method TraverseFrom() returns (found: seq<int>)
      requires |chains| == bucketSize && Fronted() && NoNulls(chains) && Cursor()
      requires Chaining(chains, next, keys)
      modifies this`traversalIndex, this`traversalPos, this`cell
      ensures found == KeysOf(keys, Ahead(chains, old(traversalIndex), old(cell)))
      decreases |Ahead(chains, traversalIndex, cell)|
    {
      ghost var ahead := Ahead(chains, traversalIndex, cell);
      var r, key, ret, len := Traverse(0);
      if r != 0 { return []; }
      found := TraverseFrom();
      KeysOfRest(keys, ahead);
      found := [key] + found;
    }

    /** A full traversal, `prepareTraversal` and then `traverse` until it fails: every key of the map comes
        exactly once. */
    method TraverseAll() returns (found: seq<int>)
      requires Valid()
      modifies this`traversalIndex, this`traversalPos, this`cell
      ensures Enumerates(found, contents)
    {
      allocator.Facts();
      EachKeyOnce(Value(), allocator.given, dataLen);
      Traversable(Value(), allocator.given, dataLen);
      found := TraverseEach();
    }

    method TraverseEach() returns (found: seq<int>)
      requires 0 < bucketSize == |chains| == table.Length
      requires NoNulls(chains) && Chaining(chains, next, keys)
      requires forall b :: 0 <= b < |chains| ==> table[..][b] == First(chains[b])
      modifies this`traversalIndex, this`traversalPos, this`cell
      ensures found == KeysOf(keys, Concat(chains))
    {
      assert forall b :: 0 <= b < |chains| ==> table[b] == table[..][b];
      PrepareTraversal();
      found := TraverseFrom();
    }

    /** Any run of operations answers as the finite map does. */
    method Run(ops: seq<Op>) returns (answers: seq<int>)
      requires Valid() && forall i :: 0 <= i < |ops| ==> ops[i].Fits(dataLen)
      modifies this, table, allocator
      ensures Valid()
      ensures contents == AfterAll(old(contents), ops, Capacity()).0
      ensures answers == AfterAll(old(contents), ops, Capacity()).1
    {
      answers := [];
      ghost var before := contents;
      for n := 0 to |ops|
        invariant Valid()
        invariant AfterAll(before, ops[..n], Capacity()) == (contents, answers)
      {
        var r := Perform(ops[n]);
        answers := answers + [r];
        assert ops[..n + 1][..n] == ops[..n];
      }
      assert ops[..|ops|] == ops;
    }

    method Perform(op: Op) returns (r: int)
      requires Valid() && op.Fits(dataLen)
      modifies this, table, allocator
      ensures Valid() && (contents, r) == After(old(contents), op, Capacity())
    {
      var ret;
      match op
      case Add(key, value) => r, ret := AddKey(key, Some(value));
      case Search(key) => r, ret := SearchKey(key);
      case Update(key, value) => r, ret := UpdateKey(key, Some(value));
      case Delete(key) => r := DeleteKey(key);
      case Clear => Clear(); r := 0;
    }
  }

  // ---------------------------------------------------------------- the same calls on a finite map

  datatype Op =
    | Add(key: int, value: Bytes)
    | Search(key: int)
    | Update(key: int, value: Bytes)
    | Delete(key: int)
    | Clear
  {
    predicate Fits(len: nat)
    {
      (this.Add? || this.Update?) ==> |value| == len
    }
  }

  function After(m: map<int, Bytes>, op: Op, capacity: int): (map<int, Bytes>, int)
  {
    match op
    case Add(k, v) => if k in m then (m, 1) else if |m| == capacity then (m, -1) else (m[k := v], 0)
    case Search(k) => (m, if k in m then 0 else -1)
    case Update(k, v) => if k in m then (m[k := v], 0) else (m, -1)
    case Delete(k) => (m - {k}, if k in m then 0 else -1)
    case Clear => (map[], 0)
  }

  function AfterAll(m: map<int, Bytes>, ops: seq<Op>, capacity: int): (map<int, Bytes>, seq<int>)
  {
    if ops == [] then (m, [])
    else
      var n := |ops| - 1;
      var (m', answers) := AfterAll(m, ops[..n], capacity);
      var (m'', answer) := After(m', ops[n], capacity);
      (m'', answers + [answer])
  }
}
