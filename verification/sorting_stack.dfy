/** How deep the explicit stack of `Q_Unrecursion_1K` (common/qalgorithm.h) gets, exactly. */
module SortingStack {
  import opened Sorting

  /** `int32_t stack_buf[1<<10]` */
  const STACK_SLOTS := 1024

  /** The widest range, in `lEnd-lBegin`, that always stays inside the buffer. */
  const WIDEST := 513

  // ---------------------------------------------------------------- the machine

  /** What one round of the loop does to the rows and to the stack. */
  function NextRows(s: seq<Row>, stack: Stack): (r: seq<Row>)
    requires stack.Push? && InBounds(stack, |s|)
    ensures |r| == |s|
  {
    var lo, hi := stack.top.lo, stack.top.hi;
    if lo + 1 < hi then Partition(s, lo, hi).rows else Sort(s, lo, hi)
  }

  function NextStack(s: seq<Row>, stack: Stack): (r: Stack)
    requires stack.Push? && InBounds(stack, |s|)
    ensures InBounds(r, |s|) && Pops(r) < Pops(stack)
  {
    var lo, hi := stack.top.lo, stack.top.hi;
    if lo + 1 < hi then
      PartsSort(s, stack.rest, lo, hi);
      PartsPops(s, stack.rest, lo, hi);
      AfterSplit(s, stack.rest, lo, hi)
    else stack.rest
  }

  /** One round of the loop. */
  ghost predicate Follows(s: seq<Row>, stack: Stack, r: seq<Row>, next: Stack)
  {
    InBounds(stack, |s|) && stack.Push? && r == NextRows(s, stack) && next == NextStack(s, stack)
  }

  function Max(a: nat, b: nat): nat { if a < b then b else a }

  /** The largest number of ranges that are on the stack at once until it is empty. */
  function Deepest(s: seq<Row>, stack: Stack): nat
    requires InBounds(stack, |s|)
    decreases Pops(stack)
  {
    if stack.Empty? then 0 else Max(Depth(stack), Deepest(NextRows(s, stack), NextStack(s, stack)))
  }

  /** The slots of the buffer that sorting a range takes: two for each range on the stack. */
  function SlotsFor(s: seq<Row>, lo: int, hi: int): nat
    requires 0 <= lo && hi < |s|
  {
    2 * Deepest(s, Push(Range(lo, hi), Empty))
  }

  lemma {:induction false} DeepestNext(s: seq<Row>, stack: Stack, r: seq<Row>, next: Stack)
    requires Follows(s, stack, r, next)
    ensures InBounds(next, |r|) && |r| == |s| && Pops(next) < Pops(stack)
    ensures Deepest(s, stack) == Max(Depth(stack), Deepest(r, next))
  {
  }

  // ---------------------------------------------------------------- never deeper

  /** How many ranges a range can put on the stack at once, itself included. */
  function Demand(r: Range): nat { if r.hi - r.lo <= 2 then 1 else r.hi - r.lo - 1 }

  predicate Within(stack: Stack, cap: int)
  {
    stack.Push? ==> Depth(stack.rest) + Demand(stack.top) <= cap && Within(stack.rest, cap)
  }

  /** Three cells never leave two parts to sort: the middle cell is not shared. */
  lemma ThreeCells(s: seq<Row>, lo: nat)
    requires lo + 2 < |s|
    ensures var c := Partition(s, lo, lo + 2); c.at == lo + 2 || LeftEnd(c, Pivot(s, lo, lo + 2)) == lo
  {
    var hi, pivot := lo + 2, Pivot(s, lo, lo + 2);
    assert (lo + hi) / 2 == lo + 1;
    var i := ScanUp(s, lo, hi, pivot);
    var j := ScanDown(s, i, hi, pivot);
    assert i <= lo + 1 <= j;
    var r := Round(s, lo, hi, pivot);
    assert Meet(r.rows, r.i, r.j, pivot) == Cut(r.rows, r.i);
  }

  /** The parts of a range ask for no more than the range did. */
  lemma PartsWithin(s: seq<Row>, rest: Stack, lo: nat, hi: nat, cap: int)
    requires lo + 1 < hi < |s| && Within(Push(Range(lo, hi), rest), cap)
    ensures Within(AfterSplit(s, rest, lo, hi), cap)
  {
    PartsAreSmaller(s, lo, hi);
    var c := Partition(s, lo, hi);
    var e := LeftEnd(c, Pivot(s, lo, hi));
    if hi == lo + 2 { ThreeCells(s, lo); }
    PushWithin(rest, c.at, hi, cap);
    PushWithin(PushRange(rest, c.at, hi), lo, e, cap);
  }

  lemma PushWithin(stack: Stack, lo: int, hi: int, cap: int)
    requires Within(stack, cap) && (lo < hi ==> Depth(stack) + Demand(Range(lo, hi)) <= cap)
    ensures Within(PushRange(stack, lo, hi), cap)
  {
  }

  lemma WithinNext(s: seq<Row>, stack: Stack, r: seq<Row>, next: Stack, cap: int)
    requires Follows(s, stack, r, next) && Within(stack, cap)
    ensures Within(next, cap)
  {
    var lo, hi := stack.top.lo, stack.top.hi;
    if lo + 1 < hi { PartsWithin(s, stack.rest, lo, hi, cap); }
  }

  lemma {:induction false} NeverDeeper(s: seq<Row>, stack: Stack, cap: int)
    requires InBounds(stack, |s|) && Within(stack, cap) && cap >= 0
    ensures Deepest(s, stack) <= cap
    decreases Pops(stack)
  {
    if stack.Push? {
      var r, next := NextRows(s, stack), NextStack(s, stack);
      WithinNext(s, stack, r, next, cap);
      NeverDeeper(r, next, cap);
    }
  }

  // ---------------------------------------------------------------- as deep as that

  /** Rows of width `w` that drive the stack to its limit: the rows of width `w - 1` with a new maximum in the middle
      cell, whose old row comes last. */
  function Hostile(w: nat): (s: seq<Row>)
    ensures |s| == w + 1 && forall i :: 0 <= i <= w ==> s[i].key <= w
  {
    if w <= 2 then seq(w + 1, _ => Row(0, 0, 0))
    else
      var t := Hostile(w - 1);
      t[w / 2 := Row(w, 0, 0)] + [t[w / 2]]
  }

  /** The range holds hostile rows. */
  ghost predicate HostileAt(s: seq<Row>, lo: nat, hi: nat)
    requires lo <= hi < |s|
  {
    s[lo..hi + 1] == Hostile(hi - lo)
  }

  /** Two steps of the partition loop, for a maximum in the middle cell only. */
  lemma MaximumMoves(s: seq<Row>, lo: nat, hi: nat, mid: nat)
    requires lo + 2 < hi < |s| && mid == (lo + hi) / 2
    requires forall k :: lo <= k <= hi && k != mid ==> s[k].key < s[mid].key
    ensures Round(s, lo, hi, s[mid].key) == Cursors(Swap(s, mid, hi), mid + 1, hi - 1)
  {
    assert ScanUp(s, lo, hi, s[mid].key) == mid;
    assert ScanDown(s, mid, hi, s[mid].key) == hi;
  }

  lemma AllBelow(t: seq<Row>, i: nat, j: nat, pivot: int)
    requires i <= j < |t| && forall k :: i <= k <= j ==> t[k].key < pivot
    ensures Meet(t, i, j, pivot) == Cut(t, j)
  {
    assert ScanUp(t, i, j, pivot) == j;
    if i < j {
      assert Round(t, i, j, pivot) == Cursors(t, j, j);
      assert Meet(t, j, j, pivot) == Cut(t, j);
    }
  }

  lemma MeetStep(s: seq<Row>, i: nat, j: nat, pivot: int, r: Cursors)
    requires i < j < |s| && Round(s, i, j, pivot) == r
    ensures Meet(s, i, j, pivot) == Meet(r.rows, r.i, r.j, pivot)
  {
  }

  /** The partition moves the maximum to the end and shares the cell before. */
  lemma MaximumInMiddle(s: seq<Row>, lo: nat, hi: nat, mid: nat)
    requires lo + 2 < hi < |s| && mid == (lo + hi) / 2
    requires forall k :: lo <= k <= hi && k != mid ==> s[k].key < s[mid].key
    ensures Meet(s, lo, hi, s[mid].key) == Cut(Swap(s, mid, hi), hi - 1)
    ensures Swap(s, mid, hi)[hi - 1].key < s[mid].key
  {
    var pivot, t := s[mid].key, Swap(s, mid, hi);
    MaximumMoves(s, lo, hi, mid);
    MeetStep(s, lo, hi, pivot, Cursors(t, mid + 1, hi - 1));
    AllBelow(t, mid + 1, hi - 1, pivot);
  }

  /** What the two highest hostile families have to do with each other, in an array. */
  lemma HostileMiddle(s: seq<Row>, lo: nat, hi: nat, mid: nat)
    requires lo + 2 < hi < |s| && mid == (lo + hi) / 2 && HostileAt(s, lo, hi)
    ensures s[mid].key == hi - lo && forall k :: lo <= k <= hi && k != mid ==> s[k].key < s[mid].key
    ensures HostileAt(Swap(s, mid, hi), lo, hi - 1)
  {
    var w := hi - lo;
    var t, h := Hostile(w - 1), s[lo..hi + 1];
    assert mid - lo == w / 2;
    assert forall k :: lo <= k <= hi ==> s[k] == h[k - lo];
    assert h[w / 2] == Row(w, 0, 0) && h[w] == t[w / 2];
    var r := Swap(s, mid, hi);
    assert r[lo..hi] == t;
  }

  /** Partitioning hostile rows leaves hostile rows in the left part, one cell shorter. */
  lemma HostileParts(s: seq<Row>, lo: nat, hi: nat)
    requires lo + 2 < hi < |s| && HostileAt(s, lo, hi)
    ensures var c := Partition(s, lo, hi);
            c.at == hi - 1 && LeftEnd(c, Pivot(s, lo, hi)) == hi - 1 && HostileAt(c.rows, lo, hi - 1)
            && c.rows[hi].key == hi - lo
  {
    var mid := (lo + hi) / 2;
    HostileMiddle(s, lo, hi, mid);
    MaximumInMiddle(s, lo, hi, mid);
  }

  /** The stack gets at least that deep. */
  ghost predicate Reaches(s: seq<Row>, stack: Stack, depth: int)
  {
    InBounds(stack, |s|) && Deepest(s, stack) >= depth
  }

  lemma {:induction false} ReachesNow(s: seq<Row>, stack: Stack)
    requires InBounds(stack, |s|) && stack.Push?
    ensures Reaches(s, stack, Depth(stack))
  {
  }

  lemma {:induction false} ReachesLater(s: seq<Row>, stack: Stack, r: seq<Row>, next: Stack, depth: int)
    requires Follows(s, stack, r, next) && Reaches(r, next, depth)
    ensures Reaches(s, stack, depth)
  {
  }

  /** The stack after one round is one deeper, with a hostile range on top again. */
  lemma HostileNext(s: seq<Row>, lo: nat, hi: nat, stack: Stack) returns (r: seq<Row>, next: Stack)
    requires lo + 2 < hi < |s| && HostileAt(s, lo, hi) && OnTop(s, lo, hi, stack)
    ensures Follows(s, stack, r, next) && |r| == |s| && HostileAt(r, lo, hi - 1)
    ensures OnTop(r, lo, hi - 1, next) && Depth(next) == Depth(stack) + 1
  {
    HostileParts(s, lo, hi);
    r, next := NextRows(s, stack), NextStack(s, stack);
    assert next == Push(Range(lo, hi - 1), Push(Range(hi - 1, hi), stack.rest));
  }

  ghost predicate OnTop(s: seq<Row>, lo: int, hi: int, stack: Stack)
  {
    InBounds(stack, |s|) && stack.Push? && stack.top == Range(lo, hi)
  }

  lemma {:induction false} HostileIsDeep(s: seq<Row>, lo: nat, hi: nat, stack: Stack, depth: int)
    requires lo + 1 < hi < |s| && HostileAt(s, lo, hi) && OnTop(s, lo, hi, stack) && depth == Depth(stack) + hi - lo - 2
    ensures Reaches(s, stack, depth)
    decreases hi - lo
  {
    if lo + 2 < hi {
      var r, next := HostileNext(s, lo, hi, stack);
      HostileIsDeep(r, lo, hi - 1, next, depth);
      ReachesLater(s, stack, r, next, depth);
    } else {
      ReachesNow(s, stack);
    }
  }

  /** Hostile rows take all the slots that a range can ask for. */
  lemma HostileNeedsAll(s: seq<Row>, lo: nat, hi: nat)
    requires lo + 1 < hi < |s| && HostileAt(s, lo, hi)
    ensures SlotsFor(s, lo, hi) >= 2 * (hi - lo - 1)
  {
    var stack := Push(Range(lo, hi), Empty);
    assert Depth(stack) == 1 && OnTop(s, lo, hi, stack);
    HostileIsDeep(s, lo, hi, stack, hi - lo - 1);
  }

  function HostileFrom(lo: nat, hi: nat): (s: seq<Row>)
    requires lo <= hi
    ensures |s| == hi + 1
  {
    seq(lo, _ => Row(0, 0, 0)) + Hostile(hi - lo)
  }

  /** The demand of a range is exact: no rows ask for more, */
  lemma NeverMore(s: seq<Row>, lo: nat, hi: int)
    requires hi < |s|
    ensures SlotsFor(s, lo, hi) <= 2 * Demand(Range(lo, hi))
  {
    var stack := Push(Range(lo, hi), Empty);
    assert Depth(stack.rest) == 0;
    NeverDeeper(s, stack, Demand(stack.top));
  }

  /** and some rows ask for that much. */
  lemma SometimesAllOfIt(lo: nat, hi: nat)
    requires lo + 1 < hi
    ensures SlotsFor(HostileFrom(lo, hi), lo, hi) == 2 * Demand(Range(lo, hi))
  {
    var s := HostileFrom(lo, hi);
    NeverMore(s, lo, hi);
    assert s[lo..hi + 1] == Hostile(hi - lo);
    HostileNeedsAll(s, lo, hi);
  }

  /** The buffer is large enough for every array exactly up to 514 cells. */
  lemma StackFitsExactly(lo: nat, hi: int)
    ensures (forall s: seq<Row> :: hi < |s| ==> SlotsFor(s, lo, hi) <= STACK_SLOTS) <==> hi - lo <= WIDEST
  {
    if hi - lo <= WIDEST {
      forall s: seq<Row> | hi < |s| ensures SlotsFor(s, lo, hi) <= STACK_SLOTS { NeverMore(s, lo, hi); }
    } else {
      SometimesAllOfIt(lo, hi);
    }
  }
}
