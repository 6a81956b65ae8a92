/** The in-place sorts of common/qalgorithm.h.

    The partition of `Q_Recursion_1K` leaves a cell `c` where its two cursors met.  The right part
    is always `[c, hi]`; the left part is `[lo, c]` when the cell holds a key below the pivot and
    `[lo, c - 1]` otherwise, so the two parts may share the cell `c`.

    The sorts are specified on sequences of rows; a bare key is a row without payload.  Every swap that
    they make exchanges an inversion (a row on the left whose key is not below the key on the
    right), and such a swap never destroys an ordered cut.  That one fact carries the correctness of
    the recursive sort, of its explicit-stack twin and of the parallel sort. */
module Sorting {

  /** One row of the three parallel arrays of `Q_Recursion_1K_2P`. */
  datatype Row = Row(key: int, offset: int, flag: int)

  /** Where the cursors met, and the rows after the swaps. */
  datatype Cut = Cut(rows: seq<Row>, at: nat)

  /** The state of the partition loop. */
  datatype Cursors = Cursors(rows: seq<Row>, i: nat, j: nat)

  /** One pair of bounds on the explicit stack. */
  datatype Range = Range(lo: int, hi: int)

  datatype Stack = Empty | Push(top: Range, rest: Stack)

  function Swap(s: seq<Row>, i: nat, j: nat): (r: seq<Row>)
    requires i < |s| && j < |s|
    ensures |r| == |s|
  {
    s[i := s[j]][j := s[i]]
  }

  /** The left cursor moves right over keys below the pivot. */
  function ScanUp(s: seq<Row>, i: nat, j: nat, pivot: int): (r: nat)
    requires i <= j < |s|
    ensures i <= r <= j
    ensures forall k :: i <= k < r ==> s[k].key < pivot
    ensures r < j ==> s[r].key >= pivot
    decreases j - i
  {
    if i < j && s[i].key < pivot then ScanUp(s, i + 1, j, pivot) else i
  }

  /** The right cursor moves left over keys above the pivot. */
  function ScanDown(s: seq<Row>, i: nat, j: nat, pivot: int): (r: nat)
    requires i <= j < |s|
    ensures i <= r <= j
    ensures forall k :: r < k <= j ==> s[k].key > pivot
    ensures i < r ==> s[r].key <= pivot
    decreases j - i
  {
    if i < j && s[j].key > pivot then ScanDown(s, i, j - 1, pivot) else j
  }

  /** One round of the partition loop: both scans and the swap, from cursors `i < j`. */
  function Round(s: seq<Row>, i: nat, j: nat, pivot: int): (r: Cursors)
    requires i < j < |s|
    ensures i <= r.i <= r.j <= j && r.j - r.i < j - i && |r.rows| == |s|
    ensures forall k :: 0 <= k < |s| && !(i <= k <= j) ==> r.rows[k] == s[k]
  {
    var i' := ScanUp(s, i, j, pivot);
    var j' := ScanDown(s, i', j, pivot);
    if i' == j' then Cursors(s, i', j')
    else if i' + 1 < j' then Cursors(Swap(s, i', j'), i' + 1, j' - 1)
    else Cursors(Swap(s, i', j'), j', j')
  }

  /** The partition loop, from cursors `i` and `j`. */
  function Meet(s: seq<Row>, i: nat, j: nat, pivot: int): (c: Cut)
    requires i <= j < |s|
    ensures i <= c.at <= j && |c.rows| == |s|
    ensures forall k :: 0 <= k < |s| && !(i <= k <= j) ==> c.rows[k] == s[k]
    decreases j - i
  {
    if i == j then Cut(s, i)
    else
      var r := Round(s, i, j, pivot);
      Meet(r.rows, r.i, r.j, pivot)
  }

  function Pivot(s: seq<Row>, lo: nat, hi: nat): int
    requires lo <= hi < |s|
  {
    s[(lo + hi) / 2].key
  }

  function Partition(s: seq<Row>, lo: nat, hi: nat): (c: Cut)
    requires lo <= hi < |s|
    ensures lo <= c.at <= hi && |c.rows| == |s|
    ensures forall k :: 0 <= k < |s| && !(lo <= k <= hi) ==> c.rows[k] == s[k]
  {
    Meet(s, lo, hi, Pivot(s, lo, hi))
  }

  /** The last index of the left part: the meeting cell belongs to both parts when its key is below
      the pivot. */
  function LeftEnd(c: Cut, pivot: int): (e: int)
    requires c.at < |c.rows|
    ensures c.at - 1 <= e <= c.at
  {
    if c.rows[c.at].key < pivot then c.at else c.at - 1
  }

  /** The cut after index `k` is ordered within the window `[b, e]`. */
  ghost predicate OrderedAt(s: seq<Row>, b: int, e: int, k: int)
    requires 0 <= b && e < |s|
  {
    forall i, j :: b <= i <= k < j <= e ==> s[i].key <= s[j].key
  }

  ghost predicate SortedRange(s: seq<Row>, lo: int, hi: int)
    requires 0 <= lo && hi < |s|
  {
    forall i, j :: lo <= i < j <= hi ==> s[i].key <= s[j].key
  }

  /** Exchanging an inversion keeps every ordered cut, in every window around it. */
  lemma SwapKeepsCuts(s: seq<Row>, i: nat, j: nat, b: int, e: int, k: int)
    requires 0 <= b <= i < j <= e < |s|
    requires s[i].key >= s[j].key
    requires OrderedAt(s, b, e, k)
    ensures OrderedAt(Swap(s, i, j), b, e, k)
  {
    if i <= k < j { assert s[i].key == s[j].key; }
  }

  lemma RoundKeepsCuts(s: seq<Row>, i: nat, j: nat, pivot: int, b: int, e: int, k: int)
    requires 0 <= b <= i < j <= e < |s|
    requires OrderedAt(s, b, e, k)
    ensures OrderedAt(Round(s, i, j, pivot).rows, b, e, k)
  {
    var i' := ScanUp(s, i, j, pivot);
    var j' := ScanDown(s, i', j, pivot);
    if i' < j' { SwapKeepsCuts(s, i', j', b, e, k); }
  }

  lemma {:induction false} MeetKeepsCuts(s: seq<Row>, i: nat, j: nat, pivot: int, b: int, e: int, k: int)
    requires 0 <= b <= i <= j <= e < |s|
    requires OrderedAt(s, b, e, k)
    ensures OrderedAt(Meet(s, i, j, pivot).rows, b, e, k)
    decreases j - i
  {
    if i < j {
      RoundKeepsCuts(s, i, j, pivot, b, e, k);
      var r := Round(s, i, j, pivot);
      MeetKeepsCuts(r.rows, r.i, r.j, pivot, b, e, k);
    }
  }

  /** Rows before `i` are at most the pivot, rows after `j` at least. */
  ghost predicate SplitAt(s: seq<Row>, lo: nat, hi: nat, i: nat, j: nat, pivot: int)
    requires i <= |s| && hi < |s|
  {
    && (forall k :: lo <= k < i ==> s[k].key <= pivot)
    && (forall k :: j < k <= hi ==> s[k].key >= pivot)
  }

  lemma RoundSplits(s: seq<Row>, lo: nat, hi: nat, i: nat, j: nat, pivot: int)
    requires lo <= i < j <= hi < |s|
    requires SplitAt(s, lo, hi, i, j, pivot)
    ensures var r := Round(s, i, j, pivot); SplitAt(r.rows, lo, hi, r.i, r.j, pivot)
  {
  }

  /** Everything before the meeting cell is at most the pivot, everything after it at least. */
  lemma {:induction false} MeetSplits(s: seq<Row>, lo: nat, hi: nat, i: nat, j: nat, pivot: int)
    requires lo <= i <= j <= hi < |s|
    requires SplitAt(s, lo, hi, i, j, pivot)
    ensures var c := Meet(s, i, j, pivot); SplitAt(c.rows, lo, hi, c.at, c.at, pivot)
    decreases j - i
  {
    if i < j {
      RoundSplits(s, lo, hi, i, j, pivot);
      var r := Round(s, i, j, pivot);
      MeetSplits(r.rows, lo, hi, r.i, r.j, pivot);
    }
  }

  /** On three or more rows the meeting cell is never the first one, and it is shared only when it
      is not the last one: both parts are strictly smaller than the range. */
  lemma PartsAreSmaller(s: seq<Row>, lo: nat, hi: nat)
    requires lo + 1 < hi < |s|
    ensures var c := Partition(s, lo, hi);
            lo < c.at && lo <= LeftEnd(c, Pivot(s, lo, hi)) < hi
  {
    var pivot := Pivot(s, lo, hi);
    var i := ScanUp(s, lo, hi, pivot);
    var j := ScanDown(s, i, hi, pivot);
    assert i <= (lo + hi) / 2 <= j;
    var r := Round(s, lo, hi, pivot);
    if r.i == r.j { assert Meet(r.rows, r.i, r.j, pivot) == Cut(r.rows, r.i); }
  }

  lemma SplitLeft(c: Cut, lo: nat, hi: nat, pivot: int)
    requires lo < c.at <= hi < |c.rows| && SplitAt(c.rows, lo, hi, c.at, c.at, pivot)
    ensures var k := LeftEnd(c, pivot); SplitAt(c.rows, lo, hi, k + 1, k, pivot)
  {
  }

  lemma PartitionSplits(s: seq<Row>, lo: nat, hi: nat)
    requires lo + 1 < hi < |s|
    ensures var c := Partition(s, lo, hi);
            var k := LeftEnd(c, Pivot(s, lo, hi));
            lo <= k < hi && SplitAt(c.rows, lo, hi, k + 1, k, Pivot(s, lo, hi))
  {
    var c, pivot := Partition(s, lo, hi), Pivot(s, lo, hi);
    PartsAreSmaller(s, lo, hi);
    assert SplitAt(c.rows, lo, hi, c.at, c.at, pivot) by { MeetSplits(s, lo, hi, lo, hi, pivot); }
    SplitLeft(c, lo, hi, pivot);
  }

  /** A cut inside a range is ordered in the whole window when it is ordered in the range and the
      range is in place relative to its outside. */
  lemma InnerCut(s: seq<Row>, lo: nat, hi: nat, b: int, e: int, below: int, k: int, pivot: int)
    requires 0 <= b <= lo <= k < hi <= e < |s|
    requires SplitAt(s, lo, hi, k + 1, k, pivot)
    requires OrderedAt(s, b, e, hi) && OrderedAt(s, b, e, below) && lo - 1 <= below <= lo
    ensures OrderedAt(s, b, e, k)
  {
    forall i, j | b <= i <= k < j <= e ensures s[i].key <= s[j].key {
      if i < lo { assert i <= below < j; }
    }
  }

  /** The cut that a partition leaves behind is ordered, in the whole window, as long as the rows of
      the range were in place relative to the rows outside it; a neighbour that shares the first cell
      is allowed for. */
  lemma PartitionOrders(s: seq<Row>, lo: nat, hi: nat, b: int, e: int)
    requires 0 <= b <= lo && lo + 1 < hi <= e < |s|
    requires OrderedAt(s, b, e, hi)
    requires OrderedAt(s, b, e, lo - 1) || OrderedAt(s, b, e, lo)
    ensures var c := Partition(s, lo, hi);
            OrderedAt(c.rows, b, e, LeftEnd(c, Pivot(s, lo, hi)))
  {
    var pivot := Pivot(s, lo, hi);
    var c := Partition(s, lo, hi);
    var below := if OrderedAt(s, b, e, lo - 1) then lo - 1 else lo;
    PartitionSplits(s, lo, hi);
    MeetKeepsCuts(s, lo, hi, pivot, b, e, hi);
    MeetKeepsCuts(s, lo, hi, pivot, b, e, below);
    InnerCut(c.rows, lo, hi, b, e, below, LeftEnd(c, pivot), pivot);
  }

  /** `Q_Recursion_1K`: what it leaves in the array. */
  function Sort(s: seq<Row>, lo: int, hi: int): (r: seq<Row>)
    requires 0 <= lo && hi < |s|
    ensures |r| == |s|
    ensures forall k :: 0 <= k < |s| && !(lo <= k <= hi) ==> r[k] == s[k]
    decreases hi - lo
  {
    if lo >= hi then s
    else if lo + 1 == hi then
      if s[lo].key > s[hi].key then Swap(s, lo, hi) else s
    else
      PartsAreSmaller(s, lo, hi);
      var c := Partition(s, lo, hi);
      var e := LeftEnd(c, Pivot(s, lo, hi));
      Sort(Sort(c.rows, lo, e), c.at, hi)
  }

  lemma {:induction false} SortKeepsCuts(s: seq<Row>, lo: int, hi: int, b: int, e: int, k: int)
    requires 0 <= b <= lo && hi <= e < |s|
    requires OrderedAt(s, b, e, k)
    ensures OrderedAt(Sort(s, lo, hi), b, e, k)
    decreases hi - lo
  {
    if lo >= hi {
    } else if lo + 1 == hi {
      if s[lo].key > s[hi].key { SwapKeepsCuts(s, lo, hi, b, e, k); }
    } else {
      PartsAreSmaller(s, lo, hi);
      var c := Partition(s, lo, hi);
      var m := LeftEnd(c, Pivot(s, lo, hi));
      MeetKeepsCuts(s, lo, hi, Pivot(s, lo, hi), b, e, k);
      SortKeepsCuts(c.rows, lo, m, b, e, k);
      SortKeepsCuts(Sort(c.rows, lo, m), c.at, hi, b, e, k);
    }
  }

  /** For every array, duplicates included, the range ends up sorted; nothing outside it moves by the
      contract of `Sort`, and that it is a permutation is `SortPermutes`. */
  lemma {:induction false} SortSorts(s: seq<Row>, lo: int, hi: int)
    requires 0 <= lo && hi < |s|
    ensures SortedRange(Sort(s, lo, hi), lo, hi)
    decreases hi - lo
  {
    if lo + 1 < hi {
      PartsAreSmaller(s, lo, hi);
      var c := Partition(s, lo, hi);
      var m := LeftEnd(c, Pivot(s, lo, hi));
      var left := Sort(c.rows, lo, m);
      var both := Sort(left, c.at, hi);
      PartitionOrders(s, lo, hi, lo, hi);
      SortKeepsCuts(c.rows, lo, m, lo, hi, m);
      SortSorts(c.rows, lo, m);
      SortSorts(left, c.at, hi);
      forall i, j | lo <= i < j <= hi ensures both[i].key <= both[j].key {
        if i < c.at {
          SortKeepsCuts(left, c.at, hi, lo, hi, i);
        }
      }
    }
  }

  /** Sorting keeps the order of the whole window around a range whose outside is in place. */
  lemma SortOrders(s: seq<Row>, lo: int, hi: int, b: int, e: int, k: int)
    requires 0 <= b <= lo <= k < hi <= e < |s|
    requires OrderedAt(s, b, e, hi)
    requires OrderedAt(s, b, e, lo - 1) || OrderedAt(s, b, e, lo)
    ensures OrderedAt(Sort(s, lo, hi), b, e, k)
  {
    var r := Sort(s, lo, hi);
    SortSorts(s, lo, hi);
    SortKeepsCuts(s, lo, hi, b, e, hi);
    var below := if OrderedAt(s, b, e, lo - 1) then lo - 1 else lo;
    SortKeepsCuts(s, lo, hi, b, e, below);
    forall i, j | b <= i <= k < j <= e ensures r[i].key <= r[j].key {
      if i < lo { assert i <= below < j; }
    }
  }

  lemma RoundPermutes(s: seq<Row>, i: nat, j: nat, pivot: int)
    requires i < j < |s|
    ensures multiset(Round(s, i, j, pivot).rows) == multiset(s)
  {
  }

  lemma {:induction false} MeetPermutes(s: seq<Row>, i: nat, j: nat, pivot: int)
    requires i <= j < |s|
    ensures multiset(Meet(s, i, j, pivot).rows) == multiset(s)
    decreases j - i
  {
    if i < j {
      var r := Round(s, i, j, pivot);
      RoundPermutes(s, i, j, pivot);
      MeetPermutes(r.rows, r.i, r.j, pivot);
    }
  }

  /** The sort keeps the multiset of whole rows: payloads travel with their keys. */
  lemma {:induction false} SortPermutes(s: seq<Row>, lo: int, hi: int)
    requires 0 <= lo && hi < |s|
    ensures multiset(Sort(s, lo, hi)) == multiset(s)
    decreases hi - lo
  {
    if lo >= hi {
    } else if lo + 1 == hi {
    } else {
      PartsAreSmaller(s, lo, hi);
      var c := Partition(s, lo, hi);
      var m := LeftEnd(c, Pivot(s, lo, hi));
      MeetPermutes(s, lo, hi, Pivot(s, lo, hi));
      SortPermutes(c.rows, lo, m);
      SortPermutes(Sort(c.rows, lo, m), c.at, hi);
    }
  }

  // ---------------------------------------------------------------- the explicit stack

  predicate InBounds(stack: Stack, length: int)
  {
    stack.Push? ==> 0 <= stack.top.lo && stack.top.hi < length && InBounds(stack.rest, length)
  }

  /** Sorts the ranges on a stack, the top one first. */
  function SortAll(s: seq<Row>, stack: Stack): (r: seq<Row>)
    requires InBounds(stack, |s|)
    ensures |r| == |s|
    decreases stack
  {
    if stack.Empty? then s else SortAll(Sort(s, stack.top.lo, stack.top.hi), stack.rest)
  }

  /** How many ranges are still to be popped because of the ranges on the stack, at most: `2 * w - 1`
      for a range of `w + 1` cells. */
  function Pops(stack: Stack): (n: nat)
  {
    if stack.Empty? then 0
    else Pops(stack.rest) + (if stack.top.lo < stack.top.hi then 2 * (stack.top.hi - stack.top.lo) - 1 else 1)
  }

  function Depth(stack: Stack): (n: nat)
  {
    if stack.Empty? then 0 else 1 + Depth(stack.rest)
  }

  /** Pushes a range if it has two cells. */
  function PushRange(stack: Stack, lo: int, hi: int): (r: Stack)
  {
    if lo < hi then Push(Range(lo, hi), stack) else stack
  }

  /** What one round of the loop leaves on the stack: the parts of the popped range, the left on top. */
  function AfterSplit(s: seq<Row>, rest: Stack, lo: nat, hi: nat): (next: Stack)
    requires lo + 1 < hi < |s|
  {
    var c := Partition(s, lo, hi);
    PushRange(PushRange(rest, c.at, hi), lo, LeftEnd(c, Pivot(s, lo, hi)))
  }

  /** Replacing the range on top by its parts leaves the final rows unchanged. */
  lemma PartsSort(s: seq<Row>, rest: Stack, lo: nat, hi: nat)
    requires lo + 1 < hi < |s| && InBounds(rest, |s|)
    ensures InBounds(AfterSplit(s, rest, lo, hi), |s|)
    ensures SortAll(Partition(s, lo, hi).rows, AfterSplit(s, rest, lo, hi)) == SortAll(Sort(s, lo, hi), rest)
  {
    PartsAreSmaller(s, lo, hi);
    var c := Partition(s, lo, hi);
    var e := LeftEnd(c, Pivot(s, lo, hi));
    var mid := PushRange(rest, c.at, hi);
    assert SortAll(c.rows, PushRange(mid, lo, e)) == SortAll(Sort(c.rows, lo, e), mid);
  }

  /** The parts are worth less than the range, in pops still to come. */
  lemma PartsPops(s: seq<Row>, rest: Stack, lo: nat, hi: nat)
    requires lo + 1 < hi < |s|
    ensures Pops(AfterSplit(s, rest, lo, hi)) < Pops(Push(Range(lo, hi), rest))
  {
    PartsAreSmaller(s, lo, hi);
  }
}
