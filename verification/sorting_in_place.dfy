/** The sorts of common/qalgorithm.h on arrays: the recursive sort of one key array, its twin with a
    1024-slot stack, and the recursive sort of three parallel arrays. */
module SortingInPlace {
  import opened Sorting
  import opened SortingStack

  /** A key array as rows without payload. */
  function Bare(keys: seq<int>): (rows: seq<Row>)
    ensures |rows| == |keys|
    ensures forall i :: 0 <= i < |keys| ==> rows[i] == Row(keys[i], 0, 0)
  {
    seq(|keys|, i requires 0 <= i < |keys| => Row(keys[i], 0, 0))
  }

  /** Three parallel arrays as rows. */
  function Zip(keys: seq<int>, offsets: seq<int>, flags: seq<int>): (rows: seq<Row>)
    requires |keys| == |offsets| == |flags|
    ensures |rows| == |keys|
    ensures forall i :: 0 <= i < |keys| ==> rows[i] == Row(keys[i], offsets[i], flags[i])
  {
    seq(|keys|, i requires 0 <= i < |keys| => Row(keys[i], offsets[i], flags[i]))
  }

  method SwapKeys(a: array<int>, i: nat, j: nat)
    requires i < j < a.Length
    modifies a
    ensures Bare(a[..]) == Swap(Bare(old(a[..])), i, j)
  {
    a[i], a[j] := a[j], a[i];
  }

  /** One round of the partition loop on a key array: both scans and the swap. */
  method RoundKeys(a: array<int>, lo: int, hi: int, pivot: int) returns (i: nat, j: nat)
    requires 0 <= lo < hi < a.Length
    modifies a
    ensures Round(Bare(old(a[..])), lo, hi, pivot) == Cursors(Bare(a[..]), i, j)
  {
    ghost var s := Bare(a[..]);
    i, j := lo, hi;
    while i < hi && a[i] < pivot
      invariant lo <= i <= hi && ScanUp(s, i, hi, pivot) == ScanUp(s, lo, hi, pivot)
    {
      i := i + 1;
    }
    while i < j && a[j] > pivot
      invariant i <= j <= hi && ScanDown(s, i, j, pivot) == ScanDown(s, i, hi, pivot)
    {
      j := j - 1;
    }
    if i < j {
      SwapKeys(a, i, j);
      i := i + 1;
      if i < j { j := j - 1; }
    }
  }

  /** The partition loop on a key array. */
  method PartitionKeys(a: array<int>, lo: int, hi: int) returns (at: int, leftEnd: int)
    requires 0 <= lo < hi < a.Length
    modifies a
    ensures var s := Bare(old(a[..])); var c := Partition(s, lo, hi);
            Bare(a[..]) == c.rows && at == c.at && leftEnd == LeftEnd(c, Pivot(s, lo, hi))
  {
    ghost var start := Bare(a[..]);
    var i, j := lo, hi;
    var pivot := a[(lo + hi) / 2];
    while i < j
      invariant lo <= i <= j <= hi
      invariant Meet(Bare(a[..]), i, j, pivot) == Meet(start, lo, hi, pivot)
      decreases j - i
    {
      i, j := RoundKeys(a, i, j, pivot);
    }
    at := i;
    if a[i] < pivot { i := i + 1; }
    leftEnd := i - 1;
  }

  /** `Q_Recursion_1K` */
  method Recursion1K(a: array<int>, lo: int, hi: int)
    requires 0 <= lo && hi < a.Length
    modifies a
    ensures Bare(a[..]) == Sort(Bare(old(a[..])), lo, hi)
    decreases hi - lo
  {
    if lo >= hi { return; }
    if lo + 1 == hi {
      if a[lo] > a[hi] {
        SwapKeys(a, lo, hi);
      }
      return;
    }
    PartsAreSmaller(Bare(a[..]), lo, hi);
    var at, leftEnd := PartitionKeys(a, lo, hi);
    if leftEnd > lo { Recursion1K(a, lo, leftEnd); }
    if at < hi { Recursion1K(a, at, hi); }
  }

  /** The buffer holds the stack, two slots for a range. */
  ghost predicate Holds(buf: seq<int>, stack: Stack)
  {
    stack.Push? ==>
      var pos := 2 * Depth(stack.rest);
      && pos + 2 <= |buf| && buf[pos] == stack.top.lo && buf[pos + 1] == stack.top.hi
      && Holds(buf, stack.rest)
  }

  lemma {:induction false} HoldsBelow(buf: seq<int>, buf': seq<int>, stack: Stack)
    requires Holds(buf, stack) && |buf'| == |buf| && 2 * Depth(stack) <= |buf|
    requires forall i :: 0 <= i < 2 * Depth(stack) ==> buf'[i] == buf[i]
    ensures Holds(buf', stack)
  {
    if stack.Push? { HoldsBelow(buf, buf', stack.rest); }
  }

  /** A range of two or more cells goes on the stack, its low end first. */
  method PushIfWide(buf: array<int>, pos: nat, lo: int, hi: int, ghost stack: Stack) returns (top: nat)
    requires Holds(buf[..], stack) && pos == 2 * Depth(stack)
    requires pos <= buf.Length && (lo < hi ==> pos + 2 <= buf.Length)
    modifies buf
    ensures top == 2 * Depth(PushRange(stack, lo, hi)) && Holds(buf[..], PushRange(stack, lo, hi))
  {
    top := pos;
    if lo < hi {
      buf[top], buf[top + 1] := lo, hi;
      HoldsBelow(old(buf[..]), buf[..], stack);
      top := top + 2;
    }
  }

  /** Pushes the parts of a range that was split, the left one last. */
  method PushParts(buf: array<int>, pos: nat, lo: int, leftEnd: int, at: int, hi: int, ghost rest: Stack)
      returns (top: nat)
    requires Holds(buf[..], rest) && pos == 2 * Depth(rest)
    requires 2 * Depth(PushRange(PushRange(rest, at, hi), lo, leftEnd)) <= buf.Length
    modifies buf
    ensures var next := PushRange(PushRange(rest, at, hi), lo, leftEnd);
            top == 2 * Depth(next) && Holds(buf[..], next)
  {
    top := PushIfWide(buf, pos, at, hi, rest);
    top := PushIfWide(buf, top, lo, leftEnd, PushRange(rest, at, hi));
  }

  /** A range of at most two cells. */
  method SortPair(a: array<int>, lo: int, hi: int)
    requires 0 <= lo && hi < a.Length && hi <= lo + 1
    modifies a
    ensures Bare(a[..]) == Sort(Bare(old(a[..])), lo, hi)
  {
    if lo < hi && a[lo] > a[hi] { SwapKeys(a, lo, hi); }
  }

  /** One round of the loop, once the top range has been popped: it is sorted on the spot, or split and its parts
      are pushed. */
  method HandleTop(a: array<int>, buf: array<int>, pos: nat, lo: int, hi: int, ghost rest: Stack)
      returns (top: nat, ghost next: Stack)
    requires a != buf && 0 <= lo && hi < a.Length && InBounds(rest, a.Length)
    requires pos == 2 * Depth(rest) && Holds(buf[..], rest)
    requires 2 * Depth(NextStack(Bare(a[..]), Push(Range(lo, hi), rest))) <= buf.Length
    modifies a, buf
    ensures top == 2 * Depth(next) && Holds(buf[..], next)
    ensures Follows(Bare(old(a[..])), Push(Range(lo, hi), rest), Bare(a[..]), next)
  {
    if lo + 1 < hi {
      ghost var s := Bare(a[..]);
      PartsSort(s, rest, lo, hi);
      var at, leftEnd := PartitionKeys(a, lo, hi);
      next := AfterSplit(s, rest, lo, hi);
      top := PushParts(buf, pos, lo, leftEnd, at, hi, rest);
    } else {
      SortPair(a, lo, hi);
      top, next := pos, rest;
    }
  }

  /** What the loop has in hand: the buffer holds the stack, and the rest of the run depends on nothing else. */
  ghost predicate Running(s: seq<Row>, stack: Stack, peak: nat, start: seq<Row>, lo: int, hi: int)
    requires 0 <= lo && hi < |start|
  {
    && |s| == |start| && InBounds(stack, |s|) && Within(stack, STACK_SLOTS / 2)
    && SortAll(s, stack) == Sort(start, lo, hi)
    && 2 * Max(peak, Deepest(s, stack)) == SlotsFor(start, lo, hi)
  }

  lemma RunningStarts(start: seq<Row>, lo: int, hi: int)
    requires 0 <= lo && hi < |start| && hi - lo <= WIDEST
    ensures Running(start, Push(Range(lo, hi), Empty), 0, start, lo, hi)
  {
    assert Depth(Empty) == 0;
  }

  lemma RunningNext(s: seq<Row>, stack: Stack, peak: nat, start: seq<Row>, lo: int, hi: int, r: seq<Row>, next: Stack)
    requires 0 <= lo && hi < |start| && Running(s, stack, peak, start, lo, hi) && Follows(s, stack, r, next)
    ensures Running(r, next, Max(peak, Depth(stack)), start, lo, hi)
  {
    DeepestNext(s, stack, r, next);
    WithinNext(s, stack, r, next, STACK_SLOTS / 2);
    SortAllNext(s, stack, r, next);
  }

  lemma SortAllNext(s: seq<Row>, stack: Stack, r: seq<Row>, next: Stack)
    requires Follows(s, stack, r, next)
    ensures InBounds(next, |r|) && SortAll(r, next) == SortAll(s, stack)
  {
    var lo, hi := stack.top.lo, stack.top.hi;
    if lo + 1 < hi { PartsSort(s, stack.rest, lo, hi); }
  }

  lemma WithinDepth(stack: Stack, cap: nat)
    requires Within(stack, cap)
    ensures Depth(stack) <= cap
  {
  }

  lemma RunningEnds(s: seq<Row>, stack: Stack, peak: nat, start: seq<Row>, lo: int, hi: int)
    requires 0 <= lo && hi < |start| && Running(s, stack, peak, start, lo, hi) && Depth(stack) == 0
    ensures s == Sort(start, lo, hi) && 2 * peak == SlotsFor(start, lo, hi)
  {
  }

  /** There is room for what the next round leaves on the stack. */
  lemma RoomForNext(s: seq<Row>, stack: Stack)
    requires InBounds(stack, |s|) && stack.Push? && Within(stack, STACK_SLOTS / 2)
    ensures 2 * Depth(NextStack(s, stack)) <= STACK_SLOTS
  {
    WithinNext(s, stack, NextRows(s, stack), NextStack(s, stack), STACK_SLOTS / 2);
    WithinDepth(NextStack(s, stack), STACK_SLOTS / 2);
  }

  /** One round of the loop. */
  method RoundOfStack(a: array<int>, buf: array<int>, pos: nat, ghost stack: Stack)
      returns (top: nat, ghost next: Stack)
    requires a != buf && buf.Length == STACK_SLOTS && stack.Push? && pos == 2 * Depth(stack) && Holds(buf[..], stack)
    requires InBounds(stack, a.Length) && Within(stack, STACK_SLOTS / 2)
    modifies a, buf
    ensures top == 2 * Depth(next) && Holds(buf[..], next) && Follows(Bare(old(a[..])), stack, Bare(a[..]), next)
  {
    RoomForNext(Bare(a[..]), stack);
    top := pos - 2;
    var l, r := buf[top], buf[top + 1];
    assert stack == Push(Range(l, r), stack.rest);
    top, next := HandleTop(a, buf, top, l, r, stack.rest);
  }

  /** `Q_Unrecursion_1K`: the same final array as the recursive sort, without ever leaving the 1024 slots, for ranges
      of at most 514 cells; `slots` counts the slots in use at the highest point. */
  method Unrecursion1K(a: array<int>, lo: int, hi: int) returns (ghost slots: nat)
    requires 0 <= lo && hi < a.Length
    requires hi - lo <= WIDEST
    modifies a
    ensures Bare(a[..]) == Sort(Bare(old(a[..])), lo, hi)
    ensures slots == SlotsFor(Bare(old(a[..])), lo, hi) <= STACK_SLOTS
  {
    ghost var start := Bare(a[..]);
    var buf := new int[STACK_SLOTS];
    buf[0], buf[1] := lo, hi;
    var pos := 2;
    ghost var stack, peak := Push(Range(lo, hi), Empty), 0;
    assert Depth(stack) == 1;
    RunningStarts(start, lo, hi);
    NeverMore(start, lo, hi);
    while pos != 0
      invariant pos == 2 * Depth(stack) && Holds(buf[..], stack) && fresh(buf) && buf.Length == STACK_SLOTS
      invariant Running(Bare(a[..]), stack, peak, start, lo, hi)
      decreases Pops(stack)
    {
      ghost var s, next := Bare(a[..]), stack;
      pos, next := RoundOfStack(a, buf, pos, stack);
      RunningNext(s, stack, peak, start, lo, hi, Bare(a[..]), next);
      DeepestNext(s, stack, Bare(a[..]), next);
      stack, peak := next, Max(peak, Depth(stack));
    }
    RunningEnds(Bare(a[..]), stack, peak, start, lo, hi);
    slots := 2 * peak;
  }

  method SwapRows(k: array<int>, o: array<int>, f: array<int>, i: nat, j: nat)
    requires k.Length == o.Length == f.Length && k != o && k != f && o != f
    requires i < j < k.Length
    modifies k, o, f
    ensures Zip(k[..], o[..], f[..]) == Swap(Zip(old(k[..]), old(o[..]), old(f[..])), i, j)
  {
    k[i], k[j] := k[j], k[i];
    o[i], o[j] := o[j], o[i];
    f[i], f[j] := f[j], f[i];
  }

  /** One round of the partition loop on three arrays: both scans and the swap. */
  method RoundRows(k: array<int>, o: array<int>, f: array<int>, lo: int, hi: int, pivot: int) returns (i: nat, j: nat)
    requires k.Length == o.Length == f.Length && k != o && k != f && o != f
    requires 0 <= lo < hi < k.Length
    modifies k, o, f
    ensures Round(Zip(old(k[..]), old(o[..]), old(f[..])), lo, hi, pivot) == Cursors(Zip(k[..], o[..], f[..]), i, j)
  {
    ghost var s := Zip(k[..], o[..], f[..]);
    i, j := lo, hi;
    while i < hi && k[i] < pivot
      invariant lo <= i <= hi && ScanUp(s, i, hi, pivot) == ScanUp(s, lo, hi, pivot)
    {
      i := i + 1;
    }
    while i < j && k[j] > pivot
      invariant i <= j <= hi && ScanDown(s, i, j, pivot) == ScanDown(s, i, hi, pivot)
    {
      j := j - 1;
    }
    if i < j {
      SwapRows(k, o, f, i, j);
      i := i + 1;
      if i < j { j := j - 1; }
    }
  }

  /** The partition loop on three arrays. */
  method PartitionRows(k: array<int>, o: array<int>, f: array<int>, lo: int, hi: int) returns (at: int, leftEnd: int)
    requires k.Length == o.Length == f.Length && k != o && k != f && o != f
    requires 0 <= lo < hi < k.Length
    modifies k, o, f
    ensures var s := Zip(old(k[..]), old(o[..]), old(f[..])); var c := Partition(s, lo, hi);
            Zip(k[..], o[..], f[..]) == c.rows && at == c.at && leftEnd == LeftEnd(c, Pivot(s, lo, hi))
  {
    ghost var start := Zip(k[..], o[..], f[..]);
    var i, j := lo, hi;
    var pivot := k[(lo + hi) / 2];
    while i < j
      invariant lo <= i <= j <= hi
      invariant Meet(Zip(k[..], o[..], f[..]), i, j, pivot) == Meet(start, lo, hi, pivot)
      decreases j - i
    {
      i, j := RoundRows(k, o, f, i, j, pivot);
    }
    at := i;
    if k[i] < pivot { i := i + 1; }
    leftEnd := i - 1;
  }

  /** `Q_Recursion_1K_2P`: the rows of the three arrays are sorted as rows. */
  method Recursion1K2P(k: array<int>, o: array<int>, f: array<int>, lo: int, hi: int)
    requires k.Length == o.Length == f.Length && k != o && k != f && o != f
    requires 0 <= lo && hi < k.Length
    modifies k, o, f
    ensures Zip(k[..], o[..], f[..]) == Sort(Zip(old(k[..]), old(o[..]), old(f[..])), lo, hi)
    decreases hi - lo
  {
    if lo >= hi { return; }
    if lo + 1 == hi {
      if k[lo] > k[hi] {
        SwapRows(k, o, f, lo, hi);
      }
      return;
    }
    PartsAreSmaller(Zip(k[..], o[..], f[..]), lo, hi);
    var at, leftEnd := PartitionRows(k, o, f, lo, hi);
    if leftEnd > lo { Recursion1K2P(k, o, f, lo, leftEnd); }
    if at < hi { Recursion1K2P(k, o, f, at, hi); }
  }

  /** `Q_Binary_Search_Default`, on any array: an index that it returns holds the key; on a sorted
      range it returns one exactly when the key is there. */
  method BinarySearch(a: array<int>, lo: int, hi: int, key: int) returns (r: int)
    requires 0 <= lo && hi < a.Length
    ensures r == -1 || (lo <= r <= hi && a[r] == key)
    ensures (forall i, j :: lo <= i < j <= hi ==> a[i] <= a[j]) && r == -1 ==>
              forall i :: lo <= i <= hi ==> a[i] != key
  {
    var b, e := lo, hi;
    while b <= e
      invariant lo <= b && e <= hi
      invariant (forall i, j :: lo <= i < j <= hi ==> a[i] <= a[j]) ==>
                  forall i :: lo <= i <= hi && !(b <= i <= e) ==> a[i] != key
      decreases e - b
    {
      var mid := (b + e) / 2;
      if a[mid] < key {
        b := mid + 1;
      } else if a[mid] > key {
        e := mid - 1;
      } else {
        return mid;
      }
    }
    return -1;
  }
}
