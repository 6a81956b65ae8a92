/** How many list nodes a call of `QQSParallel` (common/qalgorithm.h) needs, exactly: with one node fewer there are an
    array and a number of workers for which the call never returns. */
module ParallelSortNodes {
  import opened Sorting
  import opened SortingStack
  import opened ParallelSort
  import opened ParallelSortLimits
  import opened ParallelSortProgress

  // ---------------------------------------------------------------- rows whose right parts stay wide

  /** Rows of width `w` that the partition shortens by one cell on the left: the rows of width `w - 1` with a new
      minimum in the middle cell, whose old row comes first. */
  function Sinking(w: nat): (s: seq<Row>)
    ensures |s| == w + 1 && forall i :: 0 <= i <= w ==> s[i].key + w >= 0
  {
    if w <= 1 then seq(w + 1, _ => Row(0, 0, 0))
    else
      var t := Sinking(w - 1);
      [t[w / 2 - 1]] + t[w / 2 - 1 := Row(0 - w, 0, 0)]
  }

  ghost predicate SinkingAt(s: seq<Row>, lo: nat, hi: nat)
    requires lo <= hi < |s|
  {
    s[lo..hi + 1] == Sinking(hi - lo)
  }

  lemma AllAbove(t: seq<Row>, i: nat, j: nat, pivot: int)
    requires i <= j < |t| && forall k :: i <= k <= j ==> t[k].key > pivot
    ensures Meet(t, i, j, pivot) == Cut(t, i)
  {
    assert ScanUp(t, i, j, pivot) == i;
    assert ScanDown(t, i, j, pivot) == i;
    if i < j {
      assert Round(t, i, j, pivot) == Cursors(t, i, i);
      assert Meet(t, i, i, pivot) == Cut(t, i);
    }
  }

  /** The partition moves the minimum to the front and cuts after it. */
  lemma MinimumInMiddle(s: seq<Row>, lo: nat, hi: nat, mid: nat)
    requires lo + 1 < hi < |s| && mid == (lo + hi) / 2
    requires forall k :: lo <= k <= hi && k != mid ==> s[k].key > s[mid].key
    ensures Meet(s, lo, hi, s[mid].key) == Cut(Swap(s, lo, mid), lo + 1)
    ensures Swap(s, lo, mid)[lo + 1].key > s[mid].key
  {
    var pivot, t := s[mid].key, Swap(s, lo, mid);
    assert ScanUp(s, lo, hi, pivot) == lo;
    assert ScanDown(s, lo, hi, pivot) == mid;
    if lo + 1 < mid {
      MeetStep(s, lo, hi, pivot, Cursors(t, lo + 1, mid - 1));
      AllAbove(t, lo + 1, mid - 1, pivot);
    } else {
      MeetStep(s, lo, hi, pivot, Cursors(t, mid, mid));
    }
  }

  lemma SinkingMiddle(s: seq<Row>, lo: nat, hi: nat, mid: nat)
    requires lo + 1 < hi < |s| && mid == (lo + hi) / 2 && SinkingAt(s, lo, hi)
    ensures forall k :: lo <= k <= hi && k != mid ==> s[k].key > s[mid].key
    ensures SinkingAt(Swap(s, lo, mid), lo + 1, hi)
  {
    var w := hi - lo;
    var t, h := Sinking(w - 1), s[lo..hi + 1];
    assert mid - lo == w / 2;
    assert forall k :: lo <= k <= hi ==> s[k] == h[k - lo];
    assert h[w / 2] == Row(0 - w, 0, 0) && h[0] == t[w / 2 - 1];
    var r := Swap(s, lo, mid);
    assert r[lo + 1..hi + 1] == t;
  }

  /** Partitioning sinking rows leaves one cell on the left and sinking rows on the right. */
  lemma SinkingParts(s: seq<Row>, lo: nat, hi: nat)
    requires lo + 1 < hi < |s| && SinkingAt(s, lo, hi)
    ensures var c := Partition(s, lo, hi);
            c.at == lo + 1 && LeftEnd(c, Pivot(s, lo, hi)) == lo && SinkingAt(c.rows, lo + 1, hi)
  {
    var mid := (lo + hi) / 2;
    SinkingMiddle(s, lo, hi, mid);
    MinimumInMiddle(s, lo, hi, mid);
  }

  // ---------------------------------------------------------------- workers that wait for one another

  /** The first `j` of `m` workers have queued their right parts and wait for a node for their left cells. */
  function Queue(c: Config, j: nat, m: nat): (ws: seq<Worker>)
    ensures |ws| == m
  {
    seq(m, i requires 0 <= i < m => if i < j then RightQueued(Range(c.begin + i, c.begin + i)) else Waiting)
  }

  /** Worker `j` is at work, the workers before it wait. */
  function Hand(c: Config, rows: seq<Row>, flag: int, idle: nat, busy: seq<Range>, j: nat, m: nat, x: Worker): State
    requires j < m
  {
    State(rows, flag, idle, busy, Queue(c, j, m)[j := x], Queued)
  }

  /** Worker `j` does its next statement. */
  lemma Next(c: Config, states: seq<State>, steps: seq<Step>, rows: seq<Row>, flag: int, idle: nat, busy: seq<Range>,
      j: nat, m: nat, x: Worker, s': State) returns (states': seq<State>, steps': seq<Step>)
    requires ValidConfig(c) && j < m && ComesTo(c, states, steps, Hand(c, rows, flag, idle, busy, j, m, x))
    requires (x.Waiting? ==> busy != []) && (x.Split? ==> idle > 0) && !x.RightQueued? && (x.Took? ==> !IsLeaf(c, x.r))
    requires var s := Hand(c, rows, flag, idle, busy, j, m, x);
             Sane(c, s) && Enabled(c, s, Work(j)) ==> s' == Do(c, s, Work(j))
    ensures ComesTo(c, states', steps', s')
  {
    var s := Hand(c, rows, flag, idle, busy, j, m, x);
    RunInv(c, states, steps, |states| - 1);
    if Locks(x) { assert forall w :: 0 <= w < m ==> !Holder(s.workers[w]); }
    assert s.workers[j] == x;
    states', steps' := Extend(c, states, steps, s, Work(j), s');
  }

  /** It takes the only queued range, splits it and takes a node for the right part, if there is one. */
  lemma TakeAndSplit(c: Config, states: seq<State>, steps: seq<Step>, rows: seq<Row>, flag: int, idle: nat, lo: nat,
      j: nat, m: nat) returns (states': seq<State>, steps': seq<Step>, rows': seq<Row>)
    requires ValidConfig(c) && j < m && lo < c.end && !IsLeaf(c, Range(lo, c.end))
    requires |rows| == |c.rows| && SinkingAt(rows, lo, c.end)
    requires ComesTo(c, states, steps, Hand(c, rows, flag, idle, [Range(lo, c.end)], j, m, Waiting))
    ensures |rows'| == |rows| && SinkingAt(rows', lo + 1, c.end)
    ensures ComesTo(c, states', steps',
              Hand(c, rows', flag, idle, [], j, m, Split(Range(lo, lo), Range(lo + 1, c.end))))
  {
    var r := Range(lo, c.end);
    var took := Hand(c, rows, flag, idle, [], j, m, Took(r));
    assert [r][1..] == [];
    states', steps' := Next(c, states, steps, rows, flag, idle, [r], j, m, Waiting, took);
    SinkingParts(rows, lo, c.end);
    rows' := Partition(rows, lo, c.end).rows;
    var x := Split(Range(lo, lo), Range(lo + 1, c.end));
    states', steps' := Next(c, states', steps', rows, flag, idle, [], j, m, Took(r),
      Hand(c, rows', flag, idle, [], j, m, x));
  }

  lemma QueueRightPart(c: Config, states: seq<State>, steps: seq<Step>, rows: seq<Row>, flag: int, idle: nat,
      left: Range, right: Range, j: nat, m: nat) returns (states': seq<State>, steps': seq<Step>)
    requires ValidConfig(c) && j < m && idle > 0
    requires ComesTo(c, states, steps, Hand(c, rows, flag, idle, [], j, m, Split(left, right)))
    ensures ComesTo(c, states', steps', Hand(c, rows, flag + 1, idle - 1, [right], j, m, RightQueued(left)))
  {
    states', steps' := Next(c, states, steps, rows, flag, idle, [], j, m, Split(left, right),
      Hand(c, rows, flag, idle - 1, [], j, m, RightNode(left, right)));
    states', steps' := Next(c, states', steps', rows, flag, idle - 1, [], j, m, RightNode(left, right),
      Hand(c, rows, flag + 1, idle - 1, [], j, m, RightCounting(left, right)));
    states', steps' := Next(c, states', steps', rows, flag + 1, idle - 1, [], j, m, RightCounting(left, right),
      Hand(c, rows, flag + 1, idle - 1, [], j, m, RightCounted(left, right)));
    assert [] + [right] == [right];
    states', steps' := Next(c, states', steps', rows, flag + 1, idle - 1, [], j, m, RightCounted(left, right),
      Hand(c, rows, flag + 1, idle - 1, [right], j, m, RightQueued(left)));
  }

  /** `j` workers wait, the range after their left cells is queued. */
  function Waited(c: Config, rows: seq<Row>, j: nat, m: nat): State
    requires j < c.nodes
  {
    State(rows, 2 + j, c.nodes - 1 - j, [Range(c.begin + j, c.end)], Queue(c, j, m), Queued)
  }

  /** One more worker waits. */
  lemma OneMoreWaits(c: Config, states: seq<State>, steps: seq<Step>, rows: seq<Row>, j: nat, m: nat)
      returns (states': seq<State>, steps': seq<Step>, rows': seq<Row>)
    requires ValidConfig(c) && j < m && j + 1 < c.nodes && c.begin + j < c.end && !IsLeaf(c, Range(c.begin + j, c.end))
    requires |rows| == |c.rows| && SinkingAt(rows, c.begin + j, c.end)
    requires ComesTo(c, states, steps, Waited(c, rows, j, m))
    ensures |rows'| == |c.rows| && SinkingAt(rows', c.begin + j + 1, c.end)
    ensures ComesTo(c, states', steps', Waited(c, rows', j + 1, m))
  {
    var lo, idle := c.begin + j, c.nodes - 1 - j;
    assert Queue(c, j, m)[j := Waiting] == Queue(c, j, m);
    states', steps', rows' := TakeAndSplit(c, states, steps, rows, 2 + j, idle, lo, j, m);
    var left, right := Range(lo, lo), Range(lo + 1, c.end);
    states', steps' := QueueRightPart(c, states', steps', rows', 2 + j, idle, left, right, j, m);
    assert Queue(c, j, m)[j := RightQueued(Range(lo, lo))] == Queue(c, j + 1, m);
  }

  /** The call up to its first range on the list. */
  lemma FirstQueued(c: Config, m: nat) returns (states: seq<State>, steps: seq<Step>)
    requires ValidConfig(c) && c.nodes > 0
    ensures ComesTo(c, states, steps, Waited(c, c.rows, 0, m))
  {
    var ws := Queue(c, 0, m);
    var s := State(c.rows, 1, c.nodes, [], ws, Start);
    states, steps := [s], [];
    states, steps := Extend(c, states, steps, s, Call, s.(idle := c.nodes - 1, caller := Loaded));
    s := s.(idle := c.nodes - 1, caller := Loaded);
    states, steps := Extend(c, states, steps, s, Call, s.(flag := 2, caller := Counted));
    s := s.(flag := 2, caller := Counted);
    assert [] + [Whole(c)] == [Whole(c)];
    states, steps := Extend(c, states, steps, s, Call, Waited(c, c.rows, 0, m));
  }

  lemma {:induction false} ManyWait(c: Config, j: nat, m: nat)
      returns (states: seq<State>, steps: seq<Step>, rows: seq<Row>)
    requires ValidConfig(c) && j <= m && j < c.nodes && c.begin <= c.end && SinkingAt(c.rows, c.begin, c.end)
    requires j > 0 ==> c.end - c.begin - j + 1 >= c.threshold
    ensures c.begin + j <= c.end && |rows| == |c.rows| && SinkingAt(rows, c.begin + j, c.end)
    ensures ComesTo(c, states, steps, Waited(c, rows, j, m))
  {
    if j == 0 {
      rows := c.rows;
      states, steps := FirstQueued(c, m);
    } else {
      states, steps, rows := ManyWait(c, j - 1, m);
      states, steps, rows := OneMoreWaits(c, states, steps, rows, j - 1, m);
    }
  }

  /** Every node is in the hand of a worker that waits for another one, or on the list that nobody is free to read. */
  lemma AllWaitForNodes(c: Config, rows: seq<Row>, m: nat)
    requires m > 0 && c.nodes == m + 1
    ensures Stuck(c, Waited(c, rows, m, m))
  {
  }

  lemma OneWaits(c: Config, states: seq<State>, steps: seq<Step>)
      returns (states': seq<State>, steps': seq<Step>, s: State)
    requires ValidConfig(c) && c.nodes == 1 && c.begin < c.end && SinkingAt(c.rows, c.begin, c.end)
    requires !IsLeaf(c, Whole(c)) && ComesTo(c, states, steps, Waited(c, c.rows, 0, 1))
    ensures ComesTo(c, states', steps', s) && s.workers != [] && s.caller == Queued && Stuck(c, s)
  {
    assert Queue(c, 0, 1)[0 := Waiting] == Queue(c, 0, 1);
    var rows;
    states', steps', rows := TakeAndSplit(c, states, steps, c.rows, 2, 0, c.begin, 0, 1);
    s := Last(states');
  }

  function SinkingFrom(lo: nat, hi: nat): (s: seq<Row>)
    requires lo <= hi
    ensures |s| == hi + 1
  {
    seq(lo, _ => Row(0, 0, 0)) + Sinking(hi - lo)
  }

  /** The number of nodes is exact: for every range and threshold, and for every smaller number of nodes, there are an
      array, a number of workers and a run that gets stuck before `quick_sort` returns. */
  lemma FewerNodesGetStuck(begin: nat, end: int, threshold: int, nodes: nat)
      returns (c: Config, states: seq<State>, steps: seq<Step>)
    requires threshold >= 2 && nodes < (if end - begin < threshold then 1 else end - begin - threshold + 3)
    ensures c.begin == begin && c.end == end && c.threshold == threshold && c.nodes == nodes && ValidConfig(c)
    ensures nodes < Needed(c) && Run(c, states, steps)
    ensures Last(states).workers != [] && Last(states).caller != Returned && Stuck(c, Last(states))
  {
    if nodes == 0 {
      c := Config(begin, end, threshold, 0, if end < 0 then [] else seq(end + 1, _ => Row(0, 0, 0)));
      states, steps := [State(c.rows, 1, 0, [], [Waiting], Start)], [];
    } else {
      c := Config(begin, end, threshold, nodes, SinkingFrom(begin, end));
      assert c.rows[begin..end + 1] == Sinking(end - begin);
      if nodes == 1 {
        states, steps := FirstQueued(c, 1);
        var s;
        states, steps, s := OneWaits(c, states, steps);
      } else {
        var rows;
        states, steps, rows := ManyWait(c, nodes - 1, nodes - 1);
        AllWaitForNodes(c, rows, nodes - 1);
      }
    }
  }
}
