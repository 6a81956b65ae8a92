/** Runs of `QQSParallel` (common/qalgorithm.h) that show where its promises end: leaves that overrun their buffer, and
    a return while a worker still holds the lock. */
module ParallelSortLimits {
  import opened Sorting
  import opened SortingStack
  import opened ParallelSort

  // ---------------------------------------------------------------- runs, step by step

  function Last<T>(xs: seq<T>): T
    requires xs != []
  {
    xs[|xs| - 1]
  }

  /** A run that has come to a state. */
  ghost predicate ComesTo(c: Config, states: seq<State>, steps: seq<Step>, s: State)
    requires ValidConfig(c)
  {
    Run(c, states, steps) && Last(states) == s
  }

  lemma Extend(c: Config, states: seq<State>, steps: seq<Step>, s: State, step: Step, s': State)
      returns (states': seq<State>, steps': seq<Step>)
    requires ValidConfig(c) && ComesTo(c, states, steps, s) && Steps(c, s, step, s')
    ensures ComesTo(c, states', steps', s')
  {
    states', steps' := states + [s'], steps + [step];
    forall i | 0 <= i < |steps'| ensures Steps(c, states'[i], steps'[i], states'[i + 1]) {
      if i < |steps| { assert Steps(c, states[i], steps[i], states[i + 1]); }
    }
  }

  /** One worker and four list nodes. */
  function Alone(rows: seq<Row>, flag: int, idle: nat, busy: seq<Range>, w: Worker): State
  {
    State(rows, flag, idle, busy, [w], Queued)
  }

  lemma Go(c: Config, states: seq<State>, steps: seq<Step>, s: State, s': State)
      returns (states': seq<State>, steps': seq<Step>)
    requires ValidConfig(c) && ComesTo(c, states, steps, s) && Enabled(c, s, Work(0)) && !Overruns(c, s, 0)
    requires Sane(c, s) ==> s' == Do(c, s, Work(0))
    ensures ComesTo(c, states', steps', s')
  {
    RunInv(c, states, steps, |states| - 1);
    states', steps' := Extend(c, states, steps, s, Work(0), s');
  }

  /** The call up to the first pop. */
  lemma FirstTake(c: Config) returns (states: seq<State>, steps: seq<Step>)
    requires ValidConfig(c) && c.nodes == 4
    ensures ComesTo(c, states, steps, Alone(c.rows, 2, 3, [], Took(Whole(c))))
  {
    var s := State(c.rows, 1, 4, [], [Waiting], Start);
    states, steps := [s], [];
    states, steps := Extend(c, states, steps, s, Call, State(c.rows, 1, 3, [], [Waiting], Loaded));
    s := State(c.rows, 1, 3, [], [Waiting], Loaded);
    states, steps := Extend(c, states, steps, s, Call, State(c.rows, 2, 3, [], [Waiting], Counted));
    s := State(c.rows, 2, 3, [], [Waiting], Counted);
    assert [] + [Whole(c)] == [Whole(c)];
    states, steps := Extend(c, states, steps, s, Call, Alone(c.rows, 2, 3, [Whole(c)], Waiting));
    states, steps := Go(c, states, steps, Alone(c.rows, 2, 3, [Whole(c)], Waiting),
        Alone(c.rows, 2, 3, [], Took(Whole(c))));
  }

  /** Two statements of a worker, one after the other. */
  lemma GoTwice(c: Config, states: seq<State>, steps: seq<Step>, s: State, mid: State, s': State)
      returns (states': seq<State>, steps': seq<Step>)
    requires ValidConfig(c) && ComesTo(c, states, steps, s) && Enabled(c, s, Work(0)) && !Overruns(c, s, 0)
    requires Sane(c, s) ==> mid == Do(c, s, Work(0))
    requires Enabled(c, mid, Work(0)) && !Overruns(c, mid, 0)
    requires Sane(c, mid) ==> s' == Do(c, mid, Work(0))
    ensures ComesTo(c, states', steps', s')
  {
    states', steps' := Go(c, states, steps, s, mid);
    states', steps' := Go(c, states', steps', mid, s');
  }

  /** The right part is announced and queued. */
  lemma QueueRight(c: Config, states: seq<State>, steps: seq<Step>, rows: seq<Row>, left: Range, right: Range)
      returns (states': seq<State>, steps': seq<Step>)
    requires ValidConfig(c) && ComesTo(c, states, steps, Alone(rows, 2, 3, [], Split(left, right)))
    ensures ComesTo(c, states', steps', Alone(rows, 3, 2, [right], RightQueued(left)))
  {
    states', steps' := GoTwice(c, states, steps, Alone(rows, 2, 3, [], Split(left, right)),
      Alone(rows, 2, 2, [], RightNode(left, right)), Alone(rows, 3, 2, [], RightCounting(left, right)));
    assert [] + [right] == [right];
    states', steps' := GoTwice(c, states', steps', Alone(rows, 3, 2, [], RightCounting(left, right)),
      Alone(rows, 3, 2, [], RightCounted(left, right)), Alone(rows, 3, 2, [right], RightQueued(left)));
  }

  /** The left part is announced and queued, and the worker returns its own node. */
  lemma QueueLeft(c: Config, states: seq<State>, steps: seq<Step>, rows: seq<Row>, left: Range, right: Range)
      returns (states': seq<State>, steps': seq<Step>)
    requires ValidConfig(c) && ComesTo(c, states, steps, Alone(rows, 3, 2, [right], RightQueued(left)))
    ensures ComesTo(c, states', steps', Alone(rows, 4, 2, [right, left], Waiting))
  {
    states', steps' := GoTwice(c, states, steps, Alone(rows, 3, 2, [right], RightQueued(left)),
      Alone(rows, 3, 1, [right], LeftNode(left)), Alone(rows, 4, 1, [right], LeftCounting(left)));
    assert [right] + [left] == [right, left];
    states', steps' := GoTwice(c, states', steps', Alone(rows, 4, 1, [right], LeftCounting(left)),
      Alone(rows, 4, 1, [right], LeftCounted(left)), Alone(rows, 4, 1, [right, left], LeftQueued));
    states', steps' := Go(c, states', steps', Alone(rows, 4, 1, [right, left], LeftQueued),
        Alone(rows, 4, 2, [right, left], Waiting));
  }

  /** A leaf whose rows are in order is taken, sorted and discounted; the next range is taken. */
  lemma FinishLeaf(c: Config, states: seq<State>, steps: seq<Step>, rows: seq<Row>, r: Range, next: Range)
      returns (states': seq<State>, steps': seq<Step>)
    requires ValidConfig(c) && ComesTo(c, states, steps, Alone(rows, 4, 2, [r, next], Waiting))
    requires IsLeaf(c, r) && 0 <= r.lo && r.hi < |rows| && Sort(rows, r.lo, r.hi) == rows
    requires !Overruns(c, Alone(rows, 4, 2, [next], Took(r)), 0)
    ensures ComesTo(c, states', steps', Alone(rows, 2, 3, [], Took(next)))
  {
    assert [r, next][1..] == [next] && [next][1..] == [];
    states', steps' := GoTwice(c, states, steps, Alone(rows, 4, 2, [r, next], Waiting),
      Alone(rows, 4, 2, [next], Took(r)), Alone(rows, 4, 2, [next], LeafSorted));
    states', steps' := GoTwice(c, states', steps', Alone(rows, 4, 2, [next], LeafSorted),
      Alone(rows, 2, 2, [next], Discounting), Alone(rows, 2, 2, [next], Discounted));
    states', steps' := GoTwice(c, states', steps', Alone(rows, 2, 2, [next], Discounted),
      Alone(rows, 2, 3, [next], Waiting), Alone(rows, 2, 3, [], Took(next)));
  }

  // ---------------------------------------------------------------- an overrun

  /** Two cells in order. */
  lemma PairInOrder(rows: seq<Row>, lo: nat)
    requires lo + 1 < |rows| && rows[lo].key <= rows[lo + 1].key
    ensures Sort(rows, lo, lo + 1) == rows && SlotsFor(rows, lo, lo + 1) <= STACK_SLOTS
  {
    NeverMore(rows, lo, lo + 1);
  }

  /** A wide range of hostile rows is split. */
  lemma SplitHostile(c: Config, states: seq<State>, steps: seq<Step>, rows: seq<Row>, hi: nat)
      returns (states': seq<State>, steps': seq<Step>, rows': seq<Row>)
    requires ValidConfig(c) && ComesTo(c, states, steps, Alone(rows, 2, 3, [], Took(Range(c.begin, hi))))
    requires c.begin + 2 < hi < |rows| && HostileAt(rows, c.begin, hi) && !IsLeaf(c, Range(c.begin, hi))
    ensures |rows'| == |rows| && HostileAt(rows', c.begin, hi - 1) && rows'[hi].key == hi - c.begin
    ensures ComesTo(c, states', steps', Alone(rows', 2, 3, [], Split(Range(c.begin, hi - 1), Range(hi - 1, hi))))
  {
    HostileParts(rows, c.begin, hi);
    rows' := Partition(rows, c.begin, hi).rows;
    states', steps' := Go(c, states, steps, Alone(rows, 2, 3, [], Took(Range(c.begin, hi))),
      Alone(rows', 2, 3, [], Split(Range(c.begin, hi - 1), Range(hi - 1, hi))));
  }

  /** Its right part is sorted and the left part taken: hostile again, one cell shorter. */
  lemma OneLevel(c: Config, states: seq<State>, steps: seq<Step>, rows: seq<Row>, hi: nat)
      returns (states': seq<State>, steps': seq<Step>, rows': seq<Row>)
    requires ValidConfig(c) && ComesTo(c, states, steps, Alone(rows, 2, 3, [], Took(Range(c.begin, hi))))
    requires c.begin + 2 < hi < |rows| && HostileAt(rows, c.begin, hi) && !IsLeaf(c, Range(c.begin, hi))
    ensures |rows'| == |rows| && HostileAt(rows', c.begin, hi - 1)
    ensures ComesTo(c, states', steps', Alone(rows', 2, 3, [], Took(Range(c.begin, hi - 1))))
  {
    var left, right := Range(c.begin, hi - 1), Range(hi - 1, hi);
    states', steps', rows' := SplitHostile(c, states, steps, rows, hi);
    HostileEnd(rows', c.begin, hi - 1);
    PairFits(c, rows', hi - 1, left);
    states', steps' := QueueRight(c, states', steps', rows', left, right);
    states', steps' := QueueLeft(c, states', steps', rows', left, right);
    states', steps' := FinishLeaf(c, states', steps', rows', right, left);
  }

  lemma PairFits(c: Config, rows: seq<Row>, lo: nat, next: Range)
    requires ValidConfig(c) && lo + 1 < |rows| && rows[lo].key <= rows[lo + 1].key
    ensures IsLeaf(c, Range(lo, lo + 1)) && Sort(rows, lo, lo + 1) == rows
    ensures !Overruns(c, Alone(rows, 4, 2, [next], Took(Range(lo, lo + 1))), 0)
  {
    PairInOrder(rows, lo);
  }

  lemma HostileEnd(rows: seq<Row>, lo: nat, hi: nat)
    requires lo <= hi < |rows| && HostileAt(rows, lo, hi)
    ensures rows[hi].key <= hi - lo
  {
    assert rows[hi] == rows[lo..hi + 1][hi - lo];
  }

  /** Down to a leaf as wide as leaves can be. */
  lemma {:induction false} Descend(c: Config, states: seq<State>, steps: seq<Step>, rows: seq<Row>, hi: nat)
      returns (states': seq<State>, steps': seq<Step>, rows': seq<Row>, leaf: nat)
    requires ValidConfig(c) && c.threshold >= 4
             && ComesTo(c, states, steps, Alone(rows, 2, 3, [], Took(Range(c.begin, hi))))
    requires c.begin + 2 < hi < |rows| && HostileAt(rows, c.begin, hi)
    ensures leaf == (if hi - c.begin < c.threshold then hi else c.begin + c.threshold - 1) < |rows'|
    ensures HostileAt(rows', c.begin, leaf)
    ensures ComesTo(c, states', steps', Alone(rows', 2, 3, [], Took(Range(c.begin, leaf))))
    decreases hi
  {
    if IsLeaf(c, Range(c.begin, hi)) {
      states', steps', rows', leaf := states, steps, rows, hi;
    } else {
      states', steps', rows' := OneLevel(c, states, steps, rows, hi);
      states', steps', rows', leaf := Descend(c, states', steps', rows', hi - 1);
    }
  }

  /** The condition `LeavesFit` is exact: for every range and threshold that do not meet it there are an array and a
      run, of a single worker, in which a leaf sort overruns its buffer. */
  lemma OverrunIsReached(begin: nat, end: int, threshold: int)
      returns (c: Config, states: seq<State>, steps: seq<Step>)
    requires !(threshold - 1 <= WIDEST || end - begin <= WIDEST)
    ensures c.begin == begin && c.end == end && c.threshold == threshold && ValidConfig(c) && !LeavesFit(c)
    ensures Run(c, states, steps) && Overruns(c, Last(states), 0)
  {
    var rows := HostileFrom(begin, end);
    c := Config(begin, end, threshold, 4, rows);
    assert rows[begin..end + 1] == Hostile(end - begin);
    states, steps := FirstTake(c);
    var leaf;
    states, steps, rows, leaf := Descend(c, states, steps, rows, end);
    HostileNeedsAll(rows, begin, leaf);
  }

  // ---------------------------------------------------------------- a return before the unlock

  /** `quick_sort` can return while a worker still holds the lock of its local `org_info`, for every array that is one
      leaf. */
  lemma EarlyReturn(c: Config) returns (states: seq<State>, steps: seq<Step>)
    requires ValidConfig(c) && LeavesFit(c) && c.nodes == 4 && IsLeaf(c, Whole(c))
    ensures Run(c, states, steps) && Last(states).caller == Returned && Last(states).workers == [Discounting]
  {
    states, steps := FirstTake(c);
    var took, rows := Alone(c.rows, 2, 3, [], Took(Whole(c))), Sort(c.rows, c.begin, c.end);
    LeavesAlwaysFit(c, states, steps, |states| - 1, 0);
    states, steps := GoTwice(c, states, steps, took, Alone(rows, 2, 3, [], LeafSorted),
        Alone(rows, 0, 3, [], Discounting));
    states, steps := Extend(c, states, steps, Alone(rows, 0, 3, [], Discounting), Call,
        State(rows, 0, 3, [], [Discounting], Returned));
  }
}
