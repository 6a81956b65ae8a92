/** `QQSParallel` of common/qalgorithm.h comes to an end: every run is bounded, some thread can always go on unless list
    nodes have run out, and with enough nodes every run that goes on as long as it can returns. */
module ParallelSortProgress {
  import opened Sorting
  import opened SortingStack
  import opened ParallelSort

  // ---------------------------------------------------------------- how many ranges there can be

  /** How many leaves a range can fall into. */
  function Leaves(c: Config, r: Range): nat
  {
    if IsLeaf(c, r) then 1 else r.hi - r.lo - c.threshold + 2
  }

  /** How many ranges it can give rise to, itself included. */
  function Ranges(c: Config, r: Range): nat { 2 * Leaves(c, r) - 1 }

  /** The parts of a wide range have no more leaves, although they can share a cell. */
  lemma NoMoreLeaves(c: Config, rows: seq<Row>, r: Range)
    requires c.threshold >= 2 && 0 <= r.lo && r.hi < |rows| && !IsLeaf(c, r)
    ensures var cut := Partition(rows, r.lo, r.hi); var e := LeftEnd(cut, Pivot(rows, r.lo, r.hi));
            Leaves(c, Range(r.lo, e)) + Leaves(c, Range(cut.at, r.hi)) <= Leaves(c, r)
  {
    PartsAreSmaller(rows, r.lo, r.hi);
  }

  function LeavesOf(c: Config): Range -> nat { r => Leaves(c, r) }

  function Total(f: Range -> nat, rs: seq<Range>): nat
  {
    if rs == [] then 0 else f(rs[0]) + Total(f, rs[1..])
  }

  lemma {:induction false} TotalPush(f: Range -> nat, rs: seq<Range>, r: Range)
    ensures Total(f, rs + [r]) == Total(f, rs) + f(r)
  {
    if rs == [] {
      assert rs + [r] == [r];
    } else {
      assert (rs + [r])[1..] == rs[1..] + [r];
      TotalPush(f, rs[1..], r);
    }
  }

  // ---------------------------------------------------------------- every run is bounded

  /** A range takes at most this many statements of a worker. */
  const STATEMENTS := 11

  function Cost(c: Config, r: Range): nat { STATEMENTS * Ranges(c, r) }

  /** The statements that a worker has still before it, those for its parts included until they are queued. */
  function Left(c: Config, w: Worker): nat
  {
    match w
    case Waiting => 0
    case Took(r) => Cost(c, r) - 1
    case LeafSorted => 3
    case Discounting => 2
    case Discounted => 1
    case Split(left, right) => Cost(c, left) + Cost(c, right) + 9
    case RightNode(left, right) => Cost(c, left) + Cost(c, right) + 8
    case RightCounting(left, right) => Cost(c, left) + Cost(c, right) + 7
    case RightCounted(left, right) => Cost(c, left) + Cost(c, right) + 6
    case RightQueued(left) => Cost(c, left) + 5
    case LeftNode(left) => Cost(c, left) + 4
    case LeftCounting(left) => Cost(c, left) + 3
    case LeftCounted(left) => Cost(c, left) + 2
    case LeftQueued => 1
  }

  function CallerLeft(c: Config, k: Caller): nat
  {
    match k
    case Start => Cost(c, Whole(c)) + 4
    case Loaded => Cost(c, Whole(c)) + 3
    case Counted => Cost(c, Whole(c)) + 2
    case Queued => 1
    case Returned => 0
  }

  function CostOf(c: Config): Range -> nat { r => Cost(c, r) }

  function LeftOf(c: Config): Worker -> nat { w => Left(c, w) }

  /** All statements that are still to come, at most. */
  function ToDo(c: Config, s: State): nat
  {
    CallerLeft(c, s.caller) + Total(CostOf(c), s.busy) + Sum(LeftOf(c), s.workers)
  }

  lemma TookTaken(c: Config, s: State, w: nat, r: Range)
    requires ValidConfig(c) && Sane(c, s) && w < |s.workers| && s.workers[w] == Took(r)
    ensures var s' := Do(c, s, Work(w)); s'.busy == s.busy && Left(c, s'.workers[w]) < Left(c, s.workers[w])
  {
    if !IsLeaf(c, r) { NoMoreLeaves(c, s.rows, r); }
  }

  lemma PushTaken(c: Config, s: State, w: nat)
    requires ValidConfig(c) && Sane(c, s) && w < |s.workers|
    requires s.workers[w].RightCounted? || s.workers[w].LeftCounted?
    ensures var s' := Do(c, s, Work(w));
            Total(CostOf(c), s'.busy) + Left(c, s'.workers[w]) < Total(CostOf(c), s.busy) + Left(c, s.workers[w])
  {
    var was := s.workers[w];
    TotalPush(CostOf(c), s.busy, if was.RightCounted? then was.right else was.left);
  }

  /** What one statement of a worker takes off. */
  lemma WorkTaken(c: Config, s: State, w: nat)
    requires ValidConfig(c) && Sane(c, s) && Enabled(c, s, Work(w))
    ensures var s' := Do(c, s, Work(w));
            Total(CostOf(c), s'.busy) + Left(c, s'.workers[w]) < Total(CostOf(c), s.busy) + Left(c, s.workers[w])
  {
    var was := s.workers[w];
    if was.Took? {
      TookTaken(c, s, w, was.r);
    } else if was.RightCounted? || was.LeftCounted? {
      PushTaken(c, s, w);
    }
  }

  /** Every step of every thread leaves less to do. */
  lemma LessToDo(c: Config, s: State, step: Step)
    requires ValidConfig(c) && Sane(c, s) && Enabled(c, s, step)
    ensures ToDo(c, Do(c, s, step)) < ToDo(c, s)
  {
    if step.Work? {
      WorkDelta(c, s, step.w);
      WorkTaken(c, s, step.w);
      SumUpdate(LeftOf(c), s.workers, step.w, Do(c, s, step).workers[step.w]);
    } else if s.caller == Counted {
      TotalPush(CostOf(c), s.busy, Whole(c));
    }
  }

  lemma {:induction false} LessAfter(c: Config, states: seq<State>, steps: seq<Step>, i: nat)
    requires ValidConfig(c) && Run(c, states, steps) && i < |states|
    ensures ToDo(c, states[i]) + i <= ToDo(c, states[0])
  {
    if i > 0 {
      LessAfter(c, states, steps, i - 1);
      assert Steps(c, states[i - 1], steps[i - 1], states[i]);
      LessToDo(c, states[i - 1], steps[i - 1]);
    }
  }

  lemma {:induction false} NothingLeft(c: Config, ws: seq<Worker>)
    requires forall w :: 0 <= w < |ws| ==> ws[w] == Waiting
    ensures Sum(LeftOf(c), ws) == 0
  {
    if ws != [] { NothingLeft(c, ws[1..]); }
  }

  /** No run, of any number of workers, has more steps than eleven for each range that can come up, and four. */
  lemma RunsAreBounded(c: Config, states: seq<State>, steps: seq<Step>)
    requires ValidConfig(c) && Run(c, states, steps)
    ensures |steps| <= 11 * Ranges(c, Whole(c)) + 4
  {
    NothingLeft(c, states[0].workers);
    LessAfter(c, states, steps, |steps|);
  }

  // ---------------------------------------------------------------- some thread can always go on

  /** The thread waits for a list node and there is none. */
  ghost predicate NodesOut(s: State)
  {
    && s.idle == 0
    && (s.caller == Start || exists w :: 0 <= w < |s.workers| && (s.workers[w].Split? || s.workers[w].RightQueued?))
  }

  ghost predicate CanStep(c: Config, s: State) { exists step :: Enabled(c, s, step) }

  lemma {:induction false} NoCredit(ws: seq<Worker>)
    requires forall w :: 0 <= w < |ws| ==> ws[w] == Waiting
    ensures Sum(Credit, ws) == 0
  {
    if ws != [] { NoCredit(ws[1..]); }
  }

  /** As long as `quick_sort` has not returned, some thread can take its next step, or list nodes have run out. */
  lemma SomebodyGoesOn(c: Config, s: State)
    requires ValidConfig(c) && Inv(c, s) && s.workers != [] && s.caller != Returned
    ensures CanStep(c, s) || NodesOut(s)
  {
    if s.caller != Queued || s.flag == 0 {
      if !NodesOut(s) { assert Enabled(c, s, Call); }
    } else if w :| 0 <= w < |s.workers| && Holder(s.workers[w]) {
      assert Enabled(c, s, Work(w));
    } else if w :| 0 <= w < |s.workers| && s.workers[w] != Waiting {
      if !NodesOut(s) { assert Enabled(c, s, Work(w)); }
    } else {
      NoCredit(s.workers);
      assert Enabled(c, s, Work(0));
    }
  }

  // ---------------------------------------------------------------- how many nodes are enough

  /** The leaves that the ranges in a worker's hand, not queued yet, can fall into. */
  function Claim(c: Config, w: Worker): nat
  {
    match w
    case Waiting => 0
    case Took(r) => Leaves(c, r)
    case LeafSorted | Discounting | Discounted | LeftQueued => 0
    case Split(left, right) => Leaves(c, left) + Leaves(c, right)
    case RightNode(left, right) => Leaves(c, left) + Leaves(c, right)
    case RightCounting(left, right) => Leaves(c, left) + Leaves(c, right)
    case RightCounted(left, right) => Leaves(c, left) + Leaves(c, right)
    case RightQueued(left) => Leaves(c, left)
    case LeftNode(left) => Leaves(c, left)
    case LeftCounting(left) => Leaves(c, left)
    case LeftCounted(left) => Leaves(c, left)
  }

  function ClaimOf(c: Config): Worker -> nat { w => Claim(c, w) }

  function Claims(c: Config, s: State): nat
  {
    (if s.caller in {Start, Loaded, Counted} then Leaves(c, Whole(c)) else 0)
    + Total(LeavesOf(c), s.busy) + Sum(ClaimOf(c), s.workers)
  }

  lemma TookClaims(c: Config, s: State, w: nat, r: Range)
    requires ValidConfig(c) && Sane(c, s) && w < |s.workers| && s.workers[w] == Took(r)
    ensures var s' := Do(c, s, Work(w)); s'.busy == s.busy && Claim(c, s'.workers[w]) <= Claim(c, s.workers[w])
  {
    if !IsLeaf(c, r) { NoMoreLeaves(c, s.rows, r); }
  }

  lemma WorkClaims(c: Config, s: State, w: nat)
    requires ValidConfig(c) && Sane(c, s) && Enabled(c, s, Work(w))
    ensures var s' := Do(c, s, Work(w));
            Total(LeavesOf(c), s'.busy) + Claim(c, s'.workers[w]) <= Total(LeavesOf(c), s.busy) + Claim(c, s.workers[w])
  {
    var was := s.workers[w];
    if was.Took? {
      TookClaims(c, s, w, was.r);
    } else if was.RightCounted? {
      TotalPush(LeavesOf(c), s.busy, was.right);
    } else if was.LeftCounted? {
      TotalPush(LeavesOf(c), s.busy, was.left);
    }
  }

  /** No step makes the outstanding ranges fall into more leaves. */
  lemma ClaimsNext(c: Config, s: State, step: Step)
    requires ValidConfig(c) && Sane(c, s) && Enabled(c, s, step)
    ensures Claims(c, Do(c, s, step)) <= Claims(c, s)
  {
    if step.Work? {
      WorkDelta(c, s, step.w);
      WorkClaims(c, s, step.w);
      SumUpdate(ClaimOf(c), s.workers, step.w, Do(c, s, step).workers[step.w]);
    } else if s.caller == Counted {
      TotalPush(LeavesOf(c), s.busy, Whole(c));
    }
  }

  lemma {:induction false} NoClaim(c: Config, ws: seq<Worker>)
    requires forall w :: 0 <= w < |ws| ==> ws[w] == Waiting
    ensures Sum(ClaimOf(c), ws) == 0
  {
    if ws != [] { NoClaim(c, ws[1..]); }
  }

  lemma {:induction false} ClaimsBounded(c: Config, states: seq<State>, steps: seq<Step>, i: nat)
    requires ValidConfig(c) && Run(c, states, steps) && i < |states|
    ensures Claims(c, states[i]) <= Leaves(c, Whole(c))
  {
    if i == 0 {
      NoClaim(c, states[0].workers);
    } else {
      ClaimsBounded(c, states, steps, i - 1);
      assert Steps(c, states[i - 1], steps[i - 1], states[i]);
      ClaimsNext(c, states[i - 1], steps[i - 1]);
    }
  }

  /** The worker is about to put the parts of a wide range on the list. */
  predicate Parting(w: Worker)
  {
    !(w.Waiting? || w.Took? || w.LeafSorted? || w.Discounting? || w.Discounted?)
  }

  /** A call whose whole range is a leaf never splits a range. */
  lemma {:induction false} OneLeaf(c: Config, states: seq<State>, steps: seq<Step>, i: nat, w: nat)
    requires ValidConfig(c) && Run(c, states, steps) && i < |states| && IsLeaf(c, Whole(c)) && w < |states[i].workers|
    ensures !Parting(states[i].workers[w])
  {
    if i > 0 {
      assert Steps(c, states[i - 1], steps[i - 1], states[i]);
      if steps[i - 1].Work? { WorkDelta(c, states[i - 1], steps[i - 1].w); }
      OneLeaf(c, states, steps, i - 1, w);
    }
  }

  /** A worker that cannot go on while the lock is free: it has nothing to take, or waits for a node. */
  predicate Blocked(w: Worker) { w.Waiting? || w.Split? || w.RightQueued? }

  lemma {:induction false} ClaimsCoverNodes(c: Config, ws: seq<Worker>)
    requires forall w :: 0 <= w < |ws| ==> Blocked(ws[w])
    ensures Sum(Nodes, ws) <= Sum(ClaimOf(c), ws)
  {
    if ws != [] { ClaimsCoverNodes(c, ws[1..]); }
  }

  lemma {:induction false} LeavesCoverQueue(c: Config, rs: seq<Range>)
    ensures |rs| <= Total(LeavesOf(c), rs)
  {
    if rs != [] { LeavesCoverQueue(c, rs[1..]); }
  }

  /** No thread can go on. */
  ghost predicate Stuck(c: Config, s: State) { forall step :: !Enabled(c, s, step) }

  lemma StuckIsBlocked(c: Config, s: State)
    requires Stuck(c, s)
    ensures forall w :: 0 <= w < |s.workers| ==> Blocked(s.workers[w])
  {
    forall w | 0 <= w < |s.workers| ensures !Holder(s.workers[w]) { assert !Enabled(c, s, Work(w)); }
    forall w | 0 <= w < |s.workers| ensures Blocked(s.workers[w]) { assert !Enabled(c, s, Work(w)); }
  }

  /** How many list nodes a call can need. */
  function Needed(c: Config): nat
  {
    if IsLeaf(c, Whole(c)) then 1 else c.end - c.begin - c.threshold + 3
  }

  /** A call that is stuck before its return had fewer. */
  lemma StuckHasTooFew(c: Config, states: seq<State>, steps: seq<Step>, i: nat)
    requires ValidConfig(c) && Run(c, states, steps) && i < |states|
    requires states[i].workers != [] && states[i].caller != Returned && Stuck(c, states[i])
    ensures c.nodes < Needed(c)
  {
    var s := states[i];
    RunInv(c, states, steps, i);
    SomebodyGoesOn(c, s);
    assert NodesOut(s);
    StuckIsBlocked(c, s);
    ClaimsCoverNodes(c, s.workers);
    LeavesCoverQueue(c, s.busy);
    ClaimsBounded(c, states, steps, i);
    if IsLeaf(c, Whole(c)) {
      forall w | 0 <= w < |s.workers| ensures s.workers[w] == Waiting { OneLeaf(c, states, steps, i, w); }
      AllWaiting(s.workers);
    }
  }

  lemma EnabledSteps(c: Config, s: State, step: Step)
    requires ValidConfig(c) && Sane(c, s) && Enabled(c, s, step) && (step.Work? ==> !Overruns(c, s, step.w))
    ensures exists s' :: Steps(c, s, step, s')
  {
    assert Steps(c, s, step, Do(c, s, step));
  }

  /** With at least one worker and as many nodes as a call can need, every run that goes on for as long as it can
      ends with the return of `quick_sort` and a sorted permutation of the caller's array. */
  lemma MaximalRunReturns(c: Config, states: seq<State>, steps: seq<Step>, s: State)
    requires ValidConfig(c) && LeavesFit(c) && Run(c, states, steps) && states[0].workers != []
    requires s == states[|steps|] && forall step, s' :: !Steps(c, s, step, s')
    requires c.nodes >= Needed(c)
    ensures s.caller == Returned && Permuted(c, s.rows) && SortedRange(s.rows, c.begin, c.end)
  {
    RunInv(c, states, steps, |steps|);
    SameWorkers(c, states, steps, |steps|);
    forall step ensures !Enabled(c, s, step) {
      if step.Work? { LeavesAlwaysFit(c, states, steps, |steps|, step.w); }
      if Enabled(c, s, step) { EnabledSteps(c, s, step); }
    }
    if s.caller != Returned { StuckHasTooFew(c, states, steps, |steps|); }
    CompletionIsSorted(c, states, steps, |steps|);
  }

  lemma {:induction false} SameWorkers(c: Config, states: seq<State>, steps: seq<Step>, i: nat)
    requires ValidConfig(c) && Run(c, states, steps) && i < |states|
    ensures |states[i].workers| == |states[0].workers|
  {
    if i > 0 {
      SameWorkers(c, states, steps, i - 1);
      assert Steps(c, states[i - 1], steps[i - 1], states[i]);
      if steps[i - 1].Work? { WorkDelta(c, states[i - 1], steps[i - 1].w); }
    }
  }
}
