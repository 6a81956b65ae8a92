/** `QQSParallel` of common/qalgorithm.h: one call of `quick_sort` served by any number of workers.

    Workers pop ranges from the busy list, sort a narrow range or split a wide one, and report
    through the credit count `flag`: plus one for each child that is announced, minus two for each
    finished leaf.  Every queue operation, every locking with the update of `flag`, every unlocking, every
    leaf sort and every partition is one step, and the steps interleave in any order. */
module ParallelSort {
  import opened Sorting
  import opened SortingStack

  /** What a worker of `thread_sort` has in its hand, by the statement it has reached. */
  datatype Worker =
    | Waiting                                  // before m_busy_list.pop()
    | Took(r: Range)                           // node popped, nothing done yet
    | LeafSorted                               // Q_Unrecursion_1K done
    | Discounting                              // flag -= 2 done, lock held
    | Discounted                               // lock released, node not yet returned
    | Split(left: Range, right: Range)         // partition done
    | RightNode(left: Range, right: Range)     // idle node taken for the right part
    | RightCounting(left: Range, right: Range) // flag++ done for the right part, lock held
    | RightCounted(left: Range, right: Range)  // lock released
    | RightQueued(left: Range)                 // right part pushed
    | LeftNode(left: Range)                    // idle node taken for the left part
    | LeftCounting(left: Range)                // flag++ done for the left part, lock held
    | LeftCounted(left: Range)                 // lock released
    | LeftQueued                               // left part pushed, own node not yet returned

  /** The thread that called `quick_sort`. */
  datatype Caller = Start | Loaded | Counted | Queued | Returned

  datatype Config = Config(begin: int, end: int, threshold: int, nodes: nat, rows: seq<Row>)

  datatype State = State(rows: seq<Row>, flag: int, idle: nat, busy: seq<Range>, workers: seq<Worker>, caller: Caller)

  datatype Step = Call | Work(w: nat)

  predicate ValidConfig(c: Config)
  {
    0 <= c.begin && c.end < |c.rows| && c.threshold >= 2
  }

  predicate Init(c: Config, s: State)
  {
    && s.rows == c.rows && s.flag == 1 && s.idle == c.nodes && s.busy == [] && s.caller == Start
    && forall w :: 0 <= w < |s.workers| ==> s.workers[w] == Waiting
  }

  function Whole(c: Config): Range { Range(c.begin, c.end) }

  predicate InWindow(c: Config, r: Range)
  {
    c.begin <= r.lo && r.hi <= c.end
  }

  /** The bounds of a node in a worker's hand are those of a part of the array. */
  predicate Sane(c: Config, s: State)
  {
    && |s.rows| == |c.rows|
    && forall w :: 0 <= w < |s.workers| && s.workers[w].Took? ==> InWindow(c, s.workers[w].r)
  }

  /** The worker holds the lock of `org_info`; it is about to take it. */
  predicate Holder(w: Worker) { w.Discounting? || w.RightCounting? || w.LeftCounting? }

  predicate Locks(w: Worker) { w.LeafSorted? || w.RightNode? || w.LeftNode? }

  predicate Locked(s: State) { exists w :: 0 <= w < |s.workers| && Holder(s.workers[w]) }

  /** Whether a thread can take its next step: pops block on an empty list, the lock blocks while another worker
      holds it, and the caller polls `flag` without it. */
  predicate Enabled(c: Config, s: State, step: Step)
  {
    match step
    case Call =>
      (s.caller == Start ==> s.idle > 0) && (s.caller == Queued ==> s.flag == 0) && s.caller != Returned
    case Work(w) =>
      && w < |s.workers|
      && (s.workers[w].Waiting? ==> s.busy != [])
      && (s.workers[w].Split? || s.workers[w].RightQueued? ==> s.idle > 0)
      && (Locks(s.workers[w]) ==> !Locked(s))
  }

  /** The range is narrow enough for `Q_Unrecursion_1K`. */
  predicate IsLeaf(c: Config, r: Range) { r.hi - r.lo < c.threshold }

  /** The worker is about to sort a leaf for which the buffer of `Q_Unrecursion_1K` is too small. */
  predicate Overruns(c: Config, s: State, w: int)
  {
    && 0 <= w < |s.workers| && s.workers[w].Took?
    && var r := s.workers[w].r;
       IsLeaf(c, r) && 0 <= r.lo && r.hi < |s.rows| && SlotsFor(s.rows, r.lo, r.hi) > STACK_SLOTS
  }

  /** A narrow range is sorted on the spot. */
  function SortLeaf(s: State, w: nat, r: Range): (s': State)
    requires w < |s.workers| && 0 <= r.lo && r.hi < |s.rows|
  {
    s.(rows := Sort(s.rows, r.lo, r.hi), workers := s.workers[w := LeafSorted])
  }

  /** A wide range is partitioned; its parts are still to be announced and queued. */
  function SplitWide(s: State, w: nat, r: Range): (s': State)
    requires w < |s.workers| && 0 <= r.lo < r.hi < |s.rows|
  {
    var cut := Partition(s.rows, r.lo, r.hi);
    var e := LeftEnd(cut, Pivot(s.rows, r.lo, r.hi));
    s.(rows := cut.rows, workers := s.workers[w := Split(Range(r.lo, e), Range(cut.at, r.hi))])
  }

  /** The statement that a step executes. */
  function Do(c: Config, s: State, step: Step): State
    requires ValidConfig(c) && Sane(c, s) && Enabled(c, s, step)
  {
    match step
    case Call => (
      match s.caller
      case Start => s.(idle := s.idle - 1, caller := Loaded)
      case Loaded => s.(flag := s.flag + 1, caller := Counted)
      case Counted => s.(busy := s.busy + [Whole(c)], caller := Queued)
      case Queued => s.(caller := Returned)
      case Returned => s
    )
    case Work(w) => (
      match s.workers[w]
      case Waiting => s.(busy := s.busy[1..], workers := s.workers[w := Took(s.busy[0])])
      case Took(r) =>
        if IsLeaf(c, r) then SortLeaf(s, w, r) else SplitWide(s, w, r)
      case LeafSorted => s.(flag := s.flag - 2, workers := s.workers[w := Discounting])
      case Discounting => s.(workers := s.workers[w := Discounted])
      case Discounted => s.(idle := s.idle + 1, workers := s.workers[w := Waiting])
      case Split(left, right) => s.(idle := s.idle - 1, workers := s.workers[w := RightNode(left, right)])
      case RightNode(left, right) => s.(flag := s.flag + 1, workers := s.workers[w := RightCounting(left, right)])
      case RightCounting(left, right) => s.(workers := s.workers[w := RightCounted(left, right)])
      case RightCounted(left, right) => s.(busy := s.busy + [right], workers := s.workers[w := RightQueued(left)])
      case RightQueued(left) => s.(idle := s.idle - 1, workers := s.workers[w := LeftNode(left)])
      case LeftNode(left) => s.(flag := s.flag + 1, workers := s.workers[w := LeftCounting(left)])
      case LeftCounting(left) => s.(workers := s.workers[w := LeftCounted(left)])
      case LeftCounted(left) => s.(busy := s.busy + [left], workers := s.workers[w := LeftQueued])
      case LeftQueued => s.(idle := s.idle + 1, workers := s.workers[w := Waiting])
    )
  }

  // ---------------------------------------------------------------- what every step keeps

  /** The credit in a worker's hand: 2, 1 or 0 for its own node by the number of children counted,
      plus 2 for a counted child that it has not pushed yet. */
  function Credit(w: Worker): nat
  {
    match w
    case Waiting | Discounting | Discounted | LeftQueued => 0
    case Took(_) | LeafSorted | Split(_, _) | RightNode(_, _) => 2
    case RightCounting(_, _) | RightCounted(_, _) => 1 + 2
    case RightQueued(_) | LeftNode(_) => 1
    case LeftCounting(_) | LeftCounted(_) => 0 + 2
  }

  /** The list nodes in a worker's hand. */
  function Nodes(w: Worker): nat
  {
    match w
    case Waiting => 0
    case RightNode(_, _) | RightCounting(_, _) | RightCounted(_, _) => 2
    case LeftNode(_) | LeftCounting(_) | LeftCounted(_) => 2
    case _ => 1
  }

  function CallerCredit(c: Caller): nat { if c == Start || c == Loaded then 1 else if c == Counted then 2 else 0 }

  function CallerNodes(c: Caller): nat { if c == Loaded || c == Counted then 1 else 0 }

  function Sum(f: Worker -> nat, ws: seq<Worker>): nat
  {
    if ws == [] then 0 else f(ws[0]) + Sum(f, ws[1..])
  }

  lemma {:induction false} SumUpdate(f: Worker -> nat, ws: seq<Worker>, w: nat, x: Worker)
    requires w < |ws|
    ensures Sum(f, ws[w := x]) == Sum(f, ws) - f(ws[w]) + f(x)
  {
    if w == 0 {
      assert ws[0 := x][1..] == ws[1..];
    } else {
      SumUpdate(f, ws[1..], w - 1, x);
      assert ws[w := x][1..] == ws[1..][w - 1 := x];
    }
  }

  lemma {:induction false} SumZero(f: Worker -> nat, ws: seq<Worker>, w: nat)
    requires w < |ws|
    ensures f(ws[w]) <= Sum(f, ws)
  {
    if w > 0 { SumZero(f, ws[1..], w - 1); }
  }

  /** The ranges that a worker has still to see sorted. */
  function Held(w: Worker): set<Range>
  {
    match w
    case Took(r) => {r}
    case Split(left, right) => {left, right}
    case RightNode(left, right) => {left, right}
    case RightCounting(left, right) => {left, right}
    case RightCounted(left, right) => {left, right}
    case RightQueued(left) => {left}
    case LeftNode(left) => {left}
    case LeftCounting(left) => {left}
    case LeftCounted(left) => {left}
    case _ => {}
  }

  ghost predicate Outstanding(c: Config, s: State, r: Range)
  {
    || r in s.busy
    || (s.caller in {Start, Loaded, Counted} && r == Whole(c))
    || exists w :: 0 <= w < |s.workers| && r in Held(s.workers[w])
  }

  ghost predicate Covered(c: Config, s: State, k: int)
  {
    exists r :: Outstanding(c, s, r) && r.lo <= k < r.hi
  }

  /** A range is in place relative to the rest of the window; the neighbour on its left may share its
      first cell. */
  ghost predicate InPlace(c: Config, rows: seq<Row>, r: Range)
    requires ValidConfig(c) && |rows| == |c.rows|
  {
    && InWindow(c, r)
    && OrderedAt(rows, c.begin, c.end, r.hi)
    && (OrderedAt(rows, c.begin, c.end, r.lo - 1) || OrderedAt(rows, c.begin, c.end, r.lo))
  }

  /** The accounting: credits and nodes. */
  ghost predicate Accounts(c: Config, s: State)
  {
    && s.flag == CallerCredit(s.caller) + 2 * |s.busy| + Sum(Credit, s.workers)
    && s.idle + CallerNodes(s.caller) + |s.busy| + Sum(Nodes, s.workers) == c.nodes
    && (s.caller == Returned ==> s.flag == 0)
  }

  /** Every cut of the window is ordered or inside an outstanding range. */
  ghost predicate Cuts(c: Config, s: State)
    requires ValidConfig(c)
  {
    && |s.rows| == |c.rows|
    && (forall r :: Outstanding(c, s, r) ==> InPlace(c, s.rows, r))
    && (forall k :: c.begin <= k < c.end ==> OrderedAt(s.rows, c.begin, c.end, k) || Covered(c, s, k))
  }

  /** The rows are those of the caller's array, and nothing outside the window has moved. */
  ghost predicate Permuted(c: Config, rows: seq<Row>)
  {
    && |rows| == |c.rows| && multiset(rows) == multiset(c.rows)
    && forall i :: 0 <= i < |rows| && !(c.begin <= i <= c.end) ==> rows[i] == c.rows[i]
  }

  /** The lock has at most one holder. */
  ghost predicate OneHolder(s: State)
  {
    forall v, w :: 0 <= v < |s.workers| && 0 <= w < |s.workers| ==>
      Holder(s.workers[v]) && Holder(s.workers[w]) ==> v == w
  }

  ghost predicate Inv(c: Config, s: State)
    requires ValidConfig(c)
  {
    Sane(c, s) && Accounts(c, s) && OneHolder(s) && Cuts(c, s) && Permuted(c, s.rows)
  }

  lemma InitInv(c: Config, s: State)
    requires ValidConfig(c) && Init(c, s)
    ensures Inv(c, s)
  {
    AllWaiting(s.workers);
    forall k | c.begin <= k < c.end ensures Covered(c, s, k) {
      assert Outstanding(c, s, Whole(c));
    }
  }

  lemma {:induction false} AllWaiting(ws: seq<Worker>)
    requires forall w :: 0 <= w < |ws| ==> ws[w] == Waiting
    ensures Sum(Credit, ws) == Sum(Nodes, ws) == 0
  {
    if ws != [] { AllWaiting(ws[1..]); }
  }

  /** What one statement of a worker does to the counters, to the lists and to its own hand. */
  lemma WorkDelta(c: Config, s: State, w: nat)
    requires ValidConfig(c) && Sane(c, s) && Enabled(c, s, Work(w))
    ensures var s' := Do(c, s, Work(w)); var x := s'.workers[w];
            && s'.workers == s.workers[w := x] && s'.caller == s.caller
            && s'.flag - s.flag == 2 * (|s'.busy| - |s.busy|) + Credit(x) - Credit(s.workers[w])
            && s'.idle + |s'.busy| + Nodes(x) == s.idle + |s.busy| + Nodes(s.workers[w])
            && (s'.flag != s.flag ==> Credit(s.workers[w]) > 0)
  {
  }

  lemma AccountsNext(c: Config, s: State, step: Step)
    requires ValidConfig(c) && Sane(c, s) && Accounts(c, s) && Enabled(c, s, step)
    ensures Accounts(c, Do(c, s, step))
  {
    if step.Work? {
      var x := Do(c, s, step).workers[step.w];
      WorkDelta(c, s, step.w);
      SumUpdate(Credit, s.workers, step.w, x);
      SumUpdate(Nodes, s.workers, step.w, x);
      SumZero(Credit, s.workers, step.w);
    }
  }

  // The ranges in the hands of the workers other than `w`.
  ghost predicate Elsewhere(s: State, w: nat, r: Range)
  {
    exists v :: 0 <= v < |s.workers| && v != w && r in Held(s.workers[v])
  }

  lemma Focus(c: Config, s: State, w: nat, r: Range)
    requires w < |s.workers|
    ensures Outstanding(c, s, r) <==>
              || r in s.busy
              || (s.caller in {Start, Loaded, Counted} && r == Whole(c))
              || r in Held(s.workers[w])
              || Elsewhere(s, w, r)
  {
  }

  lemma ElsewhereSame(s: State, s': State, w: nat, r: Range)
    requires w < |s.workers| == |s'.workers| && s'.workers == s.workers[w := s'.workers[w]]
    ensures Elsewhere(s, w, r) == Elsewhere(s', w, r)
  {
    if Elsewhere(s, w, r) {
      var v :| 0 <= v < |s.workers| && v != w && r in Held(s.workers[v]);
      assert r in Held(s'.workers[v]);
    }
    if Elsewhere(s', w, r) {
      var v :| 0 <= v < |s'.workers| && v != w && r in Held(s'.workers[v]);
      assert r in Held(s.workers[v]);
    }
  }

  /** A step that moves no row keeps the outstanding ranges, wherever they go. */
  lemma OutstandingSame(c: Config, s: State, step: Step, r: Range)
    requires ValidConfig(c) && Inv(c, s) && Enabled(c, s, step)
    requires step.Work? ==> !s.workers[step.w].Took?
    ensures Outstanding(c, s, r) == Outstanding(c, Do(c, s, step), r)
  {
    var s' := Do(c, s, step);
    if step.Work? {
      Focus(c, s, step.w, r);
      Focus(c, s', step.w, r);
      ElsewhereSame(s, s', step.w, r);
      if s.workers[step.w].Waiting? { assert s.busy == [s.busy[0]] + s.busy[1..]; }
    }
  }

  lemma CutsOfQuietStep(c: Config, s: State, step: Step)
    requires ValidConfig(c) && Inv(c, s) && Enabled(c, s, step)
    requires step.Work? ==> !s.workers[step.w].Took?
    ensures Cuts(c, Do(c, s, step))
  {
    var s' := Do(c, s, step);
    forall r ensures Outstanding(c, s, r) == Outstanding(c, s', r) { OutstandingSame(c, s, step, r); }
    forall k | c.begin <= k < c.end && !OrderedAt(s.rows, c.begin, c.end, k) ensures Covered(c, s', k) {
      var r :| Outstanding(c, s, r) && r.lo <= k < r.hi;
      assert Outstanding(c, s', r);
    }
  }

  /** Sorting or splitting a range keeps every ordered cut of the window, so every other outstanding
      range stays in place, shared cells included. */
  lemma CutsKept(c: Config, rows: seq<Row>, r: Range, k: int)
    requires ValidConfig(c) && |rows| == |c.rows| && InWindow(c, r)
    requires OrderedAt(rows, c.begin, c.end, k)
    ensures OrderedAt(Sort(rows, r.lo, r.hi), c.begin, c.end, k)
    ensures r.lo < r.hi ==> OrderedAt(Partition(rows, r.lo, r.hi).rows, c.begin, c.end, k)
  {
    SortKeepsCuts(rows, r.lo, r.hi, c.begin, c.end, k);
    if r.lo < r.hi { MeetKeepsCuts(rows, r.lo, r.hi, Pivot(rows, r.lo, r.hi), c.begin, c.end, k); }
  }

  lemma InPlaceKept(c: Config, rows: seq<Row>, r: Range, q: Range)
    requires ValidConfig(c) && |rows| == |c.rows| && InWindow(c, r)
    requires InPlace(c, rows, q)
    ensures InPlace(c, Sort(rows, r.lo, r.hi), q)
    ensures r.lo < r.hi ==> InPlace(c, Partition(rows, r.lo, r.hi).rows, q)
  {
    CutsKept(c, rows, r, q.hi);
    if OrderedAt(rows, c.begin, c.end, q.lo - 1) {
      CutsKept(c, rows, r, q.lo - 1);
    } else {
      CutsKept(c, rows, r, q.lo);
    }
  }

  /** The two parts of a range that was in place are in place. */
  lemma PartsInPlace(c: Config, rows: seq<Row>, r: Range)
    requires ValidConfig(c) && |rows| == |c.rows| && InPlace(c, rows, r) && r.lo + 1 < r.hi
    ensures var cut := Partition(rows, r.lo, r.hi); var e := LeftEnd(cut, Pivot(rows, r.lo, r.hi));
            && OrderedAt(cut.rows, c.begin, c.end, e)
            && InPlace(c, cut.rows, Range(r.lo, e)) && InPlace(c, cut.rows, Range(cut.at, r.hi))
  {
    InPlaceKept(c, rows, r, r);
    PartitionOrders(rows, r.lo, r.hi, c.begin, c.end);
    PartsAreSmaller(rows, r.lo, r.hi);
  }

  /** A worker replaces the range `r` in its hand by the ranges of `x`. */
  lemma OutstandingMoved(c: Config, s: State, s': State, w: nat, q: Range)
    requires w < |s.workers| == |s'.workers| && s' == s.(rows := s'.rows, workers := s.workers[w := s'.workers[w]])
    ensures Outstanding(c, s', q) ==> q in Held(s'.workers[w]) || Outstanding(c, s, q)
    ensures Outstanding(c, s, q) && q !in Held(s.workers[w]) ==> Outstanding(c, s', q)
    ensures q in Held(s'.workers[w]) ==> Outstanding(c, s', q)
  {
    Focus(c, s, w, q);
    Focus(c, s', w, q);
    ElsewhereSame(s, s', w, q);
  }

  /** A cut of the window after a split: it was ordered, or another range covers it, or one of the
      parts does, or it is the cut between the parts. */
  lemma CutOfSplit(c: Config, s: State, w: nat, r: Range, s': State, left: Range, right: Range, k: int)
    requires ValidConfig(c) && Cuts(c, s) && w < |s.workers| && s.workers[w] == Took(r)
    requires s' == s.(rows := s'.rows, workers := s.workers[w := Split(left, right)])
    requires r.lo == left.lo && right.lo - 1 <= left.hi && right.hi == r.hi
    requires |s'.rows| == |s.rows| && OrderedAt(s'.rows, c.begin, c.end, left.hi)
    requires c.begin <= k < c.end
    requires OrderedAt(s.rows, c.begin, c.end, k) ==> OrderedAt(s'.rows, c.begin, c.end, k)
    ensures OrderedAt(s'.rows, c.begin, c.end, k) || Covered(c, s', k)
  {
    if !OrderedAt(s'.rows, c.begin, c.end, k) {
      var q :| Outstanding(c, s, q) && q.lo <= k < q.hi;
      var p := if q != r then q else if k < left.hi then left else right;
      OutstandingMoved(c, s, s', w, p);
      assert Outstanding(c, s', p) && p.lo <= k < p.hi;
    }
  }

  /** A range that is one of the parts, or was in place before the split, is in place after it. */
  lemma SplitKeepsPlaces(c: Config, rows: seq<Row>, r: Range, q: Range)
    requires ValidConfig(c) && |rows| == |c.rows| && InPlace(c, rows, r) && r.lo + 1 < r.hi
    requires var cut := Partition(rows, r.lo, r.hi); var e := LeftEnd(cut, Pivot(rows, r.lo, r.hi));
             q == Range(r.lo, e) || q == Range(cut.at, r.hi) || InPlace(c, rows, q)
    ensures InPlace(c, Partition(rows, r.lo, r.hi).rows, q)
  {
    if InPlace(c, rows, q) { InPlaceKept(c, rows, r, q); } else { PartsInPlace(c, rows, r); }
  }

  lemma CutsOfSplit(c: Config, s: State, w: nat, r: Range, s': State)
    requires ValidConfig(c) && Cuts(c, s) && w < |s.workers| && s.workers[w] == Took(r)
    requires InWindow(c, r) && r.lo + 1 < r.hi && s' == SplitWide(s, w, r)
    ensures Cuts(c, s')
  {
    assert InPlace(c, s.rows, r) by { Focus(c, s, w, r); }
    forall q | Outstanding(c, s', q) ensures InPlace(c, s'.rows, q) {
      OutstandingMoved(c, s, s', w, q);
      SplitKeepsPlaces(c, s.rows, r, q);
    }
    PartsInPlace(c, s.rows, r);
    PartsAreSmaller(s.rows, r.lo, r.hi);
    forall k | c.begin <= k < c.end ensures OrderedAt(s'.rows, c.begin, c.end, k) || Covered(c, s', k) {
      if OrderedAt(s.rows, c.begin, c.end, k) { CutsKept(c, s.rows, r, k); }
      CutOfSplit(c, s, w, r, s', s'.workers[w].left, s'.workers[w].right, k);
    }
  }

  lemma CutsOfLeaf(c: Config, s: State, w: nat, r: Range, s': State)
    requires ValidConfig(c) && Cuts(c, s) && w < |s.workers| && s.workers[w] == Took(r)
    requires InWindow(c, r) && s' == SortLeaf(s, w, r)
    ensures Cuts(c, s')
  {
    assert Outstanding(c, s, r) by { Focus(c, s, w, r); }
    forall q | Outstanding(c, s', q) ensures InPlace(c, s'.rows, q) {
      OutstandingMoved(c, s, s', w, q);
      InPlaceKept(c, s.rows, r, q);
    }
    forall k | c.begin <= k < c.end ensures OrderedAt(s'.rows, c.begin, c.end, k) || Covered(c, s', k) {
      if OrderedAt(s.rows, c.begin, c.end, k) {
        CutsKept(c, s.rows, r, k);
      } else {
        var q :| Outstanding(c, s, q) && q.lo <= k < q.hi;
        OutstandingMoved(c, s, s', w, q);
        if q == r { SortOrders(s.rows, r.lo, r.hi, c.begin, c.end, k); }
      }
    }
  }

  lemma PermutedNext(c: Config, s: State, step: Step)
    requires ValidConfig(c) && Inv(c, s) && Enabled(c, s, step)
    ensures Permuted(c, Do(c, s, step).rows)
  {
    if step.Work? && s.workers[step.w].Took? {
      var r := s.workers[step.w].r;
      if IsLeaf(c, r) {
        SortPermutes(s.rows, r.lo, r.hi);
      } else {
        MeetPermutes(s.rows, r.lo, r.hi, Pivot(s.rows, r.lo, r.hi));
      }
    }
  }

  lemma SaneNext(c: Config, s: State, step: Step)
    requires ValidConfig(c) && Inv(c, s) && Enabled(c, s, step)
    ensures Sane(c, Do(c, s, step))
  {
    if step.Work? && s.workers[step.w].Waiting? { assert Outstanding(c, s, s.busy[0]); }
  }

  lemma OneHolderNext(c: Config, s: State, step: Step)
    requires ValidConfig(c) && Sane(c, s) && OneHolder(s) && Enabled(c, s, step)
    ensures OneHolder(Do(c, s, step))
  {
    if step.Work? { WorkDelta(c, s, step.w); }
  }

  /** Every step of every thread keeps the invariant. */
  lemma InvNext(c: Config, s: State, step: Step)
    requires ValidConfig(c) && Inv(c, s) && Enabled(c, s, step)
    ensures Inv(c, Do(c, s, step))
  {
    AccountsNext(c, s, step);
    OneHolderNext(c, s, step);
    PermutedNext(c, s, step);
    SaneNext(c, s, step);
    if step.Work? && s.workers[step.w].Took? {
      var r := s.workers[step.w].r;
      if IsLeaf(c, r) {
        CutsOfLeaf(c, s, step.w, r, Do(c, s, step));
      } else {
        CutsOfSplit(c, s, step.w, r, Do(c, s, step));
      }
    } else {
      CutsOfQuietStep(c, s, step);
    }
  }

  // ---------------------------------------------------------------- whole runs

  /** A step of a run.  A leaf that overruns its buffer has no next state. */
  ghost predicate Steps(c: Config, s: State, step: Step, s': State)
    requires ValidConfig(c)
  {
    Sane(c, s) && Enabled(c, s, step) && (step.Work? ==> !Overruns(c, s, step.w)) && s' == Do(c, s, step)
  }

  /** A run: any interleaving of enabled steps from an initial state. */
  ghost predicate Run(c: Config, states: seq<State>, steps: seq<Step>)
    requires ValidConfig(c)
  {
    && |states| == |steps| + 1 && Init(c, states[0])
    && forall i :: 0 <= i < |steps| ==> Steps(c, states[i], steps[i], states[i + 1])
  }

  lemma {:induction false} RunInv(c: Config, states: seq<State>, steps: seq<Step>, i: nat)
    requires ValidConfig(c) && Run(c, states, steps) && i < |states|
    ensures Inv(c, states[i])
  {
    if i == 0 {
      InitInv(c, states[0]);
    } else {
      RunInv(c, states, steps, i - 1);
      assert Steps(c, states[i - 1], steps[i - 1], states[i]);
      InvNext(c, states[i - 1], steps[i - 1]);
    }
  }

  /** When `flag` is zero no range is queued, held or still to be queued. */
  lemma ZeroMeansDone(c: Config, s: State)
    requires ValidConfig(c) && Inv(c, s) && s.flag == 0
    ensures s.busy == [] && s.caller in {Queued, Returned}
    ensures forall w :: 0 <= w < |s.workers| ==> Credit(s.workers[w]) == 0 && Held(s.workers[w]) == {}
    ensures forall r :: !Outstanding(c, s, r)
  {
    forall w | 0 <= w < |s.workers| ensures Credit(s.workers[w]) == 0 && Held(s.workers[w]) == {} {
      SumZero(Credit, s.workers, w);
    }
  }

  /** The leaves are narrow enough for the buffer: because of the threshold, or because the whole range is. */
  predicate LeavesFit(c: Config)
  {
    c.threshold - 1 <= WIDEST || c.end - c.begin <= WIDEST
  }

  /** Then no leaf ever overruns its buffer. */
  lemma LeavesAlwaysFit(c: Config, states: seq<State>, steps: seq<Step>, i: nat, w: int)
    requires ValidConfig(c) && Run(c, states, steps) && i < |states| && LeavesFit(c)
    ensures !Overruns(c, states[i], w)
  {
    RunInv(c, states, steps, i);
    var s := states[i];
    if 0 <= w < |s.workers| && s.workers[w].Took? && IsLeaf(c, s.workers[w].r) {
      NeverMore(s.rows, s.workers[w].r.lo, s.workers[w].r.hi);
    }
  }

  /** In every interleaving: `flag` reaches zero only when no range is outstanding, and the array is
      then a sorted permutation of the caller's array, although sibling ranges can share a cell; and no worker has
      overrun the buffer of its leaf sort. */
  lemma CompletionIsSorted(c: Config, states: seq<State>, steps: seq<Step>, i: nat)
    requires ValidConfig(c) && LeavesFit(c) && Run(c, states, steps) && i < |states|
    requires states[i].flag == 0
    ensures forall r :: !Outstanding(c, states[i], r)
    ensures Permuted(c, states[i].rows) && SortedRange(states[i].rows, c.begin, c.end)
    ensures forall k, w :: 0 <= k < |states| ==> !Overruns(c, states[k], w)
  {
    var s := states[i];
    RunInv(c, states, steps, i);
    ZeroMeansDone(c, s);
    SortedWhenDone(c, s);
    forall k, w | 0 <= k < |states| ensures !Overruns(c, states[k], w) { LeavesAlwaysFit(c, states, steps, k, w); }
  }

  lemma SortedWhenDone(c: Config, s: State)
    requires ValidConfig(c) && Inv(c, s) && forall r :: !Outstanding(c, s, r)
    ensures SortedRange(s.rows, c.begin, c.end)
  {
    forall p, q | c.begin <= p < q <= c.end ensures s.rows[p].key <= s.rows[q].key {
      assert !Covered(c, s, p);
      assert OrderedAt(s.rows, c.begin, c.end, p);
    }
  }

  // ---------------------------------------------------------------- after the return

  /** Once `quick_sort` has returned, no step of any worker touches the array or `flag` again. */
  lemma {:induction false} ReturnedIsFinal(c: Config, states: seq<State>, steps: seq<Step>, i: nat, j: nat)
    requires ValidConfig(c) && Run(c, states, steps) && i <= j < |states|
    requires states[i].caller == Returned
    ensures states[j].caller == Returned && states[j].rows == states[i].rows && states[j].flag == 0
  {
    if i < j {
      ReturnedIsFinal(c, states, steps, i, j - 1);
      RunInv(c, states, steps, j - 1);
      assert Steps(c, states[j - 1], steps[j - 1], states[j]);
      QuietOnceReturned(c, states[j - 1], steps[j - 1]);
    } else {
      RunInv(c, states, steps, j);
    }
  }

  lemma QuietOnceReturned(c: Config, s: State, step: Step)
    requires ValidConfig(c) && Inv(c, s) && s.caller == Returned && Enabled(c, s, step)
    ensures var s' := Do(c, s, step); s'.caller == Returned && s'.rows == s.rows && s'.flag == 0
    ensures forall w :: 0 <= w < |s.workers| && Do(c, s, step).workers[w] == Discounting ==> s.workers[w] == Discounting
  {
    ZeroMeansDone(c, s);
    if step.Work? { WorkDelta(c, s, step.w); }
  }

  /** The step of the worker reads or writes `org_info`, a local variable of `quick_sort`: its key, `flag` or lock. */
  predicate TouchesOrg(w: Worker) { w.Took? || Locks(w) || Holder(w) }

  /** After the return a worker touches `org_info` exactly when it still holds its lock for the last leaf, to unlock
      it; it held the lock already when `quick_sort` returned, and it is the only one. */
  lemma TouchedAfterReturn(c: Config, states: seq<State>, steps: seq<Step>, i: nat, j: nat, w: nat)
    requires ValidConfig(c) && Run(c, states, steps) && i <= j < |states| && states[i].caller == Returned
    requires w < |states[i].workers|
    ensures |states[j].workers| == |states[i].workers|
    ensures TouchesOrg(states[j].workers[w]) <==> states[j].workers[w] == Discounting
    ensures states[j].workers[w] == Discounting ==> states[i].workers[w] == Discounting
    ensures TouchesOrg(states[j].workers[w]) ==>
              forall v :: 0 <= v < |states[j].workers| && TouchesOrg(states[j].workers[v]) ==> v == w
  {
    HeldSinceReturn(c, states, steps, i, j, w);
    RunInv(c, states, steps, j);
    ReturnedIsFinal(c, states, steps, i, j);
    ZeroMeansDone(c, states[j]);
  }

  /** After the return no worker takes the lock any more. */
  lemma NoneLocksAgain(c: Config, s: State, step: Step, w: nat)
    requires ValidConfig(c) && Inv(c, s) && s.caller == Returned && Enabled(c, s, step) && w < |s.workers|
    ensures var s' := Do(c, s, step);
            |s'.workers| == |s.workers| && (s'.workers[w] == Discounting ==> s.workers[w] == Discounting)
  {
    QuietOnceReturned(c, s, step);
    if step.Work? { WorkDelta(c, s, step.w); }
  }

  lemma {:induction false} HeldSinceReturn(c: Config, states: seq<State>, steps: seq<Step>, i: nat, j: nat, w: nat)
    requires ValidConfig(c) && Run(c, states, steps) && i <= j < |states| && states[i].caller == Returned
    requires w < |states[i].workers|
    ensures |states[j].workers| == |states[i].workers|
    ensures states[j].workers[w] == Discounting ==> states[i].workers[w] == Discounting
  {
    if i < j {
      HeldSinceReturn(c, states, steps, i, j - 1, w);
      ReturnedIsFinal(c, states, steps, i, j - 1);
      RunInv(c, states, steps, j - 1);
      assert Steps(c, states[j - 1], steps[j - 1], states[j]);
      NoneLocksAgain(c, states[j - 1], steps[j - 1], w);
    }
  }
}
