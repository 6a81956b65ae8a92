/** The array accesses of `QQSParallel` (common/qalgorithm.h), one by one.

    Every range that is still to be sorted is a process, and every read and every write of a cell is a step of its own;
    the steps of all processes interleave in any order.  That covers whatever the workers do: a range in the hand of
    one worker, in the busy list or on the stack of a leaf sort.  Ranges of neighbours can share a cell.  Beside the
    array the state keeps, for the proof only, the array with all begun swaps completed, and for every process
    whether its first cell belongs to the process on its left. */
module ParallelAccesses {

  /** What a swap is part of: the partition around a pivot, or the sorting of two cells. */
  datatype Goal = Around(pivot: int) | Pair

  datatype Pc =
    | Ready                                          // nothing done yet
    | Up(pivot: int, i: int, j: int)                 // next: read cell i
    | Down(pivot: int, i: int, j: int)               // next: read cell j
    | Tmp(i: int, j: int, goal: Goal)                // next: read cell i for the swap
    | Get(i: int, j: int, goal: Goal, tmp: int)      // next: read cell j for the swap
    | Put(i: int, j: int, goal: Goal, tmp: int, x: int)  // next: write cell i
    | Back(i: int, j: int, goal: Goal, tmp: int)     // next: write cell j
    | Met(pivot: int, i: int)                        // next: read cell i, where the cursors met
    | PairHi(x: int)                                 // first of two cells read; next: read the second
    | Done

  datatype Proc = Proc(lo: int, hi: int, shared: bool, pc: Pc)

  datatype State = State(a: seq<int>, v: seq<int>, procs: seq<Proc>)

  datatype Config = Config(begin: int, end: int, keys: seq<int>)

  predicate ValidConfig(c: Config)
  {
    0 <= c.begin < c.end < |c.keys|
  }

  function Init(c: Config): State
  {
    State(c.keys, c.keys, [Proc(c.begin, c.end, false, Ready)])
  }

  function Swap(v: seq<int>, i: int, j: int): (r: seq<int>)
    requires 0 <= i < |v| && 0 <= j < |v|
    ensures |r| == |v|
  {
    v[i := v[j]][j := v[i]]
  }

  /** The cells that a step of the process reads or writes are in the array. */
  predicate InArray(p: Proc, n: int)
  {
    && 0 <= p.lo < p.hi < n
    && match p.pc
       case Up(_, i, j) => p.lo <= i <= j <= p.hi
       case Down(_, i, j) => p.lo <= i < j <= p.hi
       case Tmp(i, j, _) => p.lo <= i < j <= p.hi
       case Get(i, j, _, _) => p.lo <= i < j <= p.hi
       case Put(i, j, _, _, _) => p.lo <= i < j <= p.hi
       case Back(i, j, _, _) => p.lo <= i < j <= p.hi
       case Met(_, i) => p.lo <= i <= p.hi
       case _ => true
  }

  /** What becomes of the process when it reads: no cell changes. */
  function AfterRead(p: Proc, a: seq<int>): Pc
    requires InArray(p, |a|) && !p.pc.Put? && !p.pc.Back? && !p.pc.Met?
  {
    match p.pc
    case Ready => if p.hi == p.lo + 1 then PairHi(a[p.lo]) else Up(a[(p.lo + p.hi) / 2], p.lo, p.hi)
    case Up(pivot, i, j) =>
      if i == j then Met(pivot, i) else if a[i] < pivot then Up(pivot, i + 1, j) else Down(pivot, i, j)
    case Down(pivot, i, j) =>
      if a[j] > pivot then if j - 1 == i then Met(pivot, i) else Down(pivot, i, j - 1)
      else Tmp(i, j, Around(pivot))
    case Tmp(i, j, goal) => Get(i, j, goal, a[i])
    case Get(i, j, goal, tmp) => Put(i, j, goal, tmp, a[j])
    case PairHi(x) => if x > a[p.hi] then Tmp(p.lo, p.hi, Pair) else Done
    case Done => Done
  }

  /** After the first write of a swap. */
  function AfterPut(pc: Pc): Pc
    requires pc.Put?
  {
    Back(pc.i, pc.j, pc.goal, pc.tmp)
  }

  /** After the second write of a swap. */
  function AfterSwap(pc: Pc): Pc
    requires pc.Back?
  {
    match pc.goal
    case Pair => Done
    case Around(pivot) => Up(pivot, pc.i + 1, if pc.i + 1 < pc.j then pc.j - 1 else pc.j)
  }

  /** A range of two or more cells is a process. */
  function Part(lo: int, hi: int, shared: bool): Proc
  {
    Proc(lo, hi, shared, if lo < hi then Ready else Done)
  }

  /** The two parts of a range whose cursors have met. */
  function LeftPart(p: Proc, a: seq<int>): Proc
    requires InArray(p, |a|) && p.pc.Met?
  {
    Part(p.lo, if a[p.pc.i] < p.pc.pivot then p.pc.i else p.pc.i - 1, p.shared)
  }

  function RightPart(p: Proc, a: seq<int>): Proc
    requires InArray(p, |a|) && p.pc.Met?
  {
    Part(p.pc.i, p.hi, a[p.pc.i] < p.pc.pivot || (p.pc.i == p.lo && p.shared))
  }

  predicate Active(p: Proc) { !p.pc.Done? }

  /** One access of process `k`. */
  function Do(s: State, k: nat): State
    requires k < |s.procs| && Active(s.procs[k]) && InArray(s.procs[k], |s.a|) && |s.v| == |s.a|
  {
    var p := s.procs[k];
    if p.pc.Put? then
      State(s.a[p.pc.i := p.pc.x], Swap(s.v, p.pc.i, p.pc.j), s.procs[k := p.(pc := AfterPut(p.pc))])
    else if p.pc.Back? then State(s.a[p.pc.j := p.pc.tmp], s.v, s.procs[k := p.(pc := AfterSwap(p.pc))])
    else if p.pc.Met? then State(s.a, s.v, s.procs[k := LeftPart(p, s.a)] + [RightPart(p, s.a)])
    else State(s.a, s.v, s.procs[k := p.(pc := AfterRead(p, s.a))])
  }

  // ---------------------------------------------------------------- cuts

  /** The cut after cell `k` is ordered within the window. */
  ghost predicate Ord(c: Config, v: seq<int>, k: int)
    requires ValidConfig(c) && |v| == |c.keys|
  {
    forall x, y :: c.begin <= x <= k < y <= c.end ==> v[x] <= v[y]
  }

  lemma SwapKeepsOrd(c: Config, v: seq<int>, i: int, j: int, k: int)
    requires ValidConfig(c) && |v| == |c.keys| && c.begin <= i < j <= c.end && v[i] >= v[j] && Ord(c, v, k)
    ensures Ord(c, Swap(v, i, j), k)
  {
  }

  // ---------------------------------------------------------------- what every step keeps

  /** The first cell that is the process's own. */
  function OwnLo(p: Proc): int { if p.shared then p.lo + 1 else p.lo }

  /** The range is in place relative to the rest of the window; a shared first cell belongs to the left. */
  ghost predicate Placed(c: Config, v: seq<int>, p: Proc)
    requires ValidConfig(c) && |v| == |c.keys|
  {
    c.begin <= p.lo < p.hi <= c.end && Ord(c, v, p.hi) && Ord(c, v, OwnLo(p) - 1)
  }

  /** The pivot is a key of the process's own, smaller keys come before `i` and larger keys after `j`. */
  ghost predicate Split(v: seq<int>, p: Proc, pivot: int, i: int, j: int)
    requires 0 <= p.lo <= i <= j <= p.hi < |v|
  {
    && (exists x :: OwnLo(p) <= x <= p.hi && v[x] == pivot)
    && (forall x :: p.lo <= x < i ==> v[x] <= pivot)
    && (forall x :: j < x <= p.hi ==> pivot <= v[x])
  }

  /** A swap around a pivot is due; at a shared cell it exchanges equal keys. */
  ghost predicate Due(a: seq<int>, v: seq<int>, p: Proc, i: int, j: int, goal: Goal)
    requires |a| == |v| && 0 <= p.lo <= i < j <= p.hi < |v|
  {
    match goal
    case Around(pivot) => Split(v, p, pivot, i, j) && v[i] >= pivot >= v[j] && (i < OwnLo(p) ==> a[i] >= pivot)
    case Pair => !p.shared && i == p.lo && j == p.hi == p.lo + 1 && v[i] >= v[j]
  }

  ghost predicate Local(a: seq<int>, v: seq<int>, p: Proc)
    requires |a| == |v|
  {
    && InArray(p, |v|)
    && match p.pc
       case Up(pivot, i, j) => Split(v, p, pivot, i, j)
       case Down(pivot, i, j) => Split(v, p, pivot, i, j) && v[i] >= pivot && (i < OwnLo(p) ==> a[i] >= pivot)
       case Met(pivot, i) => Split(v, p, pivot, i, i)
       case Tmp(i, j, goal) => Due(a, v, p, i, j, goal)
       case Get(i, j, goal, tmp) => Due(a, v, p, i, j, goal) && tmp == v[i]
       case Put(i, j, goal, tmp, x) => Due(a, v, p, i, j, goal) && tmp == v[i] && x == v[j]
       case Back(i, j, goal, tmp) => Swapped(a, v, p, i, j, goal) && tmp == v[j]
       case PairHi(x) => p.hi == p.lo + 1 && (if p.shared then x <= v[p.hi] else x == v[p.lo])
       case _ => true
  }

  /** The first write of a swap is done. */
  ghost predicate Swapped(a: seq<int>, v: seq<int>, p: Proc, i: int, j: int, goal: Goal)
    requires |a| == |v| && 0 <= p.lo <= i < j <= p.hi < |v|
  {
    && a[j] == v[i] <= v[j]
    && match goal
       case Around(pivot) => Split(v, p, pivot, i, j) && v[i] <= pivot <= v[j] && (i < OwnLo(p) ==> v[i] == pivot)
       case Pair => !p.shared && i == p.lo && j == p.hi == p.lo + 1
  }

  /** Process `p` has still to write cell `x`. */
  predicate Pending(p: Proc, x: int) { p.pc.Back? && p.pc.j == x }

  /** No two processes own a cell together. */
  predicate Apart(p: Proc, q: Proc) { p.hi < OwnLo(q) || q.hi < OwnLo(p) }

  ghost predicate Good(c: Config, a: seq<int>, v: seq<int>, p: Proc)
    requires ValidConfig(c) && |a| == |v| == |c.keys|
  {
    Active(p) ==> Placed(c, v, p) && Local(a, v, p)
  }

  /** The array is the completed array except at cells that are still to be written. */
  ghost predicate Clean(s: State)
  {
    && |s.a| == |s.v|
    && forall x :: 0 <= x < |s.a| ==> s.a[x] == s.v[x] || exists k :: 0 <= k < |s.procs| && Pending(s.procs[k], x)
  }

  ghost predicate Covered(s: State, x: int)
  {
    exists k :: 0 <= k < |s.procs| && Active(s.procs[k]) && s.procs[k].lo <= x < s.procs[k].hi
  }

  ghost predicate Procs(c: Config, s: State)
    requires ValidConfig(c) && |s.a| == |s.v| == |c.keys|
  {
    && (forall k :: 0 <= k < |s.procs| ==> Good(c, s.a, s.v, s.procs[k]))
    && (forall k, m :: 0 <= k < m < |s.procs| && Active(s.procs[k]) && Active(s.procs[m]) ==>
          Apart(s.procs[k], s.procs[m]))
  }

  ghost predicate Cuts(c: Config, s: State)
    requires ValidConfig(c) && |s.v| == |c.keys|
  {
    forall x :: c.begin <= x < c.end ==> Ord(c, s.v, x) || Covered(s, x)
  }

  ghost predicate Permuted(c: Config, v: seq<int>)
  {
    && |v| == |c.keys| && multiset(v) == multiset(c.keys)
    && forall x :: 0 <= x < |v| && !(c.begin <= x <= c.end) ==> v[x] == c.keys[x]
  }

  ghost predicate Inv(c: Config, s: State)
    requires ValidConfig(c)
  {
    |s.a| == |s.v| == |c.keys| && Procs(c, s) && Clean(s) && Cuts(c, s) && Permuted(c, s.v)
  }

  lemma InitInv(c: Config)
    requires ValidConfig(c)
    ensures Inv(c, Init(c))
  {
    var s := Init(c);
    forall x | c.begin <= x < c.end ensures Covered(s, x) { assert Active(s.procs[0]); }
  }

  // ---------------------------------------------------------------- what a process reads

  /** What a process sees: its own cells as they are completed, and in a shared first cell no more than that, which is
      no more than any key of its own. */
  ghost predicate Sees(a: seq<int>, v: seq<int>, p: Proc)
    requires |a| == |v| && 0 <= p.lo < p.hi < |v|
  {
    && (forall x :: OwnLo(p) <= x <= p.hi ==> a[x] == v[x])
    && (p.shared ==> a[p.lo] <= v[p.lo] && forall y :: p.lo < y <= p.hi ==> v[p.lo] <= v[y])
  }

  /** A cell that is still to be written is owned by the process that has to write it. */
  lemma PendingIsOwn(c: Config, a: seq<int>, v: seq<int>, p: Proc, x: int)
    requires ValidConfig(c) && |a| == |v| == |c.keys| && Good(c, a, v, p) && Pending(p, x)
    ensures OwnLo(p) <= x <= p.hi && 0 <= p.pc.i < x && a[x] == v[p.pc.i] <= v[x]
  {
  }

  lemma NobodyWrites(c: Config, s: State, k: nat, x: int)
    requires ValidConfig(c) && |s.a| == |s.v| == |c.keys| && Procs(c, s) && k < |s.procs| && Active(s.procs[k])
    requires OwnLo(s.procs[k]) <= x <= s.procs[k].hi && !s.procs[k].pc.Back?
    ensures forall m :: 0 <= m < |s.procs| ==> !Pending(s.procs[m], x)
  {
    forall m | 0 <= m < |s.procs| ensures !Pending(s.procs[m], x) {
      assert Good(c, s.a, s.v, s.procs[m]);
      if Pending(s.procs[m], x) { PendingIsOwn(c, s.a, s.v, s.procs[m], x); }
    }
  }

  lemma SeesShared(c: Config, s: State, k: nat)
    requires ValidConfig(c) && |s.a| == |s.v| == |c.keys| && Procs(c, s) && Clean(s)
    requires k < |s.procs| && Active(s.procs[k]) && s.procs[k].shared
    ensures var lo := s.procs[k].lo; 0 <= lo < |s.a| && s.a[lo] <= s.v[lo]
  {
    var lo := s.procs[k].lo;
    assert Good(c, s.a, s.v, s.procs[k]);
    if s.a[lo] != s.v[lo] {
      var m :| 0 <= m < |s.procs| && Pending(s.procs[m], lo);
      assert Good(c, s.a, s.v, s.procs[m]);
      PendingIsOwn(c, s.a, s.v, s.procs[m], lo);
    }
  }

  lemma SeesItsCells(c: Config, s: State, k: nat)
    requires ValidConfig(c) && Inv(c, s) && k < |s.procs| && Active(s.procs[k]) && !s.procs[k].pc.Back?
    ensures Good(c, s.a, s.v, s.procs[k]) && Sees(s.a, s.v, s.procs[k])
  {
    var p := s.procs[k];
    assert Good(c, s.a, s.v, p);
    forall x | OwnLo(p) <= x <= p.hi ensures s.a[x] == s.v[x] { NobodyWrites(c, s, k, x); }
    if p.shared { SeesShared(c, s, k); }
  }

  // ---------------------------------------------------------------- reads

  /** The pivot is no less than a shared first cell. */
  lemma PivotAbove(a: seq<int>, v: seq<int>, p: Proc, pivot: int, i: int, j: int)
    requires |a| == |v| && 0 <= p.lo < p.hi < |v| && p.lo <= i <= j <= p.hi && Sees(a, v, p) && Split(v, p, pivot, i, j)
    ensures p.shared ==> a[p.lo] <= v[p.lo] <= pivot
  {
  }

  lemma ReadReady(a: seq<int>, v: seq<int>, p: Proc)
    requires |a| == |v| && Local(a, v, p) && p.pc.Ready? && Sees(a, v, p)
    ensures Local(a, v, p.(pc := AfterRead(p, a)))
  {
    if p.hi != p.lo + 1 { assert OwnLo(p) <= (p.lo + p.hi) / 2 <= p.hi; }
  }

  lemma ReadUp(a: seq<int>, v: seq<int>, p: Proc)
    requires |a| == |v| && Local(a, v, p) && p.pc.Up? && Sees(a, v, p)
    ensures Local(a, v, p.(pc := AfterRead(p, a)))
  {
    PivotAbove(a, v, p, p.pc.pivot, p.pc.i, p.pc.j);
  }

  lemma ReadDown(a: seq<int>, v: seq<int>, p: Proc)
    requires |a| == |v| && Local(a, v, p) && p.pc.Down? && Sees(a, v, p)
    ensures Local(a, v, p.(pc := AfterRead(p, a)))
  {
  }

  lemma ReadForSwap(a: seq<int>, v: seq<int>, p: Proc)
    requires |a| == |v| && Local(a, v, p) && (p.pc.Tmp? || p.pc.Get?) && Sees(a, v, p)
    ensures Local(a, v, p.(pc := AfterRead(p, a)))
  {
    if p.pc.goal.Around? { PivotAbove(a, v, p, p.pc.goal.pivot, p.pc.i, p.pc.j); }
  }

  lemma ReadPair(a: seq<int>, v: seq<int>, p: Proc)
    requires |a| == |v| && Local(a, v, p) && p.pc.PairHi? && Sees(a, v, p)
    ensures Local(a, v, p.(pc := AfterRead(p, a)))
    ensures AfterRead(p, a).Done? ==> p.hi == p.lo + 1 && (!p.shared ==> v[p.lo] <= v[p.hi])
  {
  }

  /** The cut inside a range of two cells. */
  lemma PairIsOrdered(c: Config, v: seq<int>, p: Proc)
    requires ValidConfig(c) && |v| == |c.keys| && Placed(c, v, p) && p.hi == p.lo + 1
    requires !p.shared ==> v[p.lo] <= v[p.hi]
    ensures Ord(c, v, p.lo)
  {
  }

  predicate Reads(pc: Pc) { !pc.Put? && !pc.Back? && !pc.Met? && !pc.Done? }

  lemma Read(a: seq<int>, v: seq<int>, p: Proc)
    requires |a| == |v| && Local(a, v, p) && Reads(p.pc) && Sees(a, v, p)
    ensures Local(a, v, p.(pc := AfterRead(p, a))) && !AfterRead(p, a).Back?
    ensures AfterRead(p, a).Done? ==> p.hi == p.lo + 1 && (!p.shared ==> v[p.lo] <= v[p.hi])
  {
    match p.pc {
      case Ready => ReadReady(a, v, p);
      case Up(_, _, _) => ReadUp(a, v, p);
      case Down(_, _, _) => ReadDown(a, v, p);
      case Tmp(_, _, _) => ReadForSwap(a, v, p);
      case Get(_, _, _, _) => ReadForSwap(a, v, p);
      case PairHi(_) => ReadPair(a, v, p);
    }
  }

  /** Another process in the same place. */
  ghost predicate SameRange(p: Proc, q: Proc) { p.lo == q.lo && p.hi == q.hi && p.shared == q.shared }

  /** One process goes on, over memory that is still good for all others. */
  lemma ReplaceProc(c: Config, s: State, k: nat, q: Proc, a: seq<int>, v: seq<int>)
    requires ValidConfig(c) && |s.a| == |s.v| == |a| == |v| == |c.keys| && Procs(c, s) && k < |s.procs|
    requires Active(s.procs[k]) && SameRange(s.procs[k], q) && Good(c, a, v, q)
    requires forall m :: 0 <= m < |s.procs| && m != k ==> Good(c, a, v, s.procs[m])
    ensures Procs(c, State(a, v, s.procs[k := q]))
  {
  }

  lemma ReplaceCovered(c: Config, s: State, k: nat, q: Proc, s': State)
    requires ValidConfig(c) && |s.v| == |c.keys| && Cuts(c, s) && k < |s.procs| && Active(s.procs[k])
    requires SameRange(s.procs[k], q) && s'.procs == s.procs[k := q] && |s'.v| == |s.v|
    requires forall x :: c.begin <= x < c.end && Ord(c, s.v, x) ==> Ord(c, s'.v, x)
    requires Active(q) || (q.hi == q.lo + 1 && Ord(c, s'.v, q.lo))
    ensures Cuts(c, s')
  {
    forall x | c.begin <= x < c.end && !Ord(c, s'.v, x) ensures Covered(s', x) {
      var m :| 0 <= m < |s.procs| && Active(s.procs[m]) && s.procs[m].lo <= x < s.procs[m].hi;
      assert Active(s'.procs[m]);
    }
  }

  lemma ReplaceClean(s: State, k: nat, q: Proc)
    requires Clean(s) && k < |s.procs| && !s.procs[k].pc.Back? && !q.pc.Back?
    ensures Clean(s.(procs := s.procs[k := q]))
  {
    var s' := s.(procs := s.procs[k := q]);
    forall x | 0 <= x < |s.a| && s.a[x] != s.v[x] ensures exists m :: 0 <= m < |s'.procs| && Pending(s'.procs[m], x) {
      var m :| 0 <= m < |s.procs| && Pending(s.procs[m], x);
      assert Pending(s'.procs[m], x);
    }
  }

  /** A step that reads keeps the invariant. */
  lemma ReadStep(c: Config, s: State, k: nat)
    requires ValidConfig(c) && Inv(c, s) && k < |s.procs| && Reads(s.procs[k].pc)
    ensures InArray(s.procs[k], |s.a|) && Inv(c, Do(s, k))
  {
    var p := s.procs[k];
    SeesItsCells(c, s, k);
    Read(s.a, s.v, p);
    var q := p.(pc := AfterRead(p, s.a));
    if q.pc.Done? { PairIsOrdered(c, s.v, p); }
    ReplaceProc(c, s, k, q, s.a, s.v);
    ReplaceCovered(c, s, k, q, Do(s, k));
    ReplaceClean(s, k, q);
  }

  // ---------------------------------------------------------------- the second write of a swap

  lemma BackOwn(c: Config, a: seq<int>, v: seq<int>, p: Proc)
    requires ValidConfig(c) && |a| == |v| == |c.keys| && Active(p) && Good(c, a, v, p) && p.pc.Back?
    ensures var a', q := a[p.pc.j := p.pc.tmp], p.(pc := AfterSwap(p.pc));
            Good(c, a', v, q) && (!Active(q) ==> q.hi == q.lo + 1 && Ord(c, v, q.lo))
  {
    if p.pc.goal.Pair? { PairIsOrdered(c, v, p); }
  }

  /** The other processes do not mind: the cell is not theirs, and in a shared first cell it only grows. */
  lemma BackOthers(c: Config, a: seq<int>, v: seq<int>, p: Proc, q: Proc)
    requires ValidConfig(c) && |a| == |v| == |c.keys| && Active(p) && Good(c, a, v, p) && p.pc.Back?
    requires Good(c, a, v, q) && Active(q) && (Apart(p, q) || Apart(q, p))
    ensures Good(c, a[p.pc.j := p.pc.tmp], v, q)
  {
  }

  lemma BackClean(s: State, k: nat, q: Proc)
    requires Clean(s) && k < |s.procs| && s.procs[k].pc.Back? && !q.pc.Back?
    requires var pc := s.procs[k].pc; 0 <= pc.j < |s.a| && pc.tmp == s.v[pc.j]
    ensures var pc := s.procs[k].pc; Clean(State(s.a[pc.j := pc.tmp], s.v, s.procs[k := q]))
  {
    var pc := s.procs[k].pc;
    var s' := State(s.a[pc.j := pc.tmp], s.v, s.procs[k := q]);
    forall x | 0 <= x < |s.a| && s'.a[x] != s'.v[x] ensures exists m :: 0 <= m < |s'.procs| && Pending(s'.procs[m], x) {
      var m :| 0 <= m < |s.procs| && Pending(s.procs[m], x);
      assert Pending(s'.procs[m], x);
    }
  }

  lemma BackProcs(c: Config, s: State, k: nat)
    requires ValidConfig(c) && |s.a| == |s.v| == |c.keys| && Procs(c, s) && k < |s.procs| && s.procs[k].pc.Back?
    ensures InArray(s.procs[k], |s.a|) && Procs(c, Do(s, k))
  {
    var p := s.procs[k];
    assert Good(c, s.a, s.v, p);
    BackOwn(c, s.a, s.v, p);
    var a := s.a[p.pc.j := p.pc.tmp];
    forall m | 0 <= m < |s.procs| && m != k ensures Good(c, a, s.v, s.procs[m]) {
      if Active(s.procs[m]) { BackOthers(c, s.a, s.v, p, s.procs[m]); }
    }
    ReplaceProc(c, s, k, p.(pc := AfterSwap(p.pc)), a, s.v);
  }

  lemma BackStep(c: Config, s: State, k: nat)
    requires ValidConfig(c) && Inv(c, s) && k < |s.procs| && s.procs[k].pc.Back?
    ensures InArray(s.procs[k], |s.a|) && Inv(c, Do(s, k))
  {
    var p := s.procs[k];
    BackProcs(c, s, k);
    BackOwn(c, s.a, s.v, p);
    ReplaceCovered(c, s, k, p.(pc := AfterSwap(p.pc)), Do(s, k));
    BackClean(s, k, p.(pc := AfterSwap(p.pc)));
  }

  // ---------------------------------------------------------------- the first write of a swap

  /** The swap exchanges an inversion; at a shared first cell it exchanges equal keys and changes nothing. */
  lemma PutInverts(a: seq<int>, v: seq<int>, p: Proc)
    requires |a| == |v| && Local(a, v, p) && p.pc.Put? && Sees(a, v, p)
    ensures var i, j := p.pc.i, p.pc.j;
            && v[i] >= v[j] && p.pc.x == v[j] && p.pc.tmp == v[i] && a[j] == v[j]
            && (i < OwnLo(p) ==> v[i] == v[j] == a[i] && Swap(v, i, j) == v && a[i := p.pc.x] == a)
  {
    if p.pc.goal.Around? { PivotAbove(a, v, p, p.pc.goal.pivot, p.pc.i, p.pc.j); }
  }

  /** The pivot is still a key of the process's own. */
  lemma PutSplit(v: seq<int>, p: Proc, pivot: int, i: int, j: int)
    requires 0 <= p.lo <= i < j <= p.hi < |v| && Split(v, p, pivot, i, j) && (i < OwnLo(p) ==> v[i] == v[j])
    ensures Split(Swap(v, i, j), p, pivot, i, j)
  {
    var x :| OwnLo(p) <= x <= p.hi && v[x] == pivot;
    var y := if x == i then j else if x == j then if i < OwnLo(p) then j else i else x;
    assert Swap(v, i, j)[y] == pivot;
  }

  lemma PutSwapped(a: seq<int>, v: seq<int>, p: Proc)
    requires |a| == |v| && Local(a, v, p) && p.pc.Put? && Sees(a, v, p)
    ensures var a', v' := a[p.pc.i := p.pc.x], Swap(v, p.pc.i, p.pc.j); Local(a', v', p.(pc := AfterPut(p.pc)))
  {
    PutInverts(a, v, p);
    if p.pc.goal.Around? { PutSplit(v, p, p.pc.goal.pivot, p.pc.i, p.pc.j); }
  }

  lemma PutOwn(c: Config, a: seq<int>, v: seq<int>, p: Proc)
    requires ValidConfig(c) && |a| == |v| == |c.keys| && Good(c, a, v, p) && p.pc.Put? && Sees(a, v, p)
    ensures var a', v' := a[p.pc.i := p.pc.x], Swap(v, p.pc.i, p.pc.j); Good(c, a', v', p.(pc := AfterPut(p.pc)))
  {
    PutSwapped(a, v, p);
    PutInverts(a, v, p);
    SwapKeepsOrd(c, v, p.pc.i, p.pc.j, p.hi);
    SwapKeepsOrd(c, v, p.pc.i, p.pc.j, OwnLo(p) - 1);
  }

  /** Only a shared first cell has changed, and grown, and is still no more than any key of the process's own. */
  ghost predicate Lifted(a: seq<int>, v: seq<int>, a': seq<int>, v': seq<int>, q: Proc)
    requires |a| == |v| == |a'| == |v'| && 0 <= q.lo < q.hi < |v|
  {
    && (forall x :: q.lo <= x <= q.hi ==> a'[x] == a[x])
    && (forall x :: OwnLo(q) <= x <= q.hi ==> v'[x] == v[x])
    && (q.shared ==> v[q.lo] <= v'[q.lo] && forall y :: q.lo < y <= q.hi ==> v'[q.lo] <= v'[y])
  }

  lemma LiftedSplit(a: seq<int>, v: seq<int>, a': seq<int>, v': seq<int>, q: Proc, pivot: int, i: int, j: int)
    requires |a| == |v| == |a'| == |v'| && 0 <= q.lo < q.hi < |v| && q.lo <= i <= j <= q.hi
    requires Lifted(a, v, a', v', q) && Split(v, q, pivot, i, j)
    ensures Split(v', q, pivot, i, j) && (q.shared ==> v'[q.lo] <= pivot)
    ensures q.shared && v[q.lo] >= pivot ==> v'[q.lo] == v[q.lo]
  {
    var x :| OwnLo(q) <= x <= q.hi && v[x] == pivot;
    assert v'[x] == pivot;
  }

  lemma LiftedLocal(a: seq<int>, v: seq<int>, a': seq<int>, v': seq<int>, q: Proc)
    requires |a| == |v| == |a'| == |v'| && Local(a, v, q) && Lifted(a, v, a', v', q)
    ensures Local(a', v', q)
  {
    match q.pc {
      case Up(pivot, i, j) => LiftedSplit(a, v, a', v', q, pivot, i, j);
      case Down(pivot, i, j) => LiftedSplit(a, v, a', v', q, pivot, i, j);
      case Met(pivot, i) => LiftedSplit(a, v, a', v', q, pivot, i, i);
      case Tmp(i, j, goal) => if goal.Around? { LiftedSplit(a, v, a', v', q, goal.pivot, i, j); }
      case Get(i, j, goal, _) => if goal.Around? { LiftedSplit(a, v, a', v', q, goal.pivot, i, j); }
      case Put(i, j, goal, _, _) => if goal.Around? { LiftedSplit(a, v, a', v', q, goal.pivot, i, j); }
      case Back(i, j, goal, _) => if goal.Around? { LiftedSplit(a, v, a', v', q, goal.pivot, i, j); }
      case _ =>
    }
  }

  lemma PutLifts(c: Config, a: seq<int>, v: seq<int>, p: Proc, q: Proc)
    requires ValidConfig(c) && |a| == |v| == |c.keys| && Good(c, a, v, p) && p.pc.Put? && Sees(a, v, p)
    requires Active(q) && Placed(c, v, q) && Apart(p, q)
    ensures var a', v' := a[p.pc.i := p.pc.x], Swap(v, p.pc.i, p.pc.j); Placed(c, v', q) && Lifted(a, v, a', v', q)
  {
    var i, j := p.pc.i, p.pc.j;
    PutInverts(a, v, p);
    SwapKeepsOrd(c, v, i, j, q.hi);
    SwapKeepsOrd(c, v, i, j, OwnLo(q) - 1);
  }

  lemma PutOthers(c: Config, a: seq<int>, v: seq<int>, p: Proc, q: Proc)
    requires ValidConfig(c) && |a| == |v| == |c.keys| && Good(c, a, v, p) && p.pc.Put? && Sees(a, v, p)
    requires Good(c, a, v, q) && Active(q) && Apart(p, q)
    ensures var a', v' := a[p.pc.i := p.pc.x], Swap(v, p.pc.i, p.pc.j); Good(c, a', v', q)
  {
    PutLifts(c, a, v, p, q);
    LiftedLocal(a, v, a[p.pc.i := p.pc.x], Swap(v, p.pc.i, p.pc.j), q);
  }

  lemma PutProcs(c: Config, s: State, k: nat)
    requires ValidConfig(c) && |s.a| == |s.v| == |c.keys| && Procs(c, s) && k < |s.procs| && s.procs[k].pc.Put?
    requires Good(c, s.a, s.v, s.procs[k]) && Sees(s.a, s.v, s.procs[k])
    ensures InArray(s.procs[k], |s.a|) && Procs(c, Do(s, k))
  {
    var p := s.procs[k];
    PutOwn(c, s.a, s.v, p);
    var a, v := s.a[p.pc.i := p.pc.x], Swap(s.v, p.pc.i, p.pc.j);
    forall m | 0 <= m < |s.procs| && m != k ensures Good(c, a, v, s.procs[m]) {
      if Active(s.procs[m]) { PutOthers(c, s.a, s.v, p, s.procs[m]); }
    }
    ReplaceProc(c, s, k, p.(pc := AfterPut(p.pc)), a, v);
  }

  lemma PutClean(s: State, k: nat, s': State)
    requires Clean(s) && k < |s.procs| && s.procs[k].pc.Put?
    requires var pc := s.procs[k].pc;
             && 0 <= pc.i < |s.a| && 0 <= pc.j < |s.a| && pc.x == s.v[pc.j]
             && s' == State(s.a[pc.i := pc.x], Swap(s.v, pc.i, pc.j), s.procs[k := s.procs[k].(pc := AfterPut(pc))])
    ensures Clean(s')
  {
    var p := s.procs[k];
    assert Pending(s'.procs[k], p.pc.j);
    forall x | 0 <= x < |s.a| && s'.a[x] != s'.v[x] ensures exists m :: 0 <= m < |s'.procs| && Pending(s'.procs[m], x) {
      if x != p.pc.j {
        var m :| 0 <= m < |s.procs| && Pending(s.procs[m], x);
        assert Pending(s'.procs[m], x);
      }
    }
  }

  lemma PutCuts(c: Config, s: State, k: nat)
    requires ValidConfig(c) && |s.a| == |s.v| == |c.keys| && Cuts(c, s) && k < |s.procs| && s.procs[k].pc.Put?
    requires Good(c, s.a, s.v, s.procs[k]) && Sees(s.a, s.v, s.procs[k])
    ensures InArray(s.procs[k], |s.a|) && Cuts(c, Do(s, k))
  {
    var p := s.procs[k];
    PutInverts(s.a, s.v, p);
    forall x | c.begin <= x < c.end && Ord(c, s.v, x) ensures Ord(c, Swap(s.v, p.pc.i, p.pc.j), x) {
      SwapKeepsOrd(c, s.v, p.pc.i, p.pc.j, x);
    }
    ReplaceCovered(c, s, k, p.(pc := AfterPut(p.pc)), Do(s, k));
  }

  lemma PutStep(c: Config, s: State, k: nat)
    requires ValidConfig(c) && Inv(c, s) && k < |s.procs| && s.procs[k].pc.Put?
    ensures InArray(s.procs[k], |s.a|) && Inv(c, Do(s, k))
  {
    SeesItsCells(c, s, k);
    PutProcs(c, s, k);
    PutCuts(c, s, k);
    PutRest(c, s, k);
  }

  lemma PutRest(c: Config, s: State, k: nat)
    requires ValidConfig(c) && |s.a| == |s.v| == |c.keys| && Clean(s) && Permuted(c, s.v)
    requires k < |s.procs| && s.procs[k].pc.Put?
    requires Good(c, s.a, s.v, s.procs[k]) && Sees(s.a, s.v, s.procs[k])
    ensures InArray(s.procs[k], |s.a|) && Clean(Do(s, k)) && Permuted(c, Do(s, k).v)
  {
    PutInverts(s.a, s.v, s.procs[k]);
    PutClean(s, k, Do(s, k));
    SwapPermutes(c, s.v, s.procs[k].pc.i, s.procs[k].pc.j);
  }

  lemma SwapPermutes(c: Config, v: seq<int>, i: int, j: int)
    requires ValidConfig(c) && Permuted(c, v) && c.begin <= i < j <= c.end
    ensures Permuted(c, Swap(v, i, j))
  {
  }

  // ---------------------------------------------------------------- the split

  /** Where the cursors met, the cut before or after the cell is in order, by the key that is read there. */
  lemma MetCut(c: Config, a: seq<int>, v: seq<int>, p: Proc)
    requires ValidConfig(c) && |a| == |v| == |c.keys| && Good(c, a, v, p) && p.pc.Met? && Sees(a, v, p)
    ensures var i := p.pc.i;
            if a[i] < p.pc.pivot || (i == p.lo && p.shared) then Ord(c, v, i) else Ord(c, v, i - 1)
  {
    var i, pivot := p.pc.i, p.pc.pivot;
    if i == p.lo && p.shared {
    } else if a[i] < pivot {
      forall x, y | c.begin <= x <= i < y <= c.end ensures v[x] <= v[y] {
        if p.lo <= x { assert v[x] <= pivot; }
      }
    } else {
      forall x, y | c.begin <= x <= i - 1 < y <= c.end ensures v[x] <= v[y] {
        if p.lo <= x { assert v[x] <= pivot; }
      }
    }
  }

  lemma PartsGood(c: Config, a: seq<int>, v: seq<int>, p: Proc)
    requires ValidConfig(c) && |a| == |v| == |c.keys| && Good(c, a, v, p) && p.pc.Met? && Sees(a, v, p)
    ensures Good(c, a, v, LeftPart(p, a)) && Good(c, a, v, RightPart(p, a))
  {
    MetCut(c, a, v, p);
  }

  /** The parts own no more than the range did, and nothing together. */
  lemma PartsApart(p: Proc, a: seq<int>, q: Proc)
    requires InArray(p, |a|) && p.pc.Met?
    ensures Apart(LeftPart(p, a), RightPart(p, a))
    ensures Apart(p, q) ==> Apart(LeftPart(p, a), q) && Apart(RightPart(p, a), q)
  {
  }

  lemma MetProcs(c: Config, s: State, k: nat)
    requires ValidConfig(c) && Inv(c, s) && k < |s.procs| && s.procs[k].pc.Met?
    ensures InArray(s.procs[k], |s.a|) && Procs(c, Do(s, k))
  {
    var p, n := s.procs[k], |s.procs|;
    SeesItsCells(c, s, k);
    PartsGood(c, s.a, s.v, p);
    var s' := Do(s, k);
    forall m | 0 <= m < |s'.procs| ensures Good(c, s'.a, s'.v, s'.procs[m]) {
      if m != k && m < n { assert s'.procs[m] == s.procs[m]; }
    }
    forall l, m | 0 <= l < m < |s'.procs| && Active(s'.procs[l]) && Active(s'.procs[m])
      ensures Apart(s'.procs[l], s'.procs[m])
    {
      if l == k || m == k || m == n {
        PartsApart(p, s.a, s.procs[if l == k then if m == n then k else m else l]);
      }
    }
  }

  lemma MetClean(s: State, k: nat, l: Proc, r: Proc)
    requires Clean(s) && k < |s.procs| && !s.procs[k].pc.Back?
    ensures Clean(State(s.a, s.v, s.procs[k := l] + [r]))
  {
    var s' := State(s.a, s.v, s.procs[k := l] + [r]);
    forall x | 0 <= x < |s.a| && s.a[x] != s.v[x] ensures exists m :: 0 <= m < |s'.procs| && Pending(s'.procs[m], x) {
      var m :| 0 <= m < |s.procs| && Pending(s.procs[m], x);
      assert Pending(s'.procs[m], x);
    }
  }

  lemma MetCuts(c: Config, s: State, k: nat)
    requires ValidConfig(c) && |s.a| == |s.v| == |c.keys| && Cuts(c, s) && k < |s.procs| && s.procs[k].pc.Met?
    requires Good(c, s.a, s.v, s.procs[k]) && Sees(s.a, s.v, s.procs[k])
    ensures InArray(s.procs[k], |s.a|) && Cuts(c, Do(s, k))
  {
    var n, s' := |s.procs|, Do(s, k);
    forall x | c.begin <= x < c.end && !Ord(c, s.v, x) ensures Covered(s', x) {
      var m :| 0 <= m < n && Active(s.procs[m]) && s.procs[m].lo <= x < s.procs[m].hi;
      if m != k {
        assert Active(s'.procs[m]);
      } else {
        PartCovers(c, s.a, s.v, s.procs[k], x);
        assert s'.procs[k] == LeftPart(s.procs[k], s.a) && s'.procs[n] == RightPart(s.procs[k], s.a);
      }
    }
  }

  /** A cut of the range that is not in order lies in one of the parts. */
  lemma PartCovers(c: Config, a: seq<int>, v: seq<int>, p: Proc, x: int)
    requires ValidConfig(c) && |a| == |v| == |c.keys| && Good(c, a, v, p) && p.pc.Met? && Sees(a, v, p)
    requires p.lo <= x < p.hi && !Ord(c, v, x)
    ensures var q := if x < p.pc.i then LeftPart(p, a) else RightPart(p, a); Active(q) && q.lo <= x < q.hi
  {
    MetCut(c, a, v, p);
  }

  lemma MetStep(c: Config, s: State, k: nat)
    requires ValidConfig(c) && Inv(c, s) && k < |s.procs| && s.procs[k].pc.Met?
    ensures InArray(s.procs[k], |s.a|) && Inv(c, Do(s, k))
  {
    SeesItsCells(c, s, k);
    MetProcs(c, s, k);
    MetCuts(c, s, k);
    MetClean(s, k, LeftPart(s.procs[k], s.a), RightPart(s.procs[k], s.a));
  }

  // ---------------------------------------------------------------- whole runs

  /** Every access of every process keeps the invariant. */
  lemma StepKeepsInv(c: Config, s: State, k: nat)
    requires ValidConfig(c) && Inv(c, s) && k < |s.procs| && Active(s.procs[k])
    ensures InArray(s.procs[k], |s.a|) && Inv(c, Do(s, k))
  {
    var pc := s.procs[k].pc;
    if pc.Put? {
      PutStep(c, s, k);
    } else if pc.Back? {
      BackStep(c, s, k);
    } else if pc.Met? {
      MetStep(c, s, k);
    } else {
      ReadStep(c, s, k);
    }
  }

  ghost predicate Steps(s: State, k: nat, s': State)
  {
    && k < |s.procs| && Active(s.procs[k]) && InArray(s.procs[k], |s.a|) && |s.v| == |s.a|
    && s' == Do(s, k)
  }

  /** Any interleaving of the accesses. */
  ghost predicate Run(c: Config, states: seq<State>, who: seq<nat>)
  {
    && |states| == |who| + 1 && states[0] == Init(c)
    && forall i :: 0 <= i < |who| ==> Steps(states[i], who[i], states[i + 1])
  }

  lemma NextInv(c: Config, s: State, k: nat, s': State)
    requires ValidConfig(c) && Inv(c, s) && Steps(s, k, s')
    ensures Inv(c, s')
  {
    StepKeepsInv(c, s, k);
  }

  ghost predicate InvAt(c: Config, states: seq<State>, i: int)
    requires ValidConfig(c)
  {
    0 <= i < |states| && Inv(c, states[i])
  }

  lemma RunStarts(c: Config, states: seq<State>, who: seq<nat>)
    requires ValidConfig(c) && Run(c, states, who)
    ensures InvAt(c, states, 0)
  {
    InitInv(c);
  }

  lemma RunSteps(c: Config, states: seq<State>, who: seq<nat>, i: nat)
    requires ValidConfig(c) && Run(c, states, who) && 0 < i < |states| && InvAt(c, states, i - 1)
    ensures InvAt(c, states, i)
  {
    NextInv(c, states[i - 1], who[i - 1], states[i]);
  }

  lemma {:induction false} RunInv(c: Config, states: seq<State>, who: seq<nat>, i: nat)
    requires ValidConfig(c) && Run(c, states, who) && i < |states|
    ensures InvAt(c, states, i)
  {
    if i == 0 {
      RunStarts(c, states, who);
    } else {
      RunInv(c, states, who, i - 1);
      RunSteps(c, states, who, i);
    }
  }

  /** No access of any run is outside the array. */
  lemma AccessesInArray(c: Config, states: seq<State>, who: seq<nat>, i: nat, k: nat)
    requires ValidConfig(c) && Run(c, states, who) && i < |states|
    requires k < |states[i].procs| && Active(states[i].procs[k])
    ensures InArray(states[i].procs[k], |c.keys|)
  {
    RunInv(c, states, who, i);
    assert Good(c, states[i].a, states[i].v, states[i].procs[k]);
  }

  /** In every interleaving of the single reads and writes, duplicates included: when no range is left the window is
      sorted and a permutation of what it was, and nothing outside it has changed. */
  lemma AccessesSort(c: Config, states: seq<State>, who: seq<nat>, i: nat)
    requires ValidConfig(c) && Run(c, states, who) && i < |states|
    requires forall k :: 0 <= k < |states[i].procs| ==> !Active(states[i].procs[k])
    ensures Permuted(c, states[i].a)
    ensures forall x, y :: c.begin <= x < y <= c.end ==> states[i].a[x] <= states[i].a[y]
  {
    var s := states[i];
    RunInv(c, states, who, i);
    assert s.a == s.v by {
      forall x | 0 <= x < |s.a| ensures s.a[x] == s.v[x] {
        assert forall k :: 0 <= k < |s.procs| ==> !Pending(s.procs[k], x);
      }
    }
    forall x, y | c.begin <= x < y <= c.end ensures s.v[x] <= s.v[y] {
      assert !Covered(s, x);
      assert Ord(c, s.v, x);
    }
  }
}
