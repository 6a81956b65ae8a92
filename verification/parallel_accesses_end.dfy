/** The array accesses of `QQSParallel` (common/qalgorithm.h) come to an end, in whatever order the processes make them:
    the parts of a range are smaller than the range although other processes write its shared cells in between. */
module ParallelAccessesEnd {
  import opened Arithmetic
  import opened ParallelAccesses

  // ---------------------------------------------------------------- parts are smaller

  function Mid(p: Proc): int { (p.lo + p.hi) / 2 }

  predicate Partitions(pc: Pc)
  {
    match pc
    case Up(_, _, _) | Down(_, _, _) | Met(_, _) => true
    case Tmp(_, _, goal) => goal.Around?
    case Get(_, _, goal, _) => goal.Around?
    case Put(_, _, goal, _, _) => goal.Around?
    case Back(_, _, goal, _) => goal.Around?
    case _ => false
  }

  /** Why the parts will be smaller: before its first swap a process has the pivot between its cursors, and after it
      both cursors have left the ends, or the last cell is no less than the pivot. */
  ghost predicate Narrows(v: seq<int>, p: Proc)
    requires 0 <= p.lo < p.hi < |v|
  {
    && (if Partitions(p.pc) then p.hi - p.lo >= 2 else p.pc.Ready? || p.hi - p.lo == 1)
    && match p.pc
       case Up(pivot, i, j) =>
         || (i <= Mid(p) && j == p.hi && v[Mid(p)] == pivot)
         || (i > p.lo && (j < p.hi || (i == j && v[p.hi] >= pivot)))
       case Down(pivot, i, j) => (i <= Mid(p) <= j && v[Mid(p)] == pivot) || (i > p.lo && j < p.hi)
       case Met(pivot, i) => i > p.lo && (i < p.hi || v[p.hi] >= pivot)
       case _ => true
  }

  ghost predicate Narrow(v: seq<int>, p: Proc) { Active(p) ==> 0 <= p.lo < p.hi < |v| && Narrows(v, p) }

  lemma ReadNarrows(a: seq<int>, v: seq<int>, p: Proc)
    requires |a| == |v| && Local(a, v, p) && Reads(p.pc) && Sees(a, v, p) && Narrows(v, p)
    ensures Narrow(v, p.(pc := AfterRead(p, a)))
  {
    assert p.hi - p.lo >= 2 ==> OwnLo(p) <= Mid(p) < p.hi && p.lo < Mid(p);
  }

  lemma BackNarrows(a: seq<int>, v: seq<int>, p: Proc)
    requires |a| == |v| && Local(a, v, p) && p.pc.Back? && Narrows(v, p)
    ensures Narrow(v, p.(pc := AfterSwap(p.pc)))
  {
  }

  /** Nobody else changes the cells that matter. */
  lemma LiftedNarrows(a: seq<int>, v: seq<int>, a': seq<int>, v': seq<int>, q: Proc)
    requires |a| == |v| == |a'| == |v'| && 0 <= q.lo < q.hi < |v| && Lifted(a, v, a', v', q) && Narrows(v, q)
    ensures Narrows(v', q)
  {
    assert q.hi - q.lo >= 2 ==> OwnLo(q) <= Mid(q) < q.hi;
  }

  ghost predicate AllNarrow(s: State) { forall k :: 0 <= k < |s.procs| ==> Narrow(s.v, s.procs[k]) }

  lemma PutNarrows(c: Config, s: State, k: nat, m: nat)
    requires ValidConfig(c) && Inv(c, s) && AllNarrow(s) && k < |s.procs| && m < |s.procs| && s.procs[k].pc.Put?
    ensures InArray(s.procs[k], |s.a|) && Narrow(Do(s, k).v, Do(s, k).procs[m])
  {
    var p, q := s.procs[k], s.procs[m];
    SeesItsCells(c, s, k);
    assert Good(c, s.a, s.v, q) && Narrow(s.v, q) && Narrow(s.v, p);
    if m != k && Active(q) {
      PutLifts(c, s.a, s.v, p, q);
      LiftedNarrows(s.a, s.v, s.a[p.pc.i := p.pc.x], Swap(s.v, p.pc.i, p.pc.j), q);
    }
  }

  /** Every access of every process keeps it. */
  lemma NarrowNext(c: Config, s: State, k: nat)
    requires ValidConfig(c) && Inv(c, s) && AllNarrow(s) && k < |s.procs| && Active(s.procs[k])
    ensures InArray(s.procs[k], |s.a|) && AllNarrow(Do(s, k))
  {
    var p := s.procs[k];
    assert Good(c, s.a, s.v, p) && Narrow(s.v, p);
    if p.pc.Put? {
      forall m | 0 <= m < |s.procs| ensures Narrow(Do(s, k).v, Do(s, k).procs[m]) { PutNarrows(c, s, k, m); }
    } else if p.pc.Back? {
      BackNarrows(s.a, s.v, p);
    } else if !p.pc.Met? {
      SeesItsCells(c, s, k);
      ReadNarrows(s.a, s.v, p);
    }
  }

  // ---------------------------------------------------------------- the accesses still to come

  /** What a range of this width can take, and what its parts can. */
  function Whole(w: int): int { 8 * (w * w) }

  function Parts(w: int): int { 8 * ((w - 1) * (w - 1) + 1) }

  function Left(p: Proc): int
  {
    var w := p.hi - p.lo;
    match p.pc
    case Ready => Whole(w)
    case Up(_, i, j) => Parts(w) + 6 * (j - i) + 3
    case Down(_, i, j) => Parts(w) + 6 * (j - i) + 2
    case Tmp(i, j, goal) => if goal.Pair? then 5 else Parts(w) + 6 * (j - i) + 1
    case Get(i, j, goal, _) => if goal.Pair? then 4 else Parts(w) + 6 * (j - i)
    case Put(i, j, goal, _, _) => if goal.Pair? then 3 else Parts(w) + 6 * (j - i) - 1
    case Back(i, j, goal, _) => if goal.Pair? then 2 else Parts(w) + 6 * (j - i) - 2
    case Met(_, _) => Parts(w) + 1
    case PairHi(_) => 6
    case Done => 0
  }

  lemma Square(w: int)
    ensures w * w >= 0 && (w - 1) * (w - 1) == w * w - 2 * w + 1
  {
    if w >= 0 { Product(w, w); } else { Product(-w, -w); assert -w * -w == w * w; }
  }

  lemma StartsEnough(w: int)
    requires w >= 2
    ensures Parts(w) + 6 * w + 3 < Whole(w)
  {
    Square(w);
  }

  /** Two parts of a range that are both smaller than it. */
  lemma PartsTakeLess(w: int, l: int, r: int)
    requires w >= 2 && l < w && r < w && l + r <= w
    ensures (if l > 0 then Whole(l) else 0) + (if r > 0 then Whole(r) else 0) <= Parts(w)
  {
    if l > 0 && r > 0 {
      SquaresOfParts(w, l, r);
    } else if l > 0 {
      SquareGrows(l, w - 1);
    } else if r > 0 {
      SquareGrows(r, w - 1);
    } else {
      Square(w - 1);
    }
  }

  lemma SquareGrows(l: int, m: int)
    requires 0 <= l <= m
    ensures l * l <= m * m
  {
    Monotone(l, l, m);
    Monotone(m, l, m);
  }

  lemma SquaresOfParts(w: int, l: int, r: int)
    requires 0 < l && 0 < r && l + r <= w
    ensures l * l + r * r <= (w - 1) * (w - 1) + 1
  {
    var m := w - l;
    SquareGrows(r, m);
    Product(l - 1, m - 1);
    assert (l - 1) * (m - 1) == l * m - l - m + 1;
    assert (w - 1) * (w - 1) == (l + (m - 1)) * (l + (m - 1)) == l * l + 2 * (l * (m - 1)) + (m - 1) * (m - 1);
    assert l * (m - 1) == l * m - l;
    Square(m);
  }

  /** Nothing is owed to a process that does nothing, and never less than nothing. */
  lemma LeftIsPositive(n: int, p: Proc)
    requires Active(p) ==> InArray(p, n)
    ensures Left(p) >= 0
  {
    Square(p.hi - p.lo);
    Square(p.hi - p.lo - 1);
  }

  /** An access of a process takes at least one off; at the end its parts share what is left. */
  lemma AccessTakes(a: seq<int>, p: Proc)
    requires InArray(p, |a|) && Reads(p.pc) && (p.pc.Ready? || (Partitions(p.pc) <==> p.hi - p.lo >= 2))
    ensures Left(p.(pc := AfterRead(p, a))) < Left(p)
  {
    var w := p.hi - p.lo;
    if p.pc.Ready? {
      if w >= 2 { StartsEnough(w); }
    }
  }

  lemma SplitTakes(a: seq<int>, v: seq<int>, p: Proc)
    requires |a| == |v| && InArray(p, |a|) && p.pc.Met? && Narrows(v, p) && a[p.hi] == v[p.hi]
    ensures Left(LeftPart(p, a)) + Left(RightPart(p, a)) < Left(p)
  {
    var l, r := LeftPart(p, a), RightPart(p, a);
    PartsTakeLess(p.hi - p.lo, l.hi - l.lo, r.hi - r.lo);
  }

  // ---------------------------------------------------------------- whole runs

  function Sum(ps: seq<Proc>): int
  {
    if ps == [] then 0 else Left(ps[0]) + Sum(ps[1..])
  }

  lemma {:induction false} SumUpdate(ps: seq<Proc>, k: nat, q: Proc)
    requires k < |ps|
    ensures Sum(ps[k := q]) == Sum(ps) - Left(ps[k]) + Left(q)
  {
    if k == 0 {
      assert ps[0 := q][1..] == ps[1..];
    } else {
      SumUpdate(ps[1..], k - 1, q);
      assert ps[k := q][1..] == ps[1..][k - 1 := q];
    }
  }

  lemma {:induction false} SumAppend(ps: seq<Proc>, q: Proc)
    ensures Sum(ps + [q]) == Sum(ps) + Left(q)
  {
    if ps == [] {
      assert ps + [q] == [q];
    } else {
      assert (ps + [q])[1..] == ps[1..] + [q];
      SumAppend(ps[1..], q);
    }
  }

  lemma {:induction false} SumIsPositive(n: int, ps: seq<Proc>)
    requires forall k :: 0 <= k < |ps| && Active(ps[k]) ==> InArray(ps[k], n)
    ensures Sum(ps) >= 0
  {
    if ps != [] {
      LeftIsPositive(n, ps[0]);
      SumIsPositive(n, ps[1..]);
    }
  }

  /** What process `k` is after an access that does not end its partition. */
  function Changed(s: State, k: nat): Proc
    requires k < |s.procs| && Active(s.procs[k]) && !s.procs[k].pc.Met? && InArray(s.procs[k], |s.a|)
  {
    var p := s.procs[k];
    p.(pc := if p.pc.Put? then AfterPut(p.pc) else if p.pc.Back? then AfterSwap(p.pc) else AfterRead(p, s.a))
  }

  lemma ChangeTakes(s: State, k: nat)
    requires k < |s.procs| && Active(s.procs[k]) && !s.procs[k].pc.Met? && InArray(s.procs[k], |s.a|)
    requires var p := s.procs[k]; p.pc.Ready? || (Partitions(p.pc) <==> p.hi - p.lo >= 2)
    ensures Left(Changed(s, k)) < Left(s.procs[k])
  {
    if Reads(s.procs[k].pc) { AccessTakes(s.a, s.procs[k]); }
  }

  lemma OneChanges(s: State, k: nat)
    requires k < |s.procs| && Active(s.procs[k]) && !s.procs[k].pc.Met? && InArray(s.procs[k], |s.a|) && |s.v| == |s.a|
    ensures Do(s, k).procs == s.procs[k := Changed(s, k)]
  {
  }

  lemma SplitLess(s: State, k: nat)
    requires k < |s.procs| && s.procs[k].pc.Met? && InArray(s.procs[k], |s.a|) && |s.v| == |s.a|
    requires Narrows(s.v, s.procs[k]) && s.a[s.procs[k].hi] == s.v[s.procs[k].hi]
    ensures Sum(Do(s, k).procs) < Sum(s.procs)
  {
    var p := s.procs[k];
    SplitTakes(s.a, s.v, p);
    SumUpdate(s.procs, k, LeftPart(p, s.a));
    SumAppend(s.procs[k := LeftPart(p, s.a)], RightPart(p, s.a));
  }

  /** Every access leaves less to do. */
  lemma LessToDo(c: Config, s: State, k: nat)
    requires ValidConfig(c) && Inv(c, s) && AllNarrow(s) && k < |s.procs| && Active(s.procs[k])
    ensures InArray(s.procs[k], |s.a|) && Sum(Do(s, k).procs) < Sum(s.procs)
  {
    assert Good(c, s.a, s.v, s.procs[k]) && Narrow(s.v, s.procs[k]);
    if s.procs[k].pc.Met? {
      SeesItsCells(c, s, k);
      SplitLess(s, k);
    } else {
      OneChanges(s, k);
      ChangeTakes(s, k);
      SumUpdate(s.procs, k, Changed(s, k));
    }
  }

  ghost predicate EndsAt(c: Config, states: seq<State>, i: int)
    requires ValidConfig(c)
  {
    0 <= i < |states| && Inv(c, states[i]) && AllNarrow(states[i]) && Sum(states[i].procs) + i <= Sum(Init(c).procs)
  }

  lemma {:induction false} RunEnds(c: Config, states: seq<State>, who: seq<nat>, i: nat)
    requires ValidConfig(c) && Run(c, states, who) && i < |states|
    ensures EndsAt(c, states, i)
  {
    if i == 0 {
      InitInv(c);
    } else {
      RunEnds(c, states, who, i - 1);
      RunGoesOn(c, states, who, i);
    }
  }

  lemma RunGoesOn(c: Config, states: seq<State>, who: seq<nat>, i: nat)
    requires ValidConfig(c) && Run(c, states, who) && 0 < i < |states| && EndsAt(c, states, i - 1)
    ensures EndsAt(c, states, i)
  {
    var s, k := states[i - 1], who[i - 1];
    assert Steps(s, k, states[i]);
    NextInv(c, s, k, states[i]);
    NarrowNext(c, s, k);
    LessToDo(c, s, k);
  }

  /** No interleaving makes more accesses than eight times the square of the width. */
  lemma AccessesAreBounded(c: Config, states: seq<State>, who: seq<nat>)
    requires ValidConfig(c) && Run(c, states, who)
    ensures |who| <= 8 * ((c.end - c.begin) * (c.end - c.begin))
  {
    RunEnds(c, states, who, |who|);
    var s := states[|who|];
    forall k | 0 <= k < |s.procs| && Active(s.procs[k]) ensures InArray(s.procs[k], |s.a|) {
      assert Good(c, s.a, s.v, s.procs[k]);
    }
    SumIsPositive(|s.a|, s.procs);
    assert Sum(Init(c).procs) == Left(Init(c).procs[0]) + Sum([]);
  }

  /** Every run that goes on as long as some process can make an access ends, and the window is then sorted. */
  lemma MaximalRunSorts(c: Config, states: seq<State>, who: seq<nat>, s: State)
    requires ValidConfig(c) && Run(c, states, who) && s == states[|who|] && forall k, s' :: !Steps(s, k, s')
    ensures Permuted(c, s.a) && forall x, y :: c.begin <= x < y <= c.end ==> s.a[x] <= s.a[y]
  {
    RunInv(c, states, who, |who|);
    forall k | 0 <= k < |s.procs| ensures !Active(s.procs[k]) {
      if Active(s.procs[k]) { CanAccess(c, s, k); }
    }
    AccessesSort(c, states, who, |who|);
  }

  lemma CanAccess(c: Config, s: State, k: nat)
    requires ValidConfig(c) && Inv(c, s) && k < |s.procs| && Active(s.procs[k])
    ensures exists s' :: Steps(s, k, s')
  {
    assert Good(c, s.a, s.v, s.procs[k]);
    assert Steps(s, k, Do(s, k));
  }
}
