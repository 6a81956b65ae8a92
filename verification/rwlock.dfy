/** `QRWLockFunc` of common/qglobal.h: a reader/writer lock made of one mutex, two condition variables
    and three counters, used by any number of threads.

    All shared fields are touched only while the mutex is held, so the code between taking the mutex
    and either releasing it or going to sleep is one step.  A signal wakes at least one sleeper of its
    condition variable, if there is one, and possibly more; a sleeper may also wake up for no reason.
    A woken thread has to take the mutex again before it looks at `locks`. */
module ReaderWriterLock {
  import opened Common

  datatype Phase =
    | Outside
    | ReaderAsleep | ReaderWoken   // in rdlock, waiting on readcond / on the way back to the mutex
    | WriterAsleep | WriterWoken   // in wrlock, waiting on writecond / on the way back to the mutex
    | Reading | Writing            // holding the lock

  datatype State = State(locks: int, readers: int, writers: int, threads: seq<Phase>)

  function Init(n: nat): State
  {
    State(0, 0, 0, seq(n, i => Outside))
  }

  predicate At(s: State, t: nat, p: Phase) { t < |s.threads| && s.threads[t] == p }

  function Move(s: State, t: nat, p: Phase): State
    requires t < |s.threads|
  {
    s.(threads := s.threads[t := p])
  }

  /** `rdlock` from its test on: sleep while a writer holds the lock, otherwise hold it with the readers. */
  function ReadTest(s: State, t: nat): State
    requires t < |s.threads|
  {
    if s.locks < 0 then Move(s, t, ReaderAsleep)
    else Move(s, t, Reading).(readers := s.readers - 1, locks := s.locks + 1)
  }

  /** `wrlock` from its test on: sleep while anybody holds the lock, otherwise hold it alone. */
  function WriteTest(s: State, t: nat): State
    requires t < |s.threads|
  {
    if s.locks != 0 then Move(s, t, WriterAsleep)
    else Move(s, t, Writing).(writers := s.writers - 1, locks := -1)
  }

  /** Some sleepers of one condition variable become woken; nobody else moves. */
  ghost predicate Wakes(before: seq<Phase>, after: seq<Phase>, asleep: Phase, woken: Phase)
  {
    && |after| == |before|
    && forall i :: 0 <= i < |before| ==> after[i] == before[i] || (before[i] == asleep && after[i] == woken)
  }

  ghost predicate Signals(before: seq<Phase>, after: seq<Phase>, asleep: Phase, woken: Phase)
  {
    Wakes(before, after, asleep, woken) && (asleep in before ==> woken in after)
  }

  ghost predicate Broadcasts(before: seq<Phase>, after: seq<Phase>, asleep: Phase, woken: Phase)
  {
    Wakes(before, after, asleep, woken) && asleep !in after && (asleep in before ==> woken in after)
  }

  /** The calls that `unlock` can make on the condition variables, and what they may do. */
  datatype WakeCall = NoCall | SignalWriter | BroadcastReaders

  ghost predicate Effect(before: seq<Phase>, after: seq<Phase>, call: WakeCall)
  {
    match call
    case NoCall => after == before
    case SignalWriter => Signals(before, after, WriterAsleep, WriterWoken)
    case BroadcastReaders => Broadcasts(before, after, ReaderAsleep, ReaderWoken)
  }

  lemma WakingIsPossible(before: seq<Phase>, call: WakeCall)
    ensures exists after :: Effect(before, after, call)
  {
    var asleep := if call.SignalWriter? then WriterAsleep else ReaderAsleep;
    var woken := if call.SignalWriter? then WriterWoken else ReaderWoken;
    var all := seq(|before|, i requires 0 <= i < |before| => if before[i] == asleep then woken else before[i]);
    if asleep in before {
      var i :| 0 <= i < |before| && before[i] == asleep;
      assert all[i] == woken;
    }
    assert Effect(before, if call.NoCall? then before else all, call);
  }

  /** `unlock` by a thread that holds the lock. */
  ghost predicate Unlock(s: State, s': State, t: nat)
    requires t < |s.threads|
  {
    var m := Move(s, t, Outside);
    if s.locks > 0 then
      && s' == m.(locks := s.locks - 1, threads := s'.threads)
      && Effect(m.threads, s'.threads, if s.locks - 1 == 0 then SignalWriter else NoCall)
    else
      && s' == m.(locks := 0, threads := s'.threads)
      && Effect(m.threads, s'.threads, if s.readers != 0 then BroadcastReaders else SignalWriter)
  }

  /** One step of one thread. */
  ghost predicate Step(s: State, s': State, t: nat)
  {
    && t < |s.threads|
    && match s.threads[t]
       case Outside =>
         || s' == ReadTest(s.(readers := s.readers + 1), t)
         || s' == WriteTest(s.(writers := s.writers + 1), t)
       case ReaderAsleep => s' == Move(s, t, ReaderWoken)
       case WriterAsleep => s' == Move(s, t, WriterWoken)
       case ReaderWoken => s' == ReadTest(s, t)
       case WriterWoken => s' == WriteTest(s, t)
       case Reading => Unlock(s, s', t)
       case Writing => Unlock(s, s', t)
  }

  // ---------------------------------------------------------------- the invariant

  /** What a thread counts as, asleep or woken. */
  datatype Role = Nobody | WantsRead | WantsWrite | Reads | Writes

  function RoleOf(p: Phase): Role
  {
    match p
    case Outside => Nobody
    case ReaderAsleep | ReaderWoken => WantsRead
    case WriterAsleep | WriterWoken => WantsWrite
    case Reading => Reads
    case Writing => Writes
  }

  function Count(ts: seq<Phase>, r: Role): nat
  {
    if ts == [] then 0 else One(ts[0], r) + Count(ts[1..], r)
  }

  function One(p: Phase, r: Role): nat { if RoleOf(p) == r then 1 else 0 }

  lemma {:induction false} CountUpdate(ts: seq<Phase>, t: nat, p: Phase, r: Role)
    requires t < |ts|
    ensures Count(ts[t := p], r) == Count(ts, r) - One(ts[t], r) + One(p, r)
  {
    if t == 0 {
      assert ts[0 := p][1..] == ts[1..];
    } else {
      CountUpdate(ts[1..], t - 1, p, r);
      assert ts[t := p][1..] == ts[1..][t - 1 := p];
    }
  }

  lemma {:induction false} CountSame(ts: seq<Phase>, us: seq<Phase>, r: Role)
    requires |ts| == |us| && forall i :: 0 <= i < |ts| ==> RoleOf(us[i]) == RoleOf(ts[i])
    ensures Count(us, r) == Count(ts, r)
  {
    if ts != [] { CountSame(ts[1..], us[1..], r); }
  }

  lemma {:induction false} CountPositive(ts: seq<Phase>, r: Role)
    ensures Count(ts, r) > 0 <==> exists i :: 0 <= i < |ts| && RoleOf(ts[i]) == r
  {
    if ts != [] {
      CountPositive(ts[1..], r);
      if exists i :: 0 <= i < |ts| && RoleOf(ts[i]) == r {
        var i :| 0 <= i < |ts| && RoleOf(ts[i]) == r;
        assert i > 0 ==> RoleOf(ts[1..][i - 1]) == r;
      }
    }
  }

  /** `locks` is -1 with exactly one writer and no reader holding, or the number of readers holding
      with no writer; the other two counters count the threads inside `rdlock` and `wrlock`. */
  ghost predicate Exclusion(s: State)
  {
    && s.readers == Count(s.threads, WantsRead)
    && s.writers == Count(s.threads, WantsWrite)
    && ((s.locks == -1 && Count(s.threads, Writes) == 1 && Count(s.threads, Reads) == 0) ||
        (s.locks == Count(s.threads, Reads) && Count(s.threads, Writes) == 0))
  }

  /** No wake-up is lost: a reader sleeps only while a writer holds the lock, and while nobody holds
      it a sleeping writer has a woken thread ahead of it. */
  ghost predicate NoLostWakeup(s: State)
  {
    && (ReaderAsleep in s.threads ==> s.locks == -1)
    && (s.locks == 0 && WriterAsleep in s.threads ==> ReaderWoken in s.threads || WriterWoken in s.threads)
  }

  ghost predicate Inv(s: State) { Exclusion(s) && NoLostWakeup(s) }

  lemma {:induction false} NobodyAtStart(ts: seq<Phase>, r: Role)
    requires forall i :: 0 <= i < |ts| ==> ts[i] == Outside
    requires r != Nobody
    ensures Count(ts, r) == 0
  {
    if ts != [] { NobodyAtStart(ts[1..], r); }
  }

  lemma InitInv(n: nat)
    ensures Inv(Init(n))
  {
    forall r | r != Nobody ensures Count(Init(n).threads, r) == 0 { NobodyAtStart(Init(n).threads, r); }
  }

  /** A thread moves from one phase to another: the counts follow. */
  lemma Counts(ts: seq<Phase>, t: nat, p: Phase)
    requires t < |ts|
    ensures Count(ts[t := p], WantsRead) == Count(ts, WantsRead) - One(ts[t], WantsRead) + One(p, WantsRead)
    ensures Count(ts[t := p], WantsWrite) == Count(ts, WantsWrite) - One(ts[t], WantsWrite) + One(p, WantsWrite)
    ensures Count(ts[t := p], Reads) == Count(ts, Reads) - One(ts[t], Reads) + One(p, Reads)
    ensures Count(ts[t := p], Writes) == Count(ts, Writes) - One(ts[t], Writes) + One(p, Writes)
    ensures Count(ts, RoleOf(ts[t])) > 0
  {
    CountUpdate(ts, t, p, WantsRead);
    CountUpdate(ts, t, p, WantsWrite);
    CountUpdate(ts, t, p, Reads);
    CountUpdate(ts, t, p, Writes);
    CountPositive(ts, RoleOf(ts[t]));
  }

  lemma UnlockKeepsInv(s: State, s': State, t: nat)
    requires Inv(s) && t < |s.threads| && s.threads[t] in {Reading, Writing} && Unlock(s, s', t)
    ensures Inv(s')
  {
    var m := Move(s, t, Outside);
    Counts(s.threads, t, Outside);
    forall r ensures Count(s'.threads, r) == Count(m.threads, r) { CountSame(m.threads, s'.threads, r); }
    CountPositive(m.threads, WantsRead);
  }

  /** One thread changes its phase, and the counters follow its role. */
  lemma MoveKeepsExclusion(s: State, t: nat, p: Phase, locks: int, readers: int, writers: int)
    requires Exclusion(s) && t < |s.threads|
    requires readers == s.readers - One(s.threads[t], WantsRead) + One(p, WantsRead)
    requires writers == s.writers - One(s.threads[t], WantsWrite) + One(p, WantsWrite)
    requires One(s.threads[t], Reads) == 0 && One(s.threads[t], Writes) == 0
    requires || (locks == s.locks && One(p, Reads) == 0 && One(p, Writes) == 0)
             || (s.locks >= 0 && locks == s.locks + 1 && p == Reading)
             || (s.locks == 0 && locks == -1 && p == Writing)
    ensures Exclusion(State(locks, readers, writers, s.threads[t := p]))
  {
    Counts(s.threads, t, p);
  }

  lemma EnterKeepsExclusion(s: State, s': State, t: nat)
    requires Inv(s) && Step(s, s', t) && s.threads[t] !in {Reading, Writing}
    ensures Exclusion(s')
  {
    MoveKeepsExclusion(s, t, s'.threads[t], s'.locks, s'.readers, s'.writers);
    assert s'.threads == s.threads[t := s'.threads[t]];
  }

  lemma EnterLosesNoWakeup(s: State, s': State, t: nat)
    requires Inv(s) && Step(s, s', t) && s.threads[t] !in {Reading, Writing}
    ensures NoLostWakeup(s')
  {
    MovedIn(s.threads, t, s'.threads[t], ReaderAsleep);
    MovedIn(s.threads, t, s'.threads[t], WriterAsleep);
    MovedIn(s.threads, t, s'.threads[t], ReaderWoken);
    MovedIn(s.threads, t, s'.threads[t], WriterWoken);
  }

  /** Every step of every thread keeps both. */
  lemma StepKeepsInv(s: State, s': State, t: nat)
    requires Inv(s) && Step(s, s', t)
    ensures Inv(s')
  {
    if s.threads[t] in {Reading, Writing} {
      UnlockKeepsInv(s, s', t);
    } else {
      EnterKeepsExclusion(s, s', t);
      EnterLosesNoWakeup(s, s', t);
    }
  }

  // ---------------------------------------------------------------- whole runs

  /** A run of `n` threads: any interleaving of steps, spurious wake-ups included. */
  ghost predicate Run(n: nat, states: seq<State>, movers: seq<nat>)
  {
    && |states| == |movers| + 1 && states[0] == Init(n)
    && forall i :: 0 <= i < |movers| ==> Step(states[i], states[i + 1], movers[i])
  }

  lemma {:induction false} RunInv(n: nat, states: seq<State>, movers: seq<nat>, i: nat)
    requires Run(n, states, movers) && i < |states|
    ensures Inv(states[i])
  {
    if i == 0 {
      InitInv(n);
    } else {
      RunInv(n, states, movers, i - 1);
      StepKeepsInv(states[i - 1], states[i], movers[i - 1]);
    }
  }

  lemma {:induction false} CountTwo(ts: seq<Phase>, t: nat, u: nat, r: Role)
    requires t < u < |ts| && RoleOf(ts[t]) == r && RoleOf(ts[u]) == r
    ensures Count(ts, r) >= 2
  {
    if t == 0 {
      CountPositive(ts[1..], r);
      assert RoleOf(ts[1..][u - 1]) == r;
    } else {
      CountTwo(ts[1..], t - 1, u - 1, r);
    }
  }

  /** In every reachable state a writer is alone: no other thread reads or writes. */
  lemma WriterIsAlone(n: nat, states: seq<State>, movers: seq<nat>, i: nat, t: nat, u: nat)
    requires Run(n, states, movers) && i < |states|
    requires t < |states[i].threads| && u < |states[i].threads| && t != u
    requires states[i].threads[t] == Writing
    ensures states[i].threads[u] !in {Reading, Writing}
    ensures states[i].locks == -1
  {
    var ts := states[i].threads;
    RunInv(n, states, movers, i);
    CountPositive(ts, Writes);
    CountPositive(ts, Reads);
    if ts[u] == Writing { CountTwo(ts, if t < u then t else u, if t < u then u else t, Writes); }
  }

  /** A reader is let in exactly while nobody writes, together with any number of readers; a writer exactly while
      nobody holds the lock. */
  lemma AdmittedExactly(s: State, t: nat)
    requires Inv(s) && t < |s.threads|
    ensures ReadTest(s, t).threads == s.threads[t := if Writing in s.threads then ReaderAsleep else Reading]
    ensures WriteTest(s, t).threads ==
              s.threads[t := if Reading in s.threads || Writing in s.threads then WriterAsleep else Writing]
  {
    CountPositive(s.threads, Reads);
    CountPositive(s.threads, Writes);
    assert forall p: Phase :: (RoleOf(p) == Reads <==> p == Reading) && (RoleOf(p) == Writes <==> p == Writing);
  }

  /** In every reachable state, whenever a thread sleeps, either the lock is held by some thread, which
      will signal when it lets go, or a woken thread is on its way to the mutex. */
  lemma SleepersHaveAWaker(n: nat, states: seq<State>, movers: seq<nat>, i: nat, t: nat)
    requires Run(n, states, movers) && i < |states|
    requires t < |states[i].threads| && states[i].threads[t] in {ReaderAsleep, WriterAsleep}
    ensures exists u :: 0 <= u < |states[i].threads| &&
                        states[i].threads[u] in {Reading, Writing, ReaderWoken, WriterWoken}
    ensures states[i].locks == 0 ==>
              exists u :: 0 <= u < |states[i].threads| && states[i].threads[u] in {ReaderWoken, WriterWoken}
  {
    RunInv(n, states, movers, i);
    CountPositive(states[i].threads, Reads);
    CountPositive(states[i].threads, Writes);
  }

  // ---------------------------------------------------------------- the class

  /** The lock object.  Each method is the code of one critical section; the phases of the threads are
      ghost. */
  class RWLock {
    var locks: int
    var readers: int
    var writers: int
    ghost var threads: seq<Phase>

    ghost function Abs(): State
      reads this
    {
      State(locks, readers, writers, threads)
    }

    constructor (ghost n: nat)
      ensures Abs() == Init(n) && Inv(Abs())
    {
      locks, readers, writers := 0, 0, 0;
      threads := Init(n).threads;
      InitInv(n);
    }

    /** `rdlock` from its entry. */
    method EnterRead(ghost t: nat) returns (sleeps: bool)
      requires Inv(Abs()) && At(Abs(), t, Outside)
      modifies this
      ensures Step(old(Abs()), Abs(), t) && Inv(Abs())
      ensures threads == old(threads)[t := if sleeps then ReaderAsleep else Reading]
      ensures sleeps <==> old(locks) == -1
    {
      readers := readers + 1;
      sleeps := TestRead(t);
      StepKeepsInv(old(Abs()), Abs(), t);
    }

    /** `rdlock` after a wake-up. */
    method ResumeRead(ghost t: nat) returns (sleeps: bool)
      requires Inv(Abs()) && At(Abs(), t, ReaderWoken)
      modifies this
      ensures Step(old(Abs()), Abs(), t) && Inv(Abs())
      ensures threads == old(threads)[t := if sleeps then ReaderAsleep else Reading]
      ensures sleeps <==> old(locks) == -1
    {
      sleeps := TestRead(t);
      StepKeepsInv(old(Abs()), Abs(), t);
    }

    method TestRead(ghost t: nat) returns (sleeps: bool)
      requires t < |threads|
      modifies this
      ensures Abs() == ReadTest(old(Abs()), t)
      ensures sleeps <==> old(locks) < 0
    {
      sleeps := locks < 0;
      if sleeps {
        threads := threads[t := ReaderAsleep];
      } else {
        readers := readers - 1;
        locks := locks + 1;
        threads := threads[t := Reading];
      }
    }

    /** `wrlock` from its entry. */
    method EnterWrite(ghost t: nat) returns (sleeps: bool)
      requires Inv(Abs()) && At(Abs(), t, Outside)
      modifies this
      ensures Step(old(Abs()), Abs(), t) && Inv(Abs())
      ensures threads == old(threads)[t := if sleeps then WriterAsleep else Writing]
      ensures sleeps <==> old(locks) != 0
    {
      writers := writers + 1;
      sleeps := TestWrite(t);
      StepKeepsInv(old(Abs()), Abs(), t);
    }

    /** `wrlock` after a wake-up. */
    method ResumeWrite(ghost t: nat) returns (sleeps: bool)
      requires Inv(Abs()) && At(Abs(), t, WriterWoken)
      modifies this
      ensures Step(old(Abs()), Abs(), t) && Inv(Abs())
      ensures threads == old(threads)[t := if sleeps then WriterAsleep else Writing]
      ensures sleeps <==> old(locks) != 0
    {
      sleeps := TestWrite(t);
      StepKeepsInv(old(Abs()), Abs(), t);
    }

    method TestWrite(ghost t: nat) returns (sleeps: bool)
      requires t < |threads|
      modifies this
      ensures Abs() == WriteTest(old(Abs()), t)
      ensures sleeps <==> old(locks) != 0
    {
      sleeps := locks != 0;
      if sleeps {
        threads := threads[t := WriterAsleep];
      } else {
        locks := -1;
        writers := writers - 1;
        threads := threads[t := Writing];
      }
    }

    /** `unlock` by a holder.  Which condition variable it signals is decided by the counters; whom the
        signal wakes is not determined. */
    method Release(ghost t: nat) returns (call: WakeCall)
      requires Inv(Abs()) && (At(Abs(), t, Reading) || At(Abs(), t, Writing))
      modifies this
      ensures Step(old(Abs()), Abs(), t) && Inv(Abs())
      ensures call == NoCall <==> old(locks) > 1
      ensures call == BroadcastReaders <==> old(locks) == -1 && old(readers) != 0
    {
      CountPositive(threads, RoleOf(threads[t]));
      if locks > 0 {
        locks := locks - 1;
        call := if locks == 0 then SignalWriter else NoCall;
      } else {
        locks := 0;
        call := if readers != 0 then BroadcastReaders else SignalWriter;
      }
      WakingIsPossible(threads[t := Outside], call);
      ghost var after :| Effect(threads[t := Outside], after, call);
      threads := after;
      StepKeepsInv(old(Abs()), Abs(), t);
    }
  }
}
