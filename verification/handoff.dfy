/** The hand-off of common/qhttpserver.h: communication threads push a socket and signal a `QTrigger`;
    worker threads wait for the trigger and then drain the queue.

    The queue operations and the code of `QTrigger` between taking its mutex and releasing it or going
    to sleep are steps; any number of threads interleave them.  The trigger resets itself.  A signal
    wakes at least one sleeper, if there is one, and a sleeper may wake up for no reason. */
module HandOff {
  import opened Common
  import RingQueue

  datatype Producer = Polling | Pushed      // Pushed: between push and signal

  datatype Worker =
    | Arriving                              // before wait()
    | Asleep | Woken                        // in wait(), on the condition variable / on the way back
    | Draining                              // in the pop_non_blocking loop

  datatype State = State(queue: seq<int>, capacity: nat, ready: bool, producers: seq<Producer>, workers: seq<Worker>,
                         sent: seq<int>, taken: seq<int>)   // sent, taken: all sockets so far, in order

  ghost predicate Init(s: State)
  {
    && s.queue == [] && !s.ready && s.sent == [] && s.taken == []
    && (forall p :: 0 <= p < |s.producers| ==> s.producers[p] == Polling)
    && (forall w :: 0 <= w < |s.workers| ==> s.workers[w] == Arriving)
  }

  function MoveP(s: State, p: nat, x: Producer): State
    requires p < |s.producers|
  {
    s.(producers := s.producers[p := x])
  }

  function MoveW(s: State, w: nat, x: Worker): State
    requires w < |s.workers|
  {
    s.(workers := s.workers[w := x])
  }

  /** `m_client_task_queue.push(sockfd)`, once there is room. */
  ghost predicate PushStep(s: State, s': State, p: nat, x: int)
  {
    && p < |s.producers| && s.producers[p] == Polling && |s.queue| < s.capacity
    && s' == MoveP(s, p, Pushed).(queue := s.queue + [x], sent := s.sent + [x])
  }

  /** Some sleepers, at least one if there is one, become woken. */
  ghost predicate Signals(before: seq<Worker>, after: seq<Worker>)
  {
    && |after| == |before|
    && (forall i :: 0 <= i < |before| ==> after[i] == before[i] || (before[i] == Asleep && after[i] == Woken))
    && (Asleep in before ==> Woken in after)
  }

  /** `signal` of the trigger: the state is set and a sleeper is woken. */
  ghost predicate SignalStep(s: State, s': State, p: nat)
  {
    && p < |s.producers| && s.producers[p] == Pushed
    && s' == MoveP(s, p, Polling).(ready := true, workers := s'.workers)
    && Signals(s.workers, s'.workers)
  }

  /** `wait`, from the test of the state on: sleep while it is not set, otherwise reset it. */
  ghost predicate WaitStep(s: State, s': State, w: nat)
  {
    && w < |s.workers| && s.workers[w] in {Arriving, Woken}
    && s' == if s.ready then MoveW(s, w, Draining).(ready := false) else MoveW(s, w, Asleep)
  }

  ghost predicate SpuriousStep(s: State, s': State, w: nat)
  {
    w < |s.workers| && s.workers[w] == Asleep && s' == MoveW(s, w, Woken)
  }

  /** `pop_non_blocking(client_fd)` in the draining loop. */
  ghost predicate TakeStep(s: State, s': State, w: nat)
  {
    && w < |s.workers| && s.workers[w] == Draining
    && s' == if s.queue == [] then MoveW(s, w, Arriving)
             else s.(queue := s.queue[1..], taken := s.taken + [s.queue[0]])
  }

  ghost predicate Step(s: State, s': State)
  {
    || (exists p, x :: PushStep(s, s', p, x))
    || (exists p :: SignalStep(s, s', p))
    || (exists w :: WaitStep(s, s', w))
    || (exists w :: SpuriousStep(s, s', w))
    || (exists w :: TakeStep(s, s', w))
  }

  // ---------------------------------------------------------------- the invariant

  ghost predicate Inv(s: State)
  {
    // a queued socket is somebody's business
    && (s.queue != [] ==> s.ready || Draining in s.workers || Pushed in s.producers)
    // a set trigger with a sleeper has a woken worker in flight
    && (s.ready && Asleep in s.workers ==> Woken in s.workers)
    // every socket is taken once, in the order of the pushes
    && s.sent == s.taken + s.queue
    && |s.queue| <= s.capacity
  }

  lemma WorkerMoved(ws: seq<Worker>, w: nat, x: Worker)
    requires w < |ws|
    ensures forall p <- [Asleep, Woken, Draining] :: p in ws[w := x] ==> p in ws || p == x
    ensures forall p <- [Asleep, Woken, Draining] :: (p in ws && p != ws[w]) || p == x ==> p in ws[w := x]
  {
    MovedIn(ws, w, x, Asleep);
    MovedIn(ws, w, x, Woken);
    MovedIn(ws, w, x, Draining);
  }

  lemma PushKeepsInv(s: State, s': State, p: nat, x: int)
    requires Inv(s) && PushStep(s, s', p, x)
    ensures Inv(s')
  {
    MovedIn(s.producers, p, Pushed, Pushed);
    assert s.taken + (s.queue + [x]) == (s.taken + s.queue) + [x];
  }

  lemma SignalKeepsInv(s: State, s': State, p: nat)
    requires Inv(s) && SignalStep(s, s', p)
    ensures Inv(s')
  {
    if Asleep in s'.workers {
      var i :| 0 <= i < |s'.workers| && s'.workers[i] == Asleep;
      assert s.workers[i] == Asleep;
    }
  }

  lemma WaitKeepsInv(s: State, s': State, w: nat)
    requires Inv(s) && WaitStep(s, s', w)
    ensures Inv(s')
  {
    WorkerMoved(s.workers, w, if s.ready then Draining else Asleep);
  }

  lemma SpuriousKeepsInv(s: State, s': State, w: nat)
    requires Inv(s) && SpuriousStep(s, s', w)
    ensures Inv(s')
  {
    WorkerMoved(s.workers, w, Woken);
  }

  lemma TakeKeepsInv(s: State, s': State, w: nat)
    requires Inv(s) && TakeStep(s, s', w)
    ensures Inv(s')
  {
    if s.queue == [] {
      WorkerMoved(s.workers, w, Arriving);
    } else {
      assert s.taken + s.queue == (s.taken + [s.queue[0]]) + s.queue[1..];
    }
  }

  lemma StepKeepsInv(s: State, s': State)
    requires Inv(s) && Step(s, s')
    ensures Inv(s')
  {
    if p, x :| PushStep(s, s', p, x) {
      PushKeepsInv(s, s', p, x);
    } else if p :| SignalStep(s, s', p) {
      SignalKeepsInv(s, s', p);
    } else if w :| WaitStep(s, s', w) {
      WaitKeepsInv(s, s', w);
    } else if w :| SpuriousStep(s, s', w) {
      SpuriousKeepsInv(s, s', w);
    } else {
      var w :| TakeStep(s, s', w);
      TakeKeepsInv(s, s', w);
    }
  }

  // ---------------------------------------------------------------- whole runs

  ghost predicate Run(states: seq<State>)
  {
    && |states| > 0 && Init(states[0])
    && forall i :: 0 < i < |states| ==> Step(states[i - 1], states[i])
  }

  lemma {:induction false} RunInv(states: seq<State>, i: nat)
    requires Run(states) && i < |states|
    ensures Inv(states[i])
  {
    if i > 0 {
      RunInv(states, i - 1);
      StepKeepsInv(states[i - 1], states[i]);
    }
  }

  /** No socket is stranded: in every reachable state where some worker sleeps although sockets are
      queued, a thread is at work that will drain them or wake a worker: one is draining, or has been
      woken and will find the trigger set, or a producer has still to signal. */
  lemma NothingStranded(states: seq<State>, i: nat)
    requires Run(states) && i < |states|
    requires states[i].queue != [] && Asleep in states[i].workers
    ensures || Draining in states[i].workers
            || Pushed in states[i].producers
            || (states[i].ready && Woken in states[i].workers)
  {
    RunInv(states, i);
  }

  /** In every run, what has been taken is a prefix of what has been sent, and the rest is queued:
      first in, first out, nothing twice, nothing lost. */
  lemma TakenInOrder(states: seq<State>, i: nat)
    requires Run(states) && i < |states|
    ensures states[i].taken <= states[i].sent
    ensures states[i].sent[|states[i].taken|..] == states[i].queue
    ensures multiset(states[i].sent) == multiset(states[i].taken) + multiset(states[i].queue)
  {
    RunInv(states, i);
  }

  // ---------------------------------------------------------------- the objects

  /** The ring and the trigger of the server, with the phases of the threads as ghosts. */
  class Server {
    var ring: RingQueue.Queue<int>
    var mState: bool
    ghost var producers: seq<Producer>
    ghost var workers: seq<Worker>
    ghost var sent: seq<int>
    ghost var taken: seq<int>

    ghost predicate Valid()
      reads this, ring
    {
      ring.Valid()
    }

    ghost function Abs(): State
      requires Valid()
      reads this, ring, ring.cells
    {
      State(ring.Items(), ring.Capacity(), mState, producers, workers, sent, taken)
    }

    constructor (size: nat, ghost m: nat, ghost n: nat)
      requires size > 0
      ensures Valid() && fresh(ring) && fresh(ring.cells) && Init(Abs())
    {
      ring := new RingQueue.Queue<int>(size);
      mState := false;
      producers, workers, sent, taken := seq(m, i => Polling), seq(n, i => Arriving), [], [];
    }

    /** The communication thread finds a readable socket and the queue has room. */
    method PushTask(x: int, ghost p: nat)
      requires Valid() && Inv(Abs()) && p < |producers| && producers[p] == Polling && |ring.Items()| < ring.Capacity()
      modifies this, ring, ring.cells
      ensures Valid() && ring == old(ring) && PushStep(old(Abs()), Abs(), p, x) && Inv(Abs())
    {
      var _ := ring.Push(x);
      producers, sent := producers[p := Pushed], sent + [x];
      PushKeepsInv(old(Abs()), Abs(), p, x);
    }

    /** `signal`: whom it wakes is not determined. */
    method Signal(ghost p: nat)
      requires Valid() && Inv(Abs()) && p < |producers| && producers[p] == Pushed
      modifies this
      ensures Valid() && ring == old(ring) && SignalStep(old(Abs()), Abs(), p) && Inv(Abs())
    {
      mState := true;
      producers := producers[p := Polling];
      SomeSignal(workers);
      ghost var after :| Signals(workers, after);
      workers := after;
      SignalKeepsInv(old(Abs()), Abs(), p);
    }

    /** `wait`, on arrival or after a wake-up. */
    method Wait(ghost w: nat) returns (sleeps: bool)
      requires Valid() && Inv(Abs()) && w < |workers| && workers[w] in {Arriving, Woken}
      modifies this
      ensures Valid() && ring == old(ring) && WaitStep(old(Abs()), Abs(), w) && Inv(Abs())
      ensures sleeps <==> !old(mState)
    {
      sleeps := !mState;
      if sleeps {
        workers := workers[w := Asleep];
      } else {
        mState := false;
        workers := workers[w := Draining];
      }
      WaitKeepsInv(old(Abs()), Abs(), w);
    }

    /** One round of the draining loop. */
    method TakeTask(current: int, ghost w: nat) returns (r: int, x: int)
      requires Valid() && Inv(Abs()) && w < |workers| && workers[w] == Draining
      modifies this, ring
      ensures Valid() && ring == old(ring) && TakeStep(old(Abs()), Abs(), w) && Inv(Abs())
      ensures r == 0 ==> taken == old(taken) + [x]
    {
      r, x := ring.Pop(current);
      if r == 0 {
        taken := taken + [x];
      } else {
        workers := workers[w := Arriving];
      }
      TakeKeepsInv(old(Abs()), Abs(), w);
    }
  }

  lemma SomeSignal(before: seq<Worker>)
    ensures exists after :: Signals(before, after)
  {
    var all := seq(|before|, i requires 0 <= i < |before| => if before[i] == Asleep then Woken else before[i]);
    if Asleep in before {
      var i :| 0 <= i < |before| && before[i] == Asleep;
      assert all[i] == Woken;
    }
    assert Signals(before, all);
  }
}
