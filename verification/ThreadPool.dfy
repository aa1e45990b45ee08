/** Shutting down the thread pool: every interleaving of the workers and the destructor over the blocking queue. */
module ThreadPool {
  import opened BoundedQueues

  /** A message to log or to flush, or the order to a worker to stop. */
  datatype Message = Work(id: nat) | Terminate

  datatype Worker = Idle | Busy(message: Message) | Exited

  /** How a message left the queue: taken by a worker, or overrun by a newer one. */
  datatype Removal = Taken(worker: nat, message: Message) | Overrun(message: Message)

  /** `posted` terminate messages of one per worker; `sent` and `removed` remember all that went in and out. */
  datatype State = State(q: seq<Message>, workers: seq<Worker>, closing: bool, posted: nat,
                         sent: seq<Message>, removed: seq<Removal>)

  datatype Action =
    | Post(message: Message, wait: bool)
    | Close
    | PostTerminate
    | Dequeue(worker: nat)
    | TimeOut(worker: nat)
    | Handle(worker: nat)

  ghost predicate Step(capacity: nat, s: State, a: Action, t: State) {
    match a
    case Post(m, wait) =>
      && !s.closing && m.Work? && (wait ==> |s.q| < capacity)
      && t == s.(q := KeepLast(s.q + [m], capacity), sent := s.sent + [m],
                 removed := s.removed + if |s.q| < capacity then [] else [Overrun((s.q + [m])[0])])
    case Close => !s.closing && t == s.(closing := true)
    case PostTerminate =>
      && s.closing && s.posted < |s.workers| && |s.q| < capacity
      && t == s.(q := s.q + [Terminate], sent := s.sent + [Terminate], posted := s.posted + 1)
    case Dequeue(w) =>
      && w < |s.workers| && s.workers[w].Idle? && s.q != []
      && t == s.(q := s.q[1..], workers := s.workers[w := Busy(s.q[0])], removed := s.removed + [Taken(w, s.q[0])])
    case TimeOut(w) => w < |s.workers| && s.workers[w].Idle? && s.q == [] && t == s
    case Handle(w) =>
      && w < |s.workers| && s.workers[w].Busy?
      && t == s.(workers := s.workers[w := if s.workers[w].message.Terminate? then Exited else Idle])
  }

  // ----- What the invariant counts -----

  ghost function Messages(removed: seq<Removal>): seq<Message> {
    if |removed| == 0 then [] else Messages(removed[..|removed| - 1]) + [removed[|removed| - 1].message]
  }

  predicate Stopping(w: Worker) {
    w == Exited || w == Busy(Terminate)
  }

  ghost function Stopped(workers: seq<Worker>): nat {
    if |workers| == 0 then 0 else Stopped(workers[1..]) + if Stopping(workers[0]) then 1 else 0
  }

  ghost function BusyOnes(workers: seq<Worker>): nat {
    if |workers| == 0 then 0 else BusyOnes(workers[1..]) + if workers[0].Busy? then 1 else 0
  }

  /** The terminate messages a worker has taken. */
  ghost function Orders(removed: seq<Removal>, w: nat): nat {
    if |removed| == 0 then 0
    else Orders(removed[..|removed| - 1], w) + if removed[|removed| - 1] == Taken(w, Terminate) then 1 else 0
  }

  lemma {:induction false} CountsUpdate(workers: seq<Worker>, w: nat, x: Worker)
    requires w < |workers|
    ensures Stopped(workers[w := x]) + (if Stopping(workers[w]) then 1 else 0)
         == Stopped(workers) + if Stopping(x) then 1 else 0
    ensures BusyOnes(workers[w := x]) + (if workers[w].Busy? then 1 else 0)
         == BusyOnes(workers) + if x.Busy? then 1 else 0
  {
    if w > 0 {
      CountsUpdate(workers[1..], w - 1, x);
      assert workers[w := x][1..] == workers[1..][w - 1 := x];
    } else {
      assert workers[w := x][1..] == workers[1..];
    }
  }

  lemma {:induction false} CountsBound(workers: seq<Worker>)
    ensures Stopped(workers) <= |workers|
    ensures Stopped(workers) == |workers| ==> forall w :: 0 <= w < |workers| ==> Stopping(workers[w])
    ensures Stopped(workers) < |workers| ==> exists w :: 0 <= w < |workers| && !Stopping(workers[w])
    ensures BusyOnes(workers) == 0 <==> forall w :: 0 <= w < |workers| ==> !workers[w].Busy?
  {
    if |workers| > 0 {
      var rest := workers[1..];
      CountsBound(rest);
      assert forall w :: 1 <= w < |workers| ==> workers[w] == rest[w - 1];
      if Stopped(rest) < |rest| {
        var w :| 0 <= w < |rest| && !Stopping(rest[w]);
        assert !Stopping(workers[w + 1]);
      }
      if BusyOnes(rest) != 0 {
        var w :| 0 <= w < |rest| && rest[w].Busy?;
        assert workers[w + 1].Busy?;
      }
    }
  }

  lemma {:induction false} RemovedSnoc(removed: seq<Removal>, r: Removal)
    ensures Messages(removed + [r]) == Messages(removed) + [r.message]
    ensures forall w :: Orders(removed + [r], w) == Orders(removed, w) + if r == Taken(w, Terminate) then 1 else 0
  {
    assert (removed + [r])[..|removed|] == removed;
  }

  // ----- The invariant -----

  /**
   * What went in came out in order or is still there, and nothing but terminate messages follows a terminate message.
   */
  ghost predicate Flow(capacity: nat, s: State) {
    && |s.q| <= capacity
    && s.sent == Messages(s.removed) + s.q
    && s.posted <= |s.sent|
    && forall i :: 0 <= i < |s.sent| ==> (s.sent[i].Terminate? <==> i >= |s.sent| - s.posted)
  }

  /** Terminate messages are in the queue or have stopped one worker each. */
  ghost predicate Tally(s: State) {
    && s.posted <= |s.workers| && |s.workers| >= 1 && (!s.closing ==> s.posted == 0)
    && Stopped(s.workers) == (if s.posted > |s.q| then s.posted - |s.q| else 0)
    && forall w :: 0 <= w < |s.workers| ==> Orders(s.removed, w) == if Stopping(s.workers[w]) then 1 else 0
  }

  ghost predicate Inv(capacity: nat, s: State) {
    Flow(capacity, s) && Tally(s)
  }

  /** A pool has at least one thread. */
  ghost predicate Init(s: State) {
    && |s.workers| >= 1 && s.q == [] && !s.closing && s.posted == 0 && s.sent == [] && s.removed == []
    && forall w :: 0 <= w < |s.workers| ==> s.workers[w].Idle?
  }

  lemma {:induction false} AllIdle(workers: seq<Worker>)
    requires forall w :: 0 <= w < |workers| ==> workers[w].Idle?
    ensures Stopped(workers) == 0
  {
    if |workers| > 0 {
      AllIdle(workers[1..]);
    }
  }

  lemma {:induction false} InitInv(capacity: nat, s: State)
    requires Init(s)
    ensures Inv(capacity, s)
  {
    AllIdle(s.workers);
  }

  lemma {:induction false} FlowKept(capacity: nat, s: State, a: Action, t: State)
    requires Inv(capacity, s) && Step(capacity, s, a, t)
    ensures Flow(capacity, t)
  {
    hide Messages, Stopped, Orders;
    match a
    case Post(m, _) => PostFlows(s.q, s.removed, s.sent, m, capacity);
    case Dequeue(w) =>
      RemovedSnoc(s.removed, Taken(w, s.q[0]));
      assert Messages(s.removed) + [s.q[0]] + s.q[1..] == Messages(s.removed) + s.q;
    case PostTerminate => assert Messages(s.removed) + s.q + [Terminate] == Messages(s.removed) + (s.q + [Terminate]);
    case _ =>
  }

  lemma {:induction false} PostFlows(q: seq<Message>, removed: seq<Removal>, sent: seq<Message>, m: Message,
                                     capacity: nat)
    requires |q| <= capacity && sent == Messages(removed) + q
    ensures var removed' := removed + if |q| < capacity then [] else [Overrun((q + [m])[0])];
      sent + [m] == Messages(removed') + KeepLast(q + [m], capacity)
  {
    hide Messages;
    var all := q + [m];
    assert sent + [m] == Messages(removed) + all;
    if |q| < capacity {
      assert removed + [] == removed;
    } else {
      RemovedSnoc(removed, Overrun(all[0]));
      assert Messages(removed) + [all[0]] + all[1..] == Messages(removed) + all;
    }
  }

  /** The front of the queue is a terminate message exactly when nothing else is left in it. */
  lemma {:induction false} FrontOf(capacity: nat, s: State)
    requires Flow(capacity, s) && s.q != []
    ensures s.q[0].Terminate? <==> s.posted >= |s.q|
  {
    hide Messages;
    assert s.q[0] == s.sent[|s.sent| - |s.q|];
  }

  lemma {:induction false} TallyKept(capacity: nat, s: State, a: Action, t: State)
    requires Inv(capacity, s) && Step(capacity, s, a, t)
    ensures Tally(t)
  {
    hide Messages, Stopped, Orders;
    match a
    case Post(m, _) =>
      assert s.removed + [] == s.removed;
      RemovedSnoc(s.removed, Overrun((s.q + [m])[0]));
    case Dequeue(w) =>
      FrontOf(capacity, s);
      CountsUpdate(s.workers, w, Busy(s.q[0]));
      RemovedSnoc(s.removed, Taken(w, s.q[0]));
    case Handle(w) =>
      CountsUpdate(s.workers, w, t.workers[w]);
    case _ =>
  }

  lemma {:induction false} InvKept(capacity: nat, s: State, a: Action, t: State)
    requires Inv(capacity, s) && Step(capacity, s, a, t)
    ensures Inv(capacity, t)
  {
    FlowKept(capacity, s, a, t);
    TallyKept(capacity, s, a, t);
  }

  // ----- Runs -----

  ghost predicate Run(capacity: nat, states: seq<State>, actions: seq<Action>) {
    |states| == |actions| + 1 && forall i :: 0 <= i < |actions| ==> Step(capacity, states[i], actions[i], states[i + 1])
  }

  lemma {:induction false} RunInv(capacity: nat, states: seq<State>, actions: seq<Action>, k: nat)
    requires Run(capacity, states, actions) && Init(states[0]) && k <= |actions|
    ensures Inv(capacity, states[k])
  {
    if k == 0 {
      InitInv(capacity, states[0]);
    } else {
      RunInv(capacity, states, actions, k - 1);
      assert Step(capacity, states[k - 1], actions[k - 1], states[k - 1 + 1]);
      InvKept(capacity, states[k - 1], actions[k - 1], states[k]);
    }
  }

  /** The destructor's posts, the queued messages and the messages in hand: what remains to be done. */
  ghost function Remaining(s: State): int {
    3 * (|s.workers| - s.posted) + 2 * |s.q| + BusyOnes(s.workers)
  }

  /** Every step of the shutdown but an idle worker's time-out does exactly one piece of what remains. */
  lemma {:induction false} OneStepLess(capacity: nat, s: State, a: Action, t: State)
    requires Step(capacity, s, a, t) && s.closing && !a.TimeOut?
    ensures Remaining(t) == Remaining(s) - 1 && t.closing && |t.workers| == |s.workers|
  {
    hide BusyOnes, Stopped;
    match a
    case Dequeue(w) => CountsUpdate(s.workers, w, Busy(s.q[0]));
    case Handle(w) => CountsUpdate(s.workers, w, t.workers[w]);
    case _ =>
  }

  ghost predicate CanMove(capacity: nat, s: State) {
    exists a: Action, t: State :: !a.TimeOut? && Step(capacity, s, a, t)
  }

  /**
   * Before the shutdown a message can always be posted, but one that waits for room only when there is some; a worker
   * takes a message exactly when it is idle and one is there, and handles exactly the one it took.
   */
  lemma {:induction false} PossibleExactlyWhen(capacity: nat, s: State, id: nat, wait: bool, w: nat)
    ensures (exists t :: Step(capacity, s, Post(Work(id), wait), t)) <==> !s.closing && (wait ==> |s.q| < capacity)
    ensures (exists t :: Step(capacity, s, Close, t)) <==> !s.closing
    ensures (exists t :: Step(capacity, s, Dequeue(w), t)) <==> w < |s.workers| && s.workers[w].Idle? && s.q != []
    ensures (exists t :: Step(capacity, s, Handle(w), t)) <==> w < |s.workers| && s.workers[w].Busy?
  {
    hide KeepLast;
    var m := Work(id);
    var t := s.(q := KeepLast(s.q + [m], capacity), sent := s.sent + [m],
                removed := s.removed + if |s.q| < capacity then [] else [Overrun((s.q + [m])[0])]);
    assert !s.closing && (wait ==> |s.q| < capacity) ==> Step(capacity, s, Post(m, wait), t);
    assert !s.closing ==> Step(capacity, s, Close, s.(closing := true));
    if w < |s.workers| && s.workers[w].Idle? && s.q != [] {
      t := s.(q := s.q[1..], workers := s.workers[w := Busy(s.q[0])], removed := s.removed + [Taken(w, s.q[0])]);
      assert Step(capacity, s, Dequeue(w), t);
    }
    if w < |s.workers| && s.workers[w].Busy? {
      var x := if s.workers[w].message.Terminate? then Exited else Idle;
      assert Step(capacity, s, Handle(w), s.(workers := s.workers[w := x]));
    }
  }

  /** While something remains the shutdown can move on, exactly when the queue has any room or a worker is busy. */
  lemma {:induction false} NoDeadlockExactlyWhen(capacity: nat, s: State)
    requires Inv(capacity, s) && s.closing && Remaining(s) > 0
    ensures CanMove(capacity, s) <==> capacity >= 1 || exists w :: 0 <= w < |s.workers| && s.workers[w].Busy?
  {
    hide Messages, Stopped, BusyOnes, Orders;
    CountsBound(s.workers);
    if w :| 0 <= w < |s.workers| && s.workers[w].Busy? {
      var x := if s.workers[w].message.Terminate? then Exited else Idle;
      assert Step(capacity, s, Handle(w), s.(workers := s.workers[w := x]));
    } else if capacity >= 1 {
      if s.posted < |s.workers| && |s.q| < capacity {
        var t := s.(q := s.q + [Terminate], sent := s.sent + [Terminate], posted := s.posted + 1);
        assert Step(capacity, s, PostTerminate, t);
      } else {
        var w :| 0 <= w < |s.workers| && !Stopping(s.workers[w]);
        var t := s.(q := s.q[1..], workers := s.workers[w := Busy(s.q[0])], removed := s.removed + [Taken(w, s.q[0])]);
        assert Step(capacity, s, Dequeue(w), t);
      }
    }
  }

  /** When nothing remains, every worker has exited with one terminate message each, and the queue is empty. */
  lemma {:induction false} AllJoined(capacity: nat, s: State)
    requires Inv(capacity, s) && Remaining(s) == 0
    ensures s.q == [] && s.sent == Messages(s.removed)
    ensures forall w :: 0 <= w < |s.workers| ==> s.workers[w].Exited? && Orders(s.removed, w) == 1
  {
    hide Messages, Stopped, BusyOnes, Orders;
    CountsBound(s.workers);
    assert Remaining(s) == 3 * (|s.workers| - s.posted) + 2 * |s.q| + BusyOnes(s.workers);
  }

  /** n terminate messages. */
  ghost function Orderly(n: nat): seq<Message> {
    seq(n, _ => Terminate)
  }

  /** What workers took since the destructor began, and what is left, is what was queued, then terminate messages. */
  ghost predicate Since(s: State, t: State, taken: seq<Removal>) {
    && t.removed == s.removed + taken
    && s.posted <= t.posted && t.closing && |t.workers| == |s.workers|
    && Messages(taken) + t.q == s.q + Orderly(t.posted - s.posted)
    && forall i :: 0 <= i < |taken| ==> taken[i].Taken?
  }

  lemma {:induction false} SinceKept(capacity: nat, s: State, t: State, taken: seq<Removal>, a: Action, u: State)
    requires Since(s, t, taken) && Step(capacity, t, a, u)
    ensures Since(s, u, taken + if a.Dequeue? then [Taken(a.worker, t.q[0])] else [])
  {
    hide Messages;
    assert taken + [] == taken;
    match a
    case PostTerminate =>
      assert Orderly(u.posted - s.posted) == Orderly(t.posted - s.posted) + [Terminate];
      assert Messages(taken) + u.q == (Messages(taken) + t.q) + [Terminate];
    case Dequeue(w) =>
      RemovedSnoc(taken, Taken(w, t.q[0]));
      assert Messages(taken) + [t.q[0]] + t.q[1..] == Messages(taken) + t.q;
    case _ =>
  }

  /** A run of the shutdown, idle time-outs left out. */
  ghost predicate Shutdown(capacity: nat, states: seq<State>, actions: seq<Action>) {
    && Run(capacity, states, actions) && states[0].closing
    && forall i :: 0 <= i < |actions| ==> !actions[i].TimeOut?
  }

  lemma {:induction false} ShutdownSoFar(capacity: nat, states: seq<State>, actions: seq<Action>, k: nat)
    returns (taken: seq<Removal>)
    requires Shutdown(capacity, states, actions) && Inv(capacity, states[0]) && k <= |actions|
    ensures Inv(capacity, states[k]) && Remaining(states[k]) == Remaining(states[0]) - k
    ensures Since(states[0], states[k], taken)
  {
    if k == 0 {
      taken := [];
      assert Orderly(0) == [] && states[0].removed + [] == states[0].removed && states[0].q + [] == states[0].q;
    } else {
      var before := ShutdownSoFar(capacity, states, actions, k - 1);
      var s, a, t := states[k - 1], actions[k - 1], states[k];
      assert Step(capacity, s, a, states[k - 1 + 1]);
      hide Inv, Since, Remaining, Step;
      InvKept(capacity, s, a, t);
      ClosingStays(states[0], s, before);
      OneStepLess(capacity, s, a, t);
      SinceKept(capacity, states[0], s, before, a, t);
      QueueNonEmpty(capacity, s, a, t);
      taken := before + if a.Dequeue? then [Taken(a.worker, s.q[0])] else [];
    }
  }

  lemma {:induction false} ClosingStays(s: State, t: State, taken: seq<Removal>)
    requires Since(s, t, taken)
    ensures t.closing
  {
  }

  lemma {:induction false} QueueNonEmpty(capacity: nat, s: State, a: Action, t: State)
    requires Step(capacity, s, a, t)
    ensures a.Dequeue? ==> |s.q| > 0
  {
  }

  /**
   * The shutdown: with any room in the queue, however the steps interleave, it goes on until it has taken a fixed
   * number of steps, and ends then. The workers have taken what was queued when it began, each message once and in
   * order, and after that terminate messages only, one for each of them.
   */
  lemma {:induction false} ShutdownCompletes(capacity: nat, states: seq<State>, actions: seq<Action>)
    returns (taken: seq<Removal>)
    requires capacity >= 1 && Shutdown(capacity, states, actions) && Inv(capacity, states[0]) && states[0].posted == 0
    ensures |actions| <= Remaining(states[0])
    ensures var end := states[|actions|];
      && (CanMove(capacity, end) <==> |actions| < Remaining(states[0]))
      && end.removed == states[0].removed + taken
      && (!CanMove(capacity, end) ==>
        && Messages(taken) == states[0].q + Orderly(|states[0].workers|)
        && (forall i :: 0 <= i < |taken| ==> taken[i].Taken?)
        && (forall w :: 0 <= w < |end.workers| ==> end.workers[w].Exited? && Orders(end.removed, w) == 1)
        && end.q == [])
  {
    taken := ShutdownSoFar(capacity, states, actions, |actions|);
    var end := states[|actions|];
    RemainingIsNatural(capacity, end);
    if Remaining(end) > 0 {
      assert Since(states[0], end, taken);
      NoDeadlockExactlyWhen(capacity, end);
    } else {
      AllJoined(capacity, end);
      NothingMoves(capacity, end);
      hide Messages, Orders, BusyOnes, Stopped;
      assert Messages(taken) + [] == Messages(taken);
    }
  }

  lemma {:induction false} RemainingIsNatural(capacity: nat, s: State)
    requires Inv(capacity, s)
    ensures Remaining(s) >= 0 && (Remaining(s) == 0 ==> s.posted == |s.workers|)
  {
  }

  lemma {:induction false} NothingMoves(capacity: nat, s: State)
    requires Inv(capacity, s) && s.closing && Remaining(s) == 0
    ensures !CanMove(capacity, s)
  {
    AllJoined(capacity, s);
    RemainingIsNatural(capacity, s);
  }

  // ----- Whether the shutdown can complete -----

  ghost predicate CanComplete(capacity: nat, s: State) {
    exists states, actions :: Shutdown(capacity, states, actions) && states[0] == s && Remaining(states[|actions|]) == 0
  }

  /** A shutdown that begins with terminate messages to post can complete if and only if the queue has any room. */
  lemma {:induction false} CompletesExactlyWhen(capacity: nat, s: State)
    requires Inv(capacity, s) && s.closing && s.posted == 0
    ensures CanComplete(capacity, s) <==> capacity >= 1
  {
    hide Inv, Remaining;
    if capacity >= 1 {
      var states, actions := ToTheEnd(capacity, s);
    } else {
      forall states: seq<State>, actions | Shutdown(capacity, states, actions) && states[0] == s
        ensures Remaining(states[|actions|]) != 0
      {
        NothingPosted(states, actions, |actions|);
      }
    }
  }

  lemma {:induction false} ToTheEnd(capacity: nat, s: State) returns (states: seq<State>, actions: seq<Action>)
    requires capacity >= 1 && Inv(capacity, s) && s.closing
    ensures Shutdown(capacity, states, actions) && states[0] == s && Remaining(states[|actions|]) == 0
    decreases Remaining(s)
  {
    RemainingIsNatural(capacity, s);
    if Remaining(s) == 0 {
      states, actions := [s], [];
    } else {
      NoDeadlockExactlyWhen(capacity, s);
      var a: Action, t: State :| !a.TimeOut? && Step(capacity, s, a, t);
      InvKept(capacity, s, a, t);
      OneStepLess(capacity, s, a, t);
      RemainingIsNatural(capacity, t);
      hide Inv, Remaining, Step, CanMove;
      states, actions := ToTheEnd(capacity, t);
      OneStepEarlier(capacity, s, a, states, actions);
      states, actions := [s] + states, [a] + actions;
    }
  }

  lemma {:induction false} OneStepEarlier(capacity: nat, s: State, a: Action, states: seq<State>, actions: seq<Action>)
    requires Shutdown(capacity, states, actions) && Step(capacity, s, a, states[0]) && s.closing && !a.TimeOut?
    ensures Shutdown(capacity, [s] + states, [a] + actions)
  {
    hide Step;
    var u, b := [s] + states, [a] + actions;
    forall i | 0 <= i < |b|
      ensures Step(capacity, u[i], b[i], u[i + 1]) && !b[i].TimeOut?
    {
      if i > 0 {
        assert u[i] == states[i - 1] && b[i] == actions[i - 1] && u[i + 1] == states[i - 1 + 1];
      }
    }
  }

  /** Without room not even the first terminate message is ever posted. */
  lemma {:induction false} NothingPosted(states: seq<State>, actions: seq<Action>, k: nat)
    requires Shutdown(0, states, actions) && Inv(0, states[0]) && states[0].posted == 0 && k <= |actions|
    ensures Inv(0, states[k]) && states[k].posted == 0 && Remaining(states[k]) > 0
  {
    if k > 0 {
      NothingPosted(states, actions, k - 1);
      assert Step(0, states[k - 1], actions[k - 1], states[k - 1 + 1]);
      InvKept(0, states[k - 1], actions[k - 1], states[k]);
    }
  }
}
