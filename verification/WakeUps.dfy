/**
 * Progress of the payload event queue: the callback process can always move on until it waits, it gets there however
 * callbacks notify meanwhile, and the wake-ups hand over everything that was notified.
 */
module WakeUps {
  import opened PayloadEventQueue

  // ----- What is left to do before the process waits -----

  /** How many entries at the front of a sorted list are due. */
  function DueNow(timed: seq<Entry>, now: int): nat {
    if timed == [] then 0 else (if timed[0].due <= now then 1 else 0) + DueNow(timed[1..], now)
  }

  function StepsFrom(phase: Phase, runnable: bool): nat {
    match phase
    case Waiting => if runnable then 4 else 0
    case Immediates => 3
    case Deltas => 2
    case Timeds => 1
    case Removing => 0
  }

  /** Payloads due now are called back, timed ones are also removed, and each list is left once. */
  function Left(s: State): nat {
    |s.immediate| + |Current(s)| + 2 * DueNow(s.timed, s.now) + StepsFrom(s.phase, s.runnable)
  }

  lemma {:induction false} InsertedDue(s: seq<Entry>, e: Entry, now: int)
    requires e.due > now
    ensures DueNow(Inserted(s, e), now) == DueNow(s, now)
  {
    if s != [] && s[0].due <= e.due {
      InsertedDue(s[1..], e, now);
      assert Inserted(s, e)[1..] == Inserted(s[1..], e);
    } else {
      assert Inserted(s, e)[1..] == s;
    }
  }

  lemma {:induction false} NoneDueNow(s: seq<Entry>, now: int)
    requires forall i :: 0 <= i < |s| ==> s[i].due > now
    ensures DueNow(s, now) == 0
  {
    if s != [] {
      NoneDueNow(s[1..], now);
    }
  }

  lemma {:induction false} FirstIsEarliest(s: seq<Entry>, now: int)
    requires Sorted(s) && (s != [] ==> s[0].due > now)
    ensures forall i :: 0 <= i < |s| ==> s[i].due > now
  {
    forall i | 0 <= i < |s|
      ensures s[i].due > now
    {
      assert i > 0 ==> Before(s[0], s[i]);
    }
  }

  /** Nothing is left exactly when the process waits. */
  lemma {:induction false} NothingLeftExactlyWhen(s: State)
    requires Inv(s)
    ensures Left(s) == 0 <==> Resting(s)
  {
    hide Listed, Sorted, Punctual, AllDue, Current, Following;
    if Resting(s) {
      TimedSorted(s);
      FirstIsEarliest(s.timed, s.now);
      NoneDueNow(s.timed, s.now);
    }
  }

  // ----- The process can move on -----

  /** Until the process waits, exactly one of its steps is possible, whatever has been notified. */
  lemma {:induction false} MovesOn(s: State) returns (a: Action, t: State)
    requires Inv(s) && !Resting(s)
    ensures !FromOutside(a) && Step(s, a, t)
    ensures forall b, u :: !FromOutside(b) && Step(s, b, u) ==> b == a && u == t
  {
    hide Listed, Sorted, Punctual, AllDue, Current, Following;
    match s.phase
    case Waiting =>
      a, t := Begin, s.(runnable := false, phase := Immediates);
    case Immediates =>
      if s.immediate != [] {
        a, t := CallImmediate, s.(immediate := s.immediate[1..], immediateDone := s.immediateDone + [s.immediate[0]],
                                  immediateAt := s.immediateAt + [s.cycle]);
      } else {
        a, t := EndImmediates, s.(phase := Deltas);
      }
    case Deltas =>
      if Current(s) != [] {
        a, t := CallDelta, DropCurrent(s).(deltaDone := s.deltaDone + [Current(s)[0]],
                                           deltaAt := s.deltaAt + [s.cycle]);
      } else {
        a, t := EndDeltas, s.(pending := if Following(s) != [] then NextDelta else s.pending,
                              phase := if s.timed == [] then Waiting else Timeds);
      }
    case Timeds =>
      if s.timed != [] && s.timed[0].due == s.now {
        a, t := CallTimed, s.(timedDone := s.timedDone + [s.timed[0]], timedAt := s.timedAt + [s.now],
                              phase := Removing);
      } else {
        a, t := EndTimeds, s.(pending := if s.timed != [] then Notified(s.pending, s.timed[0].due) else s.pending,
                              phase := Waiting);
      }
    case Removing =>
      a, t := Remove, s.(timed := s.timed[1..], phase := Timeds);
  }

  /** Each of them leaves less. */
  lemma {:induction false} LessLeft(s: State, a: Action, t: State)
    requires Inv(s) && Step(s, a, t) && !FromOutside(a)
    ensures Left(t) < Left(s)
  {
    hide Listed, Sorted, Punctual, AllDue, Current, Following;
    DeltaLists(s, a, t);
  }

  /** What a callback, or anyone, notifies for later leaves as much. */
  lemma {:induction false} AsMuchLeft(s: State, a: Action, t: State)
    requires Inv(s) && Step(s, a, t) && (a.NotifyAfter? || a.NotifyDelta?)
    ensures Left(t) == Left(s)
  {
    hide Listed, Sorted, Punctual, AllDue, Current, Following, Wakes, Inserted;
    DeltaLists(s, a, t);
    if a.NotifyAfter? {
      InsertedDue(s.timed, Entry(|s.timedNotified|, s.now + a.delay), s.now);
    }
  }

  /** Whatever the state, payloads can be notified; at rest time can go on to what the event is pending for. */
  lemma {:induction false} AlwaysPossible(s: State, delay: int)
    requires Inv(s) && delay > 0
    ensures exists t :: Step(s, NotifyAfter(delay), t)
              && t.timedNotified == s.timedNotified + [Entry(|s.timedNotified|, s.now + delay)]
    ensures exists t :: Step(s, NotifyDelta, t)
              && t.deltaNotified == s.deltaNotified + [Entry(|s.deltaNotified|, s.cycle + 1)]
    ensures s.phase == Waiting ==>
      exists t :: Step(s, NotifyNow, t) && t.runnable
              && t.immediateNotified == s.immediateNotified + [Entry(|s.immediateNotified|, s.cycle)]
    ensures Resting(s) ==>
      exists t :: Step(s, AdvanceDelta, t) && t.cycle == s.cycle + 1 && (t.runnable <==> s.pending == NextDelta)
    ensures Resting(s) && s.pending.At? ==>
      exists t :: Step(s, AdvanceTime(s.pending.time), t)
              && t.now == s.pending.time && t.cycle == s.cycle + 1 && t.runnable
  {
    hide Inserted, TimedOrder, DeltaOrder, ImmediateOrder;
    var e := Entry(|s.timedNotified|, s.now + delay);
    var t := s.(timed := Inserted(s.timed, e), timedNotified := s.timedNotified + [e],
                pending := Notified(s.pending, e.due));
    assert Step(s, NotifyAfter(delay), t);
    e := Entry(|s.deltaNotified|, s.cycle + 1);
    t := if s.cycle % 2 == 1 then s.(even := s.even + [e]) else s.(odd := s.odd + [e]);
    t := t.(deltaNotified := s.deltaNotified + [e], pending := NextDelta);
    assert Step(s, NotifyDelta, t);
    e := Entry(|s.immediateNotified|, s.cycle);
    t := s.(immediate := s.immediate + [e], immediateNotified := s.immediateNotified + [e], pending := NotPending,
            runnable := true);
    assert s.phase == Waiting ==> Step(s, NotifyNow, t);
    t := s.(cycle := s.cycle + 1, runnable := s.pending == NextDelta,
            pending := if s.pending == NextDelta then NotPending else s.pending);
    assert Resting(s) ==> Step(s, AdvanceDelta, t);
    if Resting(s) && s.pending.At? {
      t := s.(now := s.pending.time, cycle := s.cycle + 1, runnable := true, pending := NotPending);
      assert Step(s, AdvanceTime(s.pending.time), t);
    }
  }

  // ----- Stretches of steps -----

  ghost predicate Steps(states: seq<State>, actions: seq<Action>) {
    && |states| == |actions| + 1
    && forall i :: 0 <= i < |actions| ==> Step(states[i], actions[i], states[i + 1])
  }

  /** How many of the steps are the process's own. */
  function Own(actions: seq<Action>): nat {
    if actions == [] then 0
    else Own(actions[..|actions| - 1]) + if FromOutside(actions[|actions| - 1]) then 0 else 1
  }

  /** A stretch in which the process runs and callbacks, or others, notify for later. */
  ghost predicate WakeUp(states: seq<State>, actions: seq<Action>) {
    && Steps(states, actions) && Inv(states[0])
    && forall i :: 0 <= i < |actions| ==> !FromOutside(actions[i]) || actions[i].NotifyAfter? || actions[i].NotifyDelta?
  }

  /**
   * In every such stretch the process makes at most as many steps as were left, and it can make one more unless it
   * waits: every wake-up ends, with everything due by then handed over, in its time and its delta cycle.
   */
  lemma {:induction false} WakeUpEnds(states: seq<State>, actions: seq<Action>)
    requires WakeUp(states, actions)
    ensures var s, t := states[0], states[|actions|];
      && Inv(t) && Own(actions) + Left(t) <= Left(s) && t.now == s.now && t.cycle == s.cycle
      && (!Resting(t) ==> Own(actions) < Left(s) && exists a, u :: !FromOutside(a) && Step(t, a, u))
      && (Resting(t) ==> AllHandedOver(t))
  {
    hide Inv, Step, Left, Resting, AllHandedOver, FromOutside;
    var k := |actions|;
    if k > 0 {
      WakeUpEnds(states[..k], actions[..k - 1]);
      assert Step(states[k - 1], actions[k - 1], states[k - 1 + 1]);
      WakeUpStep(states[k - 1], actions[k - 1], states[k]);
    }
    AtTheEnd(states[k]);
  }

  lemma {:induction false} WakeUpStep(s: State, a: Action, t: State)
    requires Inv(s) && Step(s, a, t) && (!FromOutside(a) || a.NotifyAfter? || a.NotifyDelta?)
    ensures Inv(t) && t.now == s.now && t.cycle == s.cycle
    ensures Left(t) + (if FromOutside(a) then 0 else 1) <= Left(s)
  {
    hide Inv, Step, Left;
    InvKept(s, a, t);
    SameTime(s, a, t);
    if FromOutside(a) {
      AsMuchLeft(s, a, t);
    } else {
      LessLeft(s, a, t);
    }
  }

  lemma {:induction false} AtTheEnd(t: State)
    requires Inv(t)
    ensures !Resting(t) ==> Left(t) > 0 && exists a, u :: !FromOutside(a) && Step(t, a, u)
    ensures Resting(t) ==> AllHandedOver(t)
  {
    hide Inv, Step, Left, Resting, AllHandedOver, FromOutside;
    NothingLeftExactlyWhen(t);
    if Resting(t) {
      RestingMeans(t);
    } else {
      var a, u := MovesOn(t);
    }
  }

  lemma {:induction false} SameTime(s: State, a: Action, t: State)
    requires Step(s, a, t) && !a.AdvanceDelta? && !a.AdvanceTime?
    ensures t.now == s.now && t.cycle == s.cycle
  {
    hide Inserted, Current, Following;
  }

  /** What is due by now was handed over, once, and what is left is due later. */
  ghost predicate AllHandedOver(s: State) {
    && (forall e :: e in s.timedNotified ==> multiset(s.timedDone)[e] == if e.due <= s.now then 1 else 0)
    && s.deltaDone <= s.deltaNotified && (forall e :: e in s.deltaNotified[|s.deltaDone|..] ==> e.due > s.cycle)
    && s.immediateDone == s.immediateNotified
  }

  lemma {:induction false} RestingMeans(s: State)
    requires Inv(s) && Resting(s)
    ensures AllHandedOver(s)
  {
    TimedDelivered(s);
    DeltasDelivered(s);
    hide Listed, Sorted, Punctual, AllDue, Current, Following;
    assert s.immediate == [];
    assert s.immediateDone + s.immediate == s.immediateDone;
  }

  // ----- Without further notifications the wake-ups empty the queue -----

  function Items(s: State): nat {
    |s.timed| + |s.even| + |s.odd| + |s.immediate|
  }

  /** Steps of the process and the kernel alone. */
  ghost predicate Undisturbed(s: State, states: seq<State>, actions: seq<Action>) {
    && Steps(states, actions) && states[0] == s
    && forall i :: 0 <= i < |actions| ==>
         !FromOutside(actions[i]) || actions[i].AdvanceDelta? || actions[i].AdvanceTime?
  }

  /** The event is pending for exactly what comes next, as far as the process got in making it so. */
  ghost predicate Exact(s: State) {
    s.pending == match s.phase
    case Waiting =>
      if s.runnable then NotPending else if Following(s) != [] then NextDelta
      else if s.timed != [] then At(s.timed[0].due) else NotPending
    case Immediates => NotPending
    case Deltas => NotPending
    case _ => if Following(s) != [] then NextDelta else NotPending
  }

  /** Later than s, nothing was added to the lists, and if nothing was taken off either they are the same. */
  ghost predicate Shrunk(s: State, t: State) {
    && Items(t) <= Items(s)
    && (Items(t) == Items(s) ==> t.timed == s.timed && t.even == s.even && t.odd == s.odd && t.immediate == s.immediate)
    && t.timedNotified == s.timedNotified && t.deltaNotified == s.deltaNotified
    && t.immediateNotified == s.immediateNotified
  }

  lemma {:induction false} OwnShrinks(s: State, a: Action, t: State)
    requires Inv(s) && Step(s, a, t) && !FromOutside(a)
    ensures Shrunk(s, t) && t.now == s.now && t.cycle == s.cycle
    ensures Exact(s) ==> Exact(t)
  {
    hide Listed, Sorted, Punctual, AllDue;
  }

  /** The process alone comes to rest. */
  lemma {:induction false} ToRest(s: State) returns (states: seq<State>, actions: seq<Action>)
    requires Inv(s)
    ensures Undisturbed(s, states, actions)
    ensures var t := states[|actions|];
      && Inv(t) && Resting(t) && Shrunk(s, t) && t.now == s.now && t.cycle == s.cycle && (Exact(s) ==> Exact(t))
    decreases Left(s)
  {
    hide Inv, Step, Left, Resting, FromOutside, Shrunk, Exact;
    if Resting(s) {
      states, actions := [s], [];
      SameLists(s);
    } else {
      var a, t := MovesOn(s);
      InvKept(s, a, t);
      LessLeft(s, a, t);
      OwnShrinks(s, a, t);
      states, actions := ToRest(t);
      ShrunkOn(s, t, states[|actions|]);
      Prepended(s, a, t, states, actions);
      states, actions := [s] + states, [a] + actions;
    }
  }

  lemma {:induction false} SameLists(s: State)
    ensures Shrunk(s, s)
  {
  }

  lemma {:induction false} ShrunkOn(s: State, t: State, u: State)
    requires Shrunk(s, t) && Shrunk(t, u)
    ensures Shrunk(s, u)
  {
  }

  lemma {:induction false} Prepended(s: State, a: Action, t: State, states: seq<State>, actions: seq<Action>)
    requires Step(s, a, t) && (!FromOutside(a) || a.AdvanceDelta? || a.AdvanceTime?) && Undisturbed(t, states, actions)
    ensures Undisturbed(s, [s] + states, [a] + actions)
    ensures ([s] + states)[|[a] + actions|] == states[|actions|]
  {
    hide Step, FromOutside;
  }

  lemma {:induction false} Joined(s: State, first: seq<State>, before: seq<Action>, then_: seq<State>,
                                  after: seq<Action>)
    requires Undisturbed(s, first, before) && Undisturbed(first[|before|], then_, after)
    ensures Undisturbed(s, first + then_[1..], before + after)
    ensures (first + then_[1..])[|before + after|] == then_[|after|]
  {
    hide Step, FromOutside;
    var states, actions := first + then_[1..], before + after;
    forall i | 0 <= i < |actions|
      ensures Step(states[i], actions[i], states[i + 1])
      ensures !FromOutside(actions[i]) || actions[i].AdvanceDelta? || actions[i].AdvanceTime?
    {
      var n := |before|;
      if i >= n {
        assert states[i] == then_[i - n] && states[i + 1] == then_[i - n + 1] && actions[i] == after[i - n];
      }
    }
  }

  /** At rest with payloads left the event is pending, and the kernel goes on to its time or the next delta cycle. */
  lemma {:induction false} NextWakeUp(s: State) returns (a: Action, t: State)
    requires Inv(s) && Resting(s) && Items(s) > 0
    ensures (a.AdvanceDelta? || a.AdvanceTime?) && Step(s, a, t) && Exact(t) && Shrunk(s, t) && Items(t) == Items(s)
    ensures Exact(s) ==> Current(t) != [] || (t.timed != [] && t.timed[0].due == t.now)
  {
    hide Listed, Sorted, Punctual, AllDue;
    if s.pending == NextDelta {
      a, t := AdvanceDelta, s.(cycle := s.cycle + 1, runnable := true, pending := NotPending);
    } else {
      var to := s.pending.time;
      a, t := AdvanceTime(to), s.(now := to, cycle := s.cycle + 1, runnable := true, pending := NotPending);
    }
  }

  /** What is due was handed over when the process rests again. */
  lemma {:induction false} FewerItems(t: State, u: State)
    requires Inv(u) && Resting(u) && Shrunk(t, u) && u.now == t.now && u.cycle == t.cycle
    requires Current(t) != [] || (t.timed != [] && t.timed[0].due == t.now)
    ensures Items(u) < Items(t)
  {
    hide Listed, Sorted, Punctual, AllDue;
  }

  /**
   * From rest, wake-up after wake-up, the queue is emptied: if the event is pending for the next payload each wake-up
   * hands one over, and if it is not the next wake-up makes it so.
   */
  lemma {:induction false} Emptied(s: State) returns (states: seq<State>, actions: seq<Action>)
    requires Inv(s) && Resting(s)
    ensures Undisturbed(s, states, actions)
    ensures var t := states[|actions|]; Inv(t) && Resting(t) && Items(t) == 0 && Shrunk(s, t)
    decreases Items(s), !Exact(s)
  {
    hide Inv, Step, Left, Resting, FromOutside, Exact, Current;
    if Items(s) == 0 {
      states, actions := [s], [];
      SameLists(s);
    } else {
      var a, t := NextWakeUp(s);
      InvKept(s, a, t);
      var first, before := ToRest(t);
      var u := first[|before|];
      ShrunkOn(s, t, u);
      if Exact(s) {
        FewerItems(t, u);
      }
      states, actions := Emptied(u);
      ShrunkOn(s, u, states[|actions|]);
      Joined(t, first, before, states, actions);
      states, actions := first + states[1..], before + actions;
      Prepended(s, a, t, states, actions);
      states, actions := [s] + states, [a] + actions;
    }
  }

  /** From any state the steps of process and kernel alone hand over everything that was notified, exactly once. */
  lemma {:induction false} EverythingHandedOver(s: State) returns (states: seq<State>, actions: seq<Action>)
    requires Inv(s)
    ensures Undisturbed(s, states, actions)
    ensures var t := states[|actions|];
      && Resting(t) && multiset(t.timedDone) == multiset(s.timedNotified)
      && t.deltaDone == s.deltaNotified && t.immediateDone == s.immediateNotified
      && Sorted(t.timedDone) && Punctual(t.timedDone, t.timedAt)
      && Punctual(t.deltaDone, t.deltaAt) && Punctual(t.immediateDone, t.immediateAt)
  {
    hide Inv, Step, Left, Resting, FromOutside, Shrunk, Current;
    var first, before := ToRest(s);
    states, actions := Emptied(first[|before|]);
    ShrunkOn(s, first[|before|], states[|actions|]);
    EmptyMeans(s, states[|actions|]);
    Joined(s, first, before, states, actions);
    states, actions := first + states[1..], before + actions;
  }

  lemma {:induction false} EmptyMeans(s: State, t: State)
    requires Inv(t) && Items(t) == 0 && Shrunk(s, t)
    ensures multiset(t.timedDone) == multiset(s.timedNotified)
    ensures t.deltaDone == s.deltaNotified && t.immediateDone == s.immediateNotified
    ensures Sorted(t.timedDone) && Punctual(t.timedDone, t.timedAt)
    ensures Punctual(t.deltaDone, t.deltaAt) && Punctual(t.immediateDone, t.immediateAt)
  {
    hide Sorted, Punctual, AllDue;
    assert t.timedDone + [] == t.timedDone && t.deltaDone + [] + [] == t.deltaDone;
    assert t.immediateDone + [] == t.immediateDone;
  }
}
