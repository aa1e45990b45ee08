/**
 * The payload event queue: one event with one pending notification wakes a callback process for every payload. Each
 * step is what runs without interruption, so callbacks may notify the queue again while it is being emptied.
 */
module PayloadEventQueue {

  /** A payload: its number among those of its kind, and the time or the delta cycle in which it is due. */
  datatype Entry = Entry(id: nat, due: int)

  /** An event has at most one notification, for the next delta cycle or for a time. */
  datatype Pending = NotPending | NextDelta | At(time: int)

  /**
   * Where the callback process is: waiting, or emptying one of the lists; `Removing` is between callback and removal.
   */
  datatype Phase = Waiting | Immediates | Deltas | Timeds | Removing

  /** The lists of the queue, and for each kind what was notified and what was handed to the callback, and when. */
  datatype State = State(
    now: int, cycle: nat, pending: Pending, runnable: bool, phase: Phase,
    timed: seq<Entry>, even: seq<Entry>, odd: seq<Entry>, immediate: seq<Entry>,
    timedNotified: seq<Entry>, timedDone: seq<Entry>, timedAt: seq<int>,
    deltaNotified: seq<Entry>, deltaDone: seq<Entry>, deltaAt: seq<int>,
    immediateNotified: seq<Entry>, immediateDone: seq<Entry>, immediateAt: seq<int>)

  datatype Action = NotifyAfter(delay: int) | NotifyDelta | NotifyNow
                  | Begin | CallImmediate | EndImmediates | CallDelta | EndDeltas | CallTimed | Remove | EndTimeds
                  | AdvanceDelta | AdvanceTime(to: int)

  // ----- The time-ordered list -----

  /** Behind every entry that is due no later. */
  function Inserted(s: seq<Entry>, e: Entry): seq<Entry> {
    if s == [] || s[0].due > e.due then [e] + s else [s[0]] + Inserted(s[1..], e)
  }

  predicate Before(a: Entry, b: Entry) {
    a.due < b.due || (a.due == b.due && a.id < b.id)
  }

  ghost predicate Sorted(s: seq<Entry>) {
    forall i, j :: 0 <= i < j < |s| ==> Before(s[i], s[j])
  }

  /** The place the search from the front of the list finds. */
  lemma {:induction false} InsertedAt(s: seq<Entry>, e: Entry, k: nat)
    requires k <= |s| && (forall i :: 0 <= i < k ==> s[i].due <= e.due) && (k < |s| ==> s[k].due > e.due)
    ensures Inserted(s, e) == s[..k] + [e] + s[k..]
  {
    if k > 0 {
      InsertedAt(s[1..], e, k - 1);
      assert [s[0]] + s[1..][..k - 1] == s[..k];
    }
  }

  lemma {:induction false} InsertPlace(s: seq<Entry>, e: Entry) returns (k: nat)
    requires Sorted(s)
    ensures k <= |s| && (forall i :: 0 <= i < k ==> s[i].due <= e.due)
    ensures (forall i :: k <= i < |s| ==> s[i].due > e.due)
    ensures Inserted(s, e) == s[..k] + [e] + s[k..]
  {
    k := 0;
    while k < |s| && s[k].due <= e.due
      invariant k <= |s| && forall i :: 0 <= i < k ==> s[i].due <= e.due
    {
      k := k + 1;
    }
    InsertedAt(s, e, k);
  }

  /** A later notification goes behind all that are due at the same time. */
  lemma {:induction false} InsertedSorted(done: seq<Entry>, s: seq<Entry>, e: Entry)
    requires Sorted(done + s)
    requires forall i :: 0 <= i < |done| ==> done[i].due < e.due
    requires forall i :: 0 <= i < |s| ==> s[i].id < e.id
    ensures Sorted(done + Inserted(s, e))
  {
    SortedParts(done, s);
    var k := InsertPlace(s, e);
    var t := s[..k] + [e] + s[k..];
    forall i, j | 0 <= i < j < |done + t|
      ensures Before((done + t)[i], (done + t)[j])
    {
      PlaceIn(done, s, e, k, i);
      PlaceIn(done, s, e, k, j);
    }
  }

  /** Which of the old entries, or the new one, is at a place after the insertion. */
  lemma {:induction false} PlaceIn(done: seq<Entry>, s: seq<Entry>, e: Entry, k: nat, i: nat)
    requires k <= |s| && i <= |done| + |s|
    ensures var t := done + (s[..k] + [e] + s[k..]);
      t[i] == if i < |done| + k then (done + s)[i] else if i == |done| + k then e else (done + s)[i - 1]
  {
  }

  lemma {:induction false} SortedParts(done: seq<Entry>, s: seq<Entry>)
    requires Sorted(done + s)
    ensures Sorted(s)
  {
    forall i, j | 0 <= i < j < |s|
      ensures Before(s[i], s[j])
    {
      assert (done + s)[|done| + i] == s[i] && (done + s)[|done| + j] == s[j];
    }
  }

  lemma {:induction false} InsertedBag(s: seq<Entry>, e: Entry)
    requires Sorted(s)
    ensures multiset(Inserted(s, e)) == multiset(s) + multiset{e}
    ensures |Inserted(s, e)| == |s| + 1
    ensures Inserted(s, e)[0] == if s == [] || s[0].due > e.due then e else s[0]
  {
    var k := InsertPlace(s, e);
    assert s == s[..k] + s[k..];
  }

  // ----- The event -----

  /** A notification at a time gives way to a delta notification and to an earlier time. */
  function Notified(p: Pending, time: int): Pending {
    if p == NotPending || (p.At? && time < p.time) then At(time) else p
  }

  // ----- The steps -----

  /** Payloads due in this delta cycle, and those for the next. */
  function Current(s: State): seq<Entry> {
    if s.cycle % 2 == 1 then s.odd else s.even
  }

  function Following(s: State): seq<Entry> {
    if s.cycle % 2 == 1 then s.even else s.odd
  }

  function DropCurrent(s: State): State
    requires Current(s) != []
  {
    if s.cycle % 2 == 1 then s.(odd := s.odd[1..]) else s.(even := s.even[1..])
  }

  ghost predicate Resting(s: State) {
    s.phase == Waiting && !s.runnable
  }

  ghost predicate Step(s: State, a: Action, t: State) {
    match a
    case NotifyAfter(delay) =>
      var e := Entry(|s.timedNotified|, s.now + delay);
      delay > 0 && t == s.(timed := Inserted(s.timed, e), timedNotified := s.timedNotified + [e],
                           pending := Notified(s.pending, e.due))
    case NotifyDelta =>
      var e := Entry(|s.deltaNotified|, s.cycle + 1);
      var u := if s.cycle % 2 == 1 then s.(even := s.even + [e]) else s.(odd := s.odd + [e]);
      t == u.(deltaNotified := s.deltaNotified + [e], pending := NextDelta)
    case NotifyNow =>
      var e := Entry(|s.immediateNotified|, s.cycle);
      && s.phase == Waiting
      && t == s.(immediate := s.immediate + [e], immediateNotified := s.immediateNotified + [e], pending := NotPending,
                 runnable := true)
    case Begin => s.phase == Waiting && s.runnable && t == s.(runnable := false, phase := Immediates)
    case CallImmediate =>
      && s.phase == Immediates && s.immediate != []
      && t == s.(immediate := s.immediate[1..], immediateDone := s.immediateDone + [s.immediate[0]],
                 immediateAt := s.immediateAt + [s.cycle])
    case EndImmediates => s.phase == Immediates && s.immediate == [] && t == s.(phase := Deltas)
    case CallDelta =>
      && s.phase == Deltas && Current(s) != []
      && t == DropCurrent(s).(deltaDone := s.deltaDone + [Current(s)[0]], deltaAt := s.deltaAt + [s.cycle])
    case EndDeltas =>
      && s.phase == Deltas && Current(s) == []
      && t == s.(pending := if Following(s) != [] then NextDelta else s.pending,
                 phase := if s.timed == [] then Waiting else Timeds)
    case CallTimed =>
      && s.phase == Timeds && s.timed != [] && s.timed[0].due == s.now
      && t == s.(timedDone := s.timedDone + [s.timed[0]], timedAt := s.timedAt + [s.now], phase := Removing)
    case Remove => s.phase == Removing && s.timed != [] && t == s.(timed := s.timed[1..], phase := Timeds)
    case EndTimeds =>
      && s.phase == Timeds && !(s.timed != [] && s.timed[0].due == s.now)
      && t == s.(pending := if s.timed != [] then Notified(s.pending, s.timed[0].due) else s.pending, phase := Waiting)
    case AdvanceDelta =>
      && Resting(s)
      && t == s.(cycle := s.cycle + 1, runnable := s.pending == NextDelta,
                 pending := if s.pending == NextDelta then NotPending else s.pending)
    case AdvanceTime(to) =>
      && Resting(s) && s.pending != NextDelta && to > s.now && (s.pending.At? ==> to <= s.pending.time)
      && t == s.(now := to, cycle := s.cycle + 1, runnable := s.pending == At(to),
                 pending := if s.pending == At(to) then NotPending else s.pending)
  }

  ghost predicate Init(s: State) {
    && s.pending == NotPending && !s.runnable && s.phase == Waiting
    && s.timed == s.even == s.odd == s.immediate == []
    && s.timedNotified == s.timedDone == s.deltaNotified == s.deltaDone == s.immediateNotified == s.immediateDone == []
    && s.timedAt == s.deltaAt == s.immediateAt == []
  }

  // ----- The invariant -----

  /** The payloads the callback has not had; between callback and removal the first of the list has been handed over. */
  function Undelivered(timed: seq<Entry>, phase: Phase): seq<Entry> {
    if phase == Removing && timed != [] then timed[1..] else timed
  }

  /** Each entry was handed over when it was due. */
  ghost predicate Punctual(done: seq<Entry>, at: seq<int>) {
    |done| == |at| && forall i :: 0 <= i < |done| ==> at[i] == done[i].due
  }

  ghost predicate AllDue(s: seq<Entry>, due: int) {
    forall i :: 0 <= i < |s| ==> s[i].due == due
  }

  lemma {:induction false} PunctualSnoc(done: seq<Entry>, at: seq<int>, e: Entry)
    requires Punctual(done, at)
    ensures Punctual(done + [e], at + [e.due])
  {
  }

  ghost predicate Numbered(notified: seq<Entry>) {
    forall i :: 0 <= i < |notified| ==> notified[i].id == i
  }

  /** Timed payloads: in order of time and then of notification, none lost or doubled. */
  ghost predicate Listed(timed: seq<Entry>, phase: Phase, done: seq<Entry>, notified: seq<Entry>) {
    && Sorted(timed) && Sorted(done + Undelivered(timed, phase)) && Numbered(notified)
    && multiset(done + Undelivered(timed, phase)) == multiset(notified)
    && (forall i :: 0 <= i < |timed| ==> timed[i].id < |notified|)
  }

  /** No payload is early or overdue. */
  ghost predicate OnTime(s: State) {
    && (forall i :: 0 <= i < |s.timedDone| ==> s.timedDone[i].due <= s.now)
    && Punctual(s.timedDone, s.timedAt)
    && (s.phase == Removing ==> s.timed != [] && s.timed[0].due == s.now)
    && (s.timed != [] ==> s.timed[0].due >= s.now && (Resting(s) ==> s.timed[0].due > s.now))
  }

  ghost predicate TimedOrder(s: State) {
    Listed(s.timed, s.phase, s.timedDone, s.timedNotified) && OnTime(s)
  }

  ghost predicate DeltaOrder(s: State) {
    && s.deltaDone + Current(s) + Following(s) == s.deltaNotified
    && Punctual(s.deltaDone, s.deltaAt)
    && AllDue(Current(s), s.cycle) && AllDue(Following(s), s.cycle + 1)
    && (Resting(s) || s.phase == Timeds || s.phase == Removing ==> Current(s) == [])
  }

  ghost predicate ImmediateOrder(s: State) {
    && s.immediateDone + s.immediate == s.immediateNotified
    && Punctual(s.immediateDone, s.immediateAt)
    && AllDue(s.immediate, s.cycle)
    && (s.immediate != [] ==> s.runnable || s.phase == Immediates)
  }

  /** No wake-up is lost: while the process waits, the event is due no later than anything in the lists. */
  ghost predicate Wakes(s: State) {
    && (s.pending.At? ==> s.pending.time > s.now)
    && (s.runnable ==> s.phase == Waiting)
    && (Resting(s) && s.timed != [] ==> s.pending != NotPending && (s.pending.At? ==> s.pending.time <= s.timed[0].due))
    && ((Resting(s) || s.phase == Timeds || s.phase == Removing) && Following(s) != [] ==> s.pending == NextDelta)
  }

  ghost predicate Inv(s: State) {
    TimedOrder(s) && DeltaOrder(s) && ImmediateOrder(s) && Wakes(s)
  }

  lemma {:induction false} InsertedBehindHead(timed: seq<Entry>, e: Entry, phase: Phase, now: int)
    requires phase == Removing ==> timed != [] && timed[0].due == now
    requires e.due > now
    ensures Undelivered(Inserted(timed, e), phase) == Inserted(Undelivered(timed, phase), e)
  {
  }

  lemma {:induction false} ListedInserted(timed: seq<Entry>, phase: Phase, done: seq<Entry>, notified: seq<Entry>,
                                          e: Entry, now: int)
    requires Listed(timed, phase, done, notified) && e.id == |notified| && e.due > now
    requires phase == Removing ==> timed != [] && timed[0].due == now
    requires forall i :: 0 <= i < |done| ==> done[i].due <= now
    ensures Listed(Inserted(timed, e), phase, done, notified + [e])
  {
    hide Inserted, Undelivered, Sorted;
    var waiting := Undelivered(timed, phase);
    EarlierIds(timed, phase, |notified|);
    InsertedBehindHead(timed, e, phase, now);
    SortedParts(done, waiting);
    InsertedIds(timed, e);
    BagInserted(done, waiting, notified, e);
    InsertedSorted(done, waiting, e);
    InsertedAlone(timed, e);
  }

  lemma {:induction false} EarlierIds(timed: seq<Entry>, phase: Phase, n: nat)
    requires forall i :: 0 <= i < |timed| ==> timed[i].id < n
    ensures forall i :: 0 <= i < |Undelivered(timed, phase)| ==> Undelivered(timed, phase)[i].id < n
  {
  }

  lemma {:induction false} InsertedAlone(s: seq<Entry>, e: Entry)
    requires Sorted(s) && forall i :: 0 <= i < |s| ==> s[i].id < e.id
    ensures Sorted(Inserted(s, e))
  {
    hide Sorted, Inserted;
    assert [] + s == s && [] + Inserted(s, e) == Inserted(s, e);
    InsertedSorted([], s, e);
  }

  lemma {:induction false} BagInserted(done: seq<Entry>, waiting: seq<Entry>, notified: seq<Entry>, e: Entry)
    requires Sorted(waiting) && multiset(done + waiting) == multiset(notified)
    ensures multiset(done + Inserted(waiting, e)) == multiset(notified + [e])
  {
    InsertedBag(waiting, e);
    hide Sorted, Inserted;
    assert multiset(done + waiting) == multiset(done) + multiset(waiting);
  }

  lemma {:induction false} InsertedIds(s: seq<Entry>, e: Entry)
    requires Sorted(s) && forall i :: 0 <= i < |s| ==> s[i].id < e.id
    ensures forall i :: 0 <= i < |Inserted(s, e)| ==> Inserted(s, e)[i].id < e.id + 1
  {
    var k := InsertPlace(s, e);
  }

  lemma {:induction false} ListedRemoved(timed: seq<Entry>, done: seq<Entry>, notified: seq<Entry>)
    requires timed != []
    requires Listed(timed, Removing, done, notified)
    ensures Listed(timed[1..], Timeds, done, notified)
  {
    assert Undelivered(timed, Removing) == timed[1..] == Undelivered(timed[1..], Timeds);
    SortedParts(done, timed[1..]);
  }

  lemma {:induction false} ListedCalled(timed: seq<Entry>, done: seq<Entry>, notified: seq<Entry>)
    requires timed != []
    requires Listed(timed, Timeds, done, notified)
    ensures Listed(timed, Removing, done + [timed[0]], notified)
  {
    assert Undelivered(timed, Removing) == timed[1..] && Undelivered(timed, Timeds) == timed;
    assert done + timed == done + [timed[0]] + timed[1..];
  }

  lemma {:induction false} ListedMoved(timed: seq<Entry>, done: seq<Entry>, notified: seq<Entry>, p: Phase, q: Phase)
    requires Listed(timed, p, done, notified) && p != Removing && q != Removing
    ensures Listed(timed, q, done, notified)
  {
    assert Undelivered(timed, p) == Undelivered(timed, q) == timed;
  }

  lemma {:induction false} ListedKept(s: State, a: Action, t: State)
    requires Inv(s) && Step(s, a, t)
    ensures Listed(t.timed, t.phase, t.timedDone, t.timedNotified)
  {
    hide Listed, DeltaOrder, ImmediateOrder, Wakes, Current, Following, Inserted;
    match a
    case NotifyAfter(delay) =>
      ListedInserted(s.timed, s.phase, s.timedDone, s.timedNotified, Entry(|s.timedNotified|, s.now + delay), s.now);
    case CallTimed => ListedCalled(s.timed, s.timedDone, s.timedNotified);
    case Remove => ListedRemoved(s.timed, s.timedDone, s.timedNotified);
    case Begin => ListedMoved(s.timed, s.timedDone, s.timedNotified, s.phase, t.phase);
    case EndImmediates => ListedMoved(s.timed, s.timedDone, s.timedNotified, s.phase, t.phase);
    case EndDeltas => ListedMoved(s.timed, s.timedDone, s.timedNotified, s.phase, t.phase);
    case EndTimeds => ListedMoved(s.timed, s.timedDone, s.timedNotified, s.phase, t.phase);
    case _ =>
  }

  lemma {:induction false} SortedHeads(s: seq<Entry>)
    requires Sorted(s) && |s| > 1
    ensures s[0].due <= s[1].due
  {
  }

  /** Steps of the kernel and of whoever notifies; the others are the callback process's own. */
  predicate FromOutside(a: Action) {
    a.NotifyAfter? || a.NotifyDelta? || a.NotifyNow? || a.AdvanceDelta? || a.AdvanceTime?
  }

  lemma {:induction false} TimedSorted(s: State)
    requires TimedOrder(s)
    ensures Sorted(s.timed)
  {
  }

  lemma {:induction false} OnTimeKeptOutside(s: State, a: Action, t: State)
    requires Inv(s) && Step(s, a, t) && FromOutside(a)
    ensures OnTime(t)
  {
    hide Listed, DeltaOrder, ImmediateOrder, Current, Following, Sorted, Inserted, Punctual;
    TimedSorted(s);
    if a.NotifyAfter? {
      hide Wakes;
      InsertedBag(s.timed, Entry(|s.timedNotified|, s.now + a.delay));
    }
  }

  lemma {:induction false} OnTimeKeptInside(s: State, a: Action, t: State)
    requires Inv(s) && Step(s, a, t) && !FromOutside(a)
    ensures OnTime(t)
  {
    hide Listed, DeltaOrder, ImmediateOrder, Current, Following, Sorted, Inserted, Wakes;
    TimedSorted(s);
    if |s.timed| > 1 {
      SortedHeads(s.timed);
    }
    if a.CallTimed? {
      PunctualSnoc(s.timedDone, s.timedAt, s.timed[0]);
    }
    hide Punctual;
  }

  /** The two delta lists change roles with every cycle. */
  lemma {:induction false} DeltaLists(s: State, a: Action, t: State)
    requires Step(s, a, t)
    ensures match a
      case NotifyDelta => Current(t) == Current(s)
          && Following(t) == Following(s) + [Entry(|s.deltaNotified|, s.cycle + 1)]
      case CallDelta => Current(s) == [Current(s)[0]] + Current(t) && Following(t) == Following(s)
      case AdvanceDelta => Current(t) == Following(s) && Following(t) == Current(s)
      case AdvanceTime(_) => Current(t) == Following(s) && Following(t) == Current(s)
      case _ => Current(t) == Current(s) && Following(t) == Following(s)
  {
    hide Inserted;
  }

  lemma {:induction false} WakesKeptOutside(s: State, a: Action, t: State)
    requires Inv(s) && Step(s, a, t) && FromOutside(a)
    ensures Wakes(t)
  {
    hide Listed, ImmediateOrder, Sorted, Inserted, Punctual, Current, Following, AllDue;
    TimedSorted(s);
    DeltaLists(s, a, t);
    if a.NotifyAfter? {
      InsertedBag(s.timed, Entry(|s.timedNotified|, s.now + a.delay));
    }
  }

  lemma {:induction false} WakesKeptInside(s: State, a: Action, t: State)
    requires Inv(s) && Step(s, a, t) && !FromOutside(a)
    ensures Wakes(t)
  {
    hide Listed, ImmediateOrder, Sorted, Inserted, Punctual, Current, Following, AllDue;
    DeltaLists(s, a, t);
  }

  lemma {:induction false} AllDueSnoc(s: seq<Entry>, e: Entry, due: int)
    requires AllDue(s, due) && e.due == due
    ensures AllDue(s + [e], due)
  {
  }

  lemma {:induction false} AllDueFirst(s: seq<Entry>, rest: seq<Entry>, due: int)
    requires AllDue(s, due) && |s| > 0 && s == [s[0]] + rest
    ensures s[0].due == due && AllDue(rest, due)
  {
    assert forall i :: 0 <= i < |rest| ==> rest[i] == s[i + 1];
  }

  lemma {:induction false} NoneDue(due: int)
    ensures AllDue([], due)
  {
  }

  lemma {:induction false} DeltaOrderKeptOutside(s: State, a: Action, t: State)
    requires Inv(s) && Step(s, a, t) && FromOutside(a)
    ensures DeltaOrder(t)
  {
    hide TimedOrder, ImmediateOrder, Current, Following, Inserted, AllDue, Punctual;
    DeltaLists(s, a, t);
    if a.NotifyDelta? {
      AllDueSnoc(Following(s), Entry(|s.deltaNotified|, s.cycle + 1), s.cycle + 1);
    }
    NoneDue(s.cycle + 2);
    NoneDue(s.cycle + 1);
  }

  lemma {:induction false} DeltaOrderKeptInside(s: State, a: Action, t: State)
    requires Inv(s) && Step(s, a, t) && !FromOutside(a)
    ensures DeltaOrder(t)
  {
    hide TimedOrder, ImmediateOrder, Current, Following, Inserted, AllDue, Punctual;
    DeltaLists(s, a, t);
    if a.CallDelta? {
      AllDueFirst(Current(s), Current(t), s.cycle);
      PunctualSnoc(s.deltaDone, s.deltaAt, Current(s)[0]);
      assert s.deltaDone + Current(s) == t.deltaDone + Current(t);
    }
  }

  lemma {:induction false} ImmediateOrderKept(s: State, a: Action, t: State)
    requires Inv(s) && Step(s, a, t)
    ensures ImmediateOrder(t)
  {
    hide TimedOrder, DeltaOrder, Wakes, Current, Following, Inserted, AllDue, Punctual;
    NoneDue(s.cycle + 1);
    match a
    case NotifyNow =>
      AllDueSnoc(s.immediate, Entry(|s.immediateNotified|, s.cycle), s.cycle);
    case CallImmediate =>
      AllDueFirst(s.immediate, t.immediate, s.cycle);
      PunctualSnoc(s.immediateDone, s.immediateAt, s.immediate[0]);
      assert s.immediateDone + s.immediate == t.immediateDone + t.immediate;
    case _ =>
  }

  lemma {:induction false} InvKept(s: State, a: Action, t: State)
    requires Inv(s) && Step(s, a, t)
    ensures Inv(t)
  {
    ListedKept(s, a, t);
    ImmediateOrderKept(s, a, t);
    if FromOutside(a) {
      OnTimeKeptOutside(s, a, t);
      WakesKeptOutside(s, a, t);
      DeltaOrderKeptOutside(s, a, t);
    } else {
      OnTimeKeptInside(s, a, t);
      WakesKeptInside(s, a, t);
      DeltaOrderKeptInside(s, a, t);
    }
  }

  // ----- Whole runs -----

  ghost predicate Run(states: seq<State>, actions: seq<Action>) {
    && |states| == |actions| + 1 && Init(states[0])
    && forall i :: 0 <= i < |actions| ==> Step(states[i], actions[i], states[i + 1])
  }

  lemma {:induction false} InitInv(s: State)
    requires Init(s)
    ensures Inv(s)
  {
  }

  lemma {:induction false} RunInv(states: seq<State>, actions: seq<Action>, k: nat)
    requires Run(states, actions) && k <= |actions|
    ensures Inv(states[k])
  {
    hide Step, Inv, Init;
    if k == 0 {
      InitInv(states[0]);
    } else {
      RunInv(states, actions, k - 1);
      assert Step(states[k - 1], actions[k - 1], states[k - 1 + 1]);
      InvKept(states[k - 1], actions[k - 1], states[k]);
    }
  }

  lemma {:induction false} NumberedOnce(notified: seq<Entry>, e: Entry)
    requires Numbered(notified) && e in notified
    ensures multiset(notified)[e] == 1 && notified[e.id] == e
  {
    var n := |notified| - 1;
    assert notified == notified[..n] + [notified[n]];
    if e in notified[..n] {
      NumberedOnce(notified[..n], e);
    } else {
      assert multiset(notified[..n])[e] == 0;
    }
  }

  /**
   * Whenever the process waits, every payload that was due by then has been handed over exactly once, at its time and
   * in the order of times, those of one time in the order of their notifications; and if any are left, the event is due
   * no later than the first.
   */
  lemma {:induction false} NoWakeupLost(states: seq<State>, actions: seq<Action>, k: nat)
    requires Run(states, actions) && k <= |actions|
    ensures var s := states[k];
      && Sorted(s.timedDone) && Punctual(s.timedDone, s.timedAt)
      && Punctual(s.deltaDone, s.deltaAt) && s.deltaDone <= s.deltaNotified
      && Punctual(s.immediateDone, s.immediateAt) && s.immediateDone <= s.immediateNotified
      && (Resting(s) ==>
        && (forall e :: e in s.timedNotified ==> multiset(s.timedDone)[e] == if e.due <= s.now then 1 else 0)
        && (forall e :: e in s.deltaNotified[|s.deltaDone|..] ==> s.pending == NextDelta && e.due == s.cycle + 1)
        && s.immediateDone == s.immediateNotified
        && (s.timed != [] ==> s.pending == NextDelta || (s.pending.At? && s.now < s.pending.time <= s.timed[0].due)))
  {
    RunInv(states, actions, k);
    TimedDelivered(states[k]);
    DeltasDelivered(states[k]);
    hide Listed, Sorted, Punctual, AllDue, Current, Following;
    var s := states[k];
    assert s.immediate == [] ==> s.immediateDone + s.immediate == s.immediateDone;
  }

  lemma {:induction false} TimedDelivered(s: State)
    requires Inv(s)
    ensures Sorted(s.timedDone)
    ensures Resting(s) ==> forall e :: e in s.timedNotified ==>
              multiset(s.timedDone)[e] == if e.due <= s.now then 1 else 0
  {
    var waiting := Undelivered(s.timed, s.phase);
    assert forall i :: 0 <= i < |s.timedDone| ==> (s.timedDone + waiting)[i] == s.timedDone[i];
    if Resting(s) {
      forall e | e in s.timedNotified
        ensures multiset(s.timedDone)[e] == if e.due <= s.now then 1 else 0
      {
        NumberedOnce(s.timedNotified, e);
        TimedOnce(s, e);
      }
    }
  }

  lemma {:induction false} TimedOnce(s: State, e: Entry)
    requires TimedOrder(s) && Resting(s) && multiset(s.timedNotified)[e] == 1
    ensures multiset(s.timedDone)[e] == if e.due <= s.now then 1 else 0
  {
    assert multiset(s.timedDone + s.timed) == multiset(s.timedDone) + multiset(s.timed);
    if e in s.timed {
      var i :| 0 <= i < |s.timed| && s.timed[i] == e;
      assert i > 0 ==> Before(s.timed[0], s.timed[i]);
    }
    if e in s.timedDone {
      var i :| 0 <= i < |s.timedDone| && s.timedDone[i] == e;
    }
  }

  lemma {:induction false} DeltasDelivered(s: State)
    requires Inv(s)
    ensures s.deltaDone <= s.deltaNotified
    ensures Resting(s) ==> forall e :: e in s.deltaNotified[|s.deltaDone|..] ==>
              s.pending == NextDelta && e.due == s.cycle + 1
  {
    hide TimedOrder, ImmediateOrder, Current, Following, Punctual;
    assert s.deltaNotified == s.deltaDone + (Current(s) + Following(s));
    if Resting(s) {
      assert s.deltaNotified[|s.deltaDone|..] == Following(s);
    }
  }
}
