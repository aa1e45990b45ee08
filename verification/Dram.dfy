/** The DRAM controller: five buffers, write mode, maintenance first, and a guard on commands that close rows. */
module Dram {

  datatype Kind = Read | Write | Maintenance

  /** `level[i] == -1` in the address vector stands for every value of that level. */
  datatype Request = Request(id: nat, kind: Kind, addr: int, vec: seq<int>, external: bool, arrive: int, depart: int)

  /** What the device says of a command: does it open a row, close rows, or finish its request? */
  datatype Command = Command(opening: bool, closing: bool, isFinal: bool)

  /** What scheduler and device answer for one buffer: a request, its next command, and whether timing allows it. */
  datatype Pick = NoPick | Pick(index: nat, command: Command, ready: bool)

  datatype BufferId = Active | Priority | ReadBuffer | WriteBuffer

  datatype Choice = Nothing | Scheduled(buffer: BufferId, index: nat, command: Command)

  // ----- Banks and rows -----

  /** The banks with an open row: bank address (the levels above the row) to row. */
  type Rows = map<seq<int>, int>

  predicate Complete(vec: seq<int>, rowLevel: nat) {
    |vec| > rowLevel && forall i :: 0 <= i <= rowLevel ==> vec[i] != -1
  }

  predicate RowOpen(rows: Rows, r: Request, rowLevel: nat) {
    && Complete(r.vec, rowLevel)
    && r.vec[..rowLevel] in rows
    && rows[r.vec[..rowLevel]] == r.vec[rowLevel]
  }

  /** The position of the first wildcard, or the row level. */
  function FirstWildcard(vec: seq<int>, from: nat, rowLevel: nat): nat
    decreases |vec| - from
  {
    if from >= |vec| then rowLevel else if vec[from] == -1 then from else FirstWildcard(vec, from + 1, rowLevel)
  }

  /** A closing command closes the banks that agree with the request up to the first wildcard above the row. */
  predicate Closes(vec: seq<int>, bank: seq<int>, rowLevel: nat) {
    var k := FirstWildcard(vec, 0, rowLevel);
    var scope := if k < rowLevel then k else rowLevel;
    scope <= |vec| && scope <= |bank| && vec[..scope] == bank[..scope]
  }

  /** What a command does to the rows; opening is possible in a closed bank only. */
  function Issue(rows: Rows, r: Request, c: Command, rowLevel: nat): Rows {
    if c.opening && Complete(r.vec, rowLevel) then rows[r.vec[..rowLevel] := r.vec[rowLevel]]
    else if c.closing then map b | b in rows && !Closes(r.vec, b, rowLevel) :: rows[b]
    else rows
  }

  /** The device opens rows for complete addresses in closed banks, and never for a request whose row is open. */
  predicate DeviceAllows(rows: Rows, r: Request, c: Command, rowLevel: nat) {
    c.opening ==> Complete(r.vec, rowLevel) && r.vec[..rowLevel] !in rows && !c.closing && !c.isFinal
  }

  /** An answer for a buffer: one of its requests, with a command the device allows; none only if it is empty. */
  ghost predicate Answers(pick: Pick, s: seq<Request>, rows: Rows, rowLevel: nat) {
    match pick
    case NoPick => s == []
    case Pick(i, c, _) => i < |s| && DeviceAllows(rows, s[i], c, rowLevel)
  }

  /** The guard's comparison: do two requests agree up to the first wildcard of the first one, or up to the row? */
  predicate SameRowGroup(vec: seq<int>, other: seq<int>, rowLevel: nat) {
    var k := FirstWildcard(vec, 0, rowLevel);
    k <= |vec| && k <= |other| && vec[..k] == other[..k]
  }

  // ----- Buffers -----

  function Without(s: seq<Request>, i: nat): seq<Request>
    requires i < |s|
  {
    s[..i] + s[i + 1..]
  }

  /** Scheduler and device: from what they are shown they pick a request of a buffer and its next command. */
  type Ask = (BufferId, seq<Request>, Rows) -> Pick

  /** Whatever they are shown, their answer fits; maintenance is served oldest first. */
  ghost predicate AnswersAlways(ask: Ask, rowLevel: nat) {
    forall b, s, rows ::
      Answers(ask(b, s, rows), s, rows, rowLevel)
          && (b == Priority && ask(b, s, rows).Pick? ==> ask(b, s, rows).index == 0)
  }

  /** The answers for the four buffers. */
  datatype Picks = Picks(active: Pick, priority: Pick, readBuffer: Pick, writeBuffer: Pick) {
    function Of(b: BufferId): Pick {
      match b
      case Active => active
      case Priority => priority
      case ReadBuffer => readBuffer
      case WriteBuffer => writeBuffer
    }

    ghost predicate Fit(held: Buffers, rows: Rows, rowLevel: nat) {
      && Answers(active, held.active, rows, rowLevel) && Answers(priority, held.priority, rows, rowLevel)
      && Answers(readBuffer, held.readBuffer, rows, rowLevel) && Answers(writeBuffer, held.writeBuffer, rows, rowLevel)
      && (priority.Pick? ==> priority.index == 0)
    }
  }

  function AskAll(ask: Ask, held: Buffers, rows: Rows): Picks {
    Picks(ask(Active, held.active, rows), ask(Priority, held.priority, rows),
          ask(ReadBuffer, held.readBuffer, rows), ask(WriteBuffer, held.writeBuffer, rows))
  }

  /** The buffers from which requests are scheduled. */
  datatype Buffers = Buffers(active: seq<Request>, priority: seq<Request>, readBuffer: seq<Request>,
                             writeBuffer: seq<Request>) {
    function Of(b: BufferId): seq<Request> {
      match b
      case Active => active
      case Priority => priority
      case ReadBuffer => readBuffer
      case WriteBuffer => writeBuffer
    }

    /** One request taken out of one buffer. */
    function Taken(b: BufferId, i: nat): Buffers
      requires i < |Of(b)|
    {
      match b
      case Active => this.(active := Without(active, i))
      case Priority => this.(priority := Without(priority, i))
      case ReadBuffer => this.(readBuffer := Without(readBuffer, i))
      case WriteBuffer => this.(writeBuffer := Without(writeBuffer, i))
    }

    /** A request moved to the end of the active buffer, if that has room, and else gone. */
    function Opened(b: BufferId, i: nat, room: bool): Buffers
      requires i < |Of(b)|
    {
      var rest := Taken(b, i);
      if room then rest.(active := rest.active + [Of(b)[i]]) else rest
    }

    /** Where a request and the others are after one of its commands. */
    function After(b: BufferId, i: nat, c: Command, maxSize: nat): Buffers
      requires i < |Of(b)|
    {
      if c.isFinal then Taken(b, i) else if c.opening then Opened(b, i, |active| <= maxSize) else this
    }
  }

  /**
   * After a final command the request is gone from its buffer, and the others are as they were; after an opening one
   * it is the last active one, if there was room; any other command leaves all in place.
   */
  lemma {:induction false} WhereRequestsAre(held: Buffers, b: BufferId, i: nat, c: Command, maxSize: nat)
    requires i < |held.Of(b)|
    ensures var after, s := held.After(b, i, c, maxSize), held.Of(b);
      && (forall o :: o != b && (o != Active || c.isFinal || !c.opening) ==> after.Of(o) == held.Of(o))
      && (!c.isFinal && !c.opening ==> after.Of(b) == s)
      && (c.isFinal || (c.opening && b != Active) ==>
            |after.Of(b)| == |s| - 1 && after.Of(b)[..i] == s[..i] && after.Of(b)[i..] == s[i + 1..])
      && (!c.isFinal && c.opening ==> var rest := if b == Active then s[..i] + s[i + 1..] else held.active;
            after.active == rest + if |held.active| <= maxSize then [s[i]] else [])
  {
  }

  predicate Ready(pick: Pick) {
    pick.Pick? && pick.ready
  }

  /** Who goes first: an active request that is ready, else the oldest maintenance request, else a read or a write. */
  function Proposal(held: Buffers, writeMode: bool, picks: Picks): Choice {
    if Ready(picks.active) then Scheduled(Active, picks.active.index, picks.active.command)
    else if |held.priority| != 0 then
      if Ready(picks.priority) then Scheduled(Priority, 0, picks.priority.command) else Nothing
    else if writeMode then
      if Ready(picks.writeBuffer) then Scheduled(WriteBuffer, picks.writeBuffer.index, picks.writeBuffer.command)
        else Nothing
    else
      if Ready(picks.readBuffer) then Scheduled(ReadBuffer, picks.readBuffer.index, picks.readBuffer.command)
        else Nothing
  }

  /** Would the command close the row of a request in the active buffer, as far as the guard can tell? */
  ghost predicate HitsActive(held: Buffers, choice: Choice, rowLevel: nat) {
    && choice.Scheduled? && choice.command.closing && choice.index < |held.Of(choice.buffer)|
    && exists i :: 0 <= i < |held.active| &&
                   SameRowGroup(held.Of(choice.buffer)[choice.index].vec, held.active[i].vec, rowLevel)
  }

  /** Whoever goes first, unless its command would close the row of an active request. */
  ghost function Decision(held: Buffers, writeMode: bool, picks: Picks, rowLevel: nat): Choice {
    var first := Proposal(held, writeMode, picks);
    if HitsActive(held, first, rowLevel) then Nothing else first
  }

  /** Reads and writes wait while there is maintenance, and each of them for its own mode. */
  predicate HeldBack(held: Buffers, writeMode: bool, b: BufferId) {
    && (b == ReadBuffer || b == WriteBuffer)
    && (held.priority != [] || (b == WriteBuffer) != writeMode)
  }

  /**
   * A choice is a ready pick of its buffer, from the active buffer if one is ready there, else not held back, and never
   * one that the guard forbids; a ready pick is passed over for such reasons only.
   */
  ghost predicate Rightful(held: Buffers, writeMode: bool, picks: Picks, rowLevel: nat, choice: Choice) {
    match choice
    case Scheduled(b, i, c) =>
      && Ready(picks.Of(b)) && i == picks.Of(b).index && c == picks.Of(b).command
      && (b != Active ==> !Ready(picks.active)) && !HeldBack(held, writeMode, b)
      && !HitsActive(held, choice, rowLevel)
    case Nothing =>
      forall b :: Ready(picks.Of(b)) ==>
        || (b != Active && Ready(picks.active)) || HeldBack(held, writeMode, b)
        || HitsActive(held, Scheduled(b, picks.Of(b).index, picks.Of(b).command), rowLevel)
  }

  /** The decision is the one rightful choice. */
  lemma {:induction false} RightfulExactlyWhen(held: Buffers, rows: Rows, writeMode: bool, picks: Picks, rowLevel: nat,
                                               choice: Choice)
    requires picks.Fit(held, rows, rowLevel)
    ensures Rightful(held, writeMode, picks, rowLevel, choice) <==>
            choice == Decision(held, writeMode, picks, rowLevel)
  {
    hide HitsActive, DeviceAllows;
    var d := Decision(held, writeMode, picks, rowLevel);
    var b := if Ready(picks.active) then Active else if held.priority != [] then Priority
             else if writeMode then WriteBuffer else ReadBuffer;
    var first := Proposal(held, writeMode, picks);
    assert first == if Ready(picks.Of(b)) then Scheduled(b, picks.Of(b).index, picks.Of(b).command) else Nothing;
    assert d.Scheduled? ==> Ready(picks.Of(b));
  }

  predicate Due(pending: seq<Request>, clk: int) {
    |pending| > 0 && pending[0].depart <= clk
  }

  /** The reads that still wait after a cycle's service. */
  function StillWaiting(pending: seq<Request>, clk: int): seq<Request> {
    if Due(pending, clk) then pending[1..] else pending
  }

  /** The read a cycle's service completes, or only if it is one to call back. */
  function Served(pending: seq<Request>, clk: int, callback: bool): seq<nat> {
    if Due(pending, clk) && (callback ==> pending[0].external) then [pending[0].id] else []
  }

  ghost function Plus(m: multiset<nat>, x: nat): multiset<nat> {
    m + multiset{x}
  }

  ghost function Ids(s: seq<Request>): multiset<nat> {
    if |s| == 0 then multiset{} else Ids(s[..|s| - 1]) + multiset{s[|s| - 1].id}
  }

  lemma {:induction false} IdsConcat(s: seq<Request>, t: seq<Request>)
    ensures Ids(s + t) == Ids(s) + Ids(t)
  {
    if |t| == 0 {
      assert s + t == s;
    } else {
      var u, x := t[..|t| - 1], t[|t| - 1];
      assert t == u + [x] && s + t == s + u + [x];
      IdsConcat(s, u);
      IdsPush(u, x);
      IdsPush(s + u, x);
      hide Ids;
    }
  }

  lemma {:induction false} IdsPush(s: seq<Request>, r: Request)
    ensures Ids(s + [r]) == Ids(s) + multiset{r.id}
  {
    assert (s + [r])[..|s|] == s;
  }

  lemma {:induction false} IdsWithout(s: seq<Request>, i: nat)
    requires i < |s|
    ensures Ids(s) == Ids(Without(s, i)) + multiset{s[i].id}
  {
    assert s == s[..i] + ([s[i]] + s[i + 1..]);
    IdsConcat(s[..i], [s[i]] + s[i + 1..]);
    IdsConcat([s[i]], s[i + 1..]);
    IdsConcat(s[..i], s[i + 1..]);
    assert [s[i]] == [] + [s[i]];
    IdsPush([], s[i]);
  }

  // ----- Completion times of reads -----

  /** When the k-th read to wait for its data completes: not before its own time, and one per cycle in order. */
  function Completion(departs: seq<int>, k: nat): int
    requires k < |departs|
  {
    if k == 0 then departs[0]
    else var previous := Completion(departs, k - 1) + 1; if departs[k] > previous then departs[k] else previous
  }

  /** The same in closed form: the latest of the earlier departures, each delayed by the reads after it. */
  lemma {:induction false} CompletionIsLatest(departs: seq<int>, k: nat)
    requires k < |departs|
    ensures forall j :: 0 <= j <= k ==> departs[j] + (k - j) <= Completion(departs, k)
    ensures exists j :: 0 <= j <= k && departs[j] + (k - j) == Completion(departs, k)
  {
    if k == 0 {
      assert departs[0] + (0 - 0) == Completion(departs, 0);
    } else {
      CompletionIsLatest(departs, k - 1);
      if departs[k] > Completion(departs, k - 1) + 1 {
        assert departs[k] + (k - k) == Completion(departs, k);
      } else {
        var j :| 0 <= j <= k - 1 && departs[j] + (k - 1 - j) == Completion(departs, k - 1);
        assert departs[j] + (k - j) == Completion(departs, k);
      }
      forall j | 0 <= j <= k
        ensures departs[j] + (k - j) <= Completion(departs, k)
      {
        if j < k {
          assert departs[j] + (k - 1 - j) <= Completion(departs, k - 1);
        }
      }
    }
  }

  /** The cycle in which the next read completes, seen from the cycle before. */
  lemma {:induction false} DueNextCycle(departs: seq<int>, k: nat, clk: int)
    requires k < |departs| && Completion(departs, k) > clk && (k > 0 ==> Completion(departs, k - 1) <= clk)
    ensures departs[k] <= clk + 1 <==> Completion(departs, k) == clk + 1
    ensures k + 1 < |departs| ==> Completion(departs, k + 1) > Completion(departs, k)
  {
  }

  lemma {:induction false} CompletionPrefix(departs: seq<int>, more: seq<int>, k: nat)
    requires k < |departs|
    ensures Completion(departs + more, k) == Completion(departs, k)
  {
    if k > 0 {
      CompletionPrefix(departs, more, k - 1);
    }
  }

  /** The reads whose data came complete at `times`, the others wait in order, and the next one is not overdue. */
  ghost predicate OnTime(departs: seq<int>, times: seq<int>, pending: seq<Request>, clk: int) {
    && |times| + |pending| == |departs|
    && (forall i :: 0 <= i < |pending| ==> pending[i].depart == departs[|times| + i])
    && (forall k :: 0 <= k < |times| ==> times[k] == Completion(departs, k) && times[k] <= clk)
    && (|pending| > 0 ==> Completion(departs, |times|) > clk)
  }

  lemma {:induction false} PushOnTime(departs: seq<int>, times: seq<int>, pending: seq<Request>, clk: int, r: Request)
    requires OnTime(departs, times, pending, clk) && r.depart > clk
    ensures OnTime(departs + [r.depart], times, pending + [r], clk)
  {
    forall k | 0 <= k < |departs|
      ensures Completion(departs + [r.depart], k) == Completion(departs, k)
    {
      CompletionPrefix(departs, [r.depart], k);
    }
  }

  lemma {:induction false} ServeOnTime(departs: seq<int>, times: seq<int>, pending: seq<Request>, clk: int)
    requires OnTime(departs, times, pending, clk)
    ensures if |pending| > 0 && pending[0].depart <= clk + 1
            then OnTime(departs, times + [clk + 1], pending[1..], clk + 1)
            else OnTime(departs, times, pending, clk + 1)
  {
    if |pending| > 0 {
      DueNextCycle(departs, |times|, clk);
    }
  }

  /** The requests in the five buffers. */
  ghost function Places(readBuffer: seq<Request>, writeBuffer: seq<Request>, active: seq<Request>,
                        priority: seq<Request>, pending: seq<Request>): multiset<nat> {
    Ids(readBuffer) + Ids(writeBuffer) + Ids(active) + Ids(priority) + Ids(pending)
  }

  /** Accepted requests are in some place, completed or lost; those called back are among the completed. */
  ghost predicate Balanced(accepted: multiset<nat>, places: multiset<nat>, completed: seq<nat>, callbacks: seq<nat>,
                           lost: multiset<nat>) {
    && accepted == places + multiset(completed) + lost
    && multiset(callbacks) <= multiset(completed)
  }

  lemma {:induction false} Accept(accepted: multiset<nat>, places: multiset<nat>, completed: seq<nat>,
                                  callbacks: seq<nat>, lost: multiset<nat>, x: nat)
    requires Balanced(accepted, places, completed, callbacks, lost)
    ensures Balanced(Plus(accepted, x), Plus(places, x), completed, callbacks, lost)
  {
  }

  lemma {:induction false} Finish(accepted: multiset<nat>, places: multiset<nat>, completed: seq<nat>,
                                  callbacks: seq<nat>, lost: multiset<nat>, x: nat, b: bool)
    requires Balanced(accepted, Plus(places, x), completed, callbacks, lost)
    ensures Balanced(accepted, places, completed + [x], callbacks + (if b then [x] else []), lost)
  {
  }

  lemma {:induction false} Drop(accepted: multiset<nat>, places: multiset<nat>, completed: seq<nat>,
                                callbacks: seq<nat>, lost: multiset<nat>, x: nat)
    requires Balanced(accepted, Plus(places, x), completed, callbacks, lost)
    ensures Balanced(accepted, places, completed, callbacks, Plus(lost, x))
  {
  }

  /**
   * An id that was accepted once and not lost is in exactly one buffer or completed, never both, and is called back at
   * most once.
   */
  lemma {:induction false} ExactlyOnePlace(accepted: multiset<nat>, places: multiset<nat>, completed: seq<nat>,
                                           callbacks: seq<nat>, lost: multiset<nat>, x: nat)
    requires Balanced(accepted, places, completed, callbacks, lost) && accepted[x] == 1 && lost[x] == 0
    ensures places[x] + multiset(completed)[x] == 1
    ensures multiset(callbacks)[x] <= 1 && (x in places ==> x !in callbacks)
  {
    assert multiset(callbacks)[x] <= multiset(completed)[x];
    assert x in callbacks ==> multiset(callbacks)[x] > 0;
  }

  /** Adding a request to any buffer adds it to the places; taking one out takes it out. */
  lemma {:induction false} PlacesPush(r: seq<Request>, w: seq<Request>, a: seq<Request>, p: seq<Request>,
                                      q: seq<Request>, x: Request)
    ensures var there := Plus(Places(r, w, a, p, q), x.id);
      Places(r + [x], w, a, p, q) == there && Places(r, w + [x], a, p, q) == there
          && Places(r, w, a + [x], p, q) == there
      && Places(r, w, a, p + [x], q) == there && Places(r, w, a, p, q + [x]) == there
  {
    hide Ids;
    IdsPush(r, x);
    IdsPush(w, x);
    IdsPush(a, x);
    IdsPush(p, x);
    IdsPush(q, x);
  }

  lemma {:induction false} PlacesWithoutRead(r: seq<Request>, w: seq<Request>, a: seq<Request>, p: seq<Request>,
                                             q: seq<Request>, i: nat)
    requires i < |r|
    ensures Places(r, w, a, p, q) == Plus(Places(Without(r, i), w, a, p, q), r[i].id)
  {
    IdsWithout(r, i);
    hide Ids, Without;
    Gather(Ids(Without(r, i)), r[i].id, Ids(r), Ids(w), Ids(a), Ids(p), Ids(q));
  }

  lemma {:induction false} PlacesWithoutWrite(r: seq<Request>, w: seq<Request>, a: seq<Request>, p: seq<Request>,
                                              q: seq<Request>, i: nat)
    requires i < |w|
    ensures Places(r, w, a, p, q) == Plus(Places(r, Without(w, i), a, p, q), w[i].id)
  {
    IdsWithout(w, i);
    hide Ids, Without;
    Gather(Ids(Without(w, i)), w[i].id, Ids(r), Ids(w), Ids(a), Ids(p), Ids(q));
  }

  lemma {:induction false} PlacesWithoutActive(r: seq<Request>, w: seq<Request>, a: seq<Request>, p: seq<Request>,
                                               q: seq<Request>, i: nat)
    requires i < |a|
    ensures Places(r, w, a, p, q) == Plus(Places(r, w, Without(a, i), p, q), a[i].id)
  {
    IdsWithout(a, i);
    hide Ids, Without;
    Gather(Ids(Without(a, i)), a[i].id, Ids(r), Ids(w), Ids(a), Ids(p), Ids(q));
  }

  lemma {:induction false} PlacesWithoutPriority(r: seq<Request>, w: seq<Request>, a: seq<Request>, p: seq<Request>,
                                                 q: seq<Request>, i: nat)
    requires i < |p|
    ensures Places(r, w, a, p, q) == Plus(Places(r, w, a, Without(p, i), q), p[i].id)
  {
    IdsWithout(p, i);
    hide Ids, Without;
    Gather(Ids(Without(p, i)), p[i].id, Ids(r), Ids(w), Ids(a), Ids(p), Ids(q));
  }

  /** An id added to one of five multisets is added to their sum. */
  lemma {:induction false} Gather(m: multiset<nat>, x: nat, r: multiset<nat>, w: multiset<nat>, a: multiset<nat>,
                                  p: multiset<nat>, q: multiset<nat>)
    ensures (m + multiset{x}) + w + a + p + q == (m + w + a + p + q) + multiset{x}
    ensures r + (m + multiset{x}) + a + p + q == (r + m + a + p + q) + multiset{x}
    ensures r + w + (m + multiset{x}) + p + q == (r + w + m + p + q) + multiset{x}
    ensures r + w + a + (m + multiset{x}) + q == (r + w + a + m + q) + multiset{x}
  {
  }

  lemma {:induction false} PlacesPop(r: seq<Request>, w: seq<Request>, a: seq<Request>, p: seq<Request>,
                                     q: seq<Request>)
    requires |q| > 0
    ensures Places(r, w, a, p, q) == Plus(Places(r, w, a, p, q[1..]), q[0].id)
  {
    IdsWithout(q, 0);
    assert Without(q, 0) == q[1..];
  }

  /** The oldest waiting read leaves its place and is completed. */
  lemma {:induction false} FinishOldest(r: seq<Request>, w: seq<Request>, a: seq<Request>, p: seq<Request>,
                                        q: seq<Request>, accepted: multiset<nat>, completed: seq<nat>,
                                        callbacks: seq<nat>, lost: multiset<nat>)
    requires |q| > 0 && Balanced(accepted, Places(r, w, a, p, q), completed, callbacks, lost)
    ensures Balanced(accepted, Places(r, w, a, p, q[1..]), completed + [q[0].id],
                     callbacks + (if q[0].external then [q[0].id] else []), lost)
  {
    hide Places, Balanced, Plus;
    PlacesPop(r, w, a, p, q);
    Finish(accepted, Places(r, w, a, p, q[1..]), completed, callbacks, lost, q[0].id, q[0].external);
  }

  // ----- The guard -----

  /**
   * The guard spares every row a closing command would close exactly when the command's first wildcard, if any, is not
   * below the row level.
   */
  lemma {:induction false} GuardProtectsExactlyWhen(vec: seq<int>, rowLevel: nat)
    requires |vec| > rowLevel
    ensures FirstWildcard(vec, 0, rowLevel) <= rowLevel <==>
            forall r: Request ::
              Complete(r.vec, rowLevel) && Closes(vec, r.vec[..rowLevel], rowLevel) && |r.vec| == |vec| ==>
                SameRowGroup(vec, r.vec, rowLevel)
  {
    var k := FirstWildcard(vec, 0, rowLevel);
    if k <= rowLevel {
      forall r: Request | Complete(r.vec, rowLevel) && Closes(vec, r.vec[..rowLevel], rowLevel) && |r.vec| == |vec|
        ensures SameRowGroup(vec, r.vec, rowLevel)
      {
        ClosesSameRowGroup(vec, r.vec, rowLevel);
      }
    } else {
      WildcardFound(vec, 0, rowLevel);
      var row := if vec[rowLevel] == 0 then 1 else 0;
      var r := Request(0, Read, 0, vec[rowLevel := row], false, 0, 0);
      assert r.vec[..rowLevel] == vec[..rowLevel];
      assert r.vec[..k][rowLevel] != vec[..k][rowLevel];
      assert Closes(vec, r.vec[..rowLevel], rowLevel) && !SameRowGroup(vec, r.vec, rowLevel);
    }
  }

  lemma {:induction false} ClosesSameRowGroup(vec: seq<int>, other: seq<int>, rowLevel: nat)
    requires |vec| > rowLevel && |other| > rowLevel && FirstWildcard(vec, 0, rowLevel) <= rowLevel
    ensures Closes(vec, other[..rowLevel], rowLevel) <==> SameRowGroup(vec, other, rowLevel)
  {
    var k := FirstWildcard(vec, 0, rowLevel);
    assert other[..rowLevel][..k] == other[..k];
  }

  lemma {:induction false} WildcardFound(vec: seq<int>, from: nat, rowLevel: nat)
    requires from <= |vec|
    ensures var k := FirstWildcard(vec, from, rowLevel);
      if forall i :: from <= i < |vec| ==> vec[i] != -1 then k == rowLevel
      else from <= k < |vec| && vec[k] == -1 && forall i :: from <= i < k ==> vec[i] != -1
    decreases |vec| - from
  {
    if from < |vec| && vec[from] != -1 {
      WildcardFound(vec, from + 1, rowLevel);
    }
  }

  ghost predicate AllOpen(active: seq<Request>, rows: Rows, rowLevel: nat) {
    forall i :: 0 <= i < |active| ==> RowOpen(rows, active[i], rowLevel)
  }

  /** A command the guard lets through leaves every row open that a waiting request was promised. */
  lemma {:induction false} RowsStayOpen(active: seq<Request>, rows: Rows, r: Request, c: Command, rowLevel: nat)
    requires AllOpen(active, rows, rowLevel) && DeviceAllows(rows, r, c, rowLevel)
    requires |r.vec| > rowLevel && FirstWildcard(r.vec, 0, rowLevel) <= rowLevel
    requires c.closing ==> forall i :: 0 <= i < |active| ==> !SameRowGroup(r.vec, active[i].vec, rowLevel)
    ensures AllOpen(active, Issue(rows, r, c, rowLevel), rowLevel)
  {
    forall i | 0 <= i < |active|
      ensures RowOpen(Issue(rows, r, c, rowLevel), active[i], rowLevel)
    {
      ClosesSameRowGroup(r.vec, active[i].vec, rowLevel);
    }
  }

  /** A request whose row is open is never given a second opening command. */
  lemma {:induction false} NoSecondOpening(active: seq<Request>, rows: Rows, i: nat, c: Command, rowLevel: nat)
    requires AllOpen(active, rows, rowLevel) && i < |active| && DeviceAllows(rows, active[i], c, rowLevel)
    ensures !c.opening
  {
    assert RowOpen(rows, active[i], rowLevel);
  }

  // ----- The controller -----

  class DramController {
    const rowLevel: nat
    const readLatency: int
    const lowWatermark: real
    const highWatermark: real
    const maxSize: nat          // of the active, read and write buffers
    const prioritySize: nat
    var clk: int
    var writeMode: bool
    var pending: seq<Request>
    var active: seq<Request>
    var priority: seq<Request>
    var readBuffer: seq<Request>
    var writeBuffer: seq<Request>
    var rows: Rows
    ghost var accepted: multiset<nat>
    ghost var lost: multiset<nat>       // dropped because the active buffer was over-full
    ghost var completed: seq<nat>
    ghost var callbacks: seq<nat>
    ghost var fits: bool                // no address so far had a wildcard below the row
    ghost var departs: seq<int>         // of every read that ever waited for its data
    ghost var times: seq<int>           // when they completed

    constructor (rowLevel: nat, readLatency: int, lowWatermark: real, highWatermark: real, maxSize: nat,
                 prioritySize: nat)
      requires readLatency >= 1
      ensures Valid() && lost == multiset{} && accepted == multiset{} && fits && !writeMode && clk == 0
      ensures Held() == Buffers([], [], [], []) && rows == map[] && pending == []
      ensures this.rowLevel == rowLevel && this.maxSize == maxSize && this.prioritySize == prioritySize
      ensures this.lowWatermark == lowWatermark && this.highWatermark == highWatermark
      ensures this.readLatency == readLatency
    {
      this.rowLevel, this.readLatency := rowLevel, readLatency;
      this.lowWatermark, this.highWatermark := lowWatermark, highWatermark;
      this.maxSize, this.prioritySize := maxSize, prioritySize;
      clk, writeMode, rows, fits := 0, false, map[], true;
      pending, active, priority, readBuffer, writeBuffer := [], [], [], [], [];
      accepted, lost, completed, callbacks, departs, times := multiset{}, multiset{}, [], [], [], [];
    }

    ghost function Held(): Buffers
      reads this`active, this`priority, this`readBuffer, this`writeBuffer
    {
      Buffers(active, priority, readBuffer, writeBuffer)
    }

    /** Every accepted request is in exactly one place, and none was called back that is not completed. */
    ghost predicate Conserved()
      reads this`accepted, this`readBuffer, this`writeBuffer, this`active, this`priority, this`pending,
            this`completed, this`callbacks, this`lost
    {
      Balanced(accepted, Places(readBuffer, writeBuffer, active, priority, pending), completed, callbacks, lost)
    }

    /** As long as no address has a wildcard below the row, requests in the active buffer have their rows open. */
    ghost predicate Protected()
      reads this`fits, this`active, this`priority, this`readBuffer, this`writeBuffer, this`rows
    {
      fits ==> Safe(active, priority, readBuffer, writeBuffer, rows)
    }

    ghost predicate Safe(active: seq<Request>, priority: seq<Request>, readBuffer: seq<Request>,
                         writeBuffer: seq<Request>, rows: Rows) {
      && AllOpen(active, rows, rowLevel)
      && AddressesFit(active) && AddressesFit(priority) && AddressesFit(readBuffer) && AddressesFit(writeBuffer)
    }

    ghost predicate AddressesFit(s: seq<Request>) {
      forall i :: 0 <= i < |s| ==> Fits(s[i].vec)
    }

    ghost predicate Fits(vec: seq<int>) {
      |vec| > rowLevel && FirstWildcard(vec, 0, rowLevel) <= rowLevel
    }

    /** Reads complete in order, each at the time the recurrence gives; the next one is not overdue. */
    ghost predicate InOrder()
      reads this`departs, this`times, this`pending, this`clk
    {
      readLatency >= 1 && OnTime(departs, times, pending, clk)
    }

    ghost predicate Valid()
      reads this
    {
      Conserved() && Protected() && InOrder()
    }

    /** Is this a read of an address about to be written? */
    predicate Forwards(req: Request)
      reads this`writeBuffer
    {
      req.kind == Read && exists i :: 0 <= i < |writeBuffer| && writeBuffer[i].addr == req.addr
    }

    /** Is r now at the end of its buffer, if that held at most its maximum? */
    ghost predicate Buffered(r: Request, ok: bool, reads0: seq<Request>, writes0: seq<Request>)
      reads this`readBuffer, this`writeBuffer
    {
      && ok == (|if r.kind == Read then reads0 else writes0| <= maxSize)
      && readBuffer == reads0 + (if ok && r.kind == Read then [r] else [])
      && writeBuffer == writes0 + (if ok && r.kind != Read then [r] else [])
    }

    /** A read or write from outside; a read of an address about to be written is answered in the next cycle. */
    method Send(req: Request) returns (ok: bool)
      requires Valid() && req.kind != Maintenance
      modifies this`pending, this`readBuffer, this`writeBuffer, this`accepted, this`departs, this`fits
      ensures Valid() && fits == (old(fits) && Fits(req.vec))
      ensures accepted == if ok then Plus(old(accepted), req.id) else old(accepted)
      ensures req.kind == Read && (exists i :: 0 <= i < |old(writeBuffer)| && old(writeBuffer)[i].addr == req.addr) ==>
        ok && pending == old(pending) + [req.(depart := clk + 1)] && unchanged(`readBuffer, `writeBuffer)
      ensures !(req.kind == Read && exists i :: 0 <= i < |old(writeBuffer)| && old(writeBuffer)[i].addr == req.addr) ==>
        Buffered(req.(arrive := clk), ok, old(readBuffer), old(writeBuffer)) && unchanged(`pending)
    {
      hide Valid, Plus, Fits, Buffered;
      Allow(req);
      if Forwards(req) {
        Forward(req.(depart := clk + 1));
        ok := true;
      } else {
        ok := Enqueue(req.(arrive := clk));
      }
    }

    /** Takes note of an address with a wildcard below the row. */
    ghost method Allow(r: Request)
      requires Valid()
      modifies this`fits
      ensures Valid() && fits == (old(fits) && Fits(r.vec))
    {
      hide Conserved, InOrder, Safe, Fits;
      fits := fits && Fits(r.vec);
    }

    method Forward(r: Request)
      requires Valid() && r.depart > clk
      modifies this`pending, this`departs, this`accepted
      ensures Valid() && pending == old(pending) + [r] && accepted == Plus(old(accepted), r.id)
    {
      hide Places, OnTime, Balanced, Plus, Protected;
      Accept(accepted, Places(readBuffer, writeBuffer, active, priority, pending), completed, callbacks, lost, r.id);
      PushPending(r);
      accepted := Plus(accepted, r.id);
    }

    /** Into the read or the write buffer, as long as that holds at most its maximum. */
    method Enqueue(r: Request) returns (ok: bool)
      requires Valid() && (fits ==> Fits(r.vec))
      modifies this`readBuffer, this`writeBuffer, this`accepted
      ensures Valid() && accepted == if ok then Plus(old(accepted), r.id) else old(accepted)
      ensures Buffered(r, ok, old(readBuffer), old(writeBuffer))
    {
      hide Places, FirstWildcard, AllOpen, Plus, Balanced, InOrder;
      Accept(accepted, Places(readBuffer, writeBuffer, active, priority, pending), completed, callbacks, lost, r.id);
      PlacesPush(readBuffer, writeBuffer, active, priority, pending, r);
      if r.kind == Read {
        ok := |readBuffer| <= maxSize;
        if ok {
          readBuffer, accepted := readBuffer + [r], Plus(accepted, r.id);
        }
      } else {
        ok := |writeBuffer| <= maxSize;
        if ok {
          writeBuffer, accepted := writeBuffer + [r], Plus(accepted, r.id);
        }
      }
    }

    /** Reads wait here for their data. */
    method PushPending(r: Request)
      requires InOrder() && r.depart > clk
      modifies this`pending, this`departs
      ensures InOrder() && pending == old(pending) + [r]
      ensures Places(readBuffer, writeBuffer, active, priority, pending)
           == Plus(Places(readBuffer, writeBuffer, active, priority, old(pending)), r.id)
    {
      hide Places, OnTime, Plus;
      PlacesPush(readBuffer, writeBuffer, active, priority, pending, r);
      PushOnTime(departs, times, pending, clk, r);
      pending, departs := pending + [r], departs + [r.depart];
    }

    /** A maintenance request from the refresh manager. */
    method PrioritySend(req: Request) returns (ok: bool)
      requires Valid()
      modifies this`priority, this`accepted, this`fits
      ensures Valid() && ok == (|old(priority)| <= prioritySize) && fits == (old(fits) && Fits(req.vec))
      ensures priority == old(priority) + (if ok then [req] else [])
      ensures accepted == if ok then Plus(old(accepted), req.id) else old(accepted)
    {
      hide Places, FirstWildcard, OnTime, AllOpen, Balanced, Plus;
      Allow(req);
      ok := |priority| <= prioritySize;
      if ok {
        Accept(accepted, Places(readBuffer, writeBuffer, active, priority, pending), completed, callbacks, lost,
               req.id);
        PlacesPush(readBuffer, writeBuffer, active, priority, pending, req);
        priority, accepted := priority + [req], Plus(accepted, req.id);
      }
    }

    /** The next cycle begins: the oldest waiting read completes if its data is there. */
    method ServeCompletedReads()
      requires Valid()
      modifies this`clk, this`pending, this`completed, this`callbacks, this`times
      ensures Valid() && clk == old(clk) + 1 && pending == StillWaiting(old(pending), clk)
      ensures completed == old(completed) + Served(old(pending), clk, false)
      ensures callbacks == old(callbacks) + Served(old(pending), clk, true)
      ensures times == old(times) + (if Due(old(pending), clk) then [clk] else [])
      ensures |old(pending)| > 0 && old(pending)[0].depart <= clk ==>
        var req := old(pending)[0];
        && [req] + pending == old(pending) && completed == old(completed) + [req.id]
        && callbacks == old(callbacks) + if req.external then [req.id] else []
      ensures !(|old(pending)| > 0 && old(pending)[0].depart <= clk) ==> unchanged(`pending, `completed, `callbacks)
    {
      hide Conserved, Safe, OnTime;
      ServeOnTime(departs, times, pending, clk);
      clk := clk + 1;
      if |pending| > 0 {
        var req := pending[0];
        if req.depart <= clk {
          CompleteRead();
        }
      }
    }

    method CompleteRead()
      requires |pending| > 0 && Conserved()
      modifies this`pending, this`completed, this`callbacks, this`times
      ensures Conserved() && pending == old(pending)[1..] && times == old(times) + [clk]
      ensures completed == old(completed) + [old(pending)[0].id]
      ensures callbacks == old(callbacks) + (if old(pending)[0].external then [old(pending)[0].id] else [])
    {
      hide Places, Balanced;
      FinishOldest(readBuffer, writeBuffer, active, priority, pending, accepted, completed, callbacks, lost);
      var req := pending[0];
      callbacks := callbacks + (if req.external then [req.id] else []);
      completed := completed + [req.id];
      times, pending := times + [clk], pending[1..];
    }

    /** Write mode starts above the high mark or without reads, and ends below the low mark with reads waiting. */
    predicate NextWriteMode(held: Buffers, writeMode: bool) {
      if !writeMode then |held.writeBuffer| as real > highWatermark * maxSize as real || |held.readBuffer| == 0
      else !(|held.writeBuffer| as real < lowWatermark * maxSize as real && |held.readBuffer| != 0)
    }

    /** The mode changes only when neither an active request nor maintenance goes first. */
    predicate ModeAfter(held: Buffers, writeMode: bool, picks: Picks) {
      if Ready(picks.active) || |held.priority| != 0 then writeMode else NextWriteMode(held, writeMode)
    }

    /** A change to writes needs many of them or no reads, one to reads few writes and some read. */
    predicate ModeChanges(held: Buffers, writeMode: bool, picks: Picks) {
      && !Ready(picks.active) && held.priority == []
      && (!writeMode ==> |held.writeBuffer| as real > highWatermark * maxSize as real || held.readBuffer == [])
      && (writeMode ==> |held.writeBuffer| as real < lowWatermark * maxSize as real && held.readBuffer != [])
    }

    lemma {:induction false} ModeChangesExactlyWhen(held: Buffers, writeMode: bool, picks: Picks)
      ensures ModeAfter(held, writeMode, picks) != writeMode <==> ModeChanges(held, writeMode, picks)
    {
    }

    method SetWriteMode()
      modifies this`writeMode
      ensures writeMode == NextWriteMode(Held(), old(writeMode))
      ensures !old(writeMode) ==>
        (writeMode <==> |writeBuffer| as real > highWatermark * maxSize as real || |readBuffer| == 0)
      ensures old(writeMode) ==>
        (!writeMode <==> |writeBuffer| as real < lowWatermark * maxSize as real && |readBuffer| != 0)
    {
      if !writeMode {
        if |writeBuffer| as real > highWatermark * maxSize as real || |readBuffer| == 0 {
          writeMode := true;
        }
      } else {
        if (|writeBuffer| as real < lowWatermark * maxSize as real) && |readBuffer| != 0 {
          writeMode := false;
        }
      }
    }

    /** Chooses a request: whoever goes first, unless its command would close the row of an active request. */
    method ScheduleRequest(picks: Picks) returns (choice: Choice)
      requires picks.Fit(Held(), rows, rowLevel)
      modifies this`writeMode
      ensures writeMode == ModeAfter(Held(), old(writeMode), picks)
      ensures writeMode != old(writeMode) <==> ModeChanges(Held(), old(writeMode), picks)
      ensures choice == Decision(Held(), writeMode, picks, rowLevel)
      ensures Rightful(Held(), writeMode, picks, rowLevel, choice)
      ensures choice.Scheduled? ==> Selected(choice)
    {
      hide SameRowGroup, DeviceAllows, NextWriteMode, ModeAfter, ModeChanges, Rightful;
      ModeChangesExactlyWhen(Held(), writeMode, picks);
      choice := GoesFirst(picks);
      if choice.Scheduled? && choice.command.closing {
        var interrupts := Interrupts(BufferOf(choice.buffer)[choice.index].vec);
        if interrupts {
          choice := Nothing;
        }
      }
      RightfulExactlyWhen(Held(), rows, writeMode, picks, rowLevel, choice);
    }

    method GoesFirst(picks: Picks) returns (choice: Choice)
      requires picks.Fit(Held(), rows, rowLevel)
      modifies this`writeMode
      ensures writeMode == ModeAfter(Held(), old(writeMode), picks)
      ensures choice == Proposal(Held(), writeMode, picks)
      ensures choice.Scheduled? ==>
        && choice.index < |Held().Of(choice.buffer)|
        && DeviceAllows(rows, Held().Of(choice.buffer)[choice.index], choice.command, rowLevel)
    {
      hide DeviceAllows, NextWriteMode;
      if picks.active.Pick? && picks.active.ready {
        return Scheduled(Active, picks.active.index, picks.active.command);
      }
      if |priority| != 0 {
        return if picks.priority.ready then Scheduled(Priority, 0, picks.priority.command) else Nothing;
      }
      SetWriteMode();
      var pick := if writeMode then picks.writeBuffer else picks.readBuffer;
      if pick.NoPick? || !pick.ready {
        return Nothing;
      }
      return Scheduled(if writeMode then WriteBuffer else ReadBuffer, pick.index, pick.command);
    }

    /** The guard: does a closing command's row group include an active request's? */
    method Interrupts(vec: seq<int>) returns (interrupts: bool)
      ensures interrupts <==> exists i :: 0 <= i < |active| && SameRowGroup(vec, active[i].vec, rowLevel)
    {
      hide SameRowGroup;
      interrupts := false;
      for i := 0 to |active|
        invariant interrupts <==> exists j :: 0 <= j < i && SameRowGroup(vec, active[j].vec, rowLevel)
      {
        if SameRowGroup(vec, active[i].vec, rowLevel) {
          interrupts := true;
        }
      }
    }

    function BufferOf(b: BufferId): (s: seq<Request>)
      reads this
      ensures s == Held().Of(b)
    {
      match b
      case Active => active
      case Priority => priority
      case ReadBuffer => readBuffer
      case WriteBuffer => writeBuffer
    }

    /** A request of a buffer with a command the device allows and the guard lets through. */
    ghost predicate Selected(choice: Choice)
      requires choice.Scheduled?
      reads this
    {
      && choice.index < |Held().Of(choice.buffer)|
      && DeviceAllows(rows, Held().Of(choice.buffer)[choice.index], choice.command, rowLevel)
      && !HitsActive(Held(), choice, rowLevel)
    }

    lemma {:induction false} SelectedMeans(choice: Choice)
      requires choice.Scheduled? && Selected(choice)
      ensures choice.index < |Held().Of(choice.buffer)| && (choice.command.opening ==> !choice.command.isFinal)
    {
    }

    method Remove(b: BufferId, i: nat)
      requires i < |Held().Of(b)| && Protected() && Conserved()
      modifies this`active, this`priority, this`readBuffer, this`writeBuffer
      ensures Held() == old(Held().Taken(b, i)) && Protected() && InHand(old(Held().Of(b)[i]).id)
    {
      hide Places, Balanced, Plus, FirstWildcard, RowOpen;
      match b
      case Active =>
        PlacesWithoutActive(readBuffer, writeBuffer, active, priority, pending, i);
        active := Without(active, i);
      case Priority =>
        PlacesWithoutPriority(readBuffer, writeBuffer, active, priority, pending, i);
        priority := Without(priority, i);
      case ReadBuffer =>
        PlacesWithoutRead(readBuffer, writeBuffer, active, priority, pending, i);
        readBuffer := Without(readBuffer, i);
      case WriteBuffer =>
        PlacesWithoutWrite(readBuffer, writeBuffer, active, priority, pending, i);
        writeBuffer := Without(writeBuffer, i);
    }

    /** A request that was taken out of its buffer and is not yet anywhere else. */
    ghost predicate InHand(x: nat)
      reads this
    {
      Balanced(accepted, Plus(Places(readBuffer, writeBuffer, active, priority, pending), x), completed, callbacks,
               lost)
    }

    method Complete(req: Request)
      requires InHand(req.id)
      modifies this`completed, this`callbacks
      ensures Conserved() && completed == old(completed) + [req.id]
      ensures callbacks == old(callbacks) + (if req.kind == Write then [req.id] else [])
    {
      hide Places, Balanced, Plus;
      Finish(accepted, Places(readBuffer, writeBuffer, active, priority, pending), completed, callbacks, lost, req.id,
             req.kind == Write);
      callbacks := callbacks + (if req.kind == Write then [req.id] else []);
      completed := completed + [req.id];
    }

    method Activate(req: Request, room: bool)
      requires InHand(req.id)
      modifies this`active, this`lost
      ensures Conserved() && active == old(active) + (if room then [req] else [])
      ensures lost == if room then old(lost) else Plus(old(lost), req.id)
    {
      hide Places, Balanced, Plus;
      PlacesPush(readBuffer, writeBuffer, active, priority, pending, req);
      if room {
        active := active + [req];
      } else {
        Drop(accepted, Places(readBuffer, writeBuffer, active, priority, pending), completed, callbacks, lost, req.id);
        lost := Plus(lost, req.id);
      }
    }

    /** The maintenance requests that find room behind `queued` others. */
    function Admitted(queued: nat, maintenance: seq<Request>): seq<Request> {
      var room := if queued <= prioritySize then prioritySize + 1 - queued else 0;
      if |maintenance| <= room then maintenance else maintenance[..room]
    }

    lemma {:induction false} AdmitOne(queued: nat, maintenance: seq<Request>, i: nat)
      requires i < |maintenance|
      ensures var before := Admitted(queued, maintenance[..i]);
        Admitted(queued, maintenance[..i + 1])
        == before + (if queued + |before| <= prioritySize then [maintenance[i]] else [])
    {
    }

    lemma {:induction false} AcceptOne(accepted: multiset<nat>, before: seq<Request>, r: Request)
      ensures accepted + Ids(before + [r]) == Plus(accepted + Ids(before), r.id) && before + [] == before
    {
      IdsPush(before, r);
    }

    /** The cycle's first half: a completed read, then whatever the refresh manager sends. */
    method StartTick(maintenance: seq<Request>)
      requires Valid()
      modifies this`clk, this`pending, this`completed, this`callbacks, this`times, this`priority, this`accepted,
              this`fits
      ensures Valid() && clk == old(clk) + 1 && pending == StillWaiting(old(pending), clk)
      ensures completed == old(completed) + Served(old(pending), clk, false)
      ensures callbacks == old(callbacks) + Served(old(pending), clk, true)
      ensures priority == old(priority) + Admitted(|old(priority)|, maintenance)
      ensures accepted == old(accepted) + Ids(Admitted(|old(priority)|, maintenance))
      ensures fits == (old(fits) && AddressesFit(maintenance))
    {
      hide Valid, AddressesFit, Ids, Admitted, StillWaiting, Served;
      ServeCompletedReads();
      SendMaintenance(maintenance);
    }

    method SendMaintenance(maintenance: seq<Request>)
      requires Valid()
      modifies this`priority, this`accepted, this`fits
      ensures Valid() && fits == (old(fits) && AddressesFit(maintenance))
      ensures priority == old(priority) + Admitted(|old(priority)|, maintenance)
      ensures accepted == old(accepted) + Ids(Admitted(|old(priority)|, maintenance))
    {
      hide Valid, Plus, Ids, Admitted, Fits;
      NoneAdmitted(|priority|);
      for i := 0 to |maintenance|
        invariant Valid() && fits == (old(fits) && AddressesFit(maintenance[..i]))
        invariant priority == old(priority) + Admitted(|old(priority)|, maintenance[..i])
        invariant accepted == old(accepted) + Ids(Admitted(|old(priority)|, maintenance[..i]))
      {
        ghost var before := maintenance[..i];
        assert maintenance[..i + 1] == before + [maintenance[i]];
        AdmitOne(|old(priority)|, maintenance, i);
        AcceptOne(old(accepted), Admitted(|old(priority)|, before), maintenance[i]);
        var ok := PrioritySend(maintenance[i]);
      }
      assert maintenance[..|maintenance|] == maintenance;
    }

    lemma {:induction false} NoneAdmitted(queued: nat)
      ensures Admitted(queued, []) == [] && Ids([]) == multiset{}
    {
    }

    /**
     * A final read waits for its data, a final write is called back and completed, other final requests are completed;
     * an opened request without room is lost.
     */
    ghost predicate Recorded(req: Request, c: Command, room: bool, lost0: multiset<nat>, pending0: seq<Request>,
                             callbacks0: seq<nat>, completed0: seq<nat>)
      reads this`lost, this`pending, this`callbacks, this`completed, this`clk
    {
      && lost == (if c.opening && !room then Plus(lost0, req.id) else lost0)
      && pending == pending0 + (if c.isFinal && req.kind == Read then [req.(depart := clk + readLatency)] else [])
      && callbacks == callbacks0 + (if c.isFinal && req.kind == Write then [req.id] else [])
      && completed == completed0 + (if c.isFinal && req.kind != Read then [req.id] else [])
    }

    /**
     * The second half: the chosen request's command is issued. A final command finishes the request or lets it wait
     * for its data; an opening one moves it to the active buffer, and loses it if that buffer is over-full.
     */
    method FinishTick(choice: Choice)
      requires Valid() && choice.Scheduled? && Selected(choice)
      modifies this`pending, this`departs, this`completed, this`callbacks, this`lost, this`rows,
               this`active, this`priority, this`readBuffer, this`writeBuffer
      ensures Valid()
      ensures var was := old(Held()); var req := was.Of(choice.buffer)[choice.index]; var c := choice.command;
        && rows == Issue(old(rows), req, c, rowLevel)
        && Held() == was.After(choice.buffer, choice.index, c, maxSize)
        && Recorded(req, c, |was.active| <= maxSize, old(lost), old(pending), old(callbacks), old(completed))
    {
      hide Places, Balanced, Plus, OnTime, FirstWildcard, RowOpen, Issue, Valid, Selected, HitsActive, Held, Recorded,
              Buffers.After, Buffers.Of;
      SelectedMeans(choice);
      IssueCommand(choice);
      Settle(choice.buffer, choice.index, choice.command);
    }

    method Settle(b: BufferId, i: nat, c: Command)
      requires Valid() && i < |Held().Of(b)| && (c.opening ==> !c.isFinal && RowOpen(rows, Held().Of(b)[i], rowLevel))
      modifies this`pending, this`departs, this`completed, this`callbacks, this`lost,
               this`active, this`priority, this`readBuffer, this`writeBuffer
      ensures Valid()
      ensures var was := old(Held()); var req := was.Of(b)[i];
        && Held() == was.After(b, i, c, maxSize)
        && Recorded(req, c, |was.active| <= maxSize, old(lost), old(pending), old(callbacks), old(completed))
    {
      hide Places, Balanced, Plus, OnTime, FirstWildcard, RowOpen, Issue, Valid;
      if c.isFinal {
        FinishRequest(b, i);
      } else if c.opening {
        MoveToActive(b, i);
      }
    }

    method IssueCommand(choice: Choice)
      requires Valid() && choice.Scheduled? && Selected(choice)
      modifies this`rows
      ensures Valid()
      ensures var req := Held().Of(choice.buffer)[choice.index];
        && rows == Issue(old(rows), req, choice.command, rowLevel)
        && (choice.command.opening ==> RowOpen(rows, req, rowLevel))
    {
      hide Places, Balanced, OnTime, FirstWildcard;
      var req := BufferOf(choice.buffer)[choice.index];
      if fits {
        RowsStayOpen(active, rows, req, choice.command, rowLevel);
      }
      rows := Issue(rows, req, choice.command, rowLevel);
    }

    method FinishRequest(b: BufferId, i: nat)
      requires Valid() && i < |Held().Of(b)|
      modifies this`pending, this`departs, this`completed, this`callbacks,
               this`active, this`priority, this`readBuffer, this`writeBuffer
      ensures Valid() && Held() == old(Held().Taken(b, i))
      ensures var req := old(Held().Of(b))[i];
        && pending == old(pending) + (if req.kind == Read then [req.(depart := clk + readLatency)] else [])
        && callbacks == old(callbacks) + (if req.kind == Write then [req.id] else [])
        && completed == old(completed) + (if req.kind != Read then [req.id] else [])
    {
      hide Places, Balanced, Plus, OnTime, FirstWildcard, RowOpen, AllOpen;
      var req := BufferOf(b)[i];
      Remove(b, i);
      if req.kind == Read {
        PushPending(req.(depart := clk + readLatency));
      } else {
        Complete(req);
      }
    }

    method MoveToActive(b: BufferId, i: nat)
      requires Valid() && i < |Held().Of(b)| && RowOpen(rows, Held().Of(b)[i], rowLevel)
      modifies this`lost, this`active, this`priority, this`readBuffer, this`writeBuffer
      ensures Valid() && Held() == old(Held().Opened(b, i, |active| <= maxSize))
      ensures lost == if |old(active)| > maxSize then Plus(old(lost), old(Held().Of(b))[i].id) else old(lost)
    {
      hide Places, Balanced, Plus, OnTime, FirstWildcard, RowOpen;
      var req, room := BufferOf(b)[i], |active| <= maxSize;
      Remove(b, i);
      Activate(req, room);
    }

    /** What a choice does to the buffers, the rows and the records; without one they stay. */
    ghost predicate CarriedOut(choice: Choice, was: Buffers, rows0: Rows, lost0: multiset<nat>,
                               pending0: seq<Request>, callbacks0: seq<nat>, completed0: seq<nat>)
      reads this
    {
      if choice.Scheduled? then
        && choice.index < |was.Of(choice.buffer)|
        && var req, c := was.Of(choice.buffer)[choice.index], choice.command;
        && rows == Issue(rows0, req, c, rowLevel)
        && Held() == was.After(choice.buffer, choice.index, c, maxSize)
        && Recorded(req, c, |was.active| <= maxSize, lost0, pending0, callbacks0, completed0)
      else
        && Held() == was && rows == rows0 && lost == lost0
        && pending == pending0 && callbacks == callbacks0 && completed == completed0
    }

    lemma {:induction false} ActiveStaysBounded(choice: Choice, was: Buffers, rows0: Rows, lost0: multiset<nat>,
                               pending0: seq<Request>, callbacks0: seq<nat>, completed0: seq<nat>)
      requires CarriedOut(choice, was, rows0, lost0, pending0, callbacks0, completed0)
      ensures |was.active| <= maxSize ==> lost == lost0
      ensures |was.active| <= maxSize + 1 ==> |active| <= maxSize + 1
    {
    }

    /**
     * One cycle, for any scheduler and device that answer from the buffer and the rows they are shown: the oldest read
     * whose data is there completes, maintenance joins its buffer, and the decision is carried out.
     */
    method Tick(maintenance: seq<Request>, ask: Ask)
      requires Valid() && AnswersAlways(ask, rowLevel)
      modifies this
      ensures Valid() && clk == old(clk) + 1 && fits == (old(fits) && AddressesFit(maintenance))
      ensures accepted == old(accepted) + Ids(Admitted(|old(priority)|, maintenance))
      ensures var was := old(Held()).(priority := old(priority) + Admitted(|old(priority)|, maintenance));
        var picks := AskAll(ask, was, old(rows));
        && writeMode == ModeAfter(was, old(writeMode), picks)
        && (writeMode != old(writeMode) <==> ModeChanges(was, old(writeMode), picks))
        && Rightful(was, writeMode, picks, rowLevel, Decision(was, writeMode, picks, rowLevel))
        && CarriedOut(Decision(was, writeMode, picks, rowLevel), was, old(rows), old(lost),
                      StillWaiting(old(pending), clk), old(callbacks) + Served(old(pending), clk, true),
                      old(completed) + Served(old(pending), clk, false))
      ensures |old(active)| <= maxSize ==> lost == old(lost)
      ensures |old(active)| <= maxSize + 1 ==> |active| <= maxSize + 1
    {
      hide Conserved, Protected, InOrder, Selected, Issue, AddressesFit, Plus, ModeAfter, ModeChanges, Decision,
              Rightful, Buffers.After, StillWaiting, Served, Admitted, Ids, Recorded;
      StartTick(maintenance);
      ghost var was := Held();
      AllFit(ask, was, rows);
      var choice := ScheduleRequest(AskAll(ask, Buffers(active, priority, readBuffer, writeBuffer), rows));
      if choice.Scheduled? {
        SelectedMeans(choice);
        FinishTick(choice);
      }
      ActiveStaysBounded(choice, was, old(rows), old(lost), StillWaiting(old(pending), clk),
                         old(callbacks) + Served(old(pending), clk, true),
                         old(completed) + Served(old(pending), clk, false));
    }

    lemma {:induction false} AllFit(ask: Ask, held: Buffers, rows: Rows)
      requires AnswersAlways(ask, rowLevel)
      ensures AskAll(ask, held, rows).Fit(held, rows, rowLevel)
    {
      hide Answers;
    }
  }

  // ----- Runs on a device that is not ready for active requests -----

  /** A device that opens closed banks, closes rows for maintenance, and is not ready to serve active requests. */
  function Slow(b: BufferId, s: seq<Request>, rows: Rows): Pick {
    if s == [] then NoPick
    else Pick(0, SlowCommand(b, s[0], rows), b != Active)
  }

  function SlowCommand(b: BufferId, r: Request, rows: Rows): Command {
    if b == Priority then Command(false, true, true)
    else if DeviceAllows(rows, r, Command(true, false, false), 1) then Command(true, false, false)
    else Command(false, false, true)
  }

  lemma {:induction false} SlowAnswers()
    ensures AnswersAlways(Slow, 1)
  {
    forall b, s, rows
      ensures Answers(Slow(b, s, rows), s, rows, 1)
    {
    }
  }

  /** A read of row 0 of the i-th bank, column 0. */
  function ReadOfBank(i: nat): Request {
    Request(i, Read, i, [i, 0, 0], true, 0, 0)
  }

  lemma {:induction false} ReadsFit(c: DramController, i: nat)
    requires c.rowLevel == 1
    ensures c.Fits([i, 0, 0]) && c.AddressesFit([])
  {
    assert FirstWildcard([i, 0, 0], 3, 1) == FirstWildcard([i, 0, 0], 2, 1) == FirstWildcard([i, 0, 0], 1, 1) == 1;
  }

  /** The first n banks, and no others, have an open row. */
  ghost predicate BanksOpen(rows: Rows, n: nat) {
    forall b :: b in rows ==> |b| == 1 && 0 <= b[0] < n
  }

  /** A controller with rows at level 1 that opened `i` banks: one request too many fits the active buffer. */
  ghost predicate Opened(c: DramController, maxSize: nat, i: nat)
    reads c
  {
    && c.Valid() && c.fits && c.rowLevel == 1 && c.maxSize == maxSize && c.highWatermark == 1.0 && !c.writeMode
    && c.readBuffer == c.writeBuffer == c.priority == [] && BanksOpen(c.rows, i)
    && |c.active| == (if i <= maxSize then i else maxSize + 1)
    && c.lost == (if i <= maxSize + 1 then multiset{} else multiset{maxSize + 1})
  }

  /**
   * For any buffer size there is a run that loses a request: while the device is not ready to serve the active
   * requests, maxSize + 2 reads open a bank each, and the last one finds the active buffer over-full.
   */
  method LoseARequest(maxSize: nat) returns (c: DramController)
    ensures fresh(c) && c.Valid() && c.fits && c.maxSize == maxSize
    ensures maxSize + 1 in c.accepted && c.lost == multiset{maxSize + 1}
  {
    c := new DramController(1, 1, 0.0, 1.0, maxSize, 0);
    for i := 0 to maxSize + 2
      invariant fresh(c) && Opened(c, maxSize, i)
      invariant i > 0 ==> i - 1 in c.accepted
    {
      OpenOneMore(c, maxSize, i);
    }
  }

  method OpenOneMore(c: DramController, maxSize: nat, i: nat)
    requires i <= maxSize + 1 && Opened(c, maxSize, i)
    modifies c
    ensures Opened(c, maxSize, i + 1) && i in c.accepted
    ensures |c.active| == if i <= maxSize then |old(c.active)| + 1 else maxSize + 1
  {
    hide Opened;
    SendRead(c, maxSize, i);
    OpenBank(c, maxSize, i);
  }

  /** The same with the i-th read in its buffer. */
  ghost predicate Asked(c: DramController, maxSize: nat, i: nat)
    reads c
  {
    && c.Valid() && c.fits && c.rowLevel == 1 && c.maxSize == maxSize && c.highWatermark == 1.0 && !c.writeMode
    && c.writeBuffer == c.priority == [] && BanksOpen(c.rows, i)
    && c.readBuffer == [ReadOfBank(i).(arrive := c.clk)]
    && |c.active| == (if i <= maxSize then i else maxSize + 1)
    && c.lost == multiset{} && i in c.accepted
  }

  /** The bridge sends before the controller's cycle. */
  method SendRead(c: DramController, maxSize: nat, i: nat)
    requires i <= maxSize + 1 && Opened(c, maxSize, i)
    modifies c
    ensures Asked(c, maxSize, i) && unchanged(c`active)
  {
    hide c.Conserved, c.Protected, c.InOrder, c.AddressesFit, c.Fits, BanksOpen;
    ReadsFit(c, i);
    var ok := c.Send(ReadOfBank(i));
  }

  method OpenBank(c: DramController, maxSize: nat, i: nat)
    requires i <= maxSize + 1 && Asked(c, maxSize, i)
    modifies c
    ensures Opened(c, maxSize, i + 1) && i in c.accepted
    ensures |c.active| == if i <= maxSize then |old(c.active)| + 1 else maxSize + 1
  {
    hide c.Valid, BanksOpen, AnswersAlways, Slow, Proposal, HitsActive, Issue, c.AddressesFit;
    SlowAnswers();
    ReadsFit(c, i);
    SlowOpens(c.Held(), c.rows, i, c.clk);
    c.Tick([], Slow);
  }

  /** The waiting read is scheduled, and its bank opened. */
  lemma {:induction false} SlowOpens(held: Buffers, rows: Rows, i: nat, clk: int)
    requires held.priority == [] && held.readBuffer == [ReadOfBank(i).(arrive := clk)] && BanksOpen(rows, i)
    ensures var picks := AskAll(Slow, held, rows);
      !Ready(picks.active) && Decision(held, false, picks, 1) == Scheduled(ReadBuffer, 0, Command(true, false, false))
    ensures BanksOpen(Issue(rows, held.readBuffer[0], Command(true, false, false), 1), i + 1)
  {
    assert held.readBuffer[0].vec[..1] == [i];
  }

  /**
   * A run that closes the row of an active request: maintenance names another row of its bank and any column, so that
   * the guard takes the two for different rows, while the command closes the whole bank.
   */
  method CloseAnActiveRow() returns (c: DramController)
    ensures fresh(c) && c.Valid() && !c.fits
    ensures |c.active| == 1 && !RowOpen(c.rows, c.active[0], c.rowLevel)
  {
    c := new DramController(1, 1, 0.0, 1.0, 0, 0);
    OpenOneMore(c, 0, 0);
    CloseRow(c);
  }

  /** Any column of some row of the first bank. */
  function AnyColumn(row: int): Request {
    Request(1, Maintenance, 0, [0, row, -1], false, 0, 0)
  }

  /** The guard lets the command through, and it closes the row. */
  lemma {:induction false} SlowCloses(held: Buffers, rows: Rows, row: int, mode: bool)
    requires row != -1 && held.priority == [AnyColumn(row)] && BanksOpen(rows, 1)
    requires |held.active| == 1 && RowOpen(rows, held.active[0], 1) && held.active[0].vec[1] != row
    ensures FirstWildcard(AnyColumn(row).vec, 0, 1) == 2
    ensures Decision(held, mode, AskAll(Slow, held, rows), 1) == Scheduled(Priority, 0, Command(false, true, true))
    ensures !RowOpen(Issue(rows, AnyColumn(row), Command(false, true, true), 1), held.active[0], 1)
  {
    var vec, other := AnyColumn(row).vec, held.active[0].vec;
    assert FirstWildcard(vec, 2, 1) == FirstWildcard(vec, 1, 1) == 2;
    assert !SameRowGroup(vec, other, 1) by {
      assert |other| >= 2 && vec[..2][1] != other[..2][1];
    }
    assert other[..1] == [0];
    assert vec[..1] == [0];
  }

  method CloseRow(c: DramController)
    requires Opened(c, 0, 1)
    modifies c
    ensures c.Valid() && !c.fits && c.rowLevel == 1
    ensures |c.active| == 1 && !RowOpen(c.rows, c.active[0], 1)
  {
    hide c.Conserved, c.InOrder, BanksOpen, AnswersAlways, Slow, Decision, Issue, Closes, FirstWildcard, RowOpen,
            AskAll;
    SlowAnswers();
    var row := if c.active[0].vec[1] == 0 then 1 else 0;
    SlowCloses(c.Held().(priority := [AnyColumn(row)]), c.rows, row, c.writeMode);
    assert c.priority + c.Admitted(0, [AnyColumn(row)]) == [AnyColumn(row)];
    c.Tick([AnyColumn(row)], Slow);
  }
}
