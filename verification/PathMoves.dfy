/**
 * What each step of the path does to the queues of its ports and its controller, and how much nearer it brings its end.
 */
module PathMoves {
  import opened Basics
  import opened CxlSystem
  import opened ReadBack
  import opened HandedOver

  /**
   * One host's requests of one class in its ports: in the upstream one, given to it so far, and in the downstream one.
   */
  datatype Lane = Lane(port: seq<Payload>, given: int, down: seq<Payload>, back: seq<Payload>)

  ghost function LaneOf(s: State, h: nat): Lane
    requires h < |s.issued| && Shape(s, |s.issued|)
  {
    Lane(s.forward[h][1], |s.issued[h]| - |s.forward[h][0]|, s.forward[h][2], s.backward[h][0])
  }

  /** One class in the controller. */
  datatype Desk = Desk(queue: seq<Payload>, acks: seq<Payload>, route: map<nat, nat>)

  ghost function DeskOf(s: State): Desk {
    Desk(s.controller, s.acks, s.route)
  }

  /** A step of host g changes only what is its own; its lane then is this. */
  ghost function LaneNext(s: State, a: Action, hosts: nat, n: nat, g: nat): Lane
    requires g < hosts && Shape(s, hosts) && Enabled(s, a, hosts, n)
  {
    var was := LaneOf(s, g);
    match a
    case Forward(h, i, k) =>
      if h != g then was
      else if i == 0 then was.(port := was.port + s.forward[h][0][..k], given := was.given + k)
      else was.(port := was.port[k..], down := was.down + was.port[..k])
    case Enter(h) => if h != g then was else was.(down := was.down[1..])
    case Return => if s.route[s.acks[0].addr] != g then was else was.(back := was.back + [s.acks[0]])
    case Backward(h, i, k) => if h != g || i > 0 then was else was.(back := was.back[k..])
    case _ => was
  }

  lemma {:induction false} LaneAfter(s: State, a: Action, hosts: nat, n: nat, g: nat)
    requires g < hosts && Shape(s, hosts) && Enabled(s, a, hosts, n)
    ensures LaneOf(Step(s, a, hosts, n), g) == LaneNext(s, a, hosts, n, g)
  {
    hide Write, CountAck;
  }

  ghost function DeskNext(s: State, a: Action, hosts: nat, n: nat): Desk
    requires Shape(s, hosts) && Enabled(s, a, hosts, n)
  {
    var was := DeskOf(s);
    match a
    case Enter(h) =>
      var p := s.forward[h][2][0];
      was.(queue := was.queue + [p], route := was.route[p.addr := h])
    case Deliver => was.(queue := was.queue[1..])
    case Complete(i) => was.(acks := was.acks + [s.pending[i]])
    case Return => was.(acks := was.acks[1..])
    case _ => was
  }

  lemma {:induction false} DeskAfter(s: State, a: Action, hosts: nat, n: nat)
    requires Shape(s, hosts) && Enabled(s, a, hosts, n)
    ensures DeskOf(Step(s, a, hosts, n)) == DeskNext(s, a, hosts, n)
  {
    hide Write, CountAck, Move;
  }

  // ----- Runs -----

  /** Every address belongs to one host, so that no two can clash. */
  ghost predicate OneOwner(s: State, hosts: nat)
    requires Shape(s, hosts)
  {
    forall g, h, p, q :: 0 <= g < hosts && 0 <= h < hosts && p in s.issued[g] && q in s.issued[h] ==>
                (p.addr == q.addr ==> g == h)
  }

  ghost predicate Sound(s: State, hosts: nat) {
    Ordered(s, hosts) && OneOwner(s, hosts)
  }

  lemma {:induction false} WhereIssued(s: State, hosts: nat, p: Payload)
    requires Ordered(s, hosts) && InFlight(s, p)
    ensures p.host < hosts && p in s.issued[p.host]
  {
    var h := p.host;
    assert p in s.arrived || p in s.controller;
    assert HostOrdered(s, h);
    hide Flow, Routes;
    if p in s.arrived {
      Found(s.arrived, p);
      assert p in s.issued[h];
    } else {
      Found(s.controller, p);
      assert p in s.issued[h];
    }
  }

  lemma {:induction false} Found(s: seq<Payload>, p: Payload)
    requires p in s
    ensures p in OfHost(s, p.host)
  {
    if s[|s| - 1] != p {
      assert s == s[..|s| - 1] + [s[|s| - 1]];
      Found(s[..|s| - 1], p);
    }
  }

  lemma {:induction false} NoClashing(s: State, hosts: nat)
    requires Sound(s, hosts)
    ensures NoClash(s)
  {
    hide Ordered, InFlight;
    forall p, q | InFlight(s, p) && InFlight(s, q) && p.addr == q.addr
      ensures p.host == q.host
    {
      WhereIssued(s, hosts, p);
      WhereIssued(s, hosts, q);
    }
  }

  lemma {:induction false} OwnerKept(s: State, a: Action, hosts: nat, n: nat)
    requires Shape(s, hosts) && Enabled(s, a, hosts, n) && !a.Issue?
    ensures Step(s, a, hosts, n).issued == s.issued && Step(s, a, hosts, n).packets == s.packets
  {
    hide Write, CountAck, Move;
  }

  lemma {:induction false} Sides(b: Both, m: Turn, hosts: nat, n: nat, size: nat)
    requires CanMove(b, m, hosts, n, size)
    ensures var c := After(b, m, hosts, n, size);
      && c.writing == (if m.OfWrites? then Step(b.writing, m.action, hosts, n) else b.writing)
      && c.reading == (if m.OfReads? then Step(b.reading, m.action, hosts, n) else b.reading)
  {
    hide Step, Enabled, Raised, CountRack, Lookup;
  }

  /** What a run by the ports is known to keep. */
  ghost predicate Running(run: seq<Both>, moves: seq<Turn>, hosts: nat, n: nat, size: nat) {
    && BothRun(run, moves, hosts, n, size)
    && Sound(run[|run| - 1].writing, hosts) && Ordered(run[|run| - 1].reading, hosts)
  }

  lemma {:induction false} RunStarts(b: Both, hosts: nat, n: nat, size: nat)
    requires BothInit(b, hosts) && n > 0
    ensures Running([b], [], hosts, n, size)
  {
    InitInv(b.writing, hosts, n);
    InitInv(b.reading, hosts, n);
    assert forall h :: 0 <= h < hosts ==> Idle(b.writing, h) && b.writing.issued[h] == [];
    assert Ordered(b.writing, hosts) && Ordered(b.reading, hosts);
    hide Ordered, Init;
    assert OneOwner(b.writing, hosts);
    NoClashing(b.writing, hosts);
  }

  lemma {:induction false} RunGoesOn(run: seq<Both>, moves: seq<Turn>, m: Turn, hosts: nat, n: nat, size: nat)
    requires Running(run, moves, hosts, n, size)
    requires var b := run[|run| - 1];
      && CanMove(b, m, hosts, n, size)
      && (m.OfWrites? && m.action.Issue? ==> OneOwner(Step(b.writing, m.action, hosts, n), hosts))
    ensures Running(run + [After(run[|run| - 1], m, hosts, n, size)], moves + [m], hosts, n, size)
  {
    var b := run[|run| - 1];
    var c := After(b, m, hosts, n, size);
    StaysSound(b, m, hosts, n, size);
    NoClashing(c.writing, hosts);
    OneMoreMove(run, moves, m, hosts, n, size);
    hide Sound, Ordered, NoClash, CanMove, After, BothRun;
  }

  lemma {:induction false} OneMoreMove(run: seq<Both>, moves: seq<Turn>, m: Turn, hosts: nat, n: nat, size: nat)
    requires BothRun(run, moves, hosts, n, size) && CanMove(run[|run| - 1], m, hosts, n, size)
    requires NoClash(After(run[|run| - 1], m, hosts, n, size).writing)
    ensures BothRun(run + [After(run[|run| - 1], m, hosts, n, size)], moves + [m], hosts, n, size)
  {
    hide CanMove, After, NoClash, BothInit;
    var c := After(run[|run| - 1], m, hosts, n, size);
    var longer, more := run + [c], moves + [m];
    forall i | 0 <= i < |more|
      ensures CanMove(longer[i], more[i], hosts, n, size) && longer[i + 1] == After(longer[i], more[i], hosts, n, size)
    {
      if i < |moves| {
        assert CanMove(run[i], moves[i], hosts, n, size) && run[i + 1] == After(run[i], moves[i], hosts, n, size);
      }
    }
  }

  lemma {:induction false} StaysSound(b: Both, m: Turn, hosts: nat, n: nat, size: nat)
    requires CanMove(b, m, hosts, n, size) && Sound(b.writing, hosts) && Ordered(b.reading, hosts)
    requires m.OfWrites? && m.action.Issue? ==> OneOwner(Step(b.writing, m.action, hosts, n), hosts)
    ensures var c := After(b, m, hosts, n, size); Sound(c.writing, hosts) && Ordered(c.reading, hosts)
  {
    hide Step, Ordered, After, Cut, Full;
    Sides(b, m, hosts, n, size);
    match m
    case OfWrites(a) =>
      OrderKept(b.writing, a, hosts, n);
      if !a.Issue? {
        OwnerKept(b.writing, a, hosts, n);
      }
    case OfReads(a) =>
      OrderKept(b.reading, a, hosts, n);
    case _ =>
  }

  // ----- How far everything still has to go -----

  ghost function Total(vs: seq<nat>): nat {
    if |vs| == 0 then 0 else Total(vs[..|vs| - 1]) + vs[|vs| - 1]
  }

  lemma {:induction false} TotalUpdate(vs: seq<nat>, h: nat, x: nat)
    requires h < |vs|
    ensures Total(vs[h := x]) + vs[h] == Total(vs) + x
  {
    var k := |vs| - 1;
    if h == k {
      assert vs[h := x][..k] == vs[..k];
    } else {
      TotalUpdate(vs[..k], h, x);
      assert vs[h := x][..k] == vs[..k][h := x];
    }
  }

  /** Each stage is one step nearer to the end than the one before it. */
  ghost function HostDistance(forward: seq<seq<Payload>>, backward: seq<seq<Payload>>): nat
    requires |forward| == |backward| == STAGES
  {
    9 * |forward[0]| + 8 * |forward[1]| + 7 * |forward[2]| + 3 * |backward[0]| + 2 * |backward[1]| + |backward[2]|
  }

  ghost function HostDistances(s: State): (vs: seq<nat>)
    requires Shape(s, |s.issued|)
    ensures |vs| == |s.issued|
  {
    seq(|s.issued|, h requires 0 <= h < |s.issued| => HostDistance(s.forward[h], s.backward[h]))
  }

  ghost function Distance(s: State): nat
    requires Shape(s, |s.issued|)
  {
    Total(HostDistances(s)) + 6 * |s.controller| + 5 * |s.pending| + 4 * |s.acks|
  }

  ghost predicate Moves(a: Action) {
    !a.Issue? && (a.Forward? || a.Backward? ==> a.count > 0)
  }

  /** The host whose queues a step changes. */
  ghost function HostOf(s: State, a: Action, hosts: nat, n: nat): nat
    requires Shape(s, hosts) && Enabled(s, a, hosts, n)
  {
    match a
    case Issue(h, _, _) => h
    case Forward(h, _, _) => h
    case Enter(h) => h
    case Return => s.route[s.acks[0].addr]
    case Backward(h, _, _) => h
    case TakeAck(h) => h
    case _ => 0
  }

  lemma {:induction false} OtherHosts(s: State, a: Action, hosts: nat, n: nat, g: nat)
    requires Shape(s, hosts) && Enabled(s, a, hosts, n) && g < hosts && g != HostOf(s, a, hosts, n)
    ensures var t := Step(s, a, hosts, n); t.forward[g] == s.forward[g] && t.backward[g] == s.backward[g]
  {
    hide Write, CountAck, Move;
  }

  lemma {:induction false} OneHostMoves(s: State, a: Action, hosts: nat, n: nat)
    requires Shape(s, hosts) && Enabled(s, a, hosts, n) && Moves(a) && !a.Deliver? && !a.Complete?
    ensures var t, h := Step(s, a, hosts, n), HostOf(s, a, hosts, n);
      && h < hosts
      && HostDistance(t.forward[h], t.backward[h]) + 6 * |t.controller| + 5 * |t.pending| + 4 * |t.acks|
         < HostDistance(s.forward[h], s.backward[h]) + 6 * |s.controller| + 5 * |s.pending| + 4 * |s.acks|
  {
    hide Write, CountAck;
  }

  lemma {:induction false} NoHostMoves(s: State, a: Action, hosts: nat, n: nat)
    requires Shape(s, hosts) && Enabled(s, a, hosts, n) && (a.Deliver? || a.Complete?)
    ensures var t := Step(s, a, hosts, n);
      && t.forward == s.forward && t.backward == s.backward && t.issued == s.issued
      && 6 * |t.controller| + 5 * |t.pending| + 4 * |t.acks| < 6 * |s.controller| + 5 * |s.pending| + 4 * |s.acks|
  {
    hide Write, CountAck, Move;
  }

  lemma {:induction false} NearerTheEnd(s: State, a: Action, hosts: nat, n: nat)
    requires Shape(s, hosts) && Enabled(s, a, hosts, n) && Moves(a)
    ensures Distance(Step(s, a, hosts, n)) < Distance(s)
  {
    hide Step, Enabled, HostDistance;
    var t := Step(s, a, hosts, n);
    if a.Deliver? || a.Complete? {
      NoHostMoves(s, a, hosts, n);
      assert HostDistances(t) == HostDistances(s);
    } else {
      var h := HostOf(s, a, hosts, n);
      OneHostMoves(s, a, hosts, n);
      forall g | 0 <= g < hosts && g != h
        ensures t.forward[g] == s.forward[g] && t.backward[g] == s.backward[g]
      {
        OtherHosts(s, a, hosts, n, g);
      }
      var x := HostDistance(t.forward[h], t.backward[h]);
      assert HostDistances(t) == HostDistances(s)[h := x];
      TotalUpdate(HostDistances(s), h, x);
    }
  }

  // ----- What goes on without the hosts -----

  /** Nothing is issued, seen or freed, and every new signal is in the table. */
  ghost predicate Quiet(b: Both, c: Both, hosts: nat)
    requires BothShape(b, hosts) && BothShape(c, hosts)
  {
    && c.waits == b.waits && b.flags <= c.flags
    && c.writing.issued == b.writing.issued && c.writing.packets == b.writing.packets
    && c.reading.issued == b.reading.issued && c.reading.packets == b.reading.packets
    && forall h :: 0 <= h < hosts ==> NewSignals(b.writing.signals[h], c.writing.signals[h], c.flags)
  }

  ghost predicate NewSignals(was: seq<nat>, signals: seq<nat>, flags: set<nat>) {
    was <= signals && forall k :: |was| <= k < |signals| ==> signals[k] in flags
  }

  lemma {:induction false} QuietAlready(b: Both, hosts: nat)
    requires BothShape(b, hosts)
    ensures Quiet(b, b, hosts)
  {
  }

  lemma {:induction false} StaysQuiet(b: Both, c: Both, d: Both, hosts: nat)
    requires BothShape(b, hosts) && BothShape(c, hosts) && BothShape(d, hosts)
    requires Quiet(b, c, hosts) && Quiet(c, d, hosts)
    ensures Quiet(b, d, hosts)
  {
    forall h | 0 <= h < hosts
      ensures NewSignals(b.writing.signals[h], d.writing.signals[h], d.flags)
    {
      assert NewSignals(b.writing.signals[h], c.writing.signals[h], c.flags);
      assert NewSignals(c.writing.signals[h], d.writing.signals[h], d.flags);
    }
  }

  /** A step of a thread, not of a host's process. */
  ghost predicate OfThread(m: Turn) {
    (m.OfWrites? || m.OfReads?) && Moves(m.action)
  }

  lemma {:induction false} ThreadQuiet(b: Both, m: Turn, hosts: nat, n: nat, size: nat)
    requires CanMove(b, m, hosts, n, size) && OfThread(m)
    ensures Quiet(b, After(b, m, hosts, n, size), hosts)
  {
    hide Step, Enabled, Raised, CountRack, Lookup;
    var a := m.action;
    if m.OfWrites? {
      OwnerKept(b.writing, a, hosts, n);
      forall h | 0 <= h < hosts
        ensures NewSignals(b.writing.signals[h], Step(b.writing, a, hosts, n).signals[h],
                           b.flags + Raised(b.writing, a, n))
      {
        SignalsAfter(b.writing, a, hosts, n, h);
      }
    } else {
      OwnerKept(b.reading, a, hosts, n);
    }
  }

  lemma {:induction false} SignalsAfter(s: State, a: Action, hosts: nat, n: nat, h: nat)
    requires Shape(s, hosts) && Enabled(s, a, hosts, n) && h < hosts
    ensures var t := Step(s, a, hosts, n).signals[h];
      t == s.signals[h] || (|t| == |s.signals[h]| + 1 && s.signals[h] <= t && t[|t| - 1] in Raised(s, a, n))
  {
    hide Write, Move;
  }

  ghost function Ahead(b: Both, hosts: nat): nat
    requires BothShape(b, hosts)
  {
    Distance(b.writing) + Distance(b.reading)
  }

  lemma {:induction false} ThreadNearer(b: Both, m: Turn, hosts: nat, n: nat, size: nat)
    requires CanMove(b, m, hosts, n, size) && OfThread(m)
    ensures Ahead(After(b, m, hosts, n, size), hosts) < Ahead(b, hosts)
  {
    hide Step, Enabled, Distance, After, CountRack, Lookup;
    Sides(b, m, hosts, n, size);
    if m.OfWrites? {
      NearerTheEnd(b.writing, m.action, hosts, n);
    } else {
      NearerTheEnd(b.reading, m.action, hosts, n);
    }
  }

  // ----- Both classes -----

  ghost function LaneThen(b: Both, m: Turn, read: bool, hosts: nat, n: nat, size: nat, g: nat): Lane
    requires CanMove(b, m, hosts, n, size) && g < hosts
  {
    match m
    case OfWrites(a) => if read then LaneOf(b.reading, g) else LaneNext(b.writing, a, hosts, n, g)
    case OfReads(a) => if read then LaneNext(b.reading, a, hosts, n, g) else LaneOf(b.writing, g)
    case _ => LaneOf(if read then b.reading else b.writing, g)
  }

  ghost function DeskThen(b: Both, m: Turn, read: bool, hosts: nat, n: nat, size: nat): Desk
    requires CanMove(b, m, hosts, n, size)
  {
    match m
    case OfWrites(a) => if read then DeskOf(b.reading) else DeskNext(b.writing, a, hosts, n)
    case OfReads(a) => if read then DeskNext(b.reading, a, hosts, n) else DeskOf(b.writing)
    case _ => DeskOf(if read then b.reading else b.writing)
  }

  /** What a step leaves in the ports and at the controller. */
  ghost predicate Moved(b: Both, m: Turn, c: Both, hosts: nat, n: nat, size: nat) {
    && CanMove(b, m, hosts, n, size) && BothShape(c, hosts) && c == After(b, m, hosts, n, size)
    && DeskOf(c.writing) == DeskThen(b, m, false, hosts, n, size)
    && DeskOf(c.reading) == DeskThen(b, m, true, hosts, n, size)
    && forall g :: 0 <= g < hosts ==>
         && LaneOf(c.writing, g) == LaneThen(b, m, false, hosts, n, size, g)
         && LaneOf(c.reading, g) == LaneThen(b, m, true, hosts, n, size, g)
  }

  lemma {:induction false} MovedBy(b: Both, m: Turn, hosts: nat, n: nat, size: nat)
    requires CanMove(b, m, hosts, n, size)
    ensures Moved(b, m, After(b, m, hosts, n, size), hosts, n, size)
  {
    hide Step, Enabled, After, LaneOf, DeskOf, LaneNext, DeskNext, Cut, Full;
    Sides(b, m, hosts, n, size);
    match m
    case OfWrites(a) =>
      DeskAfter(b.writing, a, hosts, n);
      forall g | 0 <= g < hosts
        ensures LaneOf(Step(b.writing, a, hosts, n), g) == LaneNext(b.writing, a, hosts, n, g)
      {
        LaneAfter(b.writing, a, hosts, n, g);
      }
    case OfReads(a) =>
      DeskAfter(b.reading, a, hosts, n);
      forall g | 0 <= g < hosts
        ensures LaneOf(Step(b.reading, a, hosts, n), g) == LaneNext(b.reading, a, hosts, n, g)
      {
        LaneAfter(b.reading, a, hosts, n, g);
      }
    case _ =>
  }

  ghost predicate Issues(m: Turn) {
    (m.OfWrites? || m.OfReads?) && m.action.Issue?
  }

  /** No two hosts' reads clash either, now or before. */
  ghost predicate Calm(run: seq<Both>, hosts: nat)
  {
    |run| > 0 && BothShape(run[|run| - 1], hosts) && OneOwner(run[|run| - 1].reading, hosts) && ReadsApart(run)
  }

  lemma {:induction false} StaysCalm(run: seq<Both>, moves: seq<Turn>, m: Turn, hosts: nat, n: nat, size: nat)
    requires Running(run, moves, hosts, n, size) && CanMove(run[|run| - 1], m, hosts, n, size)
    requires Calm(run, hosts)
    requires m.OfReads? && Issues(m) ==> OneOwner(Step(run[|run| - 1].reading, m.action, hosts, n), hosts)
    ensures Calm(run + [After(run[|run| - 1], m, hosts, n, size)], hosts)
  {
    var b := run[|run| - 1];
    var c := After(b, m, hosts, n, size);
    ReadersKept(b, m, hosts, n, size);
    NoClashing(c.reading, hosts);
    hide Running, CanMove, After, OneOwner, NoClash;
  }

  lemma {:induction false} ReadersKept(b: Both, m: Turn, hosts: nat, n: nat, size: nat)
    requires CanMove(b, m, hosts, n, size) && Ordered(b.reading, hosts) && OneOwner(b.reading, hosts)
    requires m.OfReads? && Issues(m) ==> OneOwner(Step(b.reading, m.action, hosts, n), hosts)
    ensures Sound(After(b, m, hosts, n, size).reading, hosts)
  {
    hide Step, Ordered, After, Cut, Full;
    Sides(b, m, hosts, n, size);
    if m.OfReads? {
      OrderKept(b.reading, m.action, hosts, n);
      if !m.action.Issue? {
        OwnerKept(b.reading, m.action, hosts, n);
      }
    }
  }
}
