/**
 * A run of ports and controller in which a response goes to the wrong host: one signal lets two hosts read one address,
 * and their requests are in flight together.
 */
module Misrouting {
  import opened Basics
  import opened CxlSystem
  import opened CxlPorts
  import opened ReadBack
  import opened PathMoves
  import opened Stretches
  import opened WholePath
  import opened AtRest
  import opened PacketsOfTwo

  /** Where the reads of both hosts are. */
  datatype Place = Place(first: seq<seq<Payload>>, second: seq<seq<Payload>>, desk: Desk, pending: seq<Payload>)

  ghost function Reads(s: State): Place
    requires Shape(s, 2)
  {
    Place(s.forward[0], s.forward[1], DeskOf(s), s.pending)
  }

  ghost function Put(l: Place, h: nat, stages: seq<seq<Payload>>): Place
    requires h < 2
  {
    if h == 0 then l.(first := stages) else l.(second := stages)
  }

  ghost function At(l: Place, h: nat): seq<seq<Payload>>
    requires h < 2
  {
    if h == 0 then l.first else l.second
  }

  // ----- What the steps do to the place -----

  lemma {:induction false} ForwardReads(s: State, h: nat, i: nat, k: nat)
    requires Shape(s, 2) && h < 2 && Enabled(s, Forward(h, i, k), 2, 2)
    ensures Reads(Step(s, Forward(h, i, k), 2, 2)) == Put(Reads(s), h, CxlSystem.Move(s.forward[h], i, k))
  {
    hide CxlSystem.Move;
  }

  lemma {:induction false} EnterReads(s: State, h: nat)
    requires Shape(s, 2) && h < 2 && Enabled(s, Enter(h), 2, 2)
    ensures var last := s.forward[h][2];
      Reads(Step(s, Enter(h), 2, 2))
      == Put(Reads(s), h, s.forward[h][2 := last[1..]]).(desk := Entered(DeskOf(s), h, last[0]))
  {
  }

  lemma {:induction false} MovedTwice(p: Payload, q: Payload)
    ensures Move([[p, q], [], []], 0, 1) == [[q], [p], []] && Move([[q], [p], []], 0, 1) == [[], [p, q], []]
    ensures Move([[], [p, q], []], 1, 2) == [[], [], [p, q]]
    ensures [[], [], [p, q]][2 := [p, q][1..]] == [[], [], [q]] && [[], [], [q]][2 := [q][1..]] == [[], [], []]
  {
    assert [p, q][1..] == [q] && [p, q][..1] == [p] && [q][1..] == [] && [q][..1] == [q] && [p, q][..2] == [p, q];
    assert [p, q][2..] == [] && [] + [p] == [p] && [p] + [q] == [p, q] && [] + [p, q] == [p, q];
  }

  lemma {:induction false} AfterForward(b: Both, c: Both, h: nat, i: nat, k: nat, size: nat)
    requires Moved(b, OfReads(Forward(h, i, k)), c, 2, 2, size) && h < 2
    ensures i < 2 && k <= |b.reading.forward[h][i]|
    ensures Reads(c.reading) == Put(Reads(b.reading), h, CxlSystem.Move(b.reading.forward[h], i, k))
    ensures c.writing == b.writing
  {
    Sides(b, OfReads(Forward(h, i, k)), 2, 2, size);
    hide Step, LaneThen, DeskThen;
    ForwardReads(b.reading, h, i, k);
  }

  lemma {:induction false} AfterEnter(b: Both, c: Both, h: nat, size: nat)
    requires Moved(b, OfReads(Enter(h)), c, 2, 2, size) && h < 2
    ensures |b.reading.forward[h][2]| > 0 && c.writing == b.writing
    ensures var last := b.reading.forward[h][2];
      Reads(c.reading)
      == Put(Reads(b.reading), h, b.reading.forward[h][2 := last[1..]]).(desk := Entered(DeskOf(b.reading), h, last[0]))
  {
    Sides(b, OfReads(Enter(h)), 2, 2, size);
    hide Step, LaneThen, DeskThen;
    EnterReads(b.reading, h);
  }

  /** The wrapper's two reads are with the upstream port, which then packs them into a flit. */
  method IntoPort(path: Path, h: nat, p: Payload, q: Payload)
    requires path.Valid() && path.hosts == 2 && path.n == 2 && h < 2
    requires path.b.reading.forward[h] == [[p, q], [], []] && path.usps[h].AtRest()
    modifies path, path.usps[h]
    ensures path.Valid() && ReadFlitDue(path.usps[h]) && path.b.writing == old(path.b.writing)
    ensures Reads(path.b.reading) == old(Put(Reads(path.b.reading), h, [[], [p, q], []]))
  {
    MovedTwice(p, q);
    hide Running, ControllerAt, Calm, Quiet, Ahead, CxlSystem.Move, Moved, UspAt, DspAt;
    ghost var b0 := path.b;
    path.Send(h, true);
    AfterForward(b0, path.b, h, 0, 1, path.size);
    ghost var b1 := path.b;
    path.Send(h, true);
    AfterForward(b1, path.b, h, 0, 1, path.size);
    assert path.HostAt(h);
    HoldsReads(path.usps[h], LaneOf(path.b.writing, h), LaneOf(path.b.reading, h));
  }

  lemma {:induction false} HoldsReads(p: Usp<Payload>, w: Lane, r: Lane)
    requires UspAt(p, w, r)
    ensures p.rQueue == r.port
  {
  }

  /** A read packet passes from the wrapper to the controller, by itself. */
  method IntoController(path: Path, h: nat, p: Payload, q: Payload)
    requires path.Valid() && path.hosts == 2 && path.n == 2 && h < 2
    requires path.b.reading.forward[h] == [[p, q], [], []] && path.usps[h].AtRest()
    modifies path, path.usps[h], path.dsps[h], path.controller
    ensures path.Valid() && path.b.writing == old(path.b.writing)
    ensures path.controller.requestAt == old(path.controller.requestAt)
    ensures path.controller.responseAt == old(path.controller.responseAt)
    ensures Reads(path.b.reading)
         == old(Put(Reads(path.b.reading), h, [[], [], []])
                .(desk := Entered(Entered(DeskOf(path.b.reading), h, p), h, q)))
  {
    MovedTwice(p, q);
    hide Running, path.HostsAt, ControllerAt, Calm, Quiet, Ahead, CxlSystem.Move, Moved, ReadFlitDue;
    IntoPort(path, h, p, q);
    path.RunUsp(h);
    ghost var b0 := path.b;
    path.RunUsp(h);
    AfterForward(b0, path.b, h, 1, 2, path.size);
    ghost var b1 := path.b;
    path.EnterOne(h, true);
    AfterEnter(b1, path.b, h, path.size);
    ghost var b2 := path.b;
    path.EnterOne(h, true);
    AfterEnter(b2, path.b, h, path.size);
  }

  // ----- The controller's answer -----

  lemma {:induction false} AfterDeliver(b: Both, c: Both, size: nat)
    requires Moved(b, OfReads(Deliver), c, 2, 2, size)
    ensures |b.reading.controller| > 0 && c.writing == b.writing && c.reading.acks == b.reading.acks
    ensures c.reading.pending == b.reading.pending + [b.reading.controller[0]] && c.reading.route == b.reading.route
  {
    Sides(b, OfReads(Deliver), 2, 2, size);
    hide LaneThen, DeskThen, Write;
  }

  lemma {:induction false} AfterComplete(b: Both, c: Both, size: nat)
    requires Moved(b, OfReads(Complete(0)), c, 2, 2, size)
    ensures |b.reading.pending| > 0 && c.writing == b.writing
    ensures c.reading.acks == b.reading.acks + [b.reading.pending[0]] && c.reading.route == b.reading.route
  {
    Sides(b, OfReads(Complete(0)), 2, 2, size);
    hide LaneThen, DeskThen, Write;
  }

  /** The last step sends a response of host 0 to host 1. */
  ghost predicate WentWrong(path: Path)
    reads path
  {
    && path.hosts == 2 && path.n == 2 && |path.run| == |path.moves| + 1 > 1
       && path.moves[|path.moves| - 1] == OfReads(Return)
    && Shape(path.b.reading, 2) && Shape(path.run[|path.run| - 2].reading, 2)
    && var s, t := path.run[|path.run| - 2].reading, path.b.reading;
    && s.acks != [] && s.acks[0].host == 0
    && t.backward[1][0] == s.backward[1][0] + [s.acks[0]] && t.backward[0][0] == s.backward[0][0]
  }

  /** The controller delivers the oldest read, its DRAM finishes it, and the response goes where the table says. */
  method AnswerFirst(path: Path)
    requires path.Valid() && path.hosts == 2 && path.n == 2
    requires path.controller.requestAt.Ready? && path.controller.responseAt.Idle?
    requires path.b.writing.acks == path.b.reading.acks == path.b.reading.pending == []
    requires var s := path.b.reading;
      s.controller != [] && s.controller[0].host == 0 && s.controller[0].addr in s.route
          && s.route[s.controller[0].addr] == 1
    modifies path, path.dsps, path.controller
    ensures path.Valid() && WentWrong(path)
  {
    hide Running, path.HostsAt, ControllerAt, Calm, Quiet, Ahead, Moved, path.WorkLeft;
    path.RunRequests();
    ghost var b0 := path.b;
    path.RunRequests();
    AfterDeliver(b0, path.b, path.size);
    ghost var b1 := path.b;
    path.Finish(0, true);
    AfterComplete(b1, path.b, path.size);
    path.RunResponses();
    path.RunResponses();
    path.Last();
    ghost var b2 := path.b;
    path.RunResponses();
    AfterReturn(b2, path.b, path.size);
  }

  lemma {:induction false} AfterReturn(b: Both, c: Both, size: nat)
    requires Moved(b, OfReads(Return), c, 2, 2, size) && b.reading.acks != []
    requires b.reading.acks[0].addr in b.reading.route && b.reading.route[b.reading.acks[0].addr] == 1
    ensures c.reading.backward[1][0] == b.reading.backward[1][0] + [b.reading.acks[0]]
    ensures c.reading.backward[0][0] == b.reading.backward[0][0]
  {
    assert LaneOf(c.reading, 1).back == LaneOf(b.reading, 1).back + [b.reading.acks[0]];
    assert LaneOf(c.reading, 0).back == LaneOf(b.reading, 0).back;
  }

  // ----- The run -----

  ghost predicate TwoHosts(path: Path)
    reads path, path.usps, path.dsps, path.controller
  {
    path.Valid() && path.hosts == 2 && path.n == 2 && path.size == 1
  }

  lemma {:induction false} TwoStartEmpty(b: Both)
    requires BothInit(b, 2)
    ensures OnlyHost(b.writing, 2, 0) && b.waits == [Moving, Moving] && b.flags == {}
    ensures b.writing.packets == [[], []] && b.writing.signals == [[], []] && b.reading.issued == [[], []]
  {
    assert CxlSystem.Idle(b.writing, 0) && CxlSystem.Idle(b.writing, 1);
    assert CxlSystem.Idle(b.reading, 0) && CxlSystem.Idle(b.reading, 1);
  }

  lemma {:induction false} TwoAppended()
    ensures [[], []][0 := [] + [0 as nat]] == [[0], []] && [[0 as nat], []][0 := [0] + [0]] == [[0, 0], []]
  {
    assert [] + [0 as nat] == [0] && [0 as nat] + [0] == [0, 0];
  }

  /** Host 0 writes two packets of one address and no reads are under way. */
  method SendWritesOfHost0(path: Path)
    requires TwoHosts(path) && Calm(path.run, 2) && BothInit(path.b, 2)
    modifies path`b, path`run, path`moves
    ensures TwoHosts(path) && Calm(path.run, 2) && path.b.waits == [Moving, Moving]
    ensures path.b.writing.packets == [[0, 0], []] && path.b.writing.signals == [[], []]
    ensures path.b.reading.issued == [[], []]
  {
    TwoStartEmpty(path.b);
    TwoAppended();
    hide Running, path.HostsAt, ControllerAt, Calm, OnlyHost, BothInit;
    SendWrites(path, 0, 0);
    SendWrites(path, 0, 0);
  }

  /** At rest: the signal is up, and everything is empty. */
  ghost predicate SignalUp(path: Path)
    reads path, path.usps, path.dsps, path.controller
  {
    && TwoHosts(path) && path.b.waits == [Moving, Moving] && 0 in path.b.flags
    && path.b.reading.issued == [[], []] && AllEmpty(path)
  }

  ghost predicate AllEmpty(path: Path)
    requires TwoHosts(path)
    reads path, path.usps, path.dsps, path.controller
  {
    && Reads(path.b.reading).first == Reads(path.b.reading).second == [[], [], []]
    && path.b.reading.controller == path.b.reading.pending == path.b.reading.acks == path.b.writing.acks == []
    && path.usps[0].AtRest() && path.usps[1].AtRest()
    && path.controller.requestAt.Ready? && path.controller.responseAt.Idle?
  }

  lemma {:induction false} HostEmpty(path: Path, h: nat)
    requires TwoHosts(path) && !path.Busy() && h < 2 && path.b.reading.issued[h] == []
    ensures path.b.reading.forward[h] == [[], [], []] && path.usps[h].AtRest()
    ensures OnlyInPort(path.b.writing, h) && OnlyInPort(path.b.reading, h)
  {
    RestMeans(path, h);
    assert !path.HostBusy(h);
    hide path.HostsAt, Running, ControllerAt;
  }

  lemma {:induction false} EmptyAtRest(path: Path)
    requires TwoHosts(path) && !path.Busy() && path.b.reading.issued == [[], []]
    ensures AllEmpty(path)
  {
    hide path.HostsAt, Running, ControllerAt, path.HostBusy, Usp.AtRest;
    HostEmpty(path, 0);
    HostEmpty(path, 1);
  }

  lemma {:induction false} SignalRaised(path: Path, sent: Both)
    requires TwoHosts(path) && !path.Busy() && BothShape(sent, 2) && Quiet(sent, path.b, 2)
    requires sent.writing.packets == [[0, 0], []] && sent.writing.signals == [[], []]
    ensures 0 in path.b.flags
  {
    SignalledAtRestExactlyWhen(path, 0);
    assert NewSignals(sent.writing.signals[0], path.b.writing.signals[0], path.b.flags);
    assert path.b.writing.packets[0] == [0, 0];
    assert path.b.writing.signals[0][0] == 0;
  }

  method RaiseSignal(path: Path)
    requires TwoHosts(path) && Calm(path.run, 2) && BothInit(path.b, 2)
    modifies path, path.usps, path.dsps, path.controller
    ensures SignalUp(path)
  {
    hide Running, path.HostsAt, ControllerAt, Calm, path.Busy, BothInit, AllEmpty;
    SendWritesOfHost0(path);
    ghost var sent := path.b;
    path.RunToRest();
    SignalRaised(path, sent);
    EmptyAtRest(path);
  }

  /** Both hosts see the signal before either frees it. */
  method SeeTwice(path: Path)
    requires SignalUp(path)
    modifies path`b, path`run, path`moves
    ensures TwoHosts(path) && AllEmpty(path)
    ensures path.b.waits == [Freed(0), Freed(0)] && path.b.reading.issued == [[], []]
  {
    hide Running, path.HostsAt, ControllerAt, Calm, LaneThen, DeskThen;
    path.Proceed(SeeSignal(0, 0));
    path.Proceed(SeeSignal(1, 0));
    path.Proceed(FreeSignal(0));
    path.Proceed(FreeSignal(1));
  }

  lemma {:induction false} ReadIssued(s: State, h: nat)
    requires Shape(s, 2) && h < 2 && s.issued[h] == [] && s.forward[h] == [[], [], []]
    ensures var a := Issue(h, 0, ReadPacket(h, 0));
      && Enabled(s, a, 2, 2) && Cut(a.payloads, 0, 1)
      && Reads(Step(s, a, 2, 2)) == Put(Reads(s), h, [ReadPacket(h, 0), [], []])
      && Step(s, a, 2, 2).issued == s.issued[h := ReadPacket(h, 0)] && Step(s, a, 2, 2).route == s.route
  {
    assert [] + ReadPacket(h, 0) == ReadPacket(h, 0);
    assert [[], [], []][0 := ReadPacket(h, 0)] == [ReadPacket(h, 0), [], []];
  }

  /** A read packet of host h is sent. */
  method SendReads(path: Path, h: nat)
    requires TwoHosts(path) && h < 2 && path.b.waits[h] == Freed(0)
    requires path.b.reading.issued[h] == [] && path.b.reading.forward[h] == [[], [], []]
    modifies path`b, path`run, path`moves
    ensures TwoHosts(path) && path.b.writing == old(path.b.writing)
    ensures Reads(path.b.reading) == old(Put(Reads(path.b.reading), h, [ReadPacket(h, 0), [], []]))
    ensures path.b.waits == old(path.b.waits[h := Moving])
    ensures path.b.reading.issued == old(path.b.reading.issued[h := ReadPacket(h, 0)])
  {
    hide Running, path.HostsAt, ControllerAt, Calm, LaneThen, DeskThen, Step, Enabled, Cut;
    ReadIssued(path.b.reading, h);
    path.Proceed(OfReads(Issue(h, 0, ReadPacket(h, 0))));
  }

  /** The reads of both hosts wait in the controller, host 0's first. */
  method BothAtController(path: Path)
    requires TwoHosts(path) && AllEmpty(path)
    requires path.b.waits == [Freed(0), Freed(0)] && path.b.reading.issued == [[], []]
    modifies path, path.usps, path.dsps, path.controller
    ensures path.Valid() && path.controller.requestAt.Ready? && path.controller.responseAt.Idle?
    ensures path.b.writing.acks == path.b.reading.acks == path.b.reading.pending == []
    ensures var s := path.b.reading;
      s.controller != [] && s.controller[0].host == 0 && s.controller[0].addr in s.route
          && s.route[s.controller[0].addr] == 1
  {
    hide Running, path.HostsAt, ControllerAt, Calm, Usp.AtRest;
    SendReads(path, 0);
    SendReads(path, 1);
    var p, q := ReadPacket(0, 0), ReadPacket(1, 0);
    assert p == [p[0], p[1]] && q == [q[0], q[1]];
    IntoController(path, 0, p[0], p[1]);
    IntoController(path, 1, q[0], q[1]);
  }

  /**
   * Two hosts read what one wrote. Both see its one signal, their requests are in the controller together, and the
   * table sends host 0's response to host 1.
   */
  method ResponseToTheWrongHost(portAndLink: real, period: real, ctrl: real, link: real) returns (path: Path)
    ensures fresh(path) && path.Valid() && WentWrong(path)
  {
    path := MakeTwo(portAndLink, period, ctrl, link);
    GoWrong(path);
  }

  method MakeTwo(portAndLink: real, period: real, ctrl: real, link: real) returns (path: Path)
    ensures fresh(path) && TwoHosts(path) && Calm(path.run, 2) && BothInit(path.b, 2)
    ensures fresh(path.controller) && |path.usps| == |path.dsps| == 2
    ensures fresh(path.usps[0]) && fresh(path.usps[1]) && fresh(path.dsps[0]) && fresh(path.dsps[1])
  {
    path := new Path(2, 2, 1, portAndLink, period, ctrl, link);
  }

  method GoWrong(path: Path)
    requires TwoHosts(path) && Calm(path.run, 2) && BothInit(path.b, 2)
    modifies path, path.usps, path.dsps, path.controller
    ensures path.Valid() && WentWrong(path)
  {
    RaiseSignal(path);
    SeeTwice(path);
    hide AllEmpty, WentWrong;
    BothAtController(path);
    AnswerFirst(path);
  }
}
