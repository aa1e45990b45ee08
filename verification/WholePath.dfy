/**
 * The ports and the controller at work together: the objects' threads run from wait to wait in any order, and what they
 * do is a run of the state machine of reads and writes.
 */
module WholePath {
  import opened Basics
  import opened CxlSystem
  import opened CxlPorts
  import opened ReadBack
  import opened HandedOver
  import opened PathMoves
  import opened Stretches

  /** Less in two measures, the first one deciding. */
  ghost predicate Less(a: nat, x: nat, b: nat, y: nat) {
    a < b || (a == b && x < y)
  }

  ghost predicate Empty(u: Usp<Payload>, d: Dsp<Payload>)
    reads u, d
  {
    && UspAt(u, Lane([], 0, [], []), Lane([], 0, [], [])) && DspAt(d, Lane([], 0, [], []), Lane([], 0, [], []))
    && u.AtRest() && u.Work() == 1
  }

  function Nothing(hosts: nat): (s: State)
    ensures Init(s, hosts)
  {
    var none := seq(hosts, _ => []);
    var stages := seq(hosts, _ => [[], [], []]);
    State(none, stages, [], map[], [], map[], [], [], stages, none, seq(hosts, _ => []), seq(hosts, _ => []),
          seq(hosts, _ => 0), seq(hosts, _ => []))
  }

  /** Before anything was issued. */
  function Beginning(hosts: nat): (b: Both)
    ensures BothInit(b, hosts)
  {
    Both(Nothing(hosts), Nothing(hosts), {}, seq(hosts, _ => Moving), seq(hosts, _ => Collect([], 0, [])),
         seq(hosts, _ => []))
  }

  method MakePorts(hosts: nat, n: nat, portAndLink: real, period: real)
    returns (us: seq<Usp<Payload>>, ds: seq<Dsp<Payload>>)
    requires n >= READS_PER_FLIT
    ensures |us| == |ds| == hosts && Distinct(us) && Distinct(ds)
    ensures forall h :: 0 <= h < hosts ==> fresh(us[h]) && fresh(ds[h]) && Empty(us[h], ds[h])
  {
    us, ds := [], [];
    for h := 0 to hosts
      invariant |us| == |ds| == h && Distinct(us) && Distinct(ds)
      invariant forall g :: 0 <= g < h ==> fresh(us[g]) && fresh(ds[g]) && Empty(us[g], ds[g])
    {
      var u := new Usp<Payload>(n, portAndLink, period);
      var d := new Dsp<Payload>();
      us, ds := us + [u], ds + [d];
    }
  }

  lemma {:induction false} Begins(b: Both, hosts: nat)
    requires BothInit(b, hosts)
    ensures forall h :: 0 <= h < hosts ==>
      LaneOf(b.writing, h) == Lane([], 0, [], []) && LaneOf(b.reading, h) == Lane([], 0, [], [])
    ensures DeskOf(b.writing) == DeskOf(b.reading) == Desk([], [], map[])
  {
    forall h | 0 <= h < hosts
      ensures LaneOf(b.writing, h) == Lane([], 0, [], []) && LaneOf(b.reading, h) == Lane([], 0, [], [])
    {
      assert CxlSystem.Idle(b.writing, h) && CxlSystem.Idle(b.reading, h);
    }
  }

  lemma {:induction false} OneAnswered(acks: seq<Payload>, k: nat)
    requires 0 < k <= |acks|
    ensures acks[1..][k - 1..] == acks[k..]
  {
  }

  /** A step of one of the classes. */
  function Of(read: bool, a: Action): Turn {
    if read then OfReads(a) else OfWrites(a)
  }

  class Path {
    const hosts: nat
    const n: nat           // payloads per packet
    const size: nat        // bytes per payload
    const usps: seq<Usp<Payload>>
    const dsps: seq<Dsp<Payload>>
    const controller: Controller
    var b: Both            // with the wrappers' queues, the memories, and all that was issued and answered
    ghost var run: seq<Both>
    ghost var moves: seq<Turn>
    ghost var works: seq<nat>

    ghost predicate Objects()
    {
      |usps| == |dsps| == hosts && Distinct(usps) && Distinct(dsps)
    }

    /** The state is the last of a run. */
    ghost predicate Going()
      reads this`b, this`run, this`moves
    {
      n >= 2 && Running(run, moves, hosts, n, size) && run[|run| - 1] == b && BothShape(b, hosts)
    }

    ghost predicate HostAt(h: nat)
      requires h < |usps| && h < |dsps| && h < |works| && h < hosts && BothShape(b, hosts)
      reads this`b, this`works, usps[h], dsps[h]
    {
      && UspAt(usps[h], LaneOf(b.writing, h), LaneOf(b.reading, h))
      && DspAt(dsps[h], LaneOf(b.writing, h), LaneOf(b.reading, h))
      && works[h] == usps[h].Work()
    }

    ghost predicate HostsAt()
      requires Objects() && BothShape(b, hosts)
      reads this`b, this`works, usps, dsps
    {
      |works| == hosts && forall h :: 0 <= h < hosts ==> HostAt(h)
    }

    ghost predicate Valid()
      reads this, usps, dsps, controller
    {
      Objects() && Going() && HostsAt() && ControllerAt(controller, DeskOf(b.writing), DeskOf(b.reading))
    }

    constructor (hosts: nat, n: nat, size: nat, portAndLink: real, period: real, ctrl: real, link: real)
      requires n >= READS_PER_FLIT
      ensures Valid() && Calm(run, hosts) && BothInit(b, hosts)
      ensures this.hosts == hosts == |usps| == |dsps| && this.n == n && this.size == size
      ensures fresh(controller) && forall h :: 0 <= h < hosts ==> fresh(usps[h]) && fresh(dsps[h])
    {
      var us, ds := MakePorts(hosts, n, portAndLink, period);
      this.hosts, this.n, this.size := hosts, n, size;
      usps, dsps := us, ds;
      controller := new Controller(ctrl, link, period);
      b := Beginning(hosts);
      run, moves := [Beginning(hosts)], [];
      works := seq(hosts, _ => 1);
      new;
      RunStarts(b, hosts, n, size);
      Begins(b, hosts);
    }

    lemma {:induction false} Last()
      requires Going()
      ensures |run| == |moves| + 1 && run[|run| - 1] == b
    {
      hide Ordered, Sound;
    }

    // ----- A step of the state machine -----

    /** A new read packet leaves every address with one host. */
    ghost predicate StillOwned(was: Both, m: Turn)
      requires CanMove(was, m, hosts, n, size)
    {
      m.OfReads? && Issues(m) ==> OneOwner(Step(was.reading, m.action, hosts, n), hosts)
    }

    method Take(m: Turn)
      requires Going() && CanMove(b, m, hosts, n, size)
      requires m.OfWrites? && Issues(m) ==> OneOwner(Step(b.writing, m.action, hosts, n), hosts)
      modifies this`b, this`run, this`moves
      ensures Going() && Moved(old(b), m, b, hosts, n, size) && run == old(run) + [b] && moves == old(moves) + [m]
      ensures old(Calm(run, hosts)) && StillOwned(old(b), m) ==> Calm(run, hosts)
      ensures OfThread(m) ==> Quiet(old(b), b, hosts) && Ahead(b, hosts) < Ahead(old(b), hosts)
    {
      hide Running, CanMove, After, LaneThen, DeskThen, Quiet, Calm, OneOwner, Ahead, OfThread;
      RunGoesOn(run, moves, m, hosts, n, size);
      MovedBy(b, m, hosts, n, size);
      if Calm(run, hosts) && StillOwned(b, m) {
        StaysCalm(run, moves, m, hosts, n, size);
      }
      if OfThread(m) {
        ThreadQuiet(b, m, hosts, n, size);
        ThreadNearer(b, m, hosts, n, size);
      }
      b := After(b, m, hosts, n, size);
      run, moves := run + [b], moves + [m];
    }

    /** A host's process sends a packet, sees a signal or frees one; the ports and the controller notice nothing. */
    method Proceed(m: Turn)
      requires Valid() && CanMove(b, m, hosts, n, size) && (m.SeeSignal? || m.FreeSignal? || Issues(m))
      requires m.OfWrites? ==> OneOwner(Step(b.writing, m.action, hosts, n), hosts)
      modifies this`b, this`run, this`moves
      ensures Valid() && Moved(old(b), m, b, hosts, n, size)
      ensures old(Calm(run, hosts)) && StillOwned(old(b), m) ==> Calm(run, hosts)
    {
      hide UspAt, DspAt, ControllerAt, Running, Calm, After, CanMove, StillOwned;
      Take(m);
      forall g | 0 <= g < hosts
        ensures HostAt(g)
      {
        assert old(HostAt(g));
      }
    }

    // ----- The threads -----

    ghost function WorkLeft(): nat
      reads this`works, controller
    {
      Total(works) + controller.RequestWork() + controller.ResponseWork()
    }

    /**
     * All hosts but one are as the state says; its upstream port has passed on some requests that the state has not.
     */
    ghost predicate PassedOn(h: nat, writes: nat, reads': nat)
      requires Objects() && BothShape(b, hosts) && h < hosts
      reads this`b, this`works, usps, dsps
    {
      var w, r := LaneOf(b.writing, h), LaneOf(b.reading, h);
      && |works| == hosts && (forall g :: 0 <= g < hosts && g != h ==> HostAt(g))
      && writes <= |w.port| && reads' <= |r.port| && (writes == 0 || reads' == 0)
      && UspAt(usps[h], Passed(w, writes), Passed(r, reads')) && DspAt(dsps[h], Passed(w, writes), Passed(r, reads'))
      && works[h] == usps[h].Work()
    }

    method Forwarded(h: nat, writes: nat, reads': nat)
      requires Objects() && Going() && h < hosts && PassedOn(h, writes, reads')
      requires ControllerAt(controller, DeskOf(b.writing), DeskOf(b.reading))
      modifies this`b, this`run, this`moves
      ensures Valid() && Quiet(old(b), b, hosts) && (old(Calm(run, hosts)) ==> Calm(run, hosts))
      ensures if writes == reads' == 0 then b == old(b) else Ahead(b, hosts) < Ahead(old(b), hosts)
      ensures reads' > 0 ==> Moved(old(b), OfReads(Forward(h, 1, reads')), b, hosts, n, size)
    {
      hide UspAt, DspAt, ControllerAt, Running, Quiet, Calm, Ahead, After, Cut, Full;
      QuietAlready(b, hosts);
      NonePassed(LaneOf(b.writing, h));
      NonePassed(LaneOf(b.reading, h));
      if writes > 0 {
        Take(OfWrites(Forward(h, 1, writes)));
      } else if reads' > 0 {
        Take(OfReads(Forward(h, 1, reads')));
      }
      forall g | 0 <= g < hosts
        ensures HostAt(g)
      {
        assert g != h ==> old(HostAt(g));
      }
    }

    /** The upstream port of host h runs to its next wait. */
    method RunUsp(h: nat)
      requires Valid() && h < hosts
      modifies this`b, this`run, this`moves, this`works, usps[h], dsps[h]
      ensures Valid() && Quiet(old(b), b, hosts) && (old(Calm(run, hosts)) ==> Calm(run, hosts))
      ensures old(usps[h].AtRest()) || Less(Ahead(b, hosts), WorkLeft(), old(Ahead(b, hosts)), old(WorkLeft()))
      ensures old(ReadFlitDue(usps[h])) ==> usps[h].at.ReadFlit? && b == old(b)
      ensures old(usps[h].at.ReadFlit?) ==> Moved(old(b), OfReads(Forward(h, 1, READS_PER_FLIT)), b, hosts, n, size)
    {
      hide UspAt, DspAt, ControllerAt, Running, Quiet, Calm, Ahead, Total, ReadFlitDue;
      assert HostAt(h);
      var writes, reads' := UspStretch(usps[h], dsps[h], LaneOf(b.writing, h), LaneOf(b.reading, h));
      TotalUpdate(works, h, usps[h].Work());
      works := works[h := usps[h].Work()];
      assert forall g :: 0 <= g < hosts && g != h ==> old(HostAt(g)) && HostAt(g);
      Forwarded(h, writes, reads');
    }

    /** The wrapper of host h sends its oldest request of a class. */
    method Send(h: nat, read: bool)
      requires Valid() && h < hosts && |(if read then b.reading else b.writing).forward[h][0]| > 0
      modifies this`b, this`run, this`moves, this`works, usps[h]
      ensures Valid() && Quiet(old(b), b, hosts) && (old(Calm(run, hosts)) ==> Calm(run, hosts))
      ensures Ahead(b, hosts) < Ahead(old(b), hosts)
      ensures Moved(old(b), Of(read, Forward(h, 0, 1)), b, hosts, n, size)
      ensures usps[h].at == old(usps[h].at) && (read ==> usps[h].WriteDue() == old(usps[h].WriteDue()))
    {
      hide UspAt, Running, Quiet, Calm, Ahead, After, Cut, Full, Total;
      assert HostAt(h);
      var queue := (if read then b.reading else b.writing).forward[h][0];
      assert queue[..1] == [queue[0]];
      PushToUsp(usps[h], LaneOf(b.writing, h), LaneOf(b.reading, h), queue[0], read);
      works := works[h := usps[h].Work()];
      Take(Of(read, Forward(h, 0, 1)));
      forall g | 0 <= g < hosts
        ensures HostAt(g)
      {
        assert g != h ==> old(HostAt(g));
      }
    }

    /** The downstream port of host h passes on its oldest request of a class. */
    method EnterOne(h: nat, read: bool)
      requires Valid() && h < hosts && LaneOf(if read then b.reading else b.writing, h).down != []
      modifies this`b, this`run, this`moves, dsps[h], controller
      ensures Valid() && Quiet(old(b), b, hosts) && (old(Calm(run, hosts)) ==> Calm(run, hosts))
      ensures Ahead(b, hosts) < Ahead(old(b), hosts) && Moved(old(b), Of(read, Enter(h)), b, hosts, n, size)
      ensures controller.requestAt == old(controller.requestAt) && controller.responseAt == old(controller.responseAt)
    {
      hide Usp.Valid, Usp.HeldWrites, ControllerAt, Running, Quiet, Calm, Ahead, After, Cut, Full;
      assert HostAt(h);
      var p := (if read then b.reading else b.writing).forward[h][2][0];
      DspForward(dsps[h], LaneOf(b.writing, h), LaneOf(b.reading, h), read);
      EnterController(controller, DeskOf(b.writing), DeskOf(b.reading), h, p, read);
      Take(Of(read, Enter(h)));
      forall g | 0 <= g < hosts
        ensures HostAt(g)
      {
        assert g != h ==> old(HostAt(g));
      }
    }

    /** A cycle of the downstream port: a read and a write, if there are any. */
    method RunDspForward(h: nat)
      requires Valid() && h < hosts
      modifies this`b, this`run, this`moves, dsps[h], controller
      ensures Valid() && Quiet(old(b), b, hosts) && (old(Calm(run, hosts)) ==> Calm(run, hosts))
      ensures |old(dsps[h].rQueue)| > 0 || |old(dsps[h].wQueue)| > 0 ==> Ahead(b, hosts) < Ahead(old(b), hosts)
    {
      assert HostAt(h);
      hide UspAt, ControllerAt, Running, Quiet, Calm, Ahead;
      QuietAlready(b, hosts);
      if |dsps[h].rQueue| > 0 {
        EnterOne(h, true);
      }
      assert HostAt(h);
      ghost var between := b;
      QuietAlready(b, hosts);
      if |dsps[h].wQueue| > 0 {
        EnterOne(h, false);
      }
      StaysQuiet(old(b), between, b, hosts);
    }

    method BackOne(h: nat, read: bool)
      requires Valid() && h < hosts && LaneOf(if read then b.reading else b.writing, h).back != []
      modifies this`b, this`run, this`moves, dsps[h]
      ensures Valid() && Quiet(old(b), b, hosts) && (old(Calm(run, hosts)) ==> Calm(run, hosts))
      ensures Ahead(b, hosts) < Ahead(old(b), hosts)
    {
      hide Usp.Valid, Usp.HeldWrites, ControllerAt, Running, Quiet, Calm, Ahead, After, Cut, Full;
      assert HostAt(h);
      DspBackward(dsps[h], LaneOf(b.writing, h), LaneOf(b.reading, h), read);
      Take(Of(read, Backward(h, 0, 1)));
      forall g | 0 <= g < hosts
        ensures HostAt(g)
      {
        assert g != h ==> old(HostAt(g));
      }
    }

    /** And on the way back a response of each class. */
    method RunDspBackward(h: nat)
      requires Valid() && h < hosts
      modifies this`b, this`run, this`moves, dsps[h]
      ensures Valid() && Quiet(old(b), b, hosts) && (old(Calm(run, hosts)) ==> Calm(run, hosts))
      ensures |old(dsps[h].rackQueue)| > 0 || |old(dsps[h].wackQueue)| > 0 ==> Ahead(b, hosts) < Ahead(old(b), hosts)
    {
      assert HostAt(h);
      hide UspAt, ControllerAt, Running, Quiet, Calm, Ahead;
      QuietAlready(b, hosts);
      if |dsps[h].rackQueue| > 0 {
        BackOne(h, true);
      }
      assert HostAt(h);
      ghost var between := b;
      QuietAlready(b, hosts);
      if |dsps[h].wackQueue| > 0 {
        BackOne(h, false);
      }
      StaysQuiet(old(b), between, b, hosts);
    }

    /** The controller's request thread runs to its next wait. */
    method RunRequests()
      requires Valid()
      modifies this`b, this`run, this`moves, controller
      ensures Valid() && Quiet(old(b), b, hosts) && (old(Calm(run, hosts)) ==> Calm(run, hosts))
      ensures old(controller.RequestsAtRest())
              || Less(Ahead(b, hosts), WorkLeft(), old(Ahead(b, hosts)), old(WorkLeft()))
      ensures old(controller.requestAt.Ready?) ==> b == old(b)
      ensures old(controller.requestAt.Ready?) && |b.reading.controller| > 0 ==> controller.requestAt.ReadDue?
      ensures old(controller.requestAt.ReadDue?) ==> Moved(old(b), OfReads(Deliver), b, hosts, n, size)
      ensures controller.responseAt == old(controller.responseAt)
    {
      hide UspAt, DspAt, ControllerAt, Running, Quiet, Calm, Ahead, After, Cut, Full;
      QuietAlready(b, hosts);
      var writes, reads' := RequestStretch(controller, DeskOf(b.writing), DeskOf(b.reading));
      if writes > 0 {
        Take(OfWrites(Deliver));
      } else if reads' > 0 {
        Take(OfReads(Deliver));
      }
      forall g | 0 <= g < hosts
        ensures HostAt(g)
      {
        assert old(HostAt(g));
      }
    }

    /** The controller's thread has taken responses off its queues that are still to reach their hosts. */
    ghost predicate AheadBy(wacks: nat, racks: nat)
      requires BothShape(b, hosts)
      reads this`b, controller
    {
      && wacks <= |b.writing.acks| && racks <= |b.reading.acks|
      && ControllerAt(controller, DeskOf(b.writing).(acks := b.writing.acks[wacks..]),
                      DeskOf(b.reading).(acks := b.reading.acks[racks..]))
    }

    lemma {:induction false} CanReturn(read: bool)
      requires Going() && (if read then b.reading else b.writing).acks != []
      ensures CanMove(b, Of(read, Return), hosts, n, size)
    {
      hide Ordered, BothRun, OneOwner, Enabled;
      ReturnPossible(if read then b.reading else b.writing, hosts, n);
    }

    /** The oldest of them reaches its host's downstream port. */
    method GiveOne(x: Sent, read: bool, ghost wacks: nat, ghost racks: nat)
      requires Objects() && Going() && HostsAt() && AheadBy(wacks, racks) && (if read then racks else wacks) > 0
      requires var k := DeskOf(if read then b.reading else b.writing);
        x.trans == k.acks[0] && (x.trans.addr in k.route ==> x.host == k.route[x.trans.addr])
      modifies this`b, this`run, this`moves, dsps
      ensures Going() && HostsAt() && Moved(old(b), Of(read, Return), b, hosts, n, size)
      ensures run == old(run) + [b] && moves == old(moves) + [Of(read, Return)]
      ensures AheadBy(if read then wacks else wacks - 1, if read then racks - 1 else racks)
      ensures Quiet(old(b), b, hosts) && (old(Calm(run, hosts)) ==> Calm(run, hosts))
      ensures Ahead(b, hosts) < Ahead(old(b), hosts)
    {
      hide Usp.Valid, Usp.HeldWrites, ControllerAt, Running, Quiet, Calm, Ahead, After, Cut, Full;
      CanReturn(read);
      OneAnswered((if read then b.reading else b.writing).acks, if read then racks else wacks);
      assert x.host < hosts && HostAt(x.host);
      PushBack(dsps[x.host], LaneOf(b.writing, x.host), LaneOf(b.reading, x.host), x.trans, read);
      Take(Of(read, Return));
      forall g | 0 <= g < hosts
        ensures HostAt(g)
      {
        assert g != x.host ==> old(HostAt(g));
      }
    }

    method GiveBack(s: seq<Sent>, read: bool, ghost wacks: nat, ghost racks: nat)
      requires Objects() && Going() && HostsAt() && AheadBy(wacks, racks) && |s| == (if read then racks else wacks)
      requires Directed(s, DeskOf(if read then b.reading else b.writing))
      modifies this`b, this`run, this`moves, dsps
      ensures Going() && HostsAt() && AheadBy(if read then wacks else 0, if read then 0 else racks)
      ensures DeskOf(if read then b.writing else b.reading) == old(DeskOf(if read then b.writing else b.reading))
      ensures Quiet(old(b), b, hosts) && (old(Calm(run, hosts)) ==> Calm(run, hosts))
      ensures if s == [] then b == old(b) && run == old(run) && moves == old(moves)
              else Ahead(b, hosts) < Ahead(old(b), hosts)
      ensures |s| == 1 ==>
        Moved(old(b), Of(read, Return), b, hosts, n, size) && run == old(run) + [b]
            && moves == old(moves) + [Of(read, Return)]
      decreases |s|
    {
      hide HostAt, ControllerAt, Running, Quiet, Calm, Ahead, After;
      QuietAlready(b, hosts);
      if s != [] {
        GiveOne(s[0], read, wacks, racks);
        ghost var between := b;
        GiveBack(s[1..], read, if read then wacks else wacks - 1, if read then racks - 1 else racks);
        StaysQuiet(old(b), between, b, hosts);
      }
    }

    /** The controller's response thread runs to its next wait. */
    method RunResponses()
      requires Valid()
      modifies this`b, this`run, this`moves, dsps, controller
      ensures Valid() && Quiet(old(b), b, hosts) && (old(Calm(run, hosts)) ==> Calm(run, hosts))
      ensures old(controller.ResponsesAtRest())
              || Less(Ahead(b, hosts), WorkLeft(), old(Ahead(b, hosts)), old(WorkLeft()))
      ensures var was := old(controller.responseAt);
        && controller.responseAt == controller.NextResponse(was, old(|b.reading.acks|), old(|b.writing.acks|))
        && (was.Idle? || was.DrsStart? ==> b == old(b))
        && (was.DrsFlit? ==>
              Moved(old(b), OfReads(Return), b, hosts, n, size) && run == old(run) + [b]
                  && moves == old(moves) + [OfReads(Return)])
    {
      hide HostAt, ControllerAt, Running, Quiet, Calm, Ahead, After;
      var wacks, racks := ResponseStretch(controller, DeskOf(b.writing), DeskOf(b.reading));
      GiveBack(wacks, false, |wacks|, |racks|);
      ghost var between := b;
      GiveBack(racks, true, 0, |racks|);
      StaysQuiet(old(b), between, b, hosts);
      assert b.writing.acks[0..] == b.writing.acks && b.reading.acks[0..] == b.reading.acks;
    }

    /** A DRAM finishes any of its requests, and the controller has the response. */
    method Finish(i: nat, read: bool)
      requires Valid() && i < |(if read then b.reading else b.writing).pending|
      modifies this`b, this`run, this`moves, controller
      ensures Valid() && Quiet(old(b), b, hosts) && (old(Calm(run, hosts)) ==> Calm(run, hosts))
      ensures Ahead(b, hosts) < Ahead(old(b), hosts) && Moved(old(b), Of(read, Complete(i)), b, hosts, n, size)
      ensures controller.responseAt == old(controller.responseAt)
    {
      hide UspAt, DspAt, ControllerAt, Running, Quiet, Calm, Ahead, After, Cut, Full;
      var p := (if read then b.reading else b.writing).pending[i];
      AnswerController(controller, DeskOf(b.writing), DeskOf(b.reading), p, read);
      Take(Of(read, Complete(i)));
      forall g | 0 <= g < hosts
        ensures HostAt(g)
      {
        assert old(HostAt(g));
      }
    }

    /** The upstream port hands a response to the wrapper. */
    method HandUp(h: nat, read: bool)
      requires Valid() && h < hosts && |(if read then b.reading else b.writing).backward[h][1]| > 0
      modifies this`b, this`run, this`moves
      ensures Valid() && Quiet(old(b), b, hosts) && (old(Calm(run, hosts)) ==> Calm(run, hosts))
      ensures Ahead(b, hosts) < Ahead(old(b), hosts)
    {
      hide UspAt, DspAt, ControllerAt, Running, Quiet, Calm, Ahead, After, Cut, Full;
      Take(Of(read, Backward(h, 1, 1)));
      forall g | 0 <= g < hosts
        ensures HostAt(g)
      {
        assert old(HostAt(g));
      }
    }

    lemma {:induction false} CanTake(h: nat, read: bool)
      requires Going() && h < hosts && (read ==> Calm(run, hosts))
      requires |(if read then b.reading else b.writing).backward[h][2]| > 0
      ensures CanMove(b, Of(read, TakeAck(h)), hosts, n, size)
    {
      var s := if read then b.reading else b.writing;
      if read {
        ReadingInv(run, moves, hosts, n, size, |run| - 1);
      } else {
        BothRunInv(run, moves, hosts, n, size, |run| - 1);
      }
      assert Inv(s, hosts, n);
      assert HostOrdered(s, h) && Conserved(s, h) && Counted(s, h, n);
      hide BothRun, Ordered, Inv, HostOrdered, Conserved;
      WaitingSignals(s, hosts, h, n);
    }

    /** The wrapper takes a response: it is counted, and a read's bytes are copied. */
    method TakeAnswer(h: nat, read: bool)
      requires Valid() && h < hosts && |(if read then b.reading else b.writing).backward[h][2]| > 0
      requires Calm(run, hosts)
      modifies this`b, this`run, this`moves
      ensures Valid() && Quiet(old(b), b, hosts) && Calm(run, hosts) && Ahead(b, hosts) < Ahead(old(b), hosts)
    {
      hide UspAt, DspAt, ControllerAt, Running, Quiet, Calm, Ahead, After, Cut, Full, Enabled;
      CanTake(h, read);
      Take(Of(read, TakeAck(h)));
      forall g | 0 <= g < hosts
        ensures HostAt(g)
      {
        assert old(HostAt(g));
      }
    }

    // ----- Until nothing has work left -----

    /** Is anything of a class in the wrapper of host h or on its way up to it? */
    predicate WrapperBusy(read: bool, h: nat)
      requires BothShape(b, hosts) && h < hosts
      reads this`b
    {
      var s := if read then b.reading else b.writing;
      |s.forward[h][0]| > 0 || |s.backward[h][1]| > 0 || |s.backward[h][2]| > 0
    }

    predicate DspForwardBusy(h: nat)
      requires h < |dsps|
      reads dsps[h]
    {
      |dsps[h].rQueue| > 0 || |dsps[h].wQueue| > 0
    }

    predicate DspBackwardBusy(h: nat)
      requires h < |dsps|
      reads dsps[h]
    {
      |dsps[h].rackQueue| > 0 || |dsps[h].wackQueue| > 0
    }

    predicate HostBusy(h: nat)
      requires Objects() && BothShape(b, hosts) && h < hosts
      reads this`b, usps[h], dsps[h]
    {
      WrapperBusy(false, h) || WrapperBusy(true, h) || !usps[h].AtRest() || DspForwardBusy(h) || DspBackwardBusy(h)
    }

    predicate Busy()
      requires Objects() && BothShape(b, hosts)
      reads this`b, usps, dsps, controller
    {
      || (exists h :: 0 <= h < hosts && HostBusy(h))
      || !controller.RequestsAtRest() || !controller.ResponsesAtRest()
      || |b.writing.pending| > 0 || |b.reading.pending| > 0
    }

    /** Any one of the wrapper's queues of a class. */
    method RunWrapper(h: nat, read: bool)
      requires Valid() && Calm(run, hosts) && h < hosts && WrapperBusy(read, h)
      modifies this`b, this`run, this`moves, this`works, usps[h]
      ensures Valid() && Quiet(old(b), b, hosts) && Calm(run, hosts) && Ahead(b, hosts) < Ahead(old(b), hosts)
    {
      hide HostAt, ControllerAt, Running, Quiet, Calm, Ahead;
      var s := if read then b.reading else b.writing;
      if
      case |s.forward[h][0]| > 0 => Send(h, read);
      case |s.backward[h][1]| > 0 => HandUp(h, read);
      case |s.backward[h][2]| > 0 => TakeAnswer(h, read);
    }

    /** Any one of a host's threads that has work. */
    method RunHost(h: nat)
      requires Valid() && Calm(run, hosts) && h < hosts && HostBusy(h)
      modifies this`b, this`run, this`moves, this`works, usps[h], dsps[h], controller
      ensures Valid() && Quiet(old(b), b, hosts) && Calm(run, hosts)
      ensures Less(Ahead(b, hosts), WorkLeft(), old(Ahead(b, hosts)), old(WorkLeft()))
    {
      hide HostAt, ControllerAt, Running, Quiet, Calm, Ahead, WrapperBusy, Usp.AtRest, WorkLeft;
      if
      case WrapperBusy(false, h) => RunWrapper(h, false);
      case WrapperBusy(true, h) => RunWrapper(h, true);
      case !usps[h].AtRest() => RunUsp(h);
      case DspForwardBusy(h) => RunDspForward(h);
      case DspBackwardBusy(h) => RunDspBackward(h);
    }

    /** The DRAMs may finish in any order. */
    method FinishAny(read: bool)
      requires Valid() && |(if read then b.reading else b.writing).pending| > 0
      modifies this`b, this`run, this`moves, controller
      ensures Valid() && Quiet(old(b), b, hosts) && (old(Calm(run, hosts)) ==> Calm(run, hosts))
      ensures Ahead(b, hosts) < Ahead(old(b), hosts)
    {
      var i: nat := *;
      if i >= |(if read then b.reading else b.writing).pending| {
        i := 0;
      }
      hide HostAt, ControllerAt, Running, Quiet, Calm, Ahead;
      Finish(i, read);
    }

    /** Any thread that has work, or any request a DRAM may finish. */
    method RunAny()
      requires Valid() && Calm(run, hosts) && Busy()
      modifies this`b, this`run, this`moves, this`works, usps, dsps, controller
      ensures Valid() && Quiet(old(b), b, hosts) && Calm(run, hosts)
      ensures Less(Ahead(b, hosts), WorkLeft(), old(Ahead(b, hosts)), old(WorkLeft()))
    {
      hide HostAt, ControllerAt, Running, Quiet, Calm, Ahead, HostBusy, WorkLeft;
      hide Controller.RequestsAtRest, Controller.ResponsesAtRest;
      if
      case h :| 0 <= h < hosts && HostBusy(h) => RunHost(h);
      case !controller.RequestsAtRest() => RunRequests();
      case !controller.ResponsesAtRest() => RunResponses();
      case |b.writing.pending| > 0 => FinishAny(false);
      case |b.reading.pending| > 0 => FinishAny(true);
    }

    /** Whichever thread with work is scheduled next, as long as there is one, the path comes to rest. */
    method RunToRest()
      requires Valid() && Calm(run, hosts)
      modifies this`b, this`run, this`moves, this`works, usps, dsps, controller
      ensures Valid() && Quiet(old(b), b, hosts) && Calm(run, hosts) && !Busy()
    {
      hide Objects, HostsAt, ControllerAt, Running, Quiet, Calm, Ahead, WorkLeft;
      QuietAlready(b, hosts);
      while Busy()
        invariant Valid() && Quiet(old(b), b, hosts) && Calm(run, hosts)
        decreases Ahead(b, hosts), WorkLeft()
      {
        ghost var before := b;
        RunAny();
        StaysQuiet(old(b), before, b, hosts);
      }
    }
  }
}
