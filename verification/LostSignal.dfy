/** A run of ports and controller in which a signal is lost: two write packets are signalled before a read goes. */
module LostSignal {
  import opened Basics
  import opened CxlSystem
  import opened CxlPorts
  import opened ReadBack
  import opened SignalTable
  import opened PathMoves
  import opened Stretches
  import opened WholePath
  import opened AtRest
  import opened PacketsOfTwo

  /** All signals are up, and a read has taken the only bit there is for them. */
  ghost predicate OneRead(path: Path)
    reads path, path.usps, path.dsps, path.controller
  {
    && path.Valid() && path.hosts == 1 && path.n == 2 && path.size == 1
    && path.b.writing.signals == [[0, 0]] && path.b.waits == [Freed(0)]
    && 0 !in path.b.flags && NoneUnsignalled(path.b.writing, 1, 0)
  }

  /** The same before the read. */
  ghost predicate BothUp(path: Path)
    reads path, path.usps, path.dsps, path.controller
  {
    && path.Valid() && path.hosts == 1 && path.n == 2 && path.size == 1
    && path.b.writing.signals == [[0, 0]] && path.b.waits == [Moving]
    && 0 in path.b.flags && NoneUnsignalled(path.b.writing, 1, 0)
  }

  method SendBoth(path: Path)
    requires Fresh(path)
    modifies path`b, path`run, path`moves
    ensures path.Valid() && Calm(path.run, 1)
    ensures path.b.writing.packets == [[0, 0]] && path.b.writing.signals == [[]] && path.b.waits == [Moving]
  {
    StartsEmpty(path.b);
    TwoAppended();
    hide Running, path.HostsAt, ControllerAt, Calm, OnlyHost, BothInit;
    SendWrites(path, 0, 0);
    SendWrites(path, 0, 0);
  }

  /**
   * Two write packets of one address, four writes that the port sends as one group, are both signalled, whatever the
   * schedule.
   */
  method TwoSignals(path: Path)
    requires Fresh(path)
    modifies path, path.usps, path.dsps, path.controller
    ensures BothUp(path)
  {
    hide Running, path.HostsAt, ControllerAt, Calm, path.Busy, BothInit, Quiet, NoneUnsignalled;
    SendBoth(path);
    ghost var sent := path.b;
    path.RunToRest();
    BothSignalled(path, sent);
  }

  /** A read of the address sees the signal and frees it. */
  method ReadOnce(path: Path)
    requires BothUp(path)
    modifies path`b, path`run, path`moves
    ensures OneRead(path)
  {
    hide Running, path.HostsAt, ControllerAt, Calm, NoneUnsignalled, LaneThen, DeskThen;
    path.Proceed(SeeSignal(0, 0));
    path.Proceed(FreeSignal(0));
  }

  method TwoSignalsOneRead(portAndLink: real, period: real, ctrl: real, link: real) returns (path: Path)
    ensures fresh(path) && OneRead(path)
  {
    hide BothUp, OneRead, Fresh;
    path := OneHost(portAndLink, period, ctrl, link);
    TwoSignals(path);
    ReadOnce(path);
  }

  lemma {:induction false} TwoAppended()
    ensures [[]][0 := [] + [0 as nat]] == [[0]] && [[0 as nat]][0 := [0] + [0]] == [[0, 0]]
  {
    assert [] + [0 as nat] == [0] && [0 as nat] + [0] == [0, 0];
  }

  /** At rest both signals have been raised. */
  lemma {:induction false} BothSignalled(path: Path, sent: Both)
    requires path.Valid() && !path.Busy() && path.hosts == 1 && path.n == 2 && BothShape(sent, 1)
    requires Quiet(sent, path.b, 1) && sent.writing.packets == [[0, 0]] && sent.writing.signals == [[]]
    ensures path.b.waits == sent.waits && 0 in path.b.flags
    ensures path.b.writing.signals == [[0, 0]] && NoneUnsignalled(path.b.writing, 1, 0)
  {
    SignalledAtRestExactlyWhen(path, 0);
    NothingWaits(path);
    assert NewSignals(sent.writing.signals[0], path.b.writing.signals[0], path.b.flags);
    assert path.b.writing.signals[0][0] == 0;
  }

  lemma {:induction false} NothingWaits(path: Path)
    requires path.Valid() && path.hosts == 1 && path.b.writing.signals[0] == path.b.writing.packets[0]
    ensures path.b.writing.sync[0] == []
  {
    BothRunInv(path.run, path.moves, path.hosts, path.n, path.size, |path.run| - 1);
    assert Counted(path.b.writing, 0, path.n);
  }

  /** However the run goes on, a second read of the address never goes, unless it is written once more. */
  lemma {:induction false} SecondReadWaits(path: Path, run: seq<Both>, moves: seq<Turn>, j: nat)
    requires OneRead(path) && BothRun(run, moves, 1, 2, 1) && path.run <= run && |path.run| - 1 <= j < |run|
    requires forall k :: |path.run| - 1 <= k < j ==> !WritesTo(moves[k], 0)
    ensures forall h :: !CanMove(run[j], SeeSignal(h, 0), 1, 2, 1)
  {
    hide BothRun, NoneUnsignalled, CanMove, WritesTo, path.HostsAt, ControllerAt, Running;
    path.Last();
    var i := |path.run| - 1;
    assert run[i] == path.b;
    WaitsForEver(run, moves, 1, 2, 1, i, j, 0);
  }
}
