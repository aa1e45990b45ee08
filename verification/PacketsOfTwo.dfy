/** Packets of two payloads, and hosts that send them. */
module PacketsOfTwo {
  import opened Basics
  import opened CxlSystem
  import opened CxlPorts
  import opened ReadBack
  import opened PathMoves
  import opened Stretches
  import opened WholePath

  /** A write packet of two payloads of one byte. */
  function WritePacket(h: nat, first: nat, addr: nat): seq<Payload> {
    [Payload(h, first, 0, addr, [1]), Payload(h, first + 1, 0, addr + 1, [2])]
  }

  function ReadPacket(h: nat, addr: nat): seq<Payload> {
    [Payload(h, 0, 0, addr, []), Payload(h, 1, 0, addr + 1, [])]
  }

  /** Only host h has issued anything. */
  ghost predicate OnlyHost(s: State, hosts: nat, h: nat)
    requires Shape(s, hosts)
  {
    forall g :: 0 <= g < hosts && g != h ==> s.issued[g] == []
  }

  lemma {:induction false} OneWriter(b: Both, hosts: nat, n: nat, h: nat, addr: nat)
    requires BothShape(b, hosts) && h < hosts && OnlyHost(b.writing, hosts, h) && n == 2
    ensures var a := Issue(h, addr, WritePacket(h, |b.writing.issued[h]|, addr));
      && Enabled(b.writing, a, hosts, n) && Cut(a.payloads, addr, 1) && Full(a.payloads, 1)
      && var t := Step(b.writing, a, hosts, n);
      && OnlyHost(t, hosts, h) && OneOwner(t, hosts)
      && t.issued[h] == b.writing.issued[h] + a.payloads
      && t.packets == b.writing.packets[h := b.writing.packets[h] + [addr]]
      && t.signals == b.writing.signals
  {
  }

  method SendWrites(path: Path, h: nat, addr: nat)
    requires path.Valid() && path.n == 2 && path.size == 1 && h < path.hosts && path.b.waits[h].Moving?
    requires OnlyHost(path.b.writing, path.hosts, h) && Calm(path.run, path.hosts)
    modifies path`b, path`run, path`moves
    ensures path.Valid() && Calm(path.run, path.hosts) && OnlyHost(path.b.writing, path.hosts, h)
    ensures var b := old(path.b);
      && |path.b.writing.issued[h]| == |b.writing.issued[h]| + 2
      && path.b.writing.packets == b.writing.packets[h := b.writing.packets[h] + [addr]]
      && path.b.writing.signals == b.writing.signals && path.b.waits == b.waits && path.b.flags == b.flags
      && path.b.reading == b.reading
  {
    OneWriter(path.b, path.hosts, path.n, h, addr);
    hide Running, path.HostsAt, ControllerAt, Calm, Step, Enabled, OnlyHost, OneOwner, Cut, Full;
    path.Proceed(OfWrites(Issue(h, addr, WritePacket(h, |path.b.writing.issued[h]|, addr))));
  }

  // ----- One host -----

  /** Nothing has been issued yet. */
  ghost predicate Fresh(path: Path)
    reads path, path.usps, path.dsps, path.controller
  {
    path.Valid() && path.hosts == 1 && path.n == 2 && path.size == 1 && Calm(path.run, 1) && BothInit(path.b, 1)
  }

  lemma {:induction false} StartsEmpty(b: Both)
    requires BothInit(b, 1)
    ensures OnlyHost(b.writing, 1, 0) && b.waits == [Moving] && b.flags == {}
    ensures b.writing.issued[0] == [] && b.writing.packets == [[]] && b.writing.signals == [[]]
  {
    assert CxlSystem.Idle(b.writing, 0);
  }

  method OneHost(portAndLink: real, period: real, ctrl: real, link: real) returns (path: Path)
    ensures fresh(path) && Fresh(path)
    ensures fresh(path.controller) && |path.usps| == |path.dsps| == 1 && fresh(path.usps[0]) && fresh(path.dsps[0])
  {
    path := new Path(1, 2, 1, portAndLink, period, ctrl, link);
  }
}
