/**
 * Who owns a payload on its way. A host's pool hands one out for each request it adds, and gets it back when the
 * request arrives at a memory; the memory's pool hands one out then, and gets it back when the host takes the response.
 */
module PayloadOwners {
  import opened CxlSystem

  /** The payloads of a host's pool that are in use: from the host up to the memory. */
  ghost function HostHeld(s: State, h: nat): multiset<Payload>
    requires h < |s.forward|
  {
    multiset(OfHost(s.controller, h)) + multiset(Flow(s.forward[h]))
  }

  /** The payloads of the memories' pools that are in use for a host: from the DRAM back to the host. */
  ghost function MemoryHeld(s: State, h: nat): multiset<Payload>
    requires h < |s.backward|
  {
    multiset(OfHost(s.pending, h)) + multiset(OfHost(s.acks, h)) + multiset(Flow(s.backward[h]))
  }

  /** What a step takes from a host's pool. */
  ghost function Added(a: Action, h: nat): multiset<Payload> {
    if a.Issue? && a.host == h then multiset(a.payloads) else multiset{}
  }

  /** A step that delivers a payload of host h gives it back to the host's pool and takes its copy from a memory's. */
  ghost function Delivered(s: State, a: Action, h: nat): multiset<Payload> {
    if a.Deliver? && |s.controller| > 0 && s.controller[0].host == h then multiset{s.controller[0]} else multiset{}
  }

  /** A step that takes a response gives its payload back to the memory's pool. */
  ghost function Taken(s: State, a: Action, h: nat): multiset<Payload>
    requires Shape(s, |s.issued|) && h < |s.issued|
  {
    if a.TakeAck? && a.host == h && |s.backward[h][STAGES - 1]| > 0 then multiset{s.backward[h][STAGES - 1][0]}
      else multiset{}
  }

  lemma {:induction false} HostPool(s: State, hosts: nat, h: nat)
    requires Ordered(s, hosts) && h < hosts
    ensures multiset(OfHost(s.arrived, h)) + HostHeld(s, h) == multiset(s.issued[h])
  {
    assert HostOrdered(s, h);
    hide OfHost, Flow, Routes, Housed;
    assert s.issued[h] == OfHost(s.arrived, h) + OfHost(s.controller, h) + Flow(s.forward[h]);
  }

  lemma {:induction false} Balance(a: multiset<Payload>, x: multiset<Payload>, i: multiset<Payload>,
                                   b: multiset<Payload>, y: multiset<Payload>,
                                   j: multiset<Payload>, p: multiset<Payload>, q: multiset<Payload>)
    requires a + x == i && b + y == j && j == i + p && b == a + q
    ensures y + q == x + p
  {
    forall e: Payload
      ensures (y + q)[e] == (x + p)[e]
    {
      assert (a + x)[e] == i[e] && (b + y)[e] == j[e] && j[e] == (i + p)[e] && b[e] == (a + q)[e];
    }
  }

  lemma {:induction false} ArrivedAfter(s: State, a: Action, hosts: nat, n: nat, h: nat)
    requires Shape(s, hosts) && Enabled(s, a, hosts, n) && h < hosts
    ensures var t := Step(s, a, hosts, n);
      && multiset(OfHost(t.arrived, h)) == multiset(OfHost(s.arrived, h)) + Delivered(s, a, h)
      && multiset(t.issued[h]) == multiset(s.issued[h]) + Added(a, h)
      && multiset(t.acked[h]) == multiset(s.acked[h]) + Taken(s, a, h)
  {
    hide OfHost, Move, Flow, Write, CountAck;
    if a.Deliver? {
      OfHostConcat(s.arrived, [s.controller[0]], h);
      OfHostOne(s.controller[0], h);
    }
  }

  /**
   * Every step takes the payloads it adds from the host's pool, and gives back what it delivers; that was in use. So a
   * host's pool never gets a payload twice.
   */
  lemma {:induction false} HostPoolKept(s: State, a: Action, hosts: nat, n: nat, h: nat)
    requires Ordered(s, hosts) && Enabled(s, a, hosts, n) && h < hosts
    ensures var t := Step(s, a, hosts, n); HostHeld(t, h) + Delivered(s, a, h) == HostHeld(s, h) + Added(a, h)
    ensures Delivered(s, a, h) <= HostHeld(s, h)
  {
    var t := Step(s, a, hosts, n);
    OrderKept(s, a, hosts, n);
    HostPool(s, hosts, h);
    HostPool(t, hosts, h);
    ArrivedAfter(s, a, hosts, n, h);
    Balance(multiset(OfHost(s.arrived, h)), HostHeld(s, h), multiset(s.issued[h]),
            multiset(OfHost(t.arrived, h)), HostHeld(t, h), multiset(t.issued[h]), Added(a, h), Delivered(s, a, h));
    DeliveredHeld(s, a, h);
  }

  lemma {:induction false} DeliveredHeld(s: State, a: Action, h: nat)
    requires h < |s.forward|
    ensures Delivered(s, a, h) <= HostHeld(s, h)
  {
    hide OfHost, Flow;
    if a.Deliver? && |s.controller| > 0 {
      var p, rest := s.controller[0], s.controller[1..];
      assert s.controller == [p] + rest;
      OfHostConcat([p], rest, h);
      OfHostOne(p, h);
      if p.host == h {
        FirstHeld(p, OfHost(rest, h), multiset(Flow(s.forward[h])));
      }
    }
  }

  lemma {:induction false} FirstHeld(p: Payload, rest: seq<Payload>, m: multiset<Payload>)
    ensures multiset{p} <= multiset([p] + rest) + m
  {
  }

  /**
   * The same for the memories' pools: a payload is taken at delivery and given back, in use until then, with the
   * response.
   */
  lemma {:induction false} MemoryPoolKept(s: State, a: Action, hosts: nat, n: nat, h: nat)
    requires Inv(s, hosts, n) && Enabled(s, a, hosts, n) && NoClash(Step(s, a, hosts, n)) && h < hosts
    ensures var t := Step(s, a, hosts, n); MemoryHeld(t, h) + Taken(s, a, h) == MemoryHeld(s, h) + Delivered(s, a, h)
    ensures Taken(s, a, h) <= MemoryHeld(s, h)
  {
    var t := Step(s, a, hosts, n);
    InvKept(s, a, hosts, n);
    ArrivedAfter(s, a, hosts, n, h);
    MemoryPool(s, hosts, n, h);
    MemoryPool(t, hosts, n, h);
    hide Inv, Ordered, Step, NoClash;
    Balance(multiset(s.acked[h]), MemoryHeld(s, h), multiset(OfHost(s.arrived, h)),
            multiset(t.acked[h]), MemoryHeld(t, h), multiset(OfHost(t.arrived, h)), Delivered(s, a, h), Taken(s, a, h));
    TakenHeld(s, a, hosts, h);
  }

  lemma {:induction false} MemoryPool(s: State, hosts: nat, n: nat, h: nat)
    requires Inv(s, hosts, n) && h < hosts
    ensures multiset(s.acked[h]) + MemoryHeld(s, h) == multiset(OfHost(s.arrived, h))
  {
    assert Conserved(s, h);
    hide OfHost, Flow, Ordered, Routed;
  }

  lemma {:induction false} TakenHeld(s: State, a: Action, hosts: nat, h: nat)
    requires Shape(s, hosts) && h < hosts
    ensures Taken(s, a, h) <= MemoryHeld(s, h)
  {
    if |s.backward[h][STAGES - 1]| > 0 {
      FlowPop(s.backward[h]);
    }
    hide OfHost, Flow;
  }

  /** No payload is ever given back twice, to either pool, and none is in use that was given back. */
  lemma {:induction false} ReleasedOnce(s: State, hosts: nat, n: nat, h: nat, p: Payload)
    requires Inv(s, hosts, n) && h < hosts
    ensures multiset(OfHost(s.arrived, h))[p] + HostHeld(s, h)[p] <= 1
    ensures multiset(s.acked[h])[p] + MemoryHeld(s, h)[p] <= 1
  {
    HostPool(s, hosts, h);
    MemoryPool(s, hosts, n, h);
    ExactlyOnce(s, hosts, n, h);
    hide Inv, HostHeld, MemoryHeld, OfHost, Flow;
    if p in s.issued[h] {
      assert multiset(s.issued[h])[p] == 1;
    } else {
      assert multiset(s.issued[h])[p] == 0;
    }
    assert (multiset(OfHost(s.arrived, h)) + HostHeld(s, h))[p] == multiset(s.issued[h])[p];
    assert (multiset(s.acked[h]) + MemoryHeld(s, h))[p] == multiset(OfHost(s.arrived, h))[p];
  }
}
