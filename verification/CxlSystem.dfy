/**
 * The CXL.mem path from the hosts through upstream port, downstream port and controller to the memories and back,
 * for one class of requests (reads and writes travel in separate queues). Threads run atomically between waits, so a
 * run is any interleaving of the moves below.
 */
module CxlSystem {

  /** A request; `index` is its place among the host's requests of this class. */
  datatype Payload = Payload(host: nat, index: nat, device: nat, addr: nat, bytes: seq<int>)

  /** A byte of a memory device. */
  datatype Location = Location(device: nat, addr: nat)

  datatype State = State(
    issued: seq<seq<Payload>>,          // per host, everything added so far
    forward: seq<seq<seq<Payload>>>,    // per host: SIM wrapper, upstream port, downstream port
    controller: seq<Payload>,           // the controller's request queue
    route: map<nat, nat>,               // the controller's table from address to host
    arrived: seq<Payload>,              // everything delivered to a memory so far
    store: map<Location, int>,          // the backing stores
    pending: seq<Payload>,              // in the DRAM simulators, which finish them in any order
    acks: seq<Payload>,                 // the controller's response queue
    backward: seq<seq<seq<Payload>>>,   // per host: downstream port, upstream port, SIM wrapper
    acked: seq<seq<Payload>>,           // per host, every response taken so far
    packets: seq<seq<nat>>,             // per host, the write packets' addresses so far
    sync: seq<seq<nat>>,                // per host, addresses whose signal is still to come
    wackNum: seq<nat>,                  // per host, responses counted towards the next signal
    signals: seq<seq<nat>>)             // per host, the signals raised so far

  const STAGES: nat := 3

  /** What is under way in a chain of queues, oldest first. */
  function Flow(stages: seq<seq<Payload>>): seq<Payload> {
    if |stages| == 0 then [] else Flow(stages[1..]) + stages[0]
  }

  function OfHost(s: seq<Payload>, h: nat): seq<Payload> {
    if |s| == 0 then []
    else OfHost(s[..|s| - 1], h) + if s[|s| - 1].host == h then [s[|s| - 1]] else []
  }

  /** Moving the n oldest entries of stage i on to stage i + 1. */
  function Move(stages: seq<seq<Payload>>, i: nat, n: nat): seq<seq<Payload>>
    requires i + 1 < |stages| && n <= |stages[i]|
  {
    stages[i := stages[i][n..]][i + 1 := stages[i + 1] + stages[i][..n]]
  }

  /** Copying a payload's bytes into the backing store. */
  function Write(store: map<Location, int>, p: Payload, n: nat): map<Location, int>
    requires n <= |p.bytes|
  {
    if n == 0 then store else Write(store, p, n - 1)[Location(p.device, p.addr + n - 1) := p.bytes[n - 1]]
  }

  /** Counting one response; the N-th raises the signal at the front of the queue. */
  datatype Sync = Sync(queue: seq<nat>, wackNum: nat, signals: seq<nat>)

  function CountAck(s: Sync, n: nat): Sync
    requires s.wackNum + 1 == n ==> |s.queue| > 0
  {
    if s.wackNum + 1 == n then Sync(s.queue[1..], 0, s.signals + [s.queue[0]])
    else s.(wackNum := s.wackNum + 1)
  }

  /** What a host made of its read responses: the bytes of the packet under way, and the packets handed over. */
  datatype Collect = Collect(data: seq<int>, num: nat, handed: seq<seq<int>>)

  /** Adding one response's bytes; the N-th response completes the packet. */
  function CountRack(c: Collect, bytes: seq<int>, n: nat): Collect {
    if c.num + 1 == n then Collect([], 0, c.handed + [c.data + bytes]) else Collect(c.data + bytes, c.num + 1, c.handed)
  }

  datatype Action =
    | Issue(host: nat, packet: nat, payloads: seq<Payload>)
    | Forward(host: nat, stage: nat, count: nat)
    | Enter(host: nat)
    | Deliver
    | Complete(position: nat)
    | Return
    | Backward(host: nat, stage: nat, count: nat)
    | TakeAck(host: nat)

  ghost predicate Shape(s: State, hosts: nat) {
    && |s.issued| == |s.forward| == |s.backward| == |s.acked| == hosts
    && |s.packets| == |s.sync| == |s.wackNum| == |s.signals| == hosts
    && forall h :: 0 <= h < hosts ==> |s.forward[h]| == STAGES && |s.backward[h]| == STAGES
  }

  /** N requests of one packet, numbered on from what the host issued before. */
  ghost predicate Packet(s: State, h: nat, ps: seq<Payload>, n: nat)
    requires h < |s.issued|
  {
    |ps| == n && forall i :: 0 <= i < n ==> ps[i].host == h && ps[i].index == |s.issued[h]| + i
  }

  ghost predicate Enabled(s: State, a: Action, hosts: nat, n: nat)
    requires Shape(s, hosts)
  {
    match a
    case Issue(h, addr, ps) => h < hosts && Packet(s, h, ps, n)
    case Forward(h, i, k) => h < hosts && i + 1 < STAGES && k <= |s.forward[h][i]|
    case Enter(h) => h < hosts && |s.forward[h][STAGES - 1]| > 0
    case Deliver => |s.controller| > 0
    case Complete(i) => i < |s.pending|
    case Return => |s.acks| > 0 && s.acks[0].addr in s.route && s.route[s.acks[0].addr] < hosts
    case Backward(h, i, k) => h < hosts && i + 1 < STAGES && k <= |s.backward[h][i]|
    case TakeAck(h) => h < hosts && |s.backward[h][STAGES - 1]| > 0 && (s.wackNum[h] + 1 == n ==> |s.sync[h]| > 0)
  }

  function Step(s: State, a: Action, hosts: nat, n: nat): (t: State)
    requires Shape(s, hosts) && Enabled(s, a, hosts, n)
    ensures Shape(t, hosts)
  {
    match a
    case Issue(h, addr, ps) =>
      s.(issued := s.issued[h := s.issued[h] + ps],
         forward := s.forward[h := s.forward[h][0 := s.forward[h][0] + ps]],
         packets := s.packets[h := s.packets[h] + [addr]],
         sync := s.sync[h := s.sync[h] + [addr]])
    case Forward(h, i, k) =>
      s.(forward := s.forward[h := Move(s.forward[h], i, k)])
    case Enter(h) =>
      var last := s.forward[h][STAGES - 1];
      s.(forward := s.forward[h := s.forward[h][STAGES - 1 := last[1..]]],
         controller := s.controller + [last[0]],
         route := s.route[last[0].addr := h])
    case Deliver =>
      var p := s.controller[0];
      s.(controller := s.controller[1..],
         arrived := s.arrived + [p],
         store := Write(s.store, p, |p.bytes|),
         pending := s.pending + [p])
    case Complete(i) =>
      s.(pending := s.pending[..i] + s.pending[i + 1..], acks := s.acks + [s.pending[i]])
    case Return =>
      var p := s.acks[0];
      var h := s.route[p.addr];
      s.(acks := s.acks[1..], backward := s.backward[h := s.backward[h][0 := s.backward[h][0] + [p]]])
    case Backward(h, i, k) =>
      s.(backward := s.backward[h := Move(s.backward[h], i, k)])
    case TakeAck(h) =>
      var last := s.backward[h][STAGES - 1];
      var y := CountAck(Sync(s.sync[h], s.wackNum[h], s.signals[h]), n);
      s.(backward := s.backward[h := s.backward[h][STAGES - 1 := last[1..]]],
         acked := s.acked[h := s.acked[h] + [last[0]]],
         sync := s.sync[h := y.queue], wackNum := s.wackNum[h := y.wackNum], signals := s.signals[h := y.signals])
  }

  ghost predicate Idle(s: State, h: nat)
    requires h < |s.issued| && Shape(s, |s.issued|)
  {
    && s.issued[h] == s.acked[h] == [] && s.packets[h] == s.sync[h] == s.signals[h] == [] && s.wackNum[h] == 0
    && s.forward[h] == [[], [], []] && s.backward[h] == [[], [], []]
  }

  ghost predicate Init(s: State, hosts: nat) {
    && Shape(s, hosts)
    && s.controller == s.arrived == s.pending == s.acks == [] && s.route == map[] && s.store == map[]
    && forall h :: 0 <= h < hosts ==> Idle(s, h)
  }

  // ----- Order: what one host issued is what arrived, then what is under way, in the order of issue -----

  /** The table the requests that entered the controller leave behind: the last one with an address decides. */
  function Routes(history: seq<Payload>): map<nat, nat> {
    if |history| == 0 then map[]
    else var p := history[|history| - 1]; Routes(history[..|history| - 1])[p.addr := p.host]
  }

  lemma {:induction false} RoutesSnoc(history: seq<Payload>, p: Payload)
    ensures Routes(history + [p]) == Routes(history)[p.addr := p.host]
  {
    assert (history + [p])[..|history|] == history;
  }

  /** Order, and the routing table as its history makes it; both hold whether or not addresses clash. */
  ghost predicate Ordered(s: State, hosts: nat) {
    && Shape(s, hosts)
    && s.route == Routes(s.arrived + s.controller) && Housed(s, hosts)
    && forall h :: 0 <= h < hosts ==> HostOrdered(s, h)
  }

  /** Whatever entered comes from one of the hosts, and whatever is answered has arrived. */
  ghost predicate Housed(s: State, hosts: nat) {
    && (forall p :: p in s.arrived || p in s.controller ==> p.host < hosts)
    && (forall p :: p in s.pending || p in s.acks ==> p in s.arrived)
  }

  ghost predicate HostOrdered(s: State, h: nat)
    requires h < |s.issued| && Shape(s, |s.issued|)
  {
    && OfHost(s.arrived, h) + OfHost(s.controller, h) + Flow(s.forward[h]) == s.issued[h]
    && forall i :: 0 <= i < |s.issued[h]| ==> s.issued[h][i].host == h && s.issued[h][i].index == i
  }

  lemma {:induction false} MoveKeepsFlow(stages: seq<seq<Payload>>, i: nat, n: nat)
    requires i + 1 < |stages| && n <= |stages[i]|
    ensures Flow(Move(stages, i, n)) == Flow(stages)
  {
    var t := Move(stages, i, n);
    if i == 0 {
      assert t[1..][1..] == stages[1..][1..];
      assert stages[0][..n] + stages[0][n..] == stages[0];
      assert Flow(t) == Flow(t[1..][1..]) + (stages[1] + stages[0][..n]) + stages[0][n..];
    } else {
      assert t[1..] == Move(stages[1..], i - 1, n);
      MoveKeepsFlow(stages[1..], i - 1, n);
    }
  }

  lemma {:induction false} FlowPush(stages: seq<seq<Payload>>, ps: seq<Payload>)
    requires |stages| > 0
    ensures Flow(stages[0 := stages[0] + ps]) == Flow(stages) + ps
  {
    assert stages[0 := stages[0] + ps][1..] == stages[1..];
  }

  lemma {:induction false} FlowPop(stages: seq<seq<Payload>>)
    requires |stages| > 0 && |stages[|stages| - 1]| > 0
    ensures var k := |stages| - 1;
            Flow(stages) == [stages[k][0]] + Flow(stages[k := stages[k][1..]])
  {
    var k := |stages| - 1;
    var t := stages[k := stages[k][1..]];
    if k == 0 {
      assert stages[1..] == [] && t[1..] == [];
      assert stages[0] == [stages[0][0]] + t[0];
    } else {
      FlowPop(stages[1..]);
      assert t[1..] == stages[1..][k - 1 := stages[1..][k - 1][1..]];
    }
  }

  lemma {:induction false} OfHostConcat(s: seq<Payload>, t: seq<Payload>, h: nat)
    ensures OfHost(s + t, h) == OfHost(s, h) + OfHost(t, h)
  {
    if |t| == 0 {
      assert s + t == s;
    } else {
      OfHostConcat(s, t[..|t| - 1], h);
      assert (s + t)[..|s + t| - 1] == s + t[..|t| - 1];
    }
  }

  lemma {:induction false} OfHostOne(p: Payload, h: nat)
    ensures OfHost([p], h) == if p.host == h then [p] else []
  {
    assert [p][..0] == [];
  }

  /** What a host sends is its own. */
  lemma {:induction false} OwnRequest(s: State, hosts: nat, h: nat)
    requires Ordered(s, hosts) && h < hosts && |s.forward[h][STAGES - 1]| > 0
    ensures s.forward[h][STAGES - 1][0].host == h
  {
    assert HostOrdered(s, h);
    FlowPop(s.forward[h]);
    assert s.forward[h][STAGES - 1][0] in s.issued[h];
  }

  lemma {:induction false} OrderKept(s: State, a: Action, hosts: nat, n: nat)
    requires Ordered(s, hosts) && Enabled(s, a, hosts, n)
    ensures Ordered(Step(s, a, hosts, n), hosts)
  {
    TableKept(s, a, hosts, n);
    HousedKept(s, a, hosts, n);
    hide Housed, Routes;
    forall g | 0 <= g < hosts
      ensures HostOrdered(Step(s, a, hosts, n), g)
    {
      assert HostOrdered(s, g);
      HostOrderKept(s, a, hosts, n, g);
    }
  }

  lemma {:induction false} TableKept(s: State, a: Action, hosts: nat, n: nat)
    requires Ordered(s, hosts) && Enabled(s, a, hosts, n)
    ensures var t := Step(s, a, hosts, n); t.route == Routes(t.arrived + t.controller)
  {
    var t := Step(s, a, hosts, n);
    match a
    case Enter(h) =>
      var p := s.forward[h][STAGES - 1][0];
      OwnRequest(s, hosts, h);
      RoutesSnoc(s.arrived + s.controller, p);
      assert t.arrived + t.controller == (s.arrived + s.controller) + [p];
    case Deliver =>
      assert s.controller == [s.controller[0]] + s.controller[1..];
      assert t.arrived + t.controller == s.arrived + s.controller;
    case _ =>
  }

  lemma {:induction false} HousedKept(s: State, a: Action, hosts: nat, n: nat)
    requires Ordered(s, hosts) && Enabled(s, a, hosts, n)
    ensures Housed(Step(s, a, hosts, n), hosts)
  {
    if a.Enter? {
      OwnRequest(s, hosts, a.host);
    }
    hide Routes, HostOrdered, Move, Write, CountAck;
    match a
    case Deliver =>
      assert s.controller == [s.controller[0]] + s.controller[1..];
    case Return =>
      assert s.acks == [s.acks[0]] + s.acks[1..];
    case _ =>
  }

  /** The table knows every address that entered, and names one of the hosts for it. */
  lemma {:induction false} TableNamesHosts(history: seq<Payload>, p: Payload, hosts: nat)
    requires p in history && forall q :: q in history ==> q.host < hosts
    ensures p.addr in Routes(history) && Routes(history)[p.addr] < hosts
  {
    var last, before := history[|history| - 1], history[..|history| - 1];
    assert history == before + [last];
    if p.addr != last.addr {
      TableNamesHosts(before, p, hosts);
    }
  }

  /** A response in the controller can always be sent back: its address has an entry, and the entry is a host. */
  lemma {:induction false} ReturnPossible(s: State, hosts: nat, n: nat)
    requires Ordered(s, hosts) && |s.acks| > 0
    ensures Enabled(s, Return, hosts, n)
  {
    hide HostOrdered, Routes;
    assert s.acks[0] in s.arrived + s.controller;
    TableNamesHosts(s.arrived + s.controller, s.acks[0], hosts);
  }

  lemma {:induction false} HostOrderKept(s: State, a: Action, hosts: nat, n: nat, g: nat)
    requires Shape(s, hosts) && g < hosts && HostOrdered(s, g) && Enabled(s, a, hosts, n)
    requires a.Enter? ==> HostOrdered(s, a.host)
    ensures HostOrdered(Step(s, a, hosts, n), g)
  {
    hide Flow, OfHost, Move;
    match a
    case Issue(h, addr, ps) =>
      FlowPush(s.forward[h], ps);
    case Forward(h, i, k) =>
      MoveKeepsFlow(s.forward[h], i, k);
    case Enter(h) =>
      var p := s.forward[h][STAGES - 1][0];
      FlowPop(s.forward[h]);
      OfHostConcat(s.controller, [p], g);
      OfHostOne(p, g);
      assert p in s.issued[h];
    case Deliver =>
      var p := s.controller[0];
      OfHostConcat(s.arrived, [p], g);
      OfHostConcat([p], s.controller[1..], g);
      assert s.controller == [p] + s.controller[1..];
    case Complete(i) =>
    case Return =>
    case Backward(h, i, k) =>
    case TakeAck(h) =>
  }

  // ----- Routing: where a response goes -----

  /** Requests between entering the controller and being sent back. */
  ghost predicate InFlight(s: State, p: Payload) {
    p in s.controller || p in s.pending || p in s.acks
  }

  /** No two hosts have requests in flight to one address; the table does not tell devices apart. */
  ghost predicate NoClash(s: State) {
    forall p, q :: InFlight(s, p) && InFlight(s, q) && p.addr == q.addr ==> p.host == q.host
  }

  /** The table sends every request in flight home. */
  ghost predicate Routed(s: State) {
    forall p :: InFlight(s, p) ==> p.addr in s.route && s.route[p.addr] == p.host
  }

  /**
   * The i-th request that entered goes home exactly when the last one that entered with its address, the j-th, comes
   * from the same host.
   */
  lemma {:induction false} LastEntryDecides(s: State, hosts: nat, i: nat, j: nat)
    requires Ordered(s, hosts)
    requires var history := s.arrived + s.controller;
      && i <= j < |history| && history[i].addr == history[j].addr
      && forall k :: j < k < |history| ==> history[k].addr != history[j].addr
    ensures var history := s.arrived + s.controller;
      && history[i].addr in s.route
      && (s.route[history[i].addr] == history[i].host <==> history[j].host == history[i].host)
  {
    LastRoute(s.arrived + s.controller, j);
  }

  lemma {:induction false} LastRoute(history: seq<Payload>, j: nat)
    requires j < |history| && forall k :: j < k < |history| ==> history[k].addr != history[j].addr
    ensures var a := history[j].addr; a in Routes(history) && Routes(history)[a] == history[j].host
  {
    if j < |history| - 1 {
      LastRoute(history[..|history| - 1], j);
    }
  }

  /** The host's requests that arrived are each in one place: in the DRAM, on the way back, or taken. */
  ghost predicate Conserved(s: State, h: nat)
    requires h < |s.issued| && Shape(s, |s.issued|)
  {
    && multiset(OfHost(s.arrived, h)) ==
       multiset(OfHost(s.pending, h)) + multiset(OfHost(s.acks, h)) + multiset(Flow(s.backward[h]))
           + multiset(s.acked[h])
  }

  /** Where no clash is possible after a step, every response in flight still finds its host. */
  lemma {:induction false} RoutedKept(s: State, a: Action, hosts: nat, n: nat)
    requires Ordered(s, hosts) && Routed(s) && Enabled(s, a, hosts, n)
    requires NoClash(Step(s, a, hosts, n))
    ensures Routed(Step(s, a, hosts, n))
  {
    var t := Step(s, a, hosts, n);
    match a
    case Enter(h) =>
      OwnRequest(s, hosts, h);
      EnterRouted(s, t, s.forward[h][STAGES - 1][0]);
    case Deliver =>
      NothingEnters(s, t);
    case Complete(i) =>
      NothingEnters(s, t);
    case Return =>
      NothingEnters(s, t);
    case _ =>
  }

  lemma {:induction false} EnterRouted(s: State, t: State, p: Payload)
    requires Routed(s) && NoClash(t)
    requires t.controller == s.controller + [p] && t.pending == s.pending && t.acks == s.acks
    requires t.route == s.route[p.addr := p.host]
    ensures Routed(t)
  {
    assert InFlight(t, p);
    forall q | InFlight(t, q)
      ensures q.addr in t.route && t.route[q.addr] == q.host
    {
      assert q == p || InFlight(s, q);
    }
  }

  lemma {:induction false} NothingEnters(s: State, t: State)
    requires Routed(s) && t.route == s.route
    requires forall p :: p in t.controller || p in t.pending || p in t.acks ==>
               p in s.controller || p in s.pending || p in s.acks
    ensures Routed(t)
  {
    assert forall q :: InFlight(t, q) ==> InFlight(s, q);
  }

  lemma {:induction false} ConservedKept(s: State, a: Action, hosts: nat, n: nat, g: nat)
    requires Shape(s, hosts) && g < hosts && Conserved(s, g) && Routed(s) && Enabled(s, a, hosts, n)
    ensures Conserved(Step(s, a, hosts, n), g)
  {
    hide Flow, OfHost, Move, Write, CountAck, Routes, Routed;
    match a
    case Deliver =>
      OfHostConcat(s.arrived, [s.controller[0]], g);
      OfHostConcat(s.pending, [s.controller[0]], g);
    case Complete(i) =>
      CompleteConserved(s, Step(s, a, hosts, n), hosts, i, g);
    case Return =>
      ReturnConserved(s, Step(s, a, hosts, n), hosts, g);
    case Backward(h, i, k) =>
      MoveKeepsFlow(s.backward[h], i, k);
    case TakeAck(h) =>
      TakeConserved(s, Step(s, a, hosts, n), hosts, h, g);
    case _ =>
  }

  lemma {:induction false} TakeConserved(s: State, t: State, hosts: nat, h: nat, g: nat)
    requires Shape(s, hosts) && Shape(t, hosts) && g < hosts && Conserved(s, g) && h < hosts
    requires |s.backward[h][STAGES - 1]| > 0
    requires t.arrived == s.arrived && t.pending == s.pending && t.acks == s.acks
    requires t.backward == s.backward[h := s.backward[h][STAGES - 1 := s.backward[h][STAGES - 1][1..]]]
    requires t.acked == s.acked[h := s.acked[h] + [s.backward[h][STAGES - 1][0]]]
    ensures Conserved(t, g)
  {
    hide Flow, OfHost;
    var p := s.backward[h][STAGES - 1][0];
    FlowPop(s.backward[h]);
    if g == h {
      MoveOver(multiset(OfHost(s.pending, g)) + multiset(OfHost(s.acks, g)), Flow(s.backward[h]), Flow(t.backward[h]),
               s.acked[h], p);
    }
  }

  lemma {:induction false} MoveOver(m: multiset<Payload>, f: seq<Payload>, f': seq<Payload>, d: seq<Payload>,
                                    p: Payload)
    requires f == [p] + f'
    ensures m + multiset(f) + multiset(d) == m + multiset(f') + multiset(d + [p])
  {
  }

  lemma {:induction false} Rearrange(p: multiset<Payload>, p': multiset<Payload>, x: multiset<Payload>,
                                     k: multiset<Payload>, f: multiset<Payload>, d: multiset<Payload>)
    requires p == p' + x
    ensures p + k + f + d == p' + (k + x) + f + d
  {
  }

  lemma {:induction false} Regroup(p: multiset<Payload>, k: multiset<Payload>, f: multiset<Payload>,
                                   d: multiset<Payload>)
    ensures p + k + f + d == p + (k + f) + d
  {
  }

  lemma {:induction false} OfHostRemoved(s: seq<Payload>, i: nat, g: nat)
    requires i < |s|
    ensures multiset(OfHost(s, g)) == multiset(OfHost(s[..i] + s[i + 1..], g)) + multiset(OfHost([s[i]], g))
  {
    assert s == s[..i] + ([s[i]] + s[i + 1..]);
    OfHostConcat(s[..i], [s[i]] + s[i + 1..], g);
    OfHostConcat([s[i]], s[i + 1..], g);
    OfHostConcat(s[..i], s[i + 1..], g);
  }

  lemma {:induction false} CompleteConserved(s: State, t: State, hosts: nat, i: nat, g: nat)
    requires Shape(s, hosts) && Shape(t, hosts) && g < hosts && Conserved(s, g) && i < |s.pending|
    requires t.arrived == s.arrived && t.backward == s.backward && t.acked == s.acked
    requires t.pending == s.pending[..i] + s.pending[i + 1..] && t.acks == s.acks + [s.pending[i]]
    ensures Conserved(t, g)
  {
    hide Flow, OfHost;
    OfHostRemoved(s.pending, i, g);
    OfHostConcat(s.acks, [s.pending[i]], g);
    Rearrange(multiset(OfHost(s.pending, g)), multiset(OfHost(t.pending, g)), multiset(OfHost([s.pending[i]], g)),
              multiset(OfHost(s.acks, g)), multiset(Flow(s.backward[g])), multiset(s.acked[g]));
    assert multiset(OfHost(t.acks, g)) == multiset(OfHost(s.acks, g)) + multiset(OfHost([s.pending[i]], g));
  }

  lemma {:induction false} ReturnConserved(s: State, t: State, hosts: nat, g: nat)
    requires Shape(s, hosts) && Shape(t, hosts) && g < hosts && Conserved(s, g) && Routed(s) && |s.acks| > 0
    requires s.acks[0].addr in s.route && s.route[s.acks[0].addr] < hosts
    requires var h := s.route[s.acks[0].addr];
      t.backward == s.backward[h := s.backward[h][0 := s.backward[h][0] + [s.acks[0]]]]
    requires t.arrived == s.arrived && t.pending == s.pending && t.acked == s.acked && t.acks == s.acks[1..]
    ensures Conserved(t, g)
  {
    hide Flow, OfHost, Routes;
    var p := s.acks[0];
    assert InFlight(s, p);
    assert s.acks == [p] + s.acks[1..];
    OfHostConcat([p], s.acks[1..], g);
    OfHostOne(p, g);
    FlowPush(s.backward[p.host], [p]);
    assert multiset(OfHost(t.acks, g)) + multiset(Flow(t.backward[g]))
           == multiset(OfHost(s.acks, g)) + multiset(Flow(s.backward[g]));
    Regroup(multiset(OfHost(s.pending, g)), multiset(OfHost(s.acks, g)), multiset(Flow(s.backward[g])),
            multiset(s.acked[g]));
    Regroup(multiset(OfHost(t.pending, g)), multiset(OfHost(t.acks, g)), multiset(Flow(t.backward[g])),
            multiset(t.acked[g]));
  }

  // ----- Counting responses towards signals -----

  ghost predicate Counted(s: State, h: nat, n: nat)
    requires h < |s.issued| && Shape(s, |s.issued|)
  {
    && s.signals[h] + s.sync[h] == s.packets[h]
    && |s.issued[h]| == n * |s.packets[h]|
    && |s.acked[h]| == n * |s.signals[h]| + s.wackNum[h]
    && s.wackNum[h] < n
  }

  lemma {:induction false} CountedKept(s: State, a: Action, hosts: nat, n: nat, g: nat)
    requires Shape(s, hosts) && g < hosts && Counted(s, g, n) && Enabled(s, a, hosts, n)
    ensures Counted(Step(s, a, hosts, n), g, n)
  {
    hide Flow, Move, Write;
    match a
    case Issue(h, addr, ps) =>
      OneMore(n, |s.packets[h]|);
    case TakeAck(h) =>
      OneMore(n, |s.signals[h]|);
    case _ =>
  }

  lemma {:induction false} OneMore(n: nat, k: nat)
    ensures n * (k + 1) == n * k + n
  {
  }

  /** A host's responses never outnumber its requests that arrived, nor those its requests. */
  lemma {:induction false} AckedArrived(s: State, hosts: nat, h: nat)
    requires Shape(s, hosts) && h < hosts && HostOrdered(s, h) && Conserved(s, h)
    ensures |s.acked[h]| + |Flow(s.backward[h])| <= |OfHost(s.arrived, h)| <= |s.issued[h]|
    ensures OfHost(s.arrived, h) == s.issued[h][..|OfHost(s.arrived, h)|]
  {
    hide Flow, OfHost;
    Sizes(OfHost(s.arrived, h), OfHost(s.pending, h), OfHost(s.acks, h), Flow(s.backward[h]), s.acked[h]);
    Prefix(OfHost(s.arrived, h), OfHost(s.controller, h) + Flow(s.forward[h]));
    assert s.issued[h] == OfHost(s.arrived, h) + (OfHost(s.controller, h) + Flow(s.forward[h]));
  }

  lemma {:induction false} Sizes(a: seq<Payload>, p: seq<Payload>, k: seq<Payload>, f: seq<Payload>, d: seq<Payload>)
    requires multiset(a) == multiset(p) + multiset(k) + multiset(f) + multiset(d)
    ensures |a| == |p| + |k| + |f| + |d|
  {
    assert |multiset(a)| == |a| && |multiset(p)| == |p| && |multiset(k)| == |k| && |multiset(f)| == |f|
           && |multiset(d)| == |d|;
  }

  lemma {:induction false} Prefix(a: seq<Payload>, b: seq<Payload>)
    ensures (a + b)[..|a|] == a
  {
  }

  /** With responses still to come, N times the waiting signals is what is counted plus what is unanswered. */
  lemma {:induction false} WaitingSignals(s: State, hosts: nat, h: nat, n: nat)
    requires Shape(s, hosts) && h < hosts && HostOrdered(s, h) && Conserved(s, h) && Counted(s, h, n)
    ensures n * |s.sync[h]| == s.wackNum[h] + (|s.issued[h]| - |s.acked[h]|)
    ensures |s.backward[h][STAGES - 1]| > 0 ==> |s.sync[h]| > 0
  {
    hide Flow, OfHost;
    AckedArrived(s, hosts, h);
    Products(n, |s.signals[h]|, |s.sync[h]|);
    if |s.backward[h][STAGES - 1]| > 0 {
      FlowPop(s.backward[h]);
    }
  }

  lemma {:induction false} MoreSignals(n: nat, k: nat, j: nat)
    requires k <= j
    ensures n * k <= n * j
  {
  }

  lemma {:induction false} Products(n: nat, b: nat, c: nat)
    ensures n * (b + c) == n * b + n * c
    ensures c == 0 ==> n * c == 0
  {
  }

  // ----- Read after write -----

  ghost predicate Covers(p: Payload, x: Location) {
    p.device == x.device && p.addr <= x.addr < p.addr + |p.bytes|
  }

  function WriteAll(history: seq<Payload>): map<Location, int> {
    if |history| == 0 then map[]
    else var p := history[|history| - 1]; Write(WriteAll(history[..|history| - 1]), p, |p.bytes|)
  }

  lemma {:induction false} WriteMeans(store: map<Location, int>, p: Payload, n: nat, x: Location)
    requires n <= |p.bytes|
    ensures var t := Write(store, p, n);
      if p.device == x.device && p.addr <= x.addr < p.addr + n then x in t && t[x] == p.bytes[x.addr - p.addr]
      else (x in t <==> x in store) && (x in store ==> t[x] == store[x])
  {
    if n > 0 {
      WriteMeans(store, p, n - 1, x);
    }
  }

  /** A byte keeps its value as long as no later request covers it. */
  lemma {:induction false} LastWriteWins(history: seq<Payload>, i: nat, x: Location)
    requires i < |history| && Covers(history[i], x)
    requires forall j :: i < j < |history| ==> !Covers(history[j], x)
    ensures x in WriteAll(history) && WriteAll(history)[x] == history[i].bytes[x.addr - history[i].addr]
  {
    var k := |history| - 1;
    var p := history[k];
    WriteMeans(WriteAll(history[..k]), p, |p.bytes|, x);
    if i < k {
      LastWriteWins(history[..k], i, x);
    }
  }

  /** The whole invariant. */
  ghost predicate Inv(s: State, hosts: nat, n: nat) {
    && Ordered(s, hosts) && Routed(s) && s.store == WriteAll(s.arrived)
    && forall h :: 0 <= h < hosts ==> Conserved(s, h) && Counted(s, h, n)
  }

  lemma {:induction false} StoreKept(s: State, a: Action, hosts: nat, n: nat)
    requires Shape(s, hosts) && Enabled(s, a, hosts, n) && s.store == WriteAll(s.arrived)
    ensures var t := Step(s, a, hosts, n); t.store == WriteAll(t.arrived)
  {
    if a.Deliver? {
      var p := s.controller[0];
      assert (s.arrived + [p])[..|s.arrived|] == s.arrived;
    }
  }

  lemma {:induction false} InvKept(s: State, a: Action, hosts: nat, n: nat)
    requires Inv(s, hosts, n) && Enabled(s, a, hosts, n) && NoClash(Step(s, a, hosts, n))
    ensures Inv(Step(s, a, hosts, n), hosts, n)
  {
    var t := Step(s, a, hosts, n);
    OrderKept(s, a, hosts, n);
    RoutedKept(s, a, hosts, n);
    StoreKept(s, a, hosts, n);
    hide Ordered, Routed, Conserved, Counted, Step, NoClash, WriteAll;
    forall g | 0 <= g < hosts
      ensures Conserved(t, g) && Counted(t, g, n)
    {
      ConservedKept(s, a, hosts, n, g);
      CountedKept(s, a, hosts, n, g);
    }
  }

  ghost predicate Run(run: seq<State>, actions: seq<Action>, hosts: nat, n: nat) {
    && |run| == |actions| + 1 && Init(run[0], hosts)
    && forall i :: 0 <= i < |actions| ==>
         Shape(run[i], hosts) && Enabled(run[i], actions[i], hosts, n)
             && run[i + 1] == Step(run[i], actions[i], hosts, n)
  }

  lemma {:induction false} InitInv(s: State, hosts: nat, n: nat)
    requires Init(s, hosts) && n > 0
    ensures Inv(s, hosts, n)
  {
    assert s.arrived + s.controller == [];
    forall h | 0 <= h < hosts
      ensures HostOrdered(s, h) && Conserved(s, h) && Counted(s, h, n)
    {
      assert Idle(s, h);
      EmptyFlow(s.forward[h]);
      EmptyFlow(s.backward[h]);
    }
  }

  lemma {:induction false} EmptyFlow(stages: seq<seq<Payload>>)
    requires forall i :: 0 <= i < |stages| ==> stages[i] == []
    ensures Flow(stages) == []
  {
    if |stages| > 0 {
      EmptyFlow(stages[1..]);
    }
  }

  /** Order holds along every run, clash or not. */
  lemma {:induction false} RunOrdered(run: seq<State>, actions: seq<Action>, hosts: nat, n: nat, i: nat)
    requires Run(run, actions, hosts, n) && i < |run| && n > 0
    ensures Ordered(run[i], hosts)
  {
    if i == 0 {
      InitInv(run[0], hosts, n);
    } else {
      RunOrdered(run, actions, hosts, n, i - 1);
      OrderKept(run[i - 1], actions[i - 1], hosts, n);
    }
  }

  /** Everything else holds along every run without clashes. */
  lemma {:induction false} RunInv(run: seq<State>, actions: seq<Action>, hosts: nat, n: nat, i: nat)
    requires Run(run, actions, hosts, n) && i < |run| && n > 0
    requires forall j :: 0 <= j <= i ==> NoClash(run[j])
    ensures Inv(run[i], hosts, n)
  {
    if i == 0 {
      InitInv(run[0], hosts, n);
    } else {
      RunInv(run, actions, hosts, n, i - 1);
      assert run[i] == Step(run[i - 1], actions[i - 1], hosts, n) by {
        assert run[i - 1 + 1] == run[i];
      }
      hide Inv, NoClash, Step;
      InvKept(run[i - 1], actions[i - 1], hosts, n);
    }
  }

  /**
   * When a host's k-th signal is up, the payloads of its first k packets have arrived, whatever order the DRAMs
   * finished in, and the bytes of each are in the store unless a later arrival covers them.
   */
  lemma {:induction false} ReadAfterWrite(s: State, hosts: nat, n: nat, h: nat, k: nat, m: nat, b: nat)
    requires Inv(s, hosts, n) && h < hosts && k <= |s.signals[h]|
    requires m < n * k && m < |s.issued[h]| && b < |s.issued[h][m].bytes|
    ensures k <= |s.packets[h]| && s.signals[h][..k] == s.packets[h][..k]
    ensures exists i :: 0 <= i < |s.arrived| && s.arrived[i] == s.issued[h][m] && KeepsByte(s, i, b)
  {
    SignalledArrived(s, hosts, n, h, k, m);
    hide *;
    var i :| 0 <= i < |s.arrived| && s.arrived[i] == s.issued[h][m];
    ByteKept(s, i, b);
  }

  lemma {:induction false} SignalledArrived(s: State, hosts: nat, n: nat, h: nat, k: nat, m: nat)
    requires Inv(s, hosts, n) && h < hosts && k <= |s.signals[h]|
    requires m < n * k && m < |s.issued[h]|
    ensures s.store == WriteAll(s.arrived)
    ensures k <= |s.packets[h]| && s.signals[h][..k] == s.packets[h][..k]
    ensures s.issued[h][m] in s.arrived
  {
    assert HostOrdered(s, h) && Conserved(s, h) && Counted(s, h, n);
    hide Routed, Routes, WriteAll, Flow, OfHost, Shape, Inv, Ordered;
    AckedArrived(s, hosts, h);
    MoreSignals(n, k, |s.signals[h]|);
    assert s.issued[h][m] == OfHost(s.arrived, h)[m];
    var i := Position(s.arrived, h, s.issued[h][m]);
  }

  lemma {:induction false} ByteKept(s: State, i: nat, b: nat)
    requires s.store == WriteAll(s.arrived) && i < |s.arrived| && b < |s.arrived[i].bytes|
    ensures KeepsByte(s, i, b)
  {
    hide WriteAll;
    var p := s.arrived[i];
    var x := Location(p.device, p.addr + b);
    if forall j :: i < j < |s.arrived| ==> !Covers(s.arrived[j], x) {
      LastWriteWins(s.arrived, i, x);
    }
  }

  /** Byte b of the i-th arrival is in the store unless a later arrival covers it. */
  ghost predicate KeepsByte(s: State, i: nat, b: nat)
    requires i < |s.arrived| && b < |s.arrived[i].bytes|
  {
    var p := s.arrived[i];
    var x := Location(p.device, p.addr + b);
    (forall j :: i < j < |s.arrived| ==> !Covers(s.arrived[j], x)) ==> x in s.store && s.store[x] == p.bytes[b]
  }

  lemma {:induction false} Position(s: seq<Payload>, h: nat, p: Payload) returns (i: nat)
    requires p in OfHost(s, h)
    ensures i < |s| && s[i] == p
  {
    i := |s| - 1;
    if s[i] != p {
      i := Position(s[..i], h, p);
    }
  }

  /** Every request a host issued is in exactly one place. */
  lemma {:induction false} ExactlyOnce(s: State, hosts: nat, n: nat, h: nat)
    requires Inv(s, hosts, n) && h < hosts
    ensures multiset(s.issued[h]) ==
      multiset(Flow(s.forward[h])) + multiset(OfHost(s.controller, h)) + multiset(OfHost(s.pending, h))
      + multiset(OfHost(s.acks, h)) + multiset(Flow(s.backward[h])) + multiset(s.acked[h])
    ensures forall p :: p in s.issued[h] ==> multiset(s.issued[h])[p] == 1
  {
    assert HostOrdered(s, h) && Conserved(s, h);
    hide Flow, OfHost;
    forall p | p in s.issued[h]
      ensures multiset(s.issued[h])[p] == 1
    {
      DistinctIndices(s.issued[h], p);
    }
  }

  lemma {:induction false} DistinctIndices(s: seq<Payload>, p: Payload)
    requires forall i :: 0 <= i < |s| ==> s[i].index == i
    requires p in s
    ensures multiset(s)[p] == 1
  {
    var i :| 0 <= i < |s| && s[i] == p;
    var u, v := s[..i], s[i + 1..];
    assert s == u + [p] + v;
    assert p !in u && p !in v;
  }
}
