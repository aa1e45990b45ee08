/**
 * Reads and writes together: a read packet waits for a signal of its address, so what it returns is what the signalled
 * write packet wrote, unless something later was written there.
 */
module ReadBack {
  import opened Basics
  import opened CxlSystem

  /**
   * What a host's process does: it deals with packets, or a read packet has seen the signal of its address, or it has
   * also freed the signal, a cycle later, and will send its requests.
   */
  datatype Wait = Moving | Seen(addr: nat) | Freed(addr: nat)

  /** The two classes of requests, the table of signals, and per host its process and what it made of its responses. */
  datatype Both = Both(
    writing: State,
    reading: State,
    flags: set<nat>,                  // the addresses whose entry in the table of signals is true
    waits: seq<Wait>,
    collects: seq<Collect>,
    taken: seq<seq<seq<int>>>)        // per host, the bytes of each read response taken so far

  datatype Turn =
    | OfWrites(action: Action)
    | OfReads(action: Action)
    | SeeSignal(host: nat, addr: nat)
    | FreeSignal(host: nat)

  ghost predicate BothShape(b: Both, hosts: nat) {
    Shape(b.writing, hosts) && Shape(b.reading, hosts) && |b.waits| == |b.collects| == |b.taken| == hosts
  }

  /** A packet is cut into payloads of one size, in address order. */
  ghost predicate Cut(ps: seq<Payload>, addr: nat, size: nat) {
    forall t :: 0 <= t < |ps| ==> ps[t].addr == PartAddress(addr, size, t)
  }

  function PartAddress(addr: nat, size: nat, t: nat): nat {
    addr + size * t
  }

  ghost predicate Full(ps: seq<Payload>, size: nat) {
    forall t :: 0 <= t < |ps| ==> |ps[t].bytes| == size
  }

  /** What a memory holds, zero where nothing was written. */
  function ByteAt(store: map<Location, int>, x: Location): int {
    if x in store then store[x] else 0
  }

  /** The bytes behind a response's pointer into the memory, at the moment they are copied. */
  function Lookup(store: map<Location, int>, p: Payload, size: nat): (bytes: seq<int>)
    ensures |bytes| == size
  {
    seq(size, i requires 0 <= i < size => ByteAt(store, Location(p.device, p.addr + i)))
  }

  ghost predicate CanMove(b: Both, m: Turn, hosts: nat, n: nat, size: nat) {
    && BothShape(b, hosts)
    && match m
       case OfWrites(a) =>
         && Enabled(b.writing, a, hosts, n)
         && (a.Issue? ==> b.waits[a.host].Moving? && Cut(a.payloads, a.packet, size) && Full(a.payloads, size))
       case OfReads(a) =>
         && Enabled(b.reading, a, hosts, n)
         && (a.Issue? ==> b.waits[a.host] == Freed(a.packet) && Cut(a.payloads, a.packet, size))
       case SeeSignal(h, x) => h < hosts && b.waits[h].Moving? && x in b.flags
       case FreeSignal(h) => h < hosts && b.waits[h].Seen?
  }

  /** The signal a write-class step raises. */
  function Raised(s: State, a: Action, n: nat): set<nat>
    requires Shape(s, |s.issued|)
  {
    if a.TakeAck? && a.host < |s.issued| && s.wackNum[a.host] + 1 == n && |s.sync[a.host]| > 0 then {s.sync[a.host][0]}
      else {}
  }

  /** A step of the read class; taking a response copies its bytes into the packet under way. */
  function ReadStep(b: Both, a: Action, hosts: nat, n: nat, size: nat): (c: Both)
    requires CanMove(b, OfReads(a), hosts, n, size)
    ensures BothShape(c, hosts)
  {
    var t := Step(b.reading, a, hosts, n);
    match a
    case Issue(h, _, _) => b.(reading := t, waits := b.waits[h := Moving])
    case TakeAck(h) =>
      var bytes := Lookup(b.writing.store, b.reading.backward[h][STAGES - 1][0], size);
      b.(reading := t, collects := b.collects[h := CountRack(b.collects[h], bytes, n)],
         taken := b.taken[h := b.taken[h] + [bytes]])
    case _ => b.(reading := t)
  }

  function After(b: Both, m: Turn, hosts: nat, n: nat, size: nat): (c: Both)
    requires CanMove(b, m, hosts, n, size)
    ensures BothShape(c, hosts)
  {
    match m
    case OfWrites(a) => b.(writing := Step(b.writing, a, hosts, n), flags := b.flags + Raised(b.writing, a, n))
    case OfReads(a) => ReadStep(b, a, hosts, n, size)
    case SeeSignal(h, x) => b.(waits := b.waits[h := Seen(x)])
    case FreeSignal(h) => b.(waits := b.waits[h := Freed(b.waits[h].addr)], flags := b.flags - {b.waits[h].addr})
  }

  // ----- The invariant of the writes -----

  ghost predicate PacketAt(issued: seq<Payload>, from: nat, addr: nat, size: nat, n: nat) {
    from + n <= |issued| && Cut(issued[from..from + n], addr, size) && Full(issued[from..from + n], size)
  }

  /** What a host issued is its packets, cut up. */
  ghost predicate Packets(issued: seq<Payload>, packets: seq<nat>, size: nat, n: nat) {
    |issued| == Product(n, |packets|) && forall k :: 0 <= k < |packets| ==>
        PacketAt(issued, Product(n, k), packets[k], size, n)
  }

  /** An address in the table, or one that a read packet found there. */
  ghost predicate Announced(b: Both, hosts: nat, x: nat)
    requires BothShape(b, hosts)
  {
    x in b.flags || exists h :: 0 <= h < hosts && (b.waits[h] == Seen(x) || b.waits[h] == Freed(x))
  }

  /** Every such address was signalled by some host. */
  ghost predicate Flagged(b: Both, hosts: nat)
    requires BothShape(b, hosts)
  {
    forall x :: Announced(b, hosts, x) ==> exists g, k :: Signalled(b.writing, hosts, g, k, x)
  }

  ghost predicate Signalled(s: State, hosts: nat, g: nat, k: nat, x: nat)
    requires Shape(s, hosts)
  {
    g < hosts && k < |s.signals[g]| && s.signals[g][k] == x
  }

  ghost predicate BothInv(b: Both, hosts: nat, n: nat, size: nat) {
    && BothShape(b, hosts) && Inv(b.writing, hosts, n)
    && (forall h :: 0 <= h < hosts ==> Packets(b.writing.issued[h], b.writing.packets[h], size, n))
    && Flagged(b, hosts)
  }

  lemma {:induction false} PacketsSnoc(issued: seq<Payload>, packets: seq<nat>, ps: seq<Payload>, addr: nat, size: nat,
                                       n: nat)
    requires Packets(issued, packets, size, n) && |ps| == n && Cut(ps, addr, size) && Full(ps, size)
    ensures Packets(issued + ps, packets + [addr], size, n)
  {
    OneMore(n, |packets|);
    hide PacketAt, Cut, Full;
    forall k | 0 <= k <= |packets|
      ensures PacketAt(issued + ps, Product(n, k), (packets + [addr])[k], size, n)
    {
      if k < |packets| {
        assert PacketAt(issued, Product(n, k), packets[k], size, n);
        PacketStays(issued, ps, Product(n, k), packets[k], size, n);
      } else {
        LastPacket(issued, ps, addr, size);
      }
    }
  }

  lemma {:induction false} PacketStays(issued: seq<Payload>, ps: seq<Payload>, from: nat, addr: nat, size: nat, n: nat)
    requires PacketAt(issued, from, addr, size, n)
    ensures PacketAt(issued + ps, from, addr, size, n)
  {
    hide Cut, Full;
    assert (issued + ps)[from..from + n] == issued[from..from + n];
  }

  lemma {:induction false} LastPacket(issued: seq<Payload>, ps: seq<Payload>, addr: nat, size: nat)
    requires Cut(ps, addr, size) && Full(ps, size)
    ensures PacketAt(issued + ps, |issued|, addr, size, |ps|)
  {
    hide Cut, Full;
    assert (issued + ps)[|issued|..|issued| + |ps|] == ps;
  }

  /** Nothing a host issued, sent as a packet or signalled is taken back, nor anything that arrived. */
  ghost predicate Grown(s: State, t: State, hosts: nat) {
    && Shape(s, hosts) && Shape(t, hosts) && s.arrived <= t.arrived
    && forall h :: 0 <= h < hosts ==>
         s.issued[h] <= t.issued[h] && s.packets[h] <= t.packets[h] && s.signals[h] <= t.signals[h]
  }

  lemma {:induction false} Grows(s: State, a: Action, hosts: nat, n: nat)
    requires Shape(s, hosts) && Enabled(s, a, hosts, n)
    ensures Grown(s, Step(s, a, hosts, n), hosts)
  {
    hide Move, Write;
  }

  lemma {:induction false} PacketsKept(b: Both, a: Action, hosts: nat, n: nat, size: nat, h: nat)
    requires CanMove(b, OfWrites(a), hosts, n, size) && h < hosts
    requires Packets(b.writing.issued[h], b.writing.packets[h], size, n)
    ensures var t := Step(b.writing, a, hosts, n); Packets(t.issued[h], t.packets[h], size, n)
  {
    hide Packets, Cut, Full, Move, Write, CountAck;
    if a.Issue? && a.host == h {
      PacketsSnoc(b.writing.issued[a.host], b.writing.packets[a.host], a.payloads, a.packet, size, n);
    }
  }

  lemma {:induction false} FlaggedKept(b: Both, m: Turn, hosts: nat, n: nat, size: nat)
    requires CanMove(b, m, hosts, n, size) && Flagged(b, hosts)
    ensures Flagged(After(b, m, hosts, n, size), hosts)
  {
    var c := After(b, m, hosts, n, size);
    WritesGrow(b, m, hosts, n, size);
    forall x | Announced(c, hosts, x)
      ensures exists g, k :: Signalled(c.writing, hosts, g, k, x)
    {
      AnnouncedBefore(b, m, hosts, n, size, x);
      if Announced(b, hosts, x) {
        var g, k :| Signalled(b.writing, hosts, g, k, x);
        assert Signalled(c.writing, hosts, g, k, x);
      } else {
        var g := m.action.host;
        NewSignal(b.writing, g, hosts, n);
        assert Signalled(c.writing, hosts, g, |b.writing.signals[g]|, x);
      }
    }
  }

  lemma {:induction false} WritesGrow(b: Both, m: Turn, hosts: nat, n: nat, size: nat)
    requires CanMove(b, m, hosts, n, size)
    ensures Grown(b.writing, After(b, m, hosts, n, size).writing, hosts)
    ensures !m.OfWrites? ==> After(b, m, hosts, n, size).writing == b.writing
  {
    hide Step;
    if m.OfWrites? {
      Grows(b.writing, m.action, hosts, n);
    }
  }

  /** Only a raised signal announces a new address. */
  lemma {:induction false} AnnouncedBefore(b: Both, m: Turn, hosts: nat, n: nat, size: nat, x: nat)
    requires CanMove(b, m, hosts, n, size) && Announced(After(b, m, hosts, n, size), hosts, x)
    ensures Announced(b, hosts, x) || (m.OfWrites? && x in Raised(b.writing, m.action, n))
  {
    hide Step, Enabled, Raised, Cut, Full, CountRack, Lookup;
    var c := After(b, m, hosts, n, size);
    if x !in c.flags {
      var h :| 0 <= h < hosts && (c.waits[h] == Seen(x) || c.waits[h] == Freed(x));
      assert x in b.flags || b.waits[h] == Seen(x) || b.waits[h] == Freed(x);
    }
  }

  lemma {:induction false} NewSignal(s: State, g: nat, hosts: nat, n: nat)
    requires Shape(s, hosts) && Enabled(s, TakeAck(g), hosts, n) && s.wackNum[g] + 1 == n
    ensures |s.sync[g]| > 0 && Step(s, TakeAck(g), hosts, n).signals[g] == s.signals[g] + [s.sync[g][0]]
  {
  }

  lemma {:induction false} BothInvKept(b: Both, m: Turn, hosts: nat, n: nat, size: nat)
    requires BothInv(b, hosts, n, size) && CanMove(b, m, hosts, n, size) && NoClash(After(b, m, hosts, n, size).writing)
    ensures BothInv(After(b, m, hosts, n, size), hosts, n, size)
  {
    FlaggedKept(b, m, hosts, n, size);
    if m.OfWrites? {
      InvKept(b.writing, m.action, hosts, n);
      forall h | 0 <= h < hosts
        ensures Packets(After(b, m, hosts, n, size).writing.issued[h], After(b, m, hosts, n, size).writing.packets[h],
                        size, n)
      {
        PacketsKept(b, m.action, hosts, n, size, h);
      }
    }
    hide Inv, NoClash, Step, Enabled, Packets, Flagged, Cut, Full;
  }

  // ----- Runs -----

  ghost predicate BothInit(b: Both, hosts: nat) {
    && BothShape(b, hosts) && Init(b.writing, hosts) && Init(b.reading, hosts) && b.flags == {}
    && forall h :: 0 <= h < hosts ==> b.waits[h] == Moving && b.collects[h] == Collect([], 0, []) && b.taken[h] == []
  }

  ghost predicate BothRun(run: seq<Both>, moves: seq<Turn>, hosts: nat, n: nat, size: nat) {
    && |run| == |moves| + 1 && BothInit(run[0], hosts)
    && (forall i :: 0 <= i < |moves| ==>
          CanMove(run[i], moves[i], hosts, n, size) && run[i + 1] == After(run[i], moves[i], hosts, n, size))
    && (forall i :: 0 <= i < |run| ==> NoClash(run[i].writing))
  }

  lemma {:induction false} StartInv(b: Both, hosts: nat, n: nat, size: nat)
    requires BothInit(b, hosts) && n > 0
    ensures BothInv(b, hosts, n, size)
  {
    InitInv(b.writing, hosts, n);
    forall h | 0 <= h < hosts
      ensures Packets(b.writing.issued[h], b.writing.packets[h], size, n)
    {
      assert Idle(b.writing, h) && Product(n, 0) == 0;
    }
  }

  lemma {:induction false} BothRunInv(run: seq<Both>, moves: seq<Turn>, hosts: nat, n: nat, size: nat, i: nat)
    requires BothRun(run, moves, hosts, n, size) && i < |run| && n > 0
    ensures BothInv(run[i], hosts, n, size)
  {
    if i == 0 {
      StartInv(run[0], hosts, n, size);
    } else {
      BothRunInv(run, moves, hosts, n, size, i - 1);
      assert CanMove(run[i - 1], moves[i - 1], hosts, n, size)
             && run[i - 1 + 1] == After(run[i - 1], moves[i - 1], hosts, n, size);
      assert NoClash(run[i].writing);
      hide BothInv, CanMove, After, NoClash;
      BothInvKept(run[i - 1], moves[i - 1], hosts, n, size);
    }
  }

  lemma {:induction false} RunGrows(run: seq<Both>, moves: seq<Turn>, hosts: nat, n: nat, size: nat, i: nat, j: nat)
    requires BothRun(run, moves, hosts, n, size) && i <= j < |run|
    ensures Grown(run[i].writing, run[j].writing, hosts)
  {
    if i == j {
      if i > 0 {
        assert CanMove(run[i - 1], moves[i - 1], hosts, n, size)
               && run[i - 1 + 1] == After(run[i - 1], moves[i - 1], hosts, n, size);
      }
      hide Step;
    } else {
      RunGrows(run, moves, hosts, n, size, i, j - 1);
      assert CanMove(run[j - 1], moves[j - 1], hosts, n, size)
             && run[j - 1 + 1] == After(run[j - 1], moves[j - 1], hosts, n, size);
      hide Step, Enabled, NoClash, Cut, Full, After, CanMove;
      WritesGrow(run[j - 1], moves[j - 1], hosts, n, size);
    }
  }

  // ----- What a read returns -----

  /** Byte x of the read p, looked up in the store now, is that of the write w, unless a later arrival covers it. */
  ghost predicate Returns(s: State, p: Payload, w: Payload, x: nat) {
    && p.addr == w.addr && x < |w.bytes|
    && (p.device == w.device ==> exists q :: 0 <= q < |s.arrived| && s.arrived[q] == w && KeepsByte(s, q, x))
  }

  /** The t-th payload of the k-th packet of host g. */
  ghost function Part(s: State, hosts: nat, g: nat, k: nat, t: nat, n: nat): Payload
    requires Shape(s, hosts) && g < hosts && Product(n, k) + t < |s.issued[g]|
  {
    s.issued[g][Product(n, k) + t]
  }

  lemma {:induction false} PartOfPacket(issued: seq<Payload>, packets: seq<nat>, size: nat, n: nat, k: nat, t: nat)
    requires Packets(issued, packets, size, n) && k < |packets| && t < n
    ensures Product(n, k) + t < |issued|
    ensures var w := issued[Product(n, k) + t]; w.addr == PartAddress(packets[k], size, t) && |w.bytes| == size
  {
    hide Product, PartAddress;
    assert PacketAt(issued, Product(n, k), packets[k], size, n);
    assert issued[Product(n, k)..Product(n, k) + n][t] == issued[Product(n, k) + t];
  }

  /** A part of a packet whose signal is up has arrived, at the address its read will ask for. */
  lemma {:induction false} SignalledPart(b: Both, hosts: nat, n: nat, size: nat, g: nat, k: nat, p: Payload, t: nat,
                                         x: nat)
    requires BothInv(b, hosts, n, size) && g < hosts && k < |b.writing.signals[g]| && t < n && x < size
    requires p.addr == PartAddress(b.writing.signals[g][k], size, t)
    ensures Product(n, k) + t < |b.writing.issued[g]| && Returns(b.writing, p, Part(b.writing, hosts, g, k, t, n), x)
  {
    hide Inv, Packets, KeepsByte, PartAddress, Product, Flagged;
    SignalledAreSent(b.writing, hosts, n, g);
    PartOfPacket(b.writing.issued[g], b.writing.packets[g], size, n, k, t);
    Within(n, k, t);
    ReadAfterWrite(b.writing, hosts, n, g, k + 1, Product(n, k) + t, x);
  }

  lemma {:induction false} SignalledAreSent(s: State, hosts: nat, n: nat, g: nat)
    requires Inv(s, hosts, n) && g < hosts
    ensures s.signals[g] <= s.packets[g]
  {
    assert Counted(s, g, n);
  }

  lemma {:induction false} Within(n: nat, k: nat, t: nat)
    requires t < n
    ensures Product(n, k) + t < n * (k + 1)
  {
    OneMore(n, k);
  }

  /** Every byte of a read packet's payloads is that of the k-th packet of host g, or of something later. */
  ghost predicate AllReturned(s: State, hosts: nat, ps: seq<Payload>, g: nat, k: nat, n: nat, size: nat) {
    && Shape(s, hosts) && g < hosts && |ps| == n
    && forall t: nat :: t < n ==> PartReturned(s, hosts, ps[t], g, k, t, n, size)
  }

  ghost predicate PartReturned(s: State, hosts: nat, p: Payload, g: nat, k: nat, t: nat, n: nat, size: nat) {
    && Shape(s, hosts) && g < hosts && Product(n, k) + t < |s.issued[g]|
    && forall x: nat :: x < size ==> Returns(s, p, Part(s, hosts, g, k, t, n), x)
  }

  /**
   * Along every run, a read packet for address A goes out only after some write packet's signal for A. From then on,
   * whenever one of its payloads looks its bytes up, they are those of that packet, unless a later arrival covers them.
   */
  lemma {:induction false} SignalledBytesReturned(run: seq<Both>, moves: seq<Turn>, hosts: nat, n: nat, size: nat,
                                                  i: nat, j: nat)
    returns (g: nat, k: nat)
    requires BothRun(run, moves, hosts, n, size) && n > 0 && i < |moves| && i < j < |run| && moves[i].OfReads?
    requires moves[i].action.Issue?
    ensures Shape(run[i].writing, hosts) && Signalled(run[i].writing, hosts, g, k, moves[i].action.packet)
    ensures AllReturned(run[j].writing, hosts, moves[i].action.payloads, g, k, n, size)
  {
    BothRunInv(run, moves, hosts, n, size, i);
    BothRunInv(run, moves, hosts, n, size, j);
    RunGrows(run, moves, hosts, n, size, i, j);
    var a := moves[i].action;
    assert CanMove(run[i], moves[i], hosts, n, size);
    assert Announced(run[i], hosts, a.packet);
    g, k :| Signalled(run[i].writing, hosts, g, k, a.packet);
    SignalStays(run[i].writing, run[j].writing, hosts, g, k, a.packet);
    assert BothInv(run[j], hosts, n, size);
    var s := run[j];
    AllPartsReturned(s, hosts, n, size, g, k, a.payloads, a.packet);
  }

  lemma {:induction false} SignalStays(s: State, t: State, hosts: nat, g: nat, k: nat, x: nat)
    requires Grown(s, t, hosts) && Signalled(s, hosts, g, k, x)
    ensures Signalled(t, hosts, g, k, x)
  {
  }

  lemma {:induction false} AllPartsReturned(b: Both, hosts: nat, n: nat, size: nat, g: nat, k: nat, ps: seq<Payload>,
                                            addr: nat)
    requires BothInv(b, hosts, n, size) && Signalled(b.writing, hosts, g, k, addr) && |ps| == n && Cut(ps, addr, size)
    ensures AllReturned(b.writing, hosts, ps, g, k, n, size)
  {
    hide Inv, Flagged, PartReturned, PartAddress;
    forall t: nat | t < n
      ensures PartReturned(b.writing, hosts, ps[t], g, k, t, n, size)
    {
      OnePartReturned(b, hosts, n, size, g, k, ps[t], t);
    }
  }

  lemma {:induction false} OnePartReturned(b: Both, hosts: nat, n: nat, size: nat, g: nat, k: nat, p: Payload, t: nat)
    requires BothInv(b, hosts, n, size) && g < hosts && k < |b.writing.signals[g]| && t < n
    requires p.addr == PartAddress(b.writing.signals[g][k], size, t)
    ensures PartReturned(b.writing, hosts, p, g, k, t, n, size)
  {
    hide Inv, Packets, PartAddress, Product, Flagged, Returns;
    SignalledAreSent(b.writing, hosts, n, g);
    PartOfPacket(b.writing.issued[g], b.writing.packets[g], size, n, k, t);
    forall x: nat | x < size
      ensures Returns(b.writing, p, Part(b.writing, hosts, g, k, t, n), x)
    {
      SignalledPart(b, hosts, n, size, g, k, p, t, x);
    }
  }
}
