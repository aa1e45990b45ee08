/**
 * What a host is given back: the packet it reads is put together from responses that copy their bytes out of the memory
 * when they are taken, and it is the signalled write packet.
 */
module HandedOver {
  import opened Basics
  import opened CxlSystem
  import HostSide
  import opened ReadBack

  /** Pieces of a packet put together. */
  function Joined(pieces: seq<seq<int>>): seq<int> {
    if |pieces| == 0 then [] else Joined(pieces[..|pieces| - 1]) + pieces[|pieces| - 1]
  }

  lemma {:induction false} JoinedSnoc(pieces: seq<seq<int>>, bytes: seq<int>)
    ensures Joined(pieces + [bytes]) == Joined(pieces) + bytes
  {
    assert (pieces + [bytes])[..|pieces|] == pieces;
  }

  // ----- Packets are the responses in the order they were taken -----

  /** The m-th packet is the m-th run of N responses. */
  ghost predicate HandedAt(packet: seq<int>, taken: seq<seq<int>>, n: nat, m: nat) {
    Product(n, m) + n <= |taken| && packet == Joined(taken[Product(n, m)..Product(n, m) + n])
  }

  /** Each packet handed over is N responses put together, and what is left is the packet under way. */
  ghost predicate Collected(c: Collect, taken: seq<seq<int>>, n: nat) {
    && c.num < n && Rest(c.data, taken, Product(n, |c.handed|), c.num)
    && forall m :: 0 <= m < |c.handed| ==> HandedAt(c.handed[m], taken, n, m)
  }

  ghost predicate Rest(data: seq<int>, taken: seq<seq<int>>, from: nat, num: nat) {
    |taken| == from + num && data == Joined(taken[from..])
  }

  lemma {:induction false} RestKept(data: seq<int>, taken: seq<seq<int>>, from: nat, num: nat, bytes: seq<int>)
    requires Rest(data, taken, from, num)
    ensures Rest(data + bytes, taken + [bytes], from, num + 1)
    ensures Rest([], taken + [bytes], from + num + 1, 0)
  {
    JoinedSnoc(taken[from..], bytes);
    assert (taken + [bytes])[from..] == taken[from..] + [bytes];
    assert (taken + [bytes])[from + num + 1..] == [];
  }

  lemma {:induction false} HandedKept(packet: seq<int>, taken: seq<seq<int>>, n: nat, m: nat, bytes: seq<int>)
    requires HandedAt(packet, taken, n, m)
    ensures HandedAt(packet, taken + [bytes], n, m)
  {
    hide Product;
    assert (taken + [bytes])[Product(n, m)..Product(n, m) + n] == taken[Product(n, m)..Product(n, m) + n];
  }

  lemma {:induction false} LastHanded(data: seq<int>, taken: seq<seq<int>>, n: nat, m: nat)
    requires Rest(data, taken, Product(n, m), n)
    ensures HandedAt(data, taken, n, m)
  {
    hide Product;
    assert taken[Product(n, m)..Product(n, m) + n] == taken[Product(n, m)..];
  }

  lemma {:induction false} CollectedKept(c: Collect, taken: seq<seq<int>>, bytes: seq<int>, n: nat)
    requires Collected(c, taken, n)
    ensures Collected(CountRack(c, bytes, n), taken + [bytes], n)
  {
    hide Product, Rest, HandedAt;
    RestKept(c.data, taken, Product(n, |c.handed|), c.num, bytes);
    NextPacket(n, |c.handed|);
    forall m | 0 <= m < |c.handed|
      ensures HandedAt(c.handed[m], taken + [bytes], n, m)
    {
      HandedKept(c.handed[m], taken, n, m, bytes);
    }
    if c.num + 1 == n {
      LastHanded(c.data + bytes, taken + [bytes], n, |c.handed|);
    }
  }

  lemma {:induction false} NextPacket(n: nat, k: nat)
    ensures Product(n, k + 1) == Product(n, k) + n
  {
    OneMore(n, k);
  }

  ghost predicate HostCollected(b: Both, h: nat, n: nat)
    requires h < |b.collects| && BothShape(b, |b.collects|)
  {
    Collected(b.collects[h], b.taken[h], n) && |b.taken[h]| == |b.reading.acked[h]|
  }

  /** A step takes a response and copies its bytes, or leaves what was taken alone. */
  lemma {:induction false} TakenAfter(b: Both, m: Turn, hosts: nat, n: nat, size: nat, h: nat)
    requires CanMove(b, m, hosts, n, size) && h < hosts
    ensures var c := After(b, m, hosts, n, size);
      if m == OfReads(TakeAck(h)) then
        var p := b.reading.backward[h][STAGES - 1][0]; var bytes := Lookup(b.writing.store, p, size);
        && c.reading.acked[h] == b.reading.acked[h] + [p] && c.taken[h] == b.taken[h] + [bytes]
        && c.collects[h] == CountRack(b.collects[h], bytes, n)
      else c.reading.acked[h] == b.reading.acked[h] && c.taken[h] == b.taken[h] && c.collects[h] == b.collects[h]
  {
    hide CountRack, Lookup, Move, Write, Raised, CountAck, Cut, Full;
  }

  lemma {:induction false} RunCollected(run: seq<Both>, moves: seq<Turn>, hosts: nat, n: nat, size: nat, i: nat, h: nat)
    requires BothRun(run, moves, hosts, n, size) && i < |run| && h < hosts && n > 0
    ensures BothShape(run[i], hosts) && HostCollected(run[i], h, n)
  {
    if i == 0 {
      assert Idle(run[0].reading, h) && Product(n, 0) == 0;
    } else {
      RunCollected(run, moves, hosts, n, size, i - 1, h);
      assert CanMove(run[i - 1], moves[i - 1], hosts, n, size)
             && run[i - 1 + 1] == After(run[i - 1], moves[i - 1], hosts, n, size);
      hide CanMove, After, Collected, CountRack, Lookup, NoClash;
      TakenAfter(run[i - 1], moves[i - 1], hosts, n, size, h);
      if moves[i - 1] == OfReads(TakeAck(h)) {
        var bytes := Lookup(run[i - 1].writing.store, run[i - 1].reading.backward[h][STAGES - 1][0], size);
        CollectedKept(run[i - 1].collects[h], run[i - 1].taken[h], bytes, n);
      }
    }
  }

  /** The r-th response of a host was taken in the i-th step, and its bytes are those of the memory at that moment. */
  ghost predicate TakenAt(run: seq<Both>, hosts: nat, size: nat, h: nat, r: nat, p: Payload, bytes: seq<int>, i: nat)
    requires i < |run|
  {
    && BothShape(run[i], hosts) && h < hosts
    && |run[i].taken[h]| == r && bytes == Lookup(run[i].writing.store, p, size)
  }

  lemma {:induction false} TakenOnce(run: seq<Both>, moves: seq<Turn>, hosts: nat, n: nat, size: nat, j: nat, h: nat,
                                     r: nat)
    returns (i: nat)
    requires BothRun(run, moves, hosts, n, size) && j < |run| && h < hosts && n > 0
    requires BothShape(run[j], hosts) && r < |run[j].taken[h]|
    ensures i < j && i < |moves| && r < |run[j].reading.acked[h]| && moves[i] == OfReads(TakeAck(h))
    ensures TakenAt(run, hosts, size, h, r, run[j].reading.acked[h][r], run[j].taken[h][r], i)
  {
    RunCollected(run, moves, hosts, n, size, j, h);
    if j > 0 {
      i := j - 1;
      assert CanMove(run[i], moves[i], hosts, n, size) && run[i + 1] == After(run[i], moves[i], hosts, n, size);
      RunCollected(run, moves, hosts, n, size, i, h);
      hide CanMove, After, Collected, CountRack, Lookup, NoClash;
      TakenAfter(run[i], moves[i], hosts, n, size, h);
      if r < |run[i].taken[h]| {
        i := TakenOnce(run, moves, hosts, n, size, i, h, r);
      }
    }
  }

  lemma {:induction false} TakenGrows(run: seq<Both>, moves: seq<Turn>, hosts: nat, n: nat, size: nat, i: nat, j: nat,
                                      h: nat)
    requires BothRun(run, moves, hosts, n, size) && i <= j < |run| && h < hosts && n > 0
    ensures BothShape(run[i], hosts) && BothShape(run[j], hosts) && |run[i].taken[h]| <= |run[j].taken[h]|
  {
    RunCollected(run, moves, hosts, n, size, j, h);
    if i < j {
      assert CanMove(run[j - 1], moves[j - 1], hosts, n, size)
             && run[j - 1 + 1] == After(run[j - 1], moves[j - 1], hosts, n, size);
      hide CanMove, After, HostCollected, CountRack, Lookup, NoClash;
      TakenGrows(run, moves, hosts, n, size, i, j - 1, h);
      TakenAfter(run[j - 1], moves[j - 1], hosts, n, size, h);
    }
  }

  // ----- Responses are taken after their packet was sent -----

  /** No addresses clash among the reads either. */
  ghost predicate ReadsApart(run: seq<Both>) {
    forall i :: 0 <= i < |run| ==> NoClash(run[i].reading)
  }

  lemma {:induction false} ReadingInv(run: seq<Both>, moves: seq<Turn>, hosts: nat, n: nat, size: nat, i: nat)
    requires BothRun(run, moves, hosts, n, size) && ReadsApart(run) && i < |run| && n > 0
    ensures Inv(run[i].reading, hosts, n)
  {
    if i == 0 {
      InitInv(run[0].reading, hosts, n);
    } else {
      ReadingInv(run, moves, hosts, n, size, i - 1);
      assert CanMove(run[i - 1], moves[i - 1], hosts, n, size)
             && run[i - 1 + 1] == After(run[i - 1], moves[i - 1], hosts, n, size);
      assert NoClash(run[i].reading);
      hide Inv, NoClash, Step, Enabled, CountRack, Lookup, Raised, Cut, Full;
      if moves[i - 1].OfReads? {
        InvKept(run[i - 1].reading, moves[i - 1].action, hosts, n);
      }
    }
  }

  /** Before the m-th read packet is sent, at most the responses of the first m packets were taken. */
  lemma {:induction false} NoneTakenYet(b: Both, hosts: nat, n: nat, h: nat)
    requires BothShape(b, hosts) && h < hosts && HostCollected(b, h, n) && Inv(b.reading, hosts, n)
    ensures |b.taken[h]| <= Product(n, |b.reading.packets[h]|)
  {
    assert HostOrdered(b.reading, h) && Conserved(b.reading, h) && Counted(b.reading, h, n);
    hide Inv, HostOrdered, Conserved, Collected, Flow, OfHost;
    AckedArrived(b.reading, hosts, h);
  }

  // ----- The bytes of one response -----

  ghost predicate CoversByte(p: Payload, w: Payload, x: nat) {
    Covers(p, Location(w.device, w.addr + x))
  }

  /** Nothing that arrived after w covers any of its bytes. */
  ghost predicate Undisturbed(s: State, w: Payload) {
    forall q, j, x: nat :: 0 <= q < j < |s.arrived| && s.arrived[q] == w && x < |w.bytes| ==>
        !CoversByte(s.arrived[j], w, x)
  }

  lemma {:induction false} ByteFetched(s: State, t: State, p: Payload, w: Payload, x: nat)
    requires Returns(s, p, w, x) && p.device == w.device && s.arrived <= t.arrived && Undisturbed(t, w)
    ensures ByteAt(s.store, Location(p.device, p.addr + x)) == w.bytes[x]
  {
    hide Covers;
    var q :| 0 <= q < |s.arrived| && s.arrived[q] == w && KeepsByte(s, q, x);
    assert t.arrived[q] == w;
    forall j | q < j < |s.arrived|
      ensures !Covers(s.arrived[j], Location(w.device, w.addr + x))
    {
      assert t.arrived[j] == s.arrived[j] && !CoversByte(t.arrived[j], w, x);
    }
  }

  lemma {:induction false} BytesFetched(s: State, t: State, p: Payload, w: Payload, size: nat)
    requires |w.bytes| == size && p.device == w.device && s.arrived <= t.arrived && Undisturbed(t, w)
    requires forall x: nat :: x < size ==> Returns(s, p, w, x)
    ensures Lookup(s.store, p, size) == w.bytes
  {
    hide Returns, Undisturbed, ByteAt;
    forall x | 0 <= x < size
      ensures Lookup(s.store, p, size)[x] == w.bytes[x]
    {
      ByteFetched(s, t, p, w, x);
    }
  }

  // ----- The packet -----

  /** The responses from `from` on are those for a packet's parts in one device, in address order. */
  ghost predicate InAddressOrder(acked: seq<Payload>, from: nat, addr: nat, device: nat, size: nat, n: nat) {
    && from + n <= |acked|
    && forall t :: 0 <= t < n ==> acked[from + t].addr == PartAddress(addr, size, t) && acked[from + t].device == device
  }

  /** The k-th packet of host g went to one device, and nothing later was written over it. */
  ghost predicate Stands(s: State, hosts: nat, g: nat, k: nat, n: nat, device: nat) {
    && Shape(s, hosts) && g < hosts && Product(n, k) + n <= |s.issued[g]|
    && forall t: nat :: t < n ==>
         Part(s, hosts, g, k, t, n).device == device && Undisturbed(s, Part(s, hosts, g, k, t, n))
  }

  function PacketBytes(ps: seq<Payload>): seq<int> {
    Joined(seq(|ps|, t requires 0 <= t < |ps| => ps[t].bytes))
  }

  /** A signalled packet's part, looked up at a later moment and found undisturbed at a still later one. */
  lemma {:induction false} PartFetched(b: Both, c: Both, hosts: nat, n: nat, size: nat, g: nat, k: nat, t: nat,
                                       p: Payload, device: nat)
    requires BothInv(b, hosts, n, size) && Grown(b.writing, c.writing, hosts)
    requires Stands(c.writing, hosts, g, k, n, device)
    requires k < |b.writing.signals[g]| && t < n && p.device == device
    requires p.addr == PartAddress(b.writing.signals[g][k], size, t)
    ensures Lookup(b.writing.store, p, size) == Part(c.writing, hosts, g, k, t, n).bytes
  {
    hide Inv, Flagged, Packets, Undisturbed, Product, Lookup, PartAddress, Returns;
    OnePartReturned(b, hosts, n, size, g, k, p, t);
    SignalledAreSent(b.writing, hosts, n, g);
    PartOfPacket(b.writing.issued[g], b.writing.packets[g], size, n, k, t);
    var w := Part(b.writing, hosts, g, k, t, n);
    assert w == Part(c.writing, hosts, g, k, t, n);
    BytesFetched(b.writing, c.writing, p, w, size);
  }

  /** One response of the read packet, taken in a step after the packet was sent. */
  lemma {:induction false} ResponseFetched(run: seq<Both>, moves: seq<Turn>, hosts: nat, n: nat, size: nat, i: nat,
                                           j: nat, g: nat, k: nat, r: nat, t: nat, device: nat)
    requires BothRun(run, moves, hosts, n, size) && ReadsApart(run) && n > 0 && i < |moves| && i < j < |run|
    requires moves[i].OfReads? && moves[i].action.Issue? && BothShape(run[i], hosts) && BothShape(run[j], hosts)
    requires moves[i].action.host < hosts && Signalled(run[i].writing, hosts, g, k, moves[i].action.packet)
    requires Stands(run[j].writing, hosts, g, k, n, device)
    requires var h := moves[i].action.host;
      && Product(n, |run[i].reading.packets[h]|) <= r < |run[j].taken[h]| == |run[j].reading.acked[h]|
      && t < n && run[j].reading.acked[h][r].device == device
      && run[j].reading.acked[h][r].addr == PartAddress(moves[i].action.packet, size, t)
    ensures run[j].taken[moves[i].action.host][r] == Part(run[j].writing, hosts, g, k, t, n).bytes
  {
    hide BothRun, ReadsApart, Stands, Product, Lookup, BothInv, HostCollected, Grown, Inv;
    var h := moves[i].action.host;
    var q := TakenOnce(run, moves, hosts, n, size, j, h, r);
    AfterSent(run, moves, hosts, n, size, i, h, q, r);
    BothRunInv(run, moves, hosts, n, size, q);
    RunGrows(run, moves, hosts, n, size, i, q);
    RunGrows(run, moves, hosts, n, size, q, j);
    SignalStays(run[i].writing, run[q].writing, hosts, g, k, moves[i].action.packet);
    PartFetched(run[q], run[j], hosts, n, size, g, k, t, run[j].reading.acked[h][r], device);
  }

  /** A response to a packet is taken after the step that sends the packet. */
  lemma {:induction false} AfterSent(run: seq<Both>, moves: seq<Turn>, hosts: nat, n: nat, size: nat, i: nat, h: nat,
                                     q: nat, r: nat)
    requires BothRun(run, moves, hosts, n, size) && ReadsApart(run) && n > 0 && i < |moves| && q < |moves| && h < hosts
    requires moves[i].OfReads? && moves[i].action.Issue? && BothShape(run[i], hosts) && BothShape(run[q], hosts)
    requires moves[q] == OfReads(TakeAck(h)) && |run[q].taken[h]| == r
    requires Product(n, |run[i].reading.packets[h]|) <= r
    ensures i < q
  {
    if q < i {
      assert CanMove(run[q], moves[q], hosts, n, size) && run[q + 1] == After(run[q], moves[q], hosts, n, size);
      TakenAfter(run[q], moves[q], hosts, n, size, h);
      hide CanMove, After, HostCollected, Inv;
      TakenGrows(run, moves, hosts, n, size, q + 1, i, h);
      RunCollected(run, moves, hosts, n, size, i, h);
      ReadingInv(run, moves, hosts, n, size, i);
      NoneTakenYet(run[i], hosts, n, h);
    }
  }

  /**
   * What a host reads back is what was written: along every run, a read packet goes out only after a write packet's
   * signal for its address, and if its responses come in address order from one device, the packet handed to the host
   * is that write packet, byte for byte, unless something later was written over it.
   */
  lemma {:induction false} ReadsWhatWasWritten(run: seq<Both>, moves: seq<Turn>, hosts: nat, n: nat, size: nat, i: nat,
                                               j: nat, device: nat)
    returns (g: nat, k: nat)
    requires BothRun(run, moves, hosts, n, size) && ReadsApart(run) && n > 0 && i < |moves| && i < j < |run|
    requires moves[i].OfReads? && moves[i].action.Issue? && BothShape(run[i], hosts) && BothShape(run[j], hosts)
    requires moves[i].action.host < hosts
    requires var h := moves[i].action.host;
      InAddressOrder(run[j].reading.acked[h], Product(n, |run[i].reading.packets[h]|), moves[i].action.packet, device,
                     size, n)
    ensures Signalled(run[i].writing, hosts, g, k, moves[i].action.packet)
    ensures Stands(run[j].writing, hosts, g, k, n, device) ==>
      var h := moves[i].action.host; var m := |run[i].reading.packets[h]|;
      && m < |run[j].collects[h].handed|
      && run[j].collects[h].handed[m] == PacketBytes(run[j].writing.issued[g][Product(n, k)..Product(n, k) + n])
  {
    g, k := SignalledBytesReturned(run, moves, hosts, n, size, i, j);
    if Stands(run[j].writing, hosts, g, k, n, device) {
      var h := moves[i].action.host;
      var m := |run[i].reading.packets[h]|;
      RunCollected(run, moves, hosts, n, size, j, h);
      var ps := run[j].writing.issued[g][Product(n, k)..Product(n, k) + n];
      forall t: nat | t < n
        ensures run[j].taken[h][Product(n, m) + t] == ps[t].bytes
      {
        var r := Product(n, m) + t;
        assert run[j].reading.acked[h][r].addr == PartAddress(moves[i].action.packet, size, t);
        ResponseFetched(run, moves, hosts, n, size, i, j, g, k, r, t, device);
      }
      PacketOf(run[j].collects[h], run[j].taken[h], n, m, ps);
    }
  }

  lemma {:induction false} PacketOf(c: Collect, taken: seq<seq<int>>, n: nat, m: nat, ps: seq<Payload>)
    requires Collected(c, taken, n) && n > 0 && |ps| == n && Product(n, m) + n <= |taken|
    requires forall t: nat :: t < n ==> taken[Product(n, m) + t] == ps[t].bytes
    ensures m < |c.handed| && c.handed[m] == PacketBytes(ps)
  {
    hide Joined;
    FewerPackets(n, m, |c.handed|, c.num);
    assert HandedAt(c.handed[m], taken, n, m);
    assert taken[Product(n, m)..Product(n, m) + n] == seq(n, t requires 0 <= t < n => ps[t].bytes);
  }

  lemma {:induction false} FewerPackets(n: nat, m: nat, k: nat, c: nat)
    requires Product(n, m) + n <= Product(n, k) + c && c < n
    ensures m < k
  {
    if m >= k {
      MoreSignals(n, k, m);
    }
  }

  lemma {:induction false} BytesSnoc(ps: seq<Payload>, p: Payload)
    ensures PacketBytes(ps + [p]) == PacketBytes(ps) + p.bytes
  {
    var before, after := seq(|ps|, t requires 0 <= t < |ps| => ps[t].bytes), ps + [p];
    JoinedSnoc(before, p.bytes);
    hide Joined;
    assert seq(|after|, t requires 0 <= t < |after| => after[t].bytes) == before + [p.bytes];
  }

  /** A write packet's payloads are cut up in address order, and put together they are the packet again. */
  lemma {:induction false} CutUpAndJoined(w: HostSide.SimWrapper, k: nat, first: nat, addr: nat, device: nat,
                                          data: seq<int>)
    requires k * w.reqSize <= |data|
    ensures var ps := w.Parts(k, first, addr, device, data);
      PacketBytes(ps) == data[..k * w.reqSize] && Cut(ps, addr, w.reqSize) && Full(ps, w.reqSize)
  {
    if k == 0 {
      assert 0 * w.reqSize == 0;
    } else {
      HostSide.PartFits(w.reqSize, k - 1, k);
      CutUpAndJoined(w, k - 1, first, addr, device, data);
      OnePartMore(w, k, first, addr, device, data);
    }
  }

  lemma {:induction false} OnePartMore(w: HostSide.SimWrapper, k: nat, first: nat, addr: nat, device: nat,
                                       data: seq<int>)
    requires k > 0 && (k - 1) * w.reqSize <= |data| && k * w.reqSize <= |data|
    requires var ps := w.Parts(k - 1, first, addr, device, data);
      PacketBytes(ps) == data[..(k - 1) * w.reqSize] && Cut(ps, addr, w.reqSize) && Full(ps, w.reqSize)
    ensures var ps := w.Parts(k, first, addr, device, data);
      PacketBytes(ps) == data[..k * w.reqSize] && Cut(ps, addr, w.reqSize) && Full(ps, w.reqSize)
  {
    hide PacketBytes;
    HostSide.PartFits(w.reqSize, k - 1, k);
    var at := w.reqSize * (k - 1);
    var before := w.Parts(k - 1, first, addr, device, data);
    var last := Payload(w.hostId, first + k - 1, device, addr + at, data[at..at + w.reqSize]);
    assert w.Parts(k, first, addr, device, data) == before + [last];
    BytesSnoc(before, last);
    assert data[..at] + data[at..at + w.reqSize] == data[..at + w.reqSize];
  }
}
