/** The host side: packets become payloads, responses are collected, and full write packets raise signals. */
module HostSide {
  import opened CxlSystem

  datatype Slot = Empty | Full(trans: Payload)

  class SimWrapper {
    const hostId: nat
    const reqSize: nat
    const perPacket: nat  // payloads per packet
    var rQueue: seq<Payload>
    var wQueue: seq<Payload>
    var rackQueue: seq<Payload>
    var wackQueue: seq<Payload>
    var rackIncoming: Slot
    var wackIncoming: Slot
    var rackNum: nat
    var wackNum: nat
    var outstanding: int
    var packetData: seq<int>
    var syncQueue: seq<nat>
    var writesIssued: nat
    ghost var writesAcked: nat
    ghost var collected: seq<int>  // what the reads of the current packet returned so far

    /**
     * N times the waiting signals is what is counted towards the next one plus what is unanswered; the packet buffer
     * starts with what was collected.
     */
    ghost predicate Valid()
      reads this
    {
      && perPacket > 0 && rackNum < perPacket && wackNum < perPacket
      && perPacket * |syncQueue| == wackNum + (writesIssued - writesAcked)
      && writesAcked <= writesIssued
      && |packetData| == perPacket * reqSize
      && |collected| == reqSize * rackNum <= |packetData|
      && packetData[..|collected|] == collected
    }

    ghost function Sync(signals: seq<nat>): CxlSystem.Sync
      reads this
    {
      CxlSystem.Sync(syncQueue, wackNum, signals)
    }

    ghost function Collected(handed: seq<seq<int>>): Collect
      reads this
    {
      Collect(collected, rackNum, handed)
    }

    constructor (hostId: nat, reqSize: nat, perPacket: nat)
      requires perPacket > 0
      ensures Valid() && syncQueue == [] && rQueue == wQueue == rackQueue == wackQueue == []
      ensures writesIssued == writesAcked == 0
      ensures this.hostId == hostId && this.reqSize == reqSize && this.perPacket == perPacket
    {
      this.hostId, this.reqSize, this.perPacket := hostId, reqSize, perPacket;
      rQueue, wQueue, rackQueue, wackQueue, syncQueue := [], [], [], [], [];
      rackIncoming, wackIncoming := Empty, Empty;
      rackNum, wackNum, outstanding := 0, 0, 0;
      packetData := seq(perPacket * reqSize, _ => 0);
      writesIssued, writesAcked, collected := 0, 0, [];
    }

    /** A write packet: its address waits for a signal, its bytes go out as payloads in address order. */
    method HandleWritePacket(addr: nat, device: nat, data: seq<int>)
      requires Valid() && |data| >= perPacket * reqSize
      modifies this`syncQueue, this`wQueue, this`writesIssued
      ensures Valid() && syncQueue == old(syncQueue) + [addr]
      ensures writesIssued == old(writesIssued) + perPacket
      ensures perPacket * reqSize <= |data|
      ensures wQueue == old(wQueue) + Parts(perPacket, old(writesIssued), addr, device, data)
    {
      syncQueue := syncQueue + [addr];
      OneMore(perPacket, old(|syncQueue|));
      assert 0 * reqSize == 0;
      ghost var queue, first := wQueue, writesIssued;
      for i := 0 to perPacket
        invariant i * reqSize <= |data| && wQueue == queue + Parts(i, first, addr, device, data)
        invariant writesIssued == first + i && syncQueue == old(syncQueue) + [addr]
      {
        NextPart(i, first, addr, device, data);
        hide Parts;
        var bytes := data[reqSize * i..reqSize * i + reqSize];
        wQueue := wQueue + [Payload(hostId, writesIssued, device, addr + reqSize * i, bytes)];
        writesIssued := writesIssued + 1;
      }
    }

    lemma {:induction false} NextPart(i: nat, first: nat, addr: nat, device: nat, data: seq<int>)
      requires i < perPacket && perPacket * reqSize <= |data|
      ensures i * reqSize <= |data| && (i + 1) * reqSize <= |data| && reqSize * i + reqSize <= |data|
      ensures Parts(i + 1, first, addr, device, data)
           == Parts(i, first, addr, device, data)
              + [Payload(hostId, first + i, device, addr + reqSize * i, data[reqSize * i..reqSize * i + reqSize])]
    {
      PartFits(reqSize, i, perPacket);
    }

    /** The first n payloads of a packet, numbered on from `first`. */
    ghost function Parts(n: nat, first: nat, addr: nat, device: nat, data: seq<int>): (ps: seq<Payload>)
      requires n * reqSize <= |data|
      ensures |ps| == n
    {
      if n == 0 then [] else
        PartFits(reqSize, n - 1, n);
        var at := reqSize * (n - 1);
        Parts(n - 1, first, addr, device, data)
            + [Payload(hostId, first + n - 1, device, addr + at, data[at..at + reqSize])]
    }

    method ReceiveResponse(trans: Payload, read: bool)
      modifies this`rackIncoming, this`wackIncoming
      ensures rackIncoming == (if read then Full(trans) else old(rackIncoming))
      ensures wackIncoming == (if read then old(wackIncoming) else Full(trans))
    {
      if read {
        rackIncoming := Full(trans);
      } else {
        wackIncoming := Full(trans);
      }
    }

    method ClockPosedge()
      modifies this`rackIncoming, this`wackIncoming, this`rackQueue, this`wackQueue
      ensures rackIncoming == wackIncoming == Empty
      ensures old(rackIncoming) == Empty ==> rackQueue == old(rackQueue)
      ensures old(rackIncoming).Full? ==> rackQueue == old(rackQueue) + [old(rackIncoming).trans]
      ensures old(wackIncoming) == Empty ==> wackQueue == old(wackQueue)
      ensures old(wackIncoming).Full? ==> wackQueue == old(wackQueue) + [old(wackIncoming).trans]
    {
      if rackIncoming.Full? {
        rackQueue := rackQueue + [rackIncoming.trans];
        rackIncoming := Empty;
      }
      if wackIncoming.Full? {
        wackQueue := wackQueue + [wackIncoming.trans];
        wackIncoming := Empty;
      }
    }

    /** One negative edge: one request of each class goes out, one response of each class is taken. */
    method ClockNegedge() returns (sent: seq<Payload>, packet: seq<seq<int>>, signal: seq<nat>)
      requires Valid()
      requires |wackQueue| > 0 ==> writesAcked < writesIssued
      requires |rackQueue| > 0 ==> |rackQueue[0].bytes| == reqSize
      modifies this
      ensures Valid() && unchanged(`rackIncoming, `wackIncoming, `writesIssued)
      ensures var n, m := if |old(rQueue)| > 0 then 1 else 0, if |old(wQueue)| > 0 then 1 else 0;
        && |sent| == n + m
        && sent[..n] + rQueue == old(rQueue) && sent[n..] + wQueue == old(wQueue)
      ensures sent == old(Oldest(rQueue) + Oldest(wQueue))
      ensures rQueue == old(Rest(rQueue)) && wQueue == old(Rest(wQueue))
      ensures rackQueue == old(Rest(rackQueue)) && wackQueue == old(Rest(wackQueue))
      ensures old(Oldest(rackQueue)) + rackQueue == old(rackQueue)
      ensures old(Oldest(wackQueue)) + wackQueue == old(wackQueue)
      ensures writesAcked == old(writesAcked) + old(|Oldest(wackQueue)|)
      ensures |old(wackQueue)| > 0 ==>
        (old(wackNum) + 1 == perPacket ==> |old(syncQueue)| > 0)
        && Sync(signal) == CountAck(old(Sync([])), perPacket)
      ensures |old(wackQueue)| == 0 ==> Sync(signal) == old(Sync([]))
      ensures Collected(packet)
           == if |old(rackQueue)| > 0 then CountRack(old(Collected([])), old(rackQueue)[0].bytes, perPacket)
              else old(Collected([]))
      ensures outstanding == old(outstanding) + |sent| - old(|Oldest(rackQueue)| + |Oldest(wackQueue)|)
    {
      hide Oldest, Rest, CountAck, CountRack;
      sent := SendRequests();
      packet := TakeRack();
      signal := TakeWack();
    }

    method SendRequests() returns (sent: seq<Payload>)
      modifies this`rQueue, this`wQueue, this`outstanding
      ensures var n, m := if |old(rQueue)| > 0 then 1 else 0, if |old(wQueue)| > 0 then 1 else 0;
        && |sent| == n + m
        && sent[..n] + rQueue == old(rQueue) && sent[n..] + wQueue == old(wQueue)
      ensures sent == old(Oldest(rQueue) + Oldest(wQueue)) && outstanding == old(outstanding) + |sent|
      ensures rQueue == old(Rest(rQueue)) && wQueue == old(Rest(wQueue))
    {
      sent := [];
      if |rQueue| > 0 {
        sent, rQueue, outstanding := sent + [rQueue[0]], rQueue[1..], outstanding + 1;
      }
      if |wQueue| > 0 {
        sent, wQueue, outstanding := sent + [wQueue[0]], wQueue[1..], outstanding + 1;
      }
    }

    /** A read response adds its bytes to the packet; the last one completes it. */
    method TakeRack() returns (packet: seq<seq<int>>)
      requires Valid() && (|rackQueue| > 0 ==> |rackQueue[0].bytes| == reqSize)
      modifies this`rackQueue, this`packetData, this`collected, this`rackNum, this`outstanding
      ensures Valid() && rackQueue == old(Rest(rackQueue)) && outstanding == old(outstanding) - old(|Oldest(rackQueue)|)
      ensures Collected(packet)
           == if |old(rackQueue)| > 0 then CountRack(old(Collected([])), old(rackQueue)[0].bytes, perPacket)
              else old(Collected([]))
    {
      packet := [];
      if |rackQueue| == 0 {
        return;
      }
      var trans := rackQueue[0];
      rackQueue := rackQueue[1..];
      PartFits(reqSize, rackNum, perPacket);
      var offset := reqSize * rackNum;
      packetData := packetData[..offset] + trans.bytes + packetData[offset + reqSize..];
      collected := collected + trans.bytes;
      rackNum, outstanding := rackNum + 1, outstanding - 1;
      if rackNum == perPacket {
        assert packetData == collected;
        packet := [packetData];
        rackNum, collected := 0, [];
        assert reqSize * 0 == 0;
      }
    }

    /** A write response is counted; the last one of a packet raises the oldest signal. */
    method TakeWack() returns (signal: seq<nat>)
      requires Valid() && (|wackQueue| > 0 ==> writesAcked < writesIssued)
      modifies this`wackQueue, this`syncQueue, this`wackNum, this`outstanding, this`writesAcked
      ensures Valid() && wackQueue == old(Rest(wackQueue)) && outstanding == old(outstanding) - old(|Oldest(wackQueue)|)
      ensures writesAcked == old(writesAcked) + old(|Oldest(wackQueue)|)
      ensures |old(wackQueue)| > 0 ==>
        (old(wackNum) + 1 == perPacket ==> |old(syncQueue)| > 0)
        && Sync(signal) == CountAck(old(Sync([])), perPacket)
      ensures |old(wackQueue)| == 0 ==> Sync(signal) == old(Sync([]))
    {
      signal := [];
      if |wackQueue| == 0 {
        return;
      }
      wackQueue := wackQueue[1..];
      wackNum, outstanding, writesAcked := wackNum + 1, outstanding - 1, writesAcked + 1;
      if wackNum == perPacket {
        PositiveFactor(perPacket, |syncQueue|);
        OneMore(perPacket, |syncQueue| - 1);
        signal, syncQueue, wackNum := [syncQueue[0]], syncQueue[1..], 0;
      }
    }

    /** What leaves a queue in one cycle, and what stays: together, in this order, they are the queue. */
    static function Oldest(q: seq<Payload>): (out: seq<Payload>)
      ensures out + Rest(q) == q && |out| == if |q| > 0 then 1 else 0
    {
      if |q| > 0 then [q[0]] else []
    }

    static function Rest(q: seq<Payload>): seq<Payload> {
      if |q| > 0 then q[1..] else []
    }
  }

  /** For either class, an edge is a move of at most one request from the wrapper's queue to the upstream port's. */
  lemma {:induction false} EdgeIsMove(stages: seq<seq<Payload>>)
    requires |stages| == STAGES
    ensures var out, rest := SimWrapper.Oldest(stages[0]), SimWrapper.Rest(stages[0]);
      var n := if |stages[0]| > 0 then 1 else 0;
      && Move(stages, 0, n) == [rest, stages[1] + out, stages[2]]
      && Flow([rest, stages[1] + out, stages[2]]) == Flow(stages)
  {
    MoveKeepsFlow(stages, 0, if |stages[0]| > 0 then 1 else 0);
  }

  lemma {:induction false} PositiveFactor(n: nat, k: nat)
    requires n * k > 0
    ensures k > 0
  {
  }

  lemma {:induction false} PartFits(size: nat, i: nat, n: nat)
    requires i < n
    ensures size * i + size <= n * size && size * (i + 1) == size * i + size
    ensures size * n == n * size
  {
    assert n * size == (i + 1) * size + (n - i - 1) * size;
    assert (n - i - 1) * size >= 0;
  }
}
