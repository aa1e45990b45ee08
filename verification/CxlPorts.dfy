/**
 * The threads of the upstream port, the downstream port and the controller. A thread gives up control only where it
 * waits, so each method below runs one thread from a wait to the next; in between, other threads may push requests
 * and responses into the queues.
 */
module CxlPorts {
  import opened Basics
  import opened CxlSystem

  const READS_PER_FLIT: nat := 2

  /** Where the upstream port's request thread waits, with the write it has already taken out of its queue. */
  datatype RequestWait<T> = Cycle | FirstFlit | MiddleFlit(trans: T) | LastFlit(trans: T) | ReadFlit

  class Usp<T> {
    var rQueue: seq<T>
    var wQueue: seq<T>
    var pending: seq<T>
    var fIdx: nat
    var at: RequestWait<T>
    var rFlits: nat
    var wFlits: nat
    ghost var readsPushed: nat
    ghost var writesPushed: nat
    ghost var writesTaken: nat
    ghost var groups: nat  // complete groups of five flits that carry four writes
    const payloadNum: nat
    const portAndLink: real
    const period: real

    /**
     * fIdx flits into a group, fIdx more writes were taken and fIdx more flits counted than the complete groups
     * account for, and one write is pending exactly inside a group; no queue is empty when its front is due.
     */
    ghost predicate Valid()
      reads this
    {
      && payloadNum >= READS_PER_FLIT
      && readsPushed == |rQueue| + READS_PER_FLIT * rFlits && writesPushed == |wQueue| + writesTaken
      && fIdx <= 4
      && (if at.LastFlit? then fIdx == 0 && writesTaken == 4 * groups + 4 && wFlits == 5 * groups + 4
          else writesTaken == 4 * groups + fIdx && wFlits == 5 * groups + fIdx)
      && |pending| == (if fIdx > 0 && !at.MiddleFlit? then 1 else 0)
      && (at.FirstFlit? ==> fIdx == 0 && |wQueue| > 0)
      && (at.MiddleFlit? ==> 1 <= fIdx <= 3 && |wQueue| > 0)
      && (at.ReadFlit? ==> |rQueue| >= READS_PER_FLIT)
    }

    /** The writes this port holds, oldest first: the one in hand, the pending one, the queue. */
    ghost function HeldWrites(): seq<T>
      reads this
    {
      (if at.MiddleFlit? || at.LastFlit? then [at.trans] else []) + pending + wQueue
    }

    /** What the wait just begun costs: the port is paid once in four write groups and once per packet of reads. */
    ghost function Latency(): real
      requires payloadNum >= READS_PER_FLIT
      reads this
    {
      if at.FirstFlit? && EveryNth(4, groups) then portAndLink
      else if at.ReadFlit? && EveryNth(payloadNum / READS_PER_FLIT, rFlits) then portAndLink
      else period
    }

    constructor (payloadNum: nat, portAndLink: real, period: real)
      requires payloadNum >= READS_PER_FLIT
      ensures Valid() && HeldWrites() == [] && rQueue == [] && at == Cycle && fIdx == 0
      ensures writesPushed == readsPushed == 0
    {
      rQueue, wQueue, pending, fIdx, at := [], [], [], 0, Cycle;
      rFlits, wFlits, readsPushed, writesPushed, writesTaken, groups := 0, 0, 0, 0, 0, 0;
      this.payloadNum, this.portAndLink, this.period := payloadNum, portAndLink, period;
    }

    /** A request coming in from the host. */
    method Push(trans: T, read: bool)
      requires Valid()
      modifies this`rQueue, this`wQueue, this`readsPushed, this`writesPushed
      ensures Valid()
      ensures readsPushed == old(readsPushed) + (if read then 1 else 0)
      ensures writesPushed == old(writesPushed) + (if read then 0 else 1)
      ensures HeldWrites() == old(HeldWrites()) + (if read then [] else [trans])
      ensures rQueue == old(rQueue) + (if read then [trans] else [])
    {
      if read {
        rQueue := rQueue + [trans];
        readsPushed := readsPushed + 1;
      } else {
        wQueue := wQueue + [trans];
        writesPushed := writesPushed + 1;
      }
    }

    /** With a write to pack, or four packed, the next stretch starts a write flit. */
    predicate WriteDue()
      reads this
    {
      at.Cycle? && (|wQueue| > 0 || fIdx == 4)
    }

    predicate InWriteFlit()
      reads this
    {
      at.FirstFlit? || at.MiddleFlit? || at.LastFlit?
    }

    predicate AtRest()
      reads this
    {
      at.Cycle? && !WriteDue() && |rQueue| < READS_PER_FLIT
    }

    /** What there is to do until the port is at rest, if nothing is pushed. */
    ghost function Work(): nat
      reads this
    {
      8 * |wQueue| + (if fIdx == 4 then 4 else 0) + 2 * |rQueue| + match at
      case Cycle => 1
      case LastFlit(_) => 4
      case _ => 0
    }

    /**
     * One stretch of the request thread. Every flit that was waited for is counted and sent now; then the next is
     * started, a read flit after a write flit; a port that is not at rest gets some of its work done.
     */
    method Resume() returns (sent: seq<T>, read: seq<T>, delay: real)
      requires Valid()
      modifies this
      ensures Valid() && delay == Latency() && readsPushed == old(readsPushed) && writesPushed == old(writesPushed)
      ensures at.FirstFlit? ==> delay == if EveryNth(20, wFlits) then portAndLink else period
      ensures at.ReadFlit? ==> delay == if EveryNth(payloadNum / READS_PER_FLIT, rFlits) then portAndLink else period
      ensures !at.FirstFlit? && !at.ReadFlit? ==> delay == period
      ensures sent + HeldWrites() == old(HeldWrites()) && read + rQueue == old(rQueue)
      ensures |sent| == (if old(at.MiddleFlit? || at.LastFlit?) then 1 else 0)
      ensures |read| == (if old(at.ReadFlit?) then READS_PER_FLIT else 0)
      ensures wFlits == old(wFlits) + (if old(InWriteFlit()) then 1 else 0)
      ensures rFlits == old(rFlits) + (if old(at.ReadFlit?) then 1 else 0)
      ensures fIdx == if old(at.FirstFlit? || at.MiddleFlit?) then old(fIdx) + 1
                      else if at.LastFlit? then 0 else old(fIdx)
      ensures old(WriteDue()) ==>
        InWriteFlit() && (at.LastFlit? <==> old(fIdx) == 4) && (at.FirstFlit? <==> old(fIdx) == 0)
      ensures old(at.ReadFlit?) ==> at == Cycle
      ensures !old(WriteDue()) && !old(at.ReadFlit?) ==> at == if |rQueue| >= READS_PER_FLIT then ReadFlit else Cycle
      ensures !old(AtRest()) ==> Work() < old(Work())
    {
      hide Valid, HeldWrites, Latency;
      sent, read := [], [];
      if at.ReadFlit? {
        read, delay := FinishReadFlit();
        return;
      }
      if WriteDue() {
        delay := StartWriteFlit();
        return;
      }
      if InWriteFlit() {
        sent := FinishWriteFlit();
      }
      delay := StartReadFlit();
    }

    /** Packing a read flit, up to its wait, if there are reads for one. */
    method StartReadFlit() returns (delay: real)
      requires Valid() && at == Cycle
      modifies this`at
      ensures at.ReadFlit? ==> delay == if EveryNth(payloadNum / READS_PER_FLIT, rFlits) then portAndLink else period
      ensures !at.ReadFlit? ==> delay == period
      ensures Valid() && delay == Latency() && HeldWrites() == old(HeldWrites())
      ensures at == if |rQueue| >= READS_PER_FLIT then ReadFlit else Cycle
    {
      delay := period;
      if |rQueue| >= READS_PER_FLIT {
        delay := if EveryNth(payloadNum / READS_PER_FLIT, rFlits) then portAndLink else period;
        at := ReadFlit;
      }
    }

    /** A read flit is out, and a cycle begins. */
    method FinishReadFlit() returns (read: seq<T>, delay: real)
      requires Valid() && at.ReadFlit?
      modifies this`rQueue, this`rFlits, this`at
      ensures Valid() && at == Cycle && delay == Latency() == period && HeldWrites() == old(HeldWrites())
      ensures |read| == READS_PER_FLIT && read + rQueue == old(rQueue) && rFlits == old(rFlits) + 1
    {
      read := SendReads();
      delay := period;
    }

    /** A write flit is out: the write it completes is sent, and unless it was the last the front write is taken. */
    method FinishWriteFlit() returns (sent: seq<T>)
      requires Valid() && InWriteFlit()
      modifies this`wFlits, this`groups, this`pending, this`wQueue, this`fIdx, this`writesTaken, this`at
      ensures Valid() && at == Cycle && wFlits == old(wFlits) + 1
      ensures sent == (if old(at).FirstFlit? then [] else [old(at).trans]) && sent + HeldWrites() == old(HeldWrites())
      ensures if old(at).LastFlit? then fIdx == old(fIdx) == 0 && wQueue == old(wQueue)
              else fIdx == old(fIdx) + 1 && old(|wQueue|) == |wQueue| + 1
    {
      wFlits := wFlits + 1;
      match at
      case LastFlit(trans) =>
        sent, groups, at := [trans], groups + 1, Cycle;
      case FirstFlit =>
        sent := [];
        TakeWrite();
      case MiddleFlit(trans) =>
        sent := [trans];
        TakeWrite();
    }

    /** Packing a write flit, up to its wait. */
    method StartWriteFlit() returns (delay: real)
      requires Valid() && WriteDue()
      modifies this`pending, this`fIdx, this`at
      ensures at.FirstFlit? ==> delay == if EveryNth(20, wFlits) then portAndLink else period
      ensures !at.FirstFlit? ==> delay == period
      ensures Valid() && delay == Latency() && HeldWrites() == old(HeldWrites())
      ensures InWriteFlit() && (at.LastFlit? <==> old(fIdx) == 4) && (at.FirstFlit? <==> old(fIdx) == 0)
      ensures fIdx == if at.LastFlit? then 0 else old(fIdx)
    {
      hide EveryNth;
      FlitsOfGroups(groups);
      if fIdx == 4 {
        at, fIdx, pending := LastFlit(pending[0]), 0, pending[1..];
        delay := period;
      } else if fIdx == 0 {
        at := FirstFlit;
        delay := if EveryNth(20, wFlits) then portAndLink else period;
      } else {
        at, pending := MiddleFlit(pending[0]), pending[1..];
        delay := period;
      }
    }

    /** The front write becomes the pending one. */
    method TakeWrite()
      requires |wQueue| > 0 && pending == []
      modifies this`pending, this`wQueue, this`fIdx, this`writesTaken, this`at
      ensures pending == [old(wQueue[0])] && wQueue == old(wQueue[1..]) && at == Cycle
      ensures fIdx == old(fIdx) + 1 && writesTaken == old(writesTaken) + 1
    {
      pending, wQueue := pending + [wQueue[0]], wQueue[1..];
      fIdx, writesTaken, at := fIdx + 1, writesTaken + 1, Cycle;
    }

    /** A read flit carries two reads. */
    method SendReads() returns (read: seq<T>)
      requires |rQueue| >= READS_PER_FLIT
      modifies this`rQueue, this`rFlits, this`at
      ensures |read| == READS_PER_FLIT && read + rQueue == old(rQueue) && rFlits == old(rFlits) + 1 && at == Cycle
    {
      read := [];
      for i := 0 to READS_PER_FLIT
        invariant |read| == i && read + rQueue == old(rQueue) && rFlits == old(rFlits)
      {
        assert [rQueue[0]] + rQueue[1..] == rQueue;
        read, rQueue := read + [rQueue[0]], rQueue[1..];
      }
      rFlits, at := rFlits + 1, Cycle;
    }
  }

  /**
   * With nothing left to start, the port still holds the last write taken, unless the number of writes is a multiple
   * of four, and the last read if the number of reads is odd.
   */
  lemma {:induction false} HeldWhenIdle<T>(p: Usp<T>)
    requires p.Valid() && p.AtRest()
    ensures |p.HeldWrites()| == if p.writesPushed % 4 == 0 then 0 else 1
    ensures |p.rQueue| == p.readsPushed % 2
  {
    assert p.writesPushed % 4 == p.fIdx;
  }

  /**
   * Of any four groups in a row, group i beginning with write flit 5i, exactly one pays for the port, and so does one
   * of the read flits of any packet and one of any sixteen requests of a class for the controller; the first of all do.
   */
  lemma {:induction false} PaidOnce(payloadNum: nat, start: nat) returns (group: nat, flit: nat, request: nat)
    requires payloadNum >= READS_PER_FLIT
    ensures start <= group < start + 4
    ensures forall i: nat :: start <= i < start + 4 ==> (EveryNth(20, FirstFlitOf(i)) <==> i == group)
    ensures start <= flit < start + payloadNum / 2
    ensures forall i: nat :: start <= i < start + payloadNum / 2 ==>
              (EveryNth(payloadNum / READS_PER_FLIT, i) <==> i == flit)
    ensures start <= request < start + 16
    ensures forall i: nat :: start <= i < start + 16 ==> (EveryNth(16, i) <==> i == request)
    ensures EveryNth(20, 0) && EveryNth(payloadNum / READS_PER_FLIT, 0) && EveryNth(16, 0)
  {
    group := OneOfAny(4, start);
    flit := OneOfAny(payloadNum / READS_PER_FLIT, start);
    request := OneOfAny(16, start);
    var zero := OneOfAny(20, 0);
    forall i: nat | start <= i < start + 4
      ensures EveryNth(20, FirstFlitOf(i)) <==> i == group
    {
      FlitsOfGroups(i);
    }
  }

  function FirstFlitOf(group: nat): nat {
    5 * group
  }

  lemma {:induction false} FlitsOfGroups(group: nat)
    ensures EveryNth(20, FirstFlitOf(group)) <==> EveryNth(4, group)
  {
  }

  /** Takes the front of a queue, if there is one. */
  function Front<T>(q: seq<T>): (r: (seq<T>, seq<T>))
    ensures r.0 + r.1 == q && |r.0| == if |q| > 0 then 1 else 0
  {
    if |q| > 0 then ([q[0]], q[1..]) else ([], [])
  }

  /** The downstream port passes on one read and one write per cycle, in each direction. */
  class Dsp<T> {
    var rQueue: seq<T>
    var wQueue: seq<T>
    var rackQueue: seq<T>
    var wackQueue: seq<T>

    constructor ()
      ensures rQueue == wQueue == rackQueue == wackQueue == []
    {
      rQueue, wQueue, rackQueue, wackQueue := [], [], [], [];
    }

    /** A request coming in from the upstream port. */
    method PushRequest(trans: T, read: bool)
      modifies this`rQueue, this`wQueue
      ensures rQueue == old(rQueue) + (if read then [trans] else [])
      ensures wQueue == old(wQueue) + (if read then [] else [trans])
    {
      if read {
        rQueue := rQueue + [trans];
      } else {
        wQueue := wQueue + [trans];
      }
    }

    /** A response coming in from the controller. */
    method PushResponse(trans: T, read: bool)
      modifies this`rackQueue, this`wackQueue
      ensures rackQueue == old(rackQueue) + (if read then [trans] else [])
      ensures wackQueue == old(wackQueue) + (if read then [] else [trans])
    {
      if read {
        rackQueue := rackQueue + [trans];
      } else {
        wackQueue := wackQueue + [trans];
      }
    }

    /** The oldest request of a class leaves, if there is one. */
    method ForwardOne(read: bool) returns (out: seq<T>)
      modifies this`rQueue, this`wQueue
      ensures if read then out + rQueue == old(rQueue) && wQueue == old(wQueue)
              else out + wQueue == old(wQueue) && rQueue == old(rQueue)
      ensures |out| == if |old(if read then rQueue else wQueue)| > 0 then 1 else 0
    {
      if read {
        out, rQueue := Front(rQueue).0, Front(rQueue).1;
      } else {
        out, wQueue := Front(wQueue).0, Front(wQueue).1;
      }
    }

    method Forward() returns (read: seq<T>, sent: seq<T>)
      modifies this`rQueue, this`wQueue
      ensures read + rQueue == old(rQueue) && |read| == (if |old(rQueue)| > 0 then 1 else 0)
      ensures sent + wQueue == old(wQueue) && |sent| == (if |old(wQueue)| > 0 then 1 else 0)
    {
      read := ForwardOne(true);
      sent := ForwardOne(false);
    }

    method BackwardOne(read: bool) returns (out: seq<T>)
      modifies this`rackQueue, this`wackQueue
      ensures if read then out + rackQueue == old(rackQueue) && wackQueue == old(wackQueue)
              else out + wackQueue == old(wackQueue) && rackQueue == old(rackQueue)
      ensures |out| == if |old(if read then rackQueue else wackQueue)| > 0 then 1 else 0
    {
      if read {
        out, rackQueue := Front(rackQueue).0, Front(rackQueue).1;
      } else {
        out, wackQueue := Front(wackQueue).0, Front(wackQueue).1;
      }
    }

    method Backward() returns (read: seq<T>, sent: seq<T>)
      modifies this`rackQueue, this`wackQueue
      ensures read + rackQueue == old(rackQueue) && |read| == (if |old(rackQueue)| > 0 then 1 else 0)
      ensures sent + wackQueue == old(wackQueue) && |sent| == (if |old(wackQueue)| > 0 then 1 else 0)
    {
      read := BackwardOne(true);
      sent := BackwardOne(false);
    }
  }

  /** Where the controller's two threads wait; the number counts the flits of the group already sent. */
  datatype ControllerWait = Ready | ReadDue | WriteDue
  datatype ResponseWait = Idle | DrsStart | DrsFlit(sent: nat) | NdrStart | NdrFlit(sent: nat) | MixStart | MixFlit

  const MAX_DRS: nat := 3
  const MAX_NDR: nat := 2
  const PIPELINE: nat := 16

  /** A response and the host it is sent to. */
  datatype Sent = Sent(host: nat, trans: Payload)

  function Payloads(s: seq<Sent>): (ps: seq<Payload>)
    ensures |ps| == |s| && forall i :: 0 <= i < |s| ==> ps[i] == s[i].trans
  {
    if |s| == 0 then [] else [s[0].trans] + Payloads(s[1..])
  }

  class Controller {
    var rQueue: seq<Payload>
    var wQueue: seq<Payload>
    var rackQueue: seq<Payload>
    var wackQueue: seq<Payload>
    var rTransId: map<nat, nat>
    var wTransId: map<nat, nat>
    var rNum: nat
    var wNum: nat
    var requestAt: ControllerWait
    var responseAt: ResponseWait
    const ctrl: real
    const link: real
    const period: real

    /** Whatever is due after a wait is still there. */
    ghost predicate Valid()
      reads this
    {
      && (requestAt.ReadDue? ==> |rQueue| > 0)
      && (requestAt.WriteDue? ==> |wQueue| > 0)
      && (responseAt.DrsStart? || responseAt.DrsFlit? || responseAt.MixStart? || responseAt.MixFlit? ==>
          |rackQueue| > 0)
      && (responseAt.NdrStart? || responseAt.NdrFlit? || responseAt.MixStart? ==> |wackQueue| > 0)
      && (responseAt.DrsFlit? ==> responseAt.sent < MAX_DRS)
      && (responseAt.NdrFlit? ==> responseAt.sent < MAX_NDR)
    }

    constructor (ctrl: real, link: real, period: real)
      ensures Valid() && rQueue == wQueue == rackQueue == wackQueue == [] && rTransId == wTransId == map[]
      ensures this.ctrl == ctrl && this.link == link && this.period == period && rNum == wNum == 0
    {
      this.ctrl, this.link, this.period := ctrl, link, period;
      rQueue, wQueue, rackQueue, wackQueue := [], [], [], [];
      rTransId, wTransId, rNum, wNum := map[], map[], 0, 0;
      requestAt, responseAt := Ready, Idle;
    }

    /** A request from a host: the table of its class notes where its address came from. */
    method PushRequest(id: nat, p: Payload, read: bool)
      requires Valid()
      modifies this`rQueue, this`wQueue, this`rTransId, this`wTransId
      ensures Valid()
      ensures rQueue == old(rQueue) + (if read then [p] else []) && wQueue == old(wQueue) + (if read then [] else [p])
      ensures rTransId == if read then old(rTransId)[p.addr := id] else old(rTransId)
      ensures wTransId == if read then old(wTransId) else old(wTransId)[p.addr := id]
    {
      if read {
        rTransId, rQueue := rTransId[p.addr := id], rQueue + [p];
      } else {
        wTransId, wQueue := wTransId[p.addr := id], wQueue + [p];
      }
    }

    method PushResponse(p: Payload, read: bool)
      requires Valid()
      modifies this`rackQueue, this`wackQueue
      ensures Valid()
      ensures rackQueue == old(rackQueue) + (if read then [p] else [])
      ensures wackQueue == old(wackQueue) + (if read then [] else [p])
    {
      if read {
        rackQueue := rackQueue + [p];
      } else {
        wackQueue := wackQueue + [p];
      }
    }

    // ----- Requests -----

    predicate RequestsAtRest()
      reads this
    {
      requestAt.Ready? && |rQueue| == 0 && |wQueue| == 0
    }

    predicate ResponsesAtRest()
      reads this
    {
      responseAt.Idle? && |rackQueue| == 0 && |wackQueue| == 0
    }

    /** What there is to do until no request waits, if none is pushed. */
    ghost function RequestWork(): nat
      reads this
    {
      2 * |rQueue| + 2 * |wQueue| + if requestAt.Ready? then 1 else 0
    }

    /** What the wait just begun costs: one request in sixteen of its class pays for the controller. */
    ghost function RequestLatency(): real
      reads this
    {
      match requestAt
      case Ready => period
      case ReadDue => if EveryNth(PIPELINE, rNum) then ctrl else link
      case WriteDue => if EveryNth(PIPELINE, wNum) then ctrl else link
    }

    /**
     * One stretch of the request thread: the request that was waited for goes to its memory, the oldest of its class;
     * a read is followed by a write if there is one, and nothing waits for ever.
     */
    method ResumeRequests() returns (read: seq<Payload>, sent: seq<Payload>, delay: real)
      requires Valid()
      modifies this`rQueue, this`wQueue, this`rNum, this`wNum, this`requestAt
      ensures Valid() && delay == RequestLatency()
      ensures requestAt.ReadDue? ==> delay == if EveryNth(16, rNum) then ctrl else link
      ensures requestAt.WriteDue? ==> delay == if EveryNth(16, wNum) then ctrl else link
      ensures requestAt.Ready? ==> delay == period
      ensures read + rQueue == old(rQueue) && |read| == rNum - old(rNum) == (if old(requestAt).ReadDue? then 1 else 0)
      ensures sent + wQueue == old(wQueue) && |sent| == wNum - old(wNum) == (if old(requestAt).WriteDue? then 1 else 0)
      ensures requestAt.ReadDue? <==> old(requestAt).Ready? && |old(rQueue)| > 0
      ensures requestAt.WriteDue? <==> !old(requestAt).WriteDue? && !requestAt.ReadDue? && |old(wQueue)| > 0
      ensures !old(RequestsAtRest()) ==> RequestWork() < old(RequestWork())
    {
      read, sent, delay := [], [], period;
      match requestAt {
      case Ready =>
        if |rQueue| > 0 {
          requestAt := ReadDue;
          delay := if EveryNth(PIPELINE, rNum) then ctrl else link;
          return;
        }
      case ReadDue =>
        read, rQueue, rNum := [rQueue[0]], rQueue[1..], rNum + 1;
      case WriteDue =>
        sent, wQueue, wNum := [wQueue[0]], wQueue[1..], wNum + 1;
        requestAt := Ready;
        return;
      }
      requestAt := Ready;
      if |wQueue| > 0 {
        requestAt := WriteDue;
        delay := if EveryNth(PIPELINE, wNum) then ctrl else link;
      }
    }

    // ----- Responses -----

    /** The host a response goes to; a missing entry reads as zero. */
    function Destination(p: Payload, read: bool): nat
      reads this`rTransId, this`wTransId
    {
      var table := if read then rTransId else wTransId;
      if p.addr in table then table[p.addr] else 0
    }

    ghost predicate Addressed(s: seq<Sent>, read: bool)
      reads this`rTransId, this`wTransId
    {
      forall i :: 0 <= i < |s| ==> s[i].host == Destination(s[i].trans, read)
    }

    ghost function ResponseWork(): nat
      reads this
    {
      3 * (|rackQueue| + |wackQueue|) + match responseAt
      case Idle => 2
      case DrsStart => 1
      case NdrStart => 1
      case MixStart => 1
      case _ => 0
    }

    /**
     * What follows a wait: reads alone in groups of up to three, writes alone of up to two, else two writes and a read.
     */
    ghost function NextResponse(was: ResponseWait, racks: nat, wacks: nat): ResponseWait {
      match was
      case Idle =>
        if racks == 0 && wacks == 0 then Idle
        else if wacks == 0 then DrsStart else if racks == 0 then NdrStart else MixStart
      case DrsStart => DrsFlit(0)
      case DrsFlit(i) => if i + 1 < MAX_DRS && racks > 1 then DrsFlit(i + 1) else Idle
      case NdrStart => NdrFlit(0)
      case NdrFlit(i) => if i + 1 < MAX_NDR && wacks > 1 then NdrFlit(i + 1) else Idle
      case MixStart => MixFlit
      case MixFlit => Idle
    }

    /** How many reads and writes are sent when a wait is over. */
    ghost function Racks(was: ResponseWait): nat {
      if was.DrsFlit? || was.MixFlit? then 1 else 0
    }

    ghost function Wacks(was: ResponseWait, wacks: nat): nat {
      if was.NdrFlit? then 1 else if was.MixStart? then (if wacks > 1 then MAX_NDR else 1) else 0
    }

    /** One stretch of the response thread: who is sent where, what is waited for next, and what that costs. */
    method ResumeResponses() returns (read: seq<Sent>, sent: seq<Sent>, delay: real)
      requires Valid()
      modifies this`rackQueue, this`wackQueue, this`responseAt
      ensures Valid() && responseAt == NextResponse(old(responseAt), |old(rackQueue)|, |old(wackQueue)|)
      ensures responseAt.DrsStart? || responseAt.NdrStart? || responseAt.MixStart? <==>
              old(responseAt).Idle? && !old(ResponsesAtRest())
      ensures Payloads(read) + rackQueue == old(rackQueue) && |read| == Racks(old(responseAt))
      ensures Payloads(sent) + wackQueue == old(wackQueue) && |sent| == Wacks(old(responseAt), |old(wackQueue)|)
      ensures Addressed(read, true) && Addressed(sent, false)
      ensures delay == if responseAt.DrsStart? || responseAt.NdrStart? || responseAt.MixStart? then ctrl + link
              else period
      ensures !old(ResponsesAtRest()) ==> ResponseWork() < old(ResponseWork())
    {
      hide Addressed, Payloads, Destination;
      read, sent, delay := [], [], period;
      NothingSent();
      match responseAt
      case Idle =>
        if |rackQueue| > 0 || |wackQueue| > 0 {
          responseAt := if |wackQueue| == 0 then DrsStart else if |rackQueue| == 0 then NdrStart else MixStart;
          delay := ctrl + link;
        }
      case DrsStart =>
        responseAt := DrsFlit(0);
      case DrsFlit(i) =>
        read := SendRack();
        responseAt := if i + 1 < MAX_DRS && |rackQueue| > 0 then DrsFlit(i + 1) else Idle;
      case NdrStart =>
        responseAt := NdrFlit(0);
      case NdrFlit(i) =>
        sent := SendWack();
        responseAt := if i + 1 < MAX_NDR && |wackQueue| > 0 then NdrFlit(i + 1) else Idle;
      case MixStart =>
        sent := SendWacks();
        responseAt := MixFlit;
      case MixFlit =>
        read := SendRack();
        responseAt := Idle;
    }

    /** How far a group has come that began with so many reads and writes: what was sent, and what is waited for. */
    ghost predicate GroupAt(racks: nat, wacks: nat, read: nat, sent: nat, at: ResponseWait) {
      match at
      case Idle => GroupSize(racks, wacks, read, sent)
      case DrsStart => wacks == 0 < racks && read == sent == 0
      case DrsFlit(i) => wacks == sent == 0 && read == i < racks && i < 3
      case NdrStart => racks == 0 < wacks && read == sent == 0
      case NdrFlit(i) => racks == read == 0 && sent == i < wacks && i < 2
      case MixStart => racks > 0 && wacks > 0 && read == sent == 0
      case MixFlit => racks > 0 && wacks > 0 && read == 0 && sent == if wacks > 1 then 2 else 1
    }

    /** Three reads if there are no writes, two writes, or two writes and a read; less if there are less. */
    ghost predicate GroupSize(racks: nat, wacks: nat, read: nat, sent: nat) {
      && read == (if wacks > 0 && racks > 0 then 1 else if racks > 3 then 3 else racks)
      && sent == (if wacks > 2 then 2 else wacks)
    }

    /** A group of responses from beginning to end, if none come in meanwhile. */
    method ServeGroup() returns (read: seq<Sent>, sent: seq<Sent>)
      requires Valid() && responseAt.Idle?
      modifies this`rackQueue, this`wackQueue, this`responseAt
      ensures Valid() && responseAt.Idle? && GroupSize(|old(rackQueue)|, |old(wackQueue)|, |read|, |sent|)
      ensures Payloads(read) + rackQueue == old(rackQueue) && Payloads(sent) + wackQueue == old(wackQueue)
      ensures Addressed(read, true) && Addressed(sent, false)
    {
      hide Addressed, Payloads, Destination, GroupAt, NextResponse, Racks, Wacks, Valid, GroupSize;
      ghost var racks, wacks := |rackQueue|, |wackQueue|;
      if ResponsesAtRest() {
        read, sent := [], [];
        NothingSent();
        return;
      }
      var delay;
      GroupStarts(racks, wacks);
      read, sent, delay := ResumeResponses();
      while !responseAt.Idle?
        invariant Valid() && GroupAt(racks, wacks, |read|, |sent|, responseAt)
        invariant |read| + |rackQueue| == racks && |sent| + |wackQueue| == wacks
        invariant Payloads(read) + rackQueue == old(rackQueue) && Payloads(sent) + wackQueue == old(wackQueue)
        invariant Addressed(read, true) && Addressed(sent, false)
        decreases ResponseWork()
      {
        read, sent := GoOn(racks, wacks, read, sent);
      }
      GroupEnds(racks, wacks, |read|, |sent|);
    }

    /** The group's next stretch. */
    method GoOn(ghost racks: nat, ghost wacks: nat, before: seq<Sent>, sentBefore: seq<Sent>)
      returns (read: seq<Sent>, sent: seq<Sent>)
      requires Valid() && !responseAt.Idle? && GroupAt(racks, wacks, |before|, |sentBefore|, responseAt)
      requires |before| + |rackQueue| == racks && |sentBefore| + |wackQueue| == wacks
      requires Addressed(before, true) && Addressed(sentBefore, false)
      modifies this`rackQueue, this`wackQueue, this`responseAt
      ensures Valid() && GroupAt(racks, wacks, |read|, |sent|, responseAt) && ResponseWork() < old(ResponseWork())
      ensures |read| + |rackQueue| == racks && |sent| + |wackQueue| == wacks
      ensures Payloads(read) + rackQueue == Payloads(before) + old(rackQueue)
      ensures Payloads(sent) + wackQueue == Payloads(sentBefore) + old(wackQueue)
      ensures Addressed(read, true) && Addressed(sent, false)
    {
      hide Addressed, Payloads, Destination, GroupAt, NextResponse, Racks, Wacks, Valid, ResponseWork;
      var delay;
      GroupGoesOn(racks, wacks, |before|, |sentBefore|, responseAt);
      read, sent, delay := ResumeResponses();
      Joined(before, read);
      Joined(sentBefore, sent);
      read, sent := before + read, sentBefore + sent;
    }

    lemma {:induction false} GroupStarts(racks: nat, wacks: nat)
      requires racks + wacks > 0
      ensures GroupAt(racks, wacks, 0, 0, NextResponse(Idle, racks, wacks))
      ensures Racks(Idle) == Wacks(Idle, wacks) == 0
    {
    }

    lemma {:induction false} GroupGoesOn(racks: nat, wacks: nat, read: nat, sent: nat, at: ResponseWait)
      requires GroupAt(racks, wacks, read, sent, at) && !at.Idle? && read <= racks && sent <= wacks
      ensures GroupAt(racks, wacks, read + Racks(at), sent + Wacks(at, wacks - sent),
                      NextResponse(at, racks - read, wacks - sent))
    {
    }

    lemma {:induction false} GroupEnds(racks: nat, wacks: nat, read: nat, sent: nat)
      requires GroupAt(racks, wacks, read, sent, Idle)
      ensures GroupSize(racks, wacks, read, sent)
    {
    }

    lemma {:induction false} Joined(s: seq<Sent>, t: seq<Sent>)
      ensures Payloads(s + t) == Payloads(s) + Payloads(t)
      ensures Addressed(s, true) && Addressed(t, true) ==> Addressed(s + t, true)
      ensures Addressed(s, false) && Addressed(t, false) ==> Addressed(s + t, false)
    {
    }

    lemma {:induction false} NothingSent()
      ensures Payloads([]) == [] && Addressed([], true) && Addressed([], false) && GroupSize(0, 0, 0, 0)
    {
    }

    method SendRack() returns (read: seq<Sent>)
      requires |rackQueue| > 0
      modifies this`rackQueue
      ensures |read| == 1 && Payloads(read) + rackQueue == old(rackQueue) && Addressed(read, true)
    {
      read := [Sent(Destination(rackQueue[0], true), rackQueue[0])];
      rackQueue := rackQueue[1..];
    }

    method SendWack() returns (sent: seq<Sent>)
      requires |wackQueue| > 0
      modifies this`wackQueue
      ensures |sent| == 1 && Payloads(sent) + wackQueue == old(wackQueue) && Addressed(sent, false)
    {
      sent := [Sent(Destination(wackQueue[0], false), wackQueue[0])];
      wackQueue := wackQueue[1..];
    }

    method SendWacks() returns (sent: seq<Sent>)
      requires |wackQueue| > 0
      modifies this`wackQueue
      ensures |sent| == (if old(|wackQueue|) > 1 then MAX_NDR else 1)
      ensures Payloads(sent) + wackQueue == old(wackQueue) && Addressed(sent, false)
    {
      sent := SendWack();
      if |wackQueue| > 0 {
        var second := SendWack();
        assert Payloads(sent + second) == Payloads(sent) + Payloads(second);
        sent := sent + second;
      }
    }
  }
}
