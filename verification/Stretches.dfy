/**
 * What a thread does between two waits, in terms of the path's state: each stretch moves on what a step of the state
 * machine moves on, and the objects' queues stay those of the state.
 */
module Stretches {
  import opened CxlSystem
  import opened CxlPorts
  import opened PathMoves

  /** The upstream port holds what the state says, and was given what left the wrapper. */
  ghost predicate UspAt(p: Usp<Payload>, w: Lane, r: Lane)
    reads p
  {
    && p.Valid() && p.HeldWrites() == w.port && p.writesPushed == w.given
    && p.rQueue == r.port && p.readsPushed == r.given
  }

  ghost predicate DspAt(d: Dsp<Payload>, w: Lane, r: Lane)
    reads d
  {
    d.wQueue == w.down && d.rQueue == r.down && d.wackQueue == w.back && d.rackQueue == r.back
  }

  ghost predicate ControllerAt(c: Controller, w: Desk, r: Desk)
    reads c
  {
    && c.Valid() && c.wQueue == w.queue && c.wackQueue == w.acks && c.wTransId == w.route
    && c.rQueue == r.queue && c.rackQueue == r.acks && c.rTransId == r.route
  }

  /** The lane after the first k requests left the upstream port for the downstream one. */
  ghost function Passed(l: Lane, k: nat): Lane
    requires k <= |l.port|
  {
    l.(port := l.port[k..], down := l.down + l.port[..k])
  }

  lemma {:induction false} NonePassed(l: Lane)
    ensures Passed(l, 0) == l
  {
    assert l.port[0..] == l.port && l.down + l.port[..0] == l.down;
  }

  ghost function Given(l: Lane, trans: Payload): Lane {
    l.(port := l.port + [trans], given := l.given + 1)
  }

  method PushToUsp(p: Usp<Payload>, ghost w: Lane, ghost r: Lane, trans: Payload, read: bool)
    requires UspAt(p, w, r)
    modifies p
    ensures UspAt(p, if read then w else Given(w, trans), if read then Given(r, trans) else r)
    ensures p.at == old(p.at) && (read ==> p.WriteDue() == old(p.WriteDue()))
  {
    p.Push(trans, read);
  }

  /** With no write to pack, two reads are packed next. */
  predicate ReadFlitDue(p: Usp<Payload>)
    reads p
  {
    p.at.Cycle? && !p.WriteDue() && |p.rQueue| >= READS_PER_FLIT
  }

  /** The upstream port's thread: what it sends is in the downstream port at once. */
  method UspStretch(p: Usp<Payload>, d: Dsp<Payload>, ghost w: Lane, ghost r: Lane)
    returns (writes: nat, reads': nat)
    requires UspAt(p, w, r) && DspAt(d, w, r)
    modifies p, d
    ensures writes <= |w.port| && reads' <= |r.port| && (writes == 0 || reads' == 0)
    ensures UspAt(p, Passed(w, writes), Passed(r, reads')) && DspAt(d, Passed(w, writes), Passed(r, reads'))
    ensures if old(p.AtRest()) then p.AtRest() && writes == reads' == 0 else p.Work() < old(p.Work())
    ensures old(ReadFlitDue(p)) ==> p.at.ReadFlit? && writes == reads' == 0
    ensures old(p.at.ReadFlit?) ==> reads' == READS_PER_FLIT
  {
    var sent, read, delay := p.Resume();
    assert w.port == sent + p.HeldWrites() && r.port == read + p.rQueue;
    writes, reads' := |sent|, |read|;
    PassOn(d, w, r, sent, false);
    PassOn(d, Passed(w, writes), r, read, true);
  }

  method PassOn(d: Dsp<Payload>, ghost w: Lane, ghost r: Lane, ps: seq<Payload>, read: bool)
    requires DspAt(d, w, r) && ps <= (if read then r.port else w.port)
    modifies d
    ensures DspAt(d, if read then w else Passed(w, |ps|), if read then Passed(r, |ps|) else r)
  {
    for i := 0 to |ps|
      invariant DspAt(d, if read then w else Passed(w, i), if read then Passed(r, i) else r)
    {
      var q := if read then r.port else w.port;
      assert q[..i + 1] == q[..i] + [ps[i]];
      d.PushRequest(ps[i], read);
    }
  }

  /** The downstream port: the oldest request of a class leaves it. */
  method DspForward(d: Dsp<Payload>, ghost w: Lane, ghost r: Lane, read: bool)
    requires DspAt(d, w, r) && (if read then r else w).down != []
    modifies d
    ensures DspAt(d, if read then w else w.(down := w.down[1..]), if read then r.(down := r.down[1..]) else r)
  {
    var out := d.ForwardOne(read);
    assert (if read then r else w).down == out + (if read then d.rQueue else d.wQueue);
  }

  method DspBackward(d: Dsp<Payload>, ghost w: Lane, ghost r: Lane, read: bool)
    requires DspAt(d, w, r) && (if read then r else w).back != []
    modifies d
    ensures DspAt(d, if read then w else w.(back := w.back[1..]), if read then r.(back := r.back[1..]) else r)
  {
    var out := d.BackwardOne(read);
    assert (if read then r else w).back == out + (if read then d.rackQueue else d.wackQueue);
  }

  ghost function Answered(l: Lane, p: Payload): Lane {
    l.(back := l.back + [p])
  }

  method PushBack(d: Dsp<Payload>, ghost w: Lane, ghost r: Lane, p: Payload, read: bool)
    requires DspAt(d, w, r)
    modifies d
    ensures DspAt(d, if read then w else Answered(w, p), if read then Answered(r, p) else r)
  {
    d.PushResponse(p, read);
  }

  // ----- The controller -----

  ghost function Entered(k: Desk, h: nat, p: Payload): Desk {
    k.(queue := k.queue + [p], route := k.route[p.addr := h])
  }

  method EnterController(c: Controller, ghost w: Desk, ghost r: Desk, h: nat, p: Payload, read: bool)
    requires ControllerAt(c, w, r)
    modifies c
    ensures ControllerAt(c, if read then w else Entered(w, h, p), if read then Entered(r, h, p) else r)
    ensures c.requestAt == old(c.requestAt) && c.responseAt == old(c.responseAt)
  {
    c.PushRequest(h, p, read);
  }

  method AnswerController(c: Controller, ghost w: Desk, ghost r: Desk, p: Payload, read: bool)
    requires ControllerAt(c, w, r)
    modifies c
    ensures ControllerAt(c, if read then w else w.(acks := w.acks + [p]), if read then r.(acks := r.acks + [p]) else r)
    ensures c.responseAt == old(c.responseAt)
  {
    c.PushResponse(p, read);
  }

  /** The controller's request thread: one request at most goes to its memory. */
  method RequestStretch(c: Controller, ghost w: Desk, ghost r: Desk) returns (writes: nat, reads': nat)
    requires ControllerAt(c, w, r)
    modifies c
    ensures writes <= |w.queue| && reads' <= |r.queue| && writes + reads' <= 1
    ensures ControllerAt(c, w.(queue := w.queue[writes..]), r.(queue := r.queue[reads'..]))
    ensures old(c.RequestsAtRest()) || c.RequestWork() < old(c.RequestWork())
    ensures c.ResponseWork() == old(c.ResponseWork()) && c.responseAt == old(c.responseAt)
    ensures old(c.requestAt.Ready?) ==> writes == reads' == 0
    ensures reads' == (if old(c.requestAt.ReadDue?) then 1 else 0)
    ensures old(c.requestAt.Ready?) && |r.queue| > 0 ==> c.requestAt.ReadDue?
  {
    var read, sent, delay := c.ResumeRequests();
    assert w.queue == sent + c.wQueue && r.queue == read + c.rQueue;
    writes, reads' := |sent|, |read|;
  }

  /** Responses, each with the host the table names. */
  ghost predicate Directed(sent: seq<Sent>, k: Desk) {
    && |sent| <= |k.acks|
    && forall i :: 0 <= i < |sent| ==>
         && sent[i].trans == k.acks[i]
         && (k.acks[i].addr in k.route ==> sent[i].host == k.route[k.acks[i].addr])
  }

  lemma {:induction false} PayloadAt(sent: seq<Sent>, i: nat)
    requires i < |sent|
    ensures Payloads(sent)[i] == sent[i].trans
  {
    if i > 0 {
      PayloadAt(sent[1..], i - 1);
    }
  }

  /** Its response thread: a few responses go back, oldest first. */
  method ResponseStretch(c: Controller, ghost w: Desk, ghost r: Desk) returns (wacks: seq<Sent>, racks: seq<Sent>)
    requires ControllerAt(c, w, r)
    modifies c
    ensures Directed(wacks, w) && Directed(racks, r)
    ensures ControllerAt(c, w.(acks := w.acks[|wacks|..]), r.(acks := r.acks[|racks|..]))
    ensures old(c.ResponsesAtRest()) || c.ResponseWork() < old(c.ResponseWork())
    ensures c.RequestWork() == old(c.RequestWork())
    ensures |racks| == c.Racks(old(c.responseAt)) && |wacks| == c.Wacks(old(c.responseAt), |w.acks|)
    ensures c.responseAt == c.NextResponse(old(c.responseAt), |r.acks|, |w.acks|)
  {
    var delay;
    racks, wacks, delay := c.ResumeResponses();
    assert r.acks == Payloads(racks) + c.rackQueue && w.acks == Payloads(wacks) + c.wackQueue;
    forall i | 0 <= i < |racks|
      ensures racks[i].trans == r.acks[i]
    {
      PayloadAt(racks, i);
    }
    forall i | 0 <= i < |wacks|
      ensures wacks[i].trans == w.acks[i]
    {
      PayloadAt(wacks, i);
    }
  }
}
