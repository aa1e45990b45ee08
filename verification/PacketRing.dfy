/** The packet ring in shared memory: one producer, one consumer, and a copy that is not atomic. */
module PacketRing {
  import opened Rings

  const SIZE: nat := 8192

  /** A packet is a fixed number of words; a copy moves one word at a time. */
  type Packet = seq<int>

  datatype Producer = Ready | Writing(packet: Packet, done: nat)

  datatype Consumer = Polling | Reading(got: Packet)

  /** `sent` are the packets that were made visible, `received` those that were taken out. */
  datatype State = State(cells: seq<Packet>, start: nat, end: nat, producer: Producer, consumer: Consumer,
                         sent: seq<Packet>, received: seq<Packet>)

  datatype Action = Send(packet: Packet) | SpinFull | CopyIn | Publish | Poll | PollEmpty | CopyOut | Release

  function Cell(i: nat): nat {
    i % SIZE
  }

  predicate Full(s: State) {
    (s.end + 1) % SIZE == s.start
  }

  predicate Empty(s: State) {
    s.end == s.start
  }

  /** Each step reads or writes shared memory once: the other side's index, one word of a cell, or one's own index. */
  ghost predicate Step(words: nat, s: State, a: Action, t: State) {
    match a
    case Send(packet) => s.producer.Ready? && !Full(s) && |packet| == words && t == s.(producer := Writing(packet, 0))
    case SpinFull => s.producer.Ready? && Full(s) && t == s
    case CopyIn =>
      && s.producer.Writing? && s.producer.done < words && s.producer.done < |s.producer.packet|
      && s.end < |s.cells| && s.producer.done < |s.cells[s.end]|
      && t == s.(cells := s.cells[s.end := s.cells[s.end][s.producer.done := s.producer.packet[s.producer.done]]],
                 producer := Writing(s.producer.packet, s.producer.done + 1))
    case Publish =>
      && s.producer.Writing? && s.producer.done == words
      && t == s.(end := (s.end + 1) % SIZE, producer := Ready, sent := s.sent + [s.producer.packet])
    case Poll => s.consumer.Polling? && !Empty(s) && t == s.(consumer := Reading([]))
    case PollEmpty => s.consumer.Polling? && Empty(s) && t == s
    case CopyOut =>
      && s.consumer.Reading? && |s.consumer.got| < words
      && s.start < |s.cells| && |s.consumer.got| < |s.cells[s.start]|
      && t == s.(consumer := Reading(s.consumer.got + [s.cells[s.start][|s.consumer.got|]]))
    case Release =>
      && s.consumer.Reading? && |s.consumer.got| == words
      && t == s.(start := (s.start + 1) % SIZE, consumer := Polling, received := s.received + [s.consumer.got])
  }

  ghost predicate Init(words: nat, s: State) {
    && |s.cells| == SIZE && (forall i :: 0 <= i < SIZE ==> |s.cells[i]| == words)
    && s.start == s.end == 0 && s.producer.Ready? && s.consumer.Polling? && s.sent == s.received == []
  }

  // ----- The invariant -----

  /** The indices count the packets, and at most 8191 are on the way. */
  ghost predicate Indices(s: State) {
    && |s.received| <= |s.sent| < |s.received| + SIZE
    && s.start == Cell(|s.received|) && s.end == Cell(|s.sent|)
  }

  /** Unread packets are stored as they were sent, and what was received is the beginning of what was sent. */
  ghost predicate Stored(words: nat, s: State) {
    && |s.cells| == SIZE && (forall i :: 0 <= i < SIZE ==> |s.cells[i]| == words)
    && (forall i :: 0 <= i < |s.sent| ==> |s.sent[i]| == words)
    && (forall i :: |s.received| <= i < |s.sent| ==> s.cells[Cell(i)] == s.sent[i])
    && s.received <= s.sent
  }

  /** A producer at work has a cell of its own and has filled part of it. */
  ghost predicate Producing(words: nat, s: State) {
    s.producer.Writing? ==>
      && |s.producer.packet| == words && s.producer.done <= words
      && |s.sent| + 1 < |s.received| + SIZE
      && s.end < |s.cells| && s.producer.done <= |s.cells[s.end]|
      && s.cells[s.end][..s.producer.done] == s.producer.packet[..s.producer.done]
  }

  ghost predicate Consuming(words: nat, s: State) {
    s.consumer.Reading? ==>
      && |s.received| < |s.sent| && |s.consumer.got| <= words && |s.sent[|s.received|]| == words
      && s.consumer.got == s.sent[|s.received|][..|s.consumer.got|]
  }

  ghost predicate Inv(words: nat, s: State) {
    Indices(s) && Stored(words, s) && Producing(words, s) && Consuming(words, s)
  }

  /** Counts closer together than the ring is long have different cells. */
  lemma {:induction false} DifferentCells(i: nat, j: nat)
    requires i < j < i + SIZE
    ensures Cell(i) != Cell(j)
  {
    assert j - i == SIZE * (j / SIZE - i / SIZE) + (Cell(j) - Cell(i));
  }

  lemma {:induction false} NextCell(i: nat)
    ensures (Cell(i) + 1) % SIZE == Cell(i + 1)
  {
  }

  /** The tests on the indices are exact for the counts they stand for. */
  lemma {:induction false} FullAndEmpty(s: State)
    requires Indices(s)
    ensures Full(s) <==> |s.sent| == |s.received| + SIZE - 1
    ensures Empty(s) <==> |s.sent| == |s.received|
  {
    NextCell(|s.sent|);
    if |s.received| < |s.sent| {
      DifferentCells(|s.received|, |s.sent|);
    }
    if |s.sent| + 1 < |s.received| + SIZE {
      DifferentCells(|s.received|, |s.sent| + 1);
    } else {
      assert Cell(|s.received| + SIZE) == Cell(|s.received|);
    }
  }

  /** The producer never writes to a cell that holds an unread packet. */
  lemma {:induction false} UnreadUntouched(words: nat, s: State, t: State, i: nat)
    requires Inv(words, s) && Step(words, s, CopyIn, t) && |s.received| <= i < |s.sent|
    ensures t.cells[Cell(i)] == s.cells[Cell(i)]
  {
    DifferentCells(i, |s.sent|);
    hide Cell;
  }

  lemma {:induction false} CopyInKept(words: nat, s: State, t: State)
    requires Inv(words, s) && Step(words, s, CopyIn, t)
    ensures Inv(words, t)
  {
    forall i | |s.received| <= i < |s.sent|
      ensures t.cells[Cell(i)] == s.cells[Cell(i)]
    {
      UnreadUntouched(words, s, t, i);
    }
    hide Cell;
    var cell, done := s.cells[s.end], s.producer.done;
    assert cell[done := s.producer.packet[done]][..done + 1] == cell[..done] + [s.producer.packet[done]];
    assert s.producer.packet[..done + 1] == s.producer.packet[..done] + [s.producer.packet[done]];
  }

  lemma {:induction false} PublishKept(words: nat, s: State, t: State)
    requires Inv(words, s) && Step(words, s, Publish, t)
    ensures Inv(words, t)
  {
    NextCell(|s.sent|);
    hide Cell;
    assert s.cells[s.end][..words] == s.cells[s.end] && s.producer.packet[..words] == s.producer.packet;
  }

  lemma {:induction false} ConsumerKept(words: nat, s: State, a: Action, t: State)
    requires Inv(words, s) && Step(words, s, a, t) && (a.CopyOut? || a.Release?)
    ensures Inv(words, t)
  {
    NextCell(|s.received|);
    hide Cell;
    var next := s.sent[|s.received|];
    assert s.cells[s.start] == next;
    var n := |s.consumer.got|;
    if a.CopyOut? {
      assert next[..n + 1] == next[..n] + [next[n]];
    } else {
      assert next[..words] == next;
    }
  }

  lemma {:induction false} InvKept(words: nat, s: State, a: Action, t: State)
    requires Inv(words, s) && Step(words, s, a, t)
    ensures Inv(words, t)
  {
    FullAndEmpty(s);
    match a
    case CopyIn => CopyInKept(words, s, t);
    case Publish => PublishKept(words, s, t);
    case CopyOut => ConsumerKept(words, s, a, t);
    case Release => ConsumerKept(words, s, a, t);
    case _ => hide Cell, Full, Empty;
  }

  // ----- Whole runs -----

  ghost predicate Run(words: nat, states: seq<State>, actions: seq<Action>) {
    && |states| == |actions| + 1 && Init(words, states[0])
    && forall i :: 0 <= i < |actions| ==> Step(words, states[i], actions[i], states[i + 1])
  }

  lemma {:induction false} RunInv(words: nat, states: seq<State>, actions: seq<Action>, k: nat)
    requires Run(words, states, actions) && k <= |actions|
    ensures Inv(words, states[k])
  {
    if k > 0 {
      RunInv(words, states, actions, k - 1);
      assert Step(words, states[k - 1], actions[k - 1], states[k - 1 + 1]);
      hide Step, Inv;
      InvKept(words, states[k - 1], actions[k - 1], states[k]);
    }
  }

  /** However producer and consumer interleave, whole packets arrive in the order sent, and never more than fit wait. */
  lemma {:induction false} PrefixReceived(words: nat, states: seq<State>, actions: seq<Action>, k: nat)
    requires Run(words, states, actions) && k <= |actions|
    ensures states[k].received <= states[k].sent
    ensures |states[k].sent| - |states[k].received| <= 8191
  {
    RunInv(words, states, actions, k);
  }

  /** The step of the producer, or of the consumer, that is not waiting for the other side. */
  ghost predicate Moves(words: nat, s: State, a: Action) {
    !a.SpinFull? && !a.PollEmpty? && exists t :: Step(words, s, a, t)
  }

  predicate ByProducer(a: Action) {
    a.Send? || a.CopyIn? || a.Publish?
  }

  /** A side has to wait only when the ring is full, or empty; so both never wait for each other. */
  lemma {:induction false} WaitsExactlyWhen(words: nat, s: State)
    requires Inv(words, s)
    ensures (exists a :: Moves(words, s, a) && ByProducer(a)) <==>
              !(s.producer.Ready? && |s.sent| == |s.received| + SIZE - 1)
    ensures (exists a :: Moves(words, s, a) && !ByProducer(a)) <==> !(s.consumer.Polling? && |s.sent| == |s.received|)
  {
    FullAndEmpty(s);
    hide Full, Empty;
    if !(s.producer.Ready? && Full(s)) {
      ProducerMoves(words, s);
    }
    if !(s.consumer.Polling? && Empty(s)) {
      ConsumerMoves(words, s);
    }
  }

  lemma {:induction false} ProducerMoves(words: nat, s: State)
    requires Inv(words, s) && !(s.producer.Ready? && Full(s))
    ensures exists a :: Moves(words, s, a) && ByProducer(a)
  {
    if s.producer.Ready? {
      var packet := seq(words, _ => 0);
      assert Step(words, s, Send(packet), s.(producer := Writing(packet, 0)));
      assert Moves(words, s, Send(packet));
    } else if s.producer.done == words {
      assert Step(words, s, Publish, s.(end := (s.end + 1) % SIZE, producer := Ready,
                                        sent := s.sent + [s.producer.packet]));
      assert Moves(words, s, Publish);
    } else {
      var cell := s.cells[s.end][s.producer.done := s.producer.packet[s.producer.done]];
      assert Step(words, s, CopyIn, s.(cells := s.cells[s.end := cell],
                                       producer := Writing(s.producer.packet, s.producer.done + 1)));
      assert Moves(words, s, CopyIn);
    }
  }

  lemma {:induction false} ConsumerMoves(words: nat, s: State)
    requires Inv(words, s) && !(s.consumer.Polling? && Empty(s))
    ensures exists a :: Moves(words, s, a) && !ByProducer(a)
  {
    if s.consumer.Polling? {
      assert Step(words, s, Poll, s.(consumer := Reading([])));
      assert Moves(words, s, Poll);
    } else if |s.consumer.got| == words {
      assert Step(words, s, Release, s.(start := (s.start + 1) % SIZE, consumer := Polling,
                                        received := s.received + [s.consumer.got]));
      assert Moves(words, s, Release);
    } else {
      assert s.cells[Cell(|s.received|)] == s.sent[|s.received|];
      assert Step(words, s, CopyOut, s.(consumer := Reading(s.consumer.got + [s.cells[s.start][|s.consumer.got|]])));
      assert Moves(words, s, CopyOut);
    }
  }

  /** Any packet of the right length can be sent unless 8191 are on their way. */
  lemma {:induction false} SendsExactlyWhen(words: nat, s: State, packet: Packet)
    requires Inv(words, s) && s.producer.Ready?
    ensures (exists t :: Step(words, s, Send(packet), t)) <==> |packet| == words && |s.sent| - |s.received| < 8191
  {
    FullAndEmpty(s);
    hide Full, Empty;
    assert !Full(s) && |packet| == words ==> Step(words, s, Send(packet), s.(producer := Writing(packet, 0)));
  }

  // ----- How long a packet takes -----

  /** The consumer's steps, except where it finds the ring empty. */
  ghost function Reads(actions: seq<Action>): nat {
    if actions == [] then 0
    else
      var a := actions[|actions| - 1];
      Reads(actions[..|actions| - 1]) + if a.Poll? || a.CopyOut? || a.Release? then 1 else 0
  }

  /** Those that reading a packet takes, with the packet under way counted as far as it got. */
  ghost function ReadSteps(words: nat, s: State): nat {
    PerPacket(words, |s.received|) + if s.consumer.Reading? then 1 + |s.consumer.got| else 0
  }

  ghost function PerPacket(words: nat, packets: nat): nat {
    (words + 2) * packets
  }

  lemma {:induction false} OnePacketMore(words: nat, packets: nat)
    ensures PerPacket(words, packets + 1) == PerPacket(words, packets) + words + 2
  {
  }

  lemma {:induction false} OneReadMore(words: nat, s: State, a: Action, t: State)
    requires Step(words, s, a, t)
    ensures ReadSteps(words, t) == ReadSteps(words, s) + if a.Poll? || a.CopyOut? || a.Release? then 1 else 0
    ensures s.sent <= t.sent
  {
    hide Full, Empty, PerPacket;
    OnePacketMore(words, |s.received|);
  }

  lemma {:induction false} ReadsCounted(words: nat, states: seq<State>, actions: seq<Action>, k: nat)
    requires Run(words, states, actions) && k <= |actions|
    ensures Reads(actions[..k]) == ReadSteps(words, states[k])
  {
    if k == 0 {
      assert PerPacket(words, 0) == 0;
    } else {
      ReadsCounted(words, states, actions, k - 1);
      assert Step(words, states[k - 1], actions[k - 1], states[k - 1 + 1]);
      assert actions[..k][..k - 1] == actions[..k - 1];
      hide Step, ReadSteps;
      OneReadMore(words, states[k - 1], actions[k - 1], states[k]);
    }
  }

  lemma {:induction false} SentGrows(words: nat, states: seq<State>, actions: seq<Action>, j: nat, k: nat)
    requires Run(words, states, actions) && j <= k <= |actions|
    ensures states[j].sent <= states[k].sent
  {
    if j < k {
      SentGrows(words, states, actions, j, k - 1);
      assert Step(words, states[k - 1], actions[k - 1], states[k - 1 + 1]);
      hide Step;
      OneReadMore(words, states[k - 1], actions[k - 1], states[k]);
    }
  }

  /**
   * However the two sides interleave, a packet takes the consumer two steps and one for each word: after that many
   * steps for each of the packets sent by some moment it has received all of them.
   */
  lemma {:induction false} EveryPacketArrives(words: nat, states: seq<State>, actions: seq<Action>, j: nat, k: nat)
    requires Run(words, states, actions) && j <= k <= |actions|
    requires Reads(actions[..k]) >= (words + 2) * |states[j].sent|
    ensures states[j].sent <= states[k].received
  {
    RunInv(words, states, actions, k);
    ReadsCounted(words, states, actions, k);
    SentGrows(words, states, actions, j, k);
    var s, n := states[k], |states[j].sent|;
    hide Run;
    if |s.received| < n {
      PacketsMonotonic(words, |s.received| + 1, n);
      OnePacketMore(words, |s.received|);
      assert false;
    }
  }

  lemma {:induction false} PacketsMonotonic(words: nat, m: nat, n: nat)
    requires m <= n
    ensures PerPacket(words, m) <= PerPacket(words, n) == (words + 2) * n
  {
    assert (words + 2) * (n - m) >= 0;
  }

  // ----- One side alone -----

  /** The buffer's operations when nothing else runs between their steps; one more cell is allocated than is used. */
  class PacketBuffer {
    var start: nat
    var end: nat
    const elems: array<Packet>

    ghost predicate Valid()
      reads this
    {
      elems.Length == SIZE + 1 && start < SIZE && end < SIZE
    }

    ghost function Contents(): seq<Packet>
      requires Valid()
      reads this, elems
    {
      Ring(elems[..SIZE], start, end)
    }

    constructor ()
      ensures Valid() && Contents() == [] && fresh(elems)
    {
      start, end, elems := 0, 0, new Packet[SIZE + 1](_ => []);
    }

    method IsFull() returns (full: bool)
      requires Valid()
      ensures full <==> |Contents()| == SIZE - 1
    {
      return Next(end, SIZE) == start;
    }

    method IsEmpty() returns (empty: bool)
      requires Valid()
      ensures empty <==> Contents() == []
    {
      return end == start;
    }

    /** Into a buffer with room, as both callers make sure of first. */
    method Write(elem: Packet)
      requires Valid() && |Contents()| < SIZE - 1
      modifies this`end, elems
      ensures Valid() && Contents() == old(Contents()) + [elem]
    {
      assert Next(end, SIZE) != start;
      RingPush(elems[..SIZE], start, end, elem);
      hide Next, Ring;
      ghost var cells := elems[..SIZE];
      elems[end] := elem;
      assert elems[..SIZE] == cells[..end] + [elem] + cells[end + 1..];
      end := Next(end, SIZE);
    }

    method Read() returns (elem: Packet)
      requires Valid() && Contents() != []
      modifies this`start
      ensures Valid() && old(Contents()) == [elem] + Contents()
    {
      RingPop(elems[..SIZE], start, end);
      elem := elems[start];
      assert Contents()[0] == elem;
      hide Next, Ring;
      start := Next(start, SIZE);
    }
  }
}
