/**
 * The one-entry mailboxes between the upstream port and the host wrapper: responses are spaced by more than a clock
 * period, so a positive edge empties the mailbox before the next one comes, and the queue behind it stays at one entry.
 */
module Mailbox {
  import opened Basics


  // ----- The response thread -----

  /** The thread's clock, and when it handed over each response of the two classes. */
  datatype Thread = Thread(now: real, writes: seq<real>, racks: seq<real>)

  /** One response in eight of its class pays for the port, the others for the link. */
  function HandOver(now: real, count: nat, port: real, link: real): real {
    now + if EveryNth(8, count) then port else link
  }

  /** Of any eight responses of a class in a row exactly one pays for the port; the very first one does. */
  lemma {:induction false} OneInEight(now: real, start: nat, port: real, link: real) returns (j: nat)
    ensures start <= j < start + 8
    ensures forall i: nat :: start <= i < start + 8 ==>
              HandOver(now, i, port, link) == now + if i == j then port else link
    ensures HandOver(now, 0, port, link) == now + port
  {
    j := OneOfAny(8, start);
  }

  /** One round: a write response if there is one, then a read response if there is one, then a cycle. */
  function Round(t: Thread, round: (bool, bool), period: real, port: real, link: real): Thread {
    var wrote := if round.0 then HandOver(t.now, |t.writes|, port, link) else t.now;
    var read := if round.1 then HandOver(wrote, |t.racks|, port, link) else wrote;
    Thread(read + period, t.writes + (if round.0 then [wrote] else []), t.racks + (if round.1 then [read] else []))
  }

  function Rounds(rounds: seq<(bool, bool)>, start: real, period: real, port: real, link: real): Thread {
    if |rounds| == 0 then Thread(start, [], [])
    else Round(Rounds(rounds[..|rounds| - 1], start, period, port, link), rounds[|rounds| - 1], period, port, link)
  }

  /** Times more than a period apart, the last at least a period ago. */
  ghost predicate Past(times: seq<real>, now: real, period: real) {
    Spaced(times, period) && (|times| > 0 ==> times[|times| - 1] + period <= now)
  }

  lemma {:induction false} PastSnoc(times: seq<real>, before: real, at: real, now: real, period: real)
    requires period > 0.0 && Past(times, before, period) && before < at && at + period <= now
    ensures Past(times + [at], now, period)
  {
    SpacedSnoc(times, at, period);
  }

  lemma {:induction false} PastLater(times: seq<real>, before: real, now: real, period: real)
    requires Past(times, before, period) && before <= now
    ensures Past(times, now, period) && times + [] == times
  {
  }

  lemma {:induction false} RoundSpaced(t: Thread, round: (bool, bool), period: real, port: real, link: real)
    requires period > 0.0 && port > 0.0 && link > 0.0 && Past(t.writes, t.now, period) && Past(t.racks, t.now, period)
    ensures var u := Round(t, round, period, port, link); Past(u.writes, u.now, period) && Past(u.racks, u.now, period)
  {
    var u := Round(t, round, period, port, link);
    var wrote := if round.0 then HandOver(t.now, |t.writes|, port, link) else t.now;
    var read := if round.1 then HandOver(wrote, |t.racks|, port, link) else wrote;
    assert t.now <= wrote <= read && u.now == read + period && (round.0 ==> t.now < wrote)
           && (round.1 ==> wrote < read);
    hide HandOver, Past;
    PastLater(t.writes, t.now, u.now, period);
    PastLater(t.racks, t.now, u.now, period);
    if round.0 {
      PastSnoc(t.writes, t.now, wrote, u.now, period);
    }
    if round.1 {
      PastLater(t.racks, t.now, wrote, period);
      PastSnoc(t.racks, wrote, read, u.now, period);
    }
  }

  /** Responses of one class are handed over more than a clock period apart. */
  lemma {:induction false} RoundsSpaced(rounds: seq<(bool, bool)>, start: real, period: real, port: real, link: real)
    requires period > 0.0 && port > 0.0 && link > 0.0
    ensures var t := Rounds(rounds, start, period, port, link);
      Past(t.writes, t.now, period) && Past(t.racks, t.now, period)
  {
    hide Past, Round;
    if |rounds| > 0 {
      var k := |rounds| - 1;
      RoundsSpaced(rounds[..k], start, period, port, link);
      RoundSpaced(Rounds(rounds[..k], start, period, port, link), rounds[k], period, port, link);
    } else {
      NonePast(start, period);
    }
  }

  lemma {:induction false} NonePast(now: real, period: real)
    ensures Past([], now, period)
  {
  }

  /** The thread, given which of the two queues it finds non-empty on each round. */
  method ResponseTimes(rounds: seq<(bool, bool)>, start: real, period: real, port: real, link: real)
    returns (writes: seq<real>, racks: seq<real>)
    requires period > 0.0 && port > 0.0 && link > 0.0
    ensures writes == Rounds(rounds, start, period, port, link).writes
    ensures racks == Rounds(rounds, start, period, port, link).racks
    ensures Spaced(writes, period) && Spaced(racks, period)
  {
    hide Round;
    writes, racks := [], [];
    var now, wackNum, rackNum := start, 0, 0;
    for i := 0 to |rounds|
      invariant Thread(now, writes, racks) == Rounds(rounds[..i], start, period, port, link)
      invariant wackNum == |writes| && rackNum == |racks|
    {
      assert rounds[..i + 1][..i] == rounds[..i];
      now, writes, racks := OneRound(rounds[i], now, writes, racks, wackNum, rackNum, period, port, link);
      wackNum, rackNum := wackNum + (if rounds[i].0 then 1 else 0), rackNum + (if rounds[i].1 then 1 else 0);
    }
    assert rounds[..|rounds|] == rounds;
    RoundsSpaced(rounds, start, period, port, link);
    hide Rounds;
  }

  method OneRound(round: (bool, bool), start: real, writes: seq<real>, racks: seq<real>, wackNum: nat, rackNum: nat,
                  period: real, port: real, link: real)
    returns (now: real, writes': seq<real>, racks': seq<real>)
    requires wackNum == |writes| && rackNum == |racks|
    ensures Thread(now, writes', racks') == Round(Thread(start, writes, racks), round, period, port, link)
    ensures |writes'| == |writes| + (if round.0 then 1 else 0) && |racks'| == |racks| + (if round.1 then 1 else 0)
    ensures var write, read := if EveryNth(8, wackNum) then port else link, if EveryNth(8, rackNum) then port else link;
      && writes' == writes + (if round.0 then [start + write] else [])
      && racks' == racks + (if round.1 then [start + (if round.0 then write else 0.0) + read] else [])
      && now == start + (if round.0 then write else 0.0) + (if round.1 then read else 0.0) + period
  {
    now, writes', racks' := start, writes, racks;
    if round.0 {
      now := now + if EveryNth(8, wackNum) then port else link;
      writes' := writes + [now];
    }
    if round.1 {
      now := now + if EveryNth(8, rackNum) then port else link;
      racks' := racks + [now];
    }
    now := now + period;
  }

  lemma {:induction false} SpacedSnoc(times: seq<real>, t: real, period: real)
    requires period > 0.0 && Spaced(times, period) && (|times| > 0 ==> times[|times| - 1] + period < t)
    ensures Spaced(times + [t], period)
  {
  }

  ghost predicate Spaced(times: seq<real>, period: real) {
    forall i, j :: 0 <= i < j < |times| ==> times[j] > times[i] + period
  }

  // ----- The mailbox of one class against the clock -----

  datatype Kind = Response | Positive | Negative

  datatype Event = Event(kind: Kind, time: real)

  datatype Box = Box(full: bool, queued: nat)

  /** A response fills the mailbox; a positive edge empties it into the queue; a negative edge serves the queue. */
  function Next(b: Box, kind: Kind): Box {
    match kind
    case Response => b.(full := true)
    case Positive => if b.full then Box(false, b.queued + 1) else b
    case Negative => if b.queued > 0 then b.(queued := b.queued - 1) else b
  }

  function After(events: seq<Event>, k: nat): Box
    requires k <= |events|
  {
    if k == 0 then Box(false, 0) else Next(After(events, k - 1), events[k - 1].kind)
  }

  ghost function Periods(x: real, period: real): real {
    x * period
  }

  ghost function EdgeTime(n: int, kind: Kind, period: real): real {
    if kind == Positive then Periods(n as real, period) else Periods(n as real + 0.5, period)
  }

  /** Both edges come once a period: each at its time, and none is left out between two events. */
  ghost predicate Clocked(events: seq<Event>, period: real) {
    && (forall i, j :: 0 <= i < j < |events| ==> events[i].time <= events[j].time)
    && (forall i :: 0 <= i < |events| && events[i].kind != Response ==>
          exists n :: events[i].time == EdgeTime(n, events[i].kind, period))
    && (forall i, j :: 0 <= i < j < |events| && events[i].kind == events[j].kind == Positive ==>
        events[i].time < events[j].time)
    && (forall i, k, n, kind ::
          0 <= i < k < |events| && kind != Response && events[i].time < EdgeTime(n, kind, period) < events[k].time ==>
            exists j :: i < j < k && events[j].kind == kind)
  }

  ghost predicate ResponsesSpaced(events: seq<Event>, period: real) {
    forall i, j :: 0 <= i < j < |events| && events[i].kind == events[j].kind == Response ==>
        events[j].time > events[i].time + period
  }

  lemma {:induction false} EdgeInside(t: real, u: real, period: real) returns (n: int)
    requires period > 0.0 && u > t + period
    ensures t < EdgeTime(n, Positive, period) < u
  {
    hide Periods;
    var q := t / period;
    n := q.Floor + 1;
    Quotient(t, period);
    Monotonic(q, n as real, period);
    Monotonic(n as real, q + 1.0, period);
    OnePeriodMore(q, period);
  }

  lemma {:induction false} Quotient(t: real, period: real)
    requires period != 0.0
    ensures Periods(t / period, period) == t
  {
  }

  lemma {:induction false} OnePeriodMore(q: real, period: real)
    ensures Periods(q + 1.0, period) == Periods(q, period) + period
  {
  }

  lemma {:induction false} Monotonic(a: real, b: real, p: real)
    requires p > 0.0
    ensures a < b ==> Periods(a, p) < Periods(b, p)
    ensures a <= b ==> Periods(a, p) <= Periods(b, p)
  {
    if a < b {
      assert (b - a) * p > 0.0;
    }
  }

  lemma {:induction false} HalfwayEdge(n: int, m: int, period: real)
    requires period > 0.0 && EdgeTime(n, Positive, period) < EdgeTime(m, Positive, period)
    ensures EdgeTime(n, Positive, period) < EdgeTime(n, Negative, period) < EdgeTime(m, Positive, period)
  {
    hide Periods;
    if m <= n {
      Monotonic(m as real, n as real, period);
    } else {
      Monotonic(n as real, n as real + 0.5, period);
      Monotonic(n as real + 0.5, m as real, period);
    }
  }

  /** Event i is of one kind, and none of the other kind came between it and k. */
  ghost predicate Untouched(events: seq<Event>, i: nat, k: nat, kind: Kind, other: Kind)
    requires i < k <= |events|
  {
    events[i].kind == kind && forall j :: i < j < k ==> events[j].kind != other
  }

  /** A full mailbox was filled by a response with no positive edge since. */
  lemma {:induction false} FullCause(events: seq<Event>, k: nat)
    requires k <= |events|
    ensures After(events, k).full ==> exists i :: 0 <= i < k && Untouched(events, i, k, Response, Positive)
  {
    if k > 0 && After(events, k).full {
      FullCause(events, k - 1);
      if events[k - 1].kind == Response {
        assert Untouched(events, k - 1, k, Response, Positive);
      } else {
        var i :| 0 <= i < k - 1 && Untouched(events, i, k - 1, Response, Positive);
        assert Untouched(events, i, k, Response, Positive);
      }
    }
  }

  /** A response never finds the mailbox full. */
  lemma {:induction false} NeverOverwritten(events: seq<Event>, k: nat, period: real)
    requires period > 0.0 && Clocked(events, period) && ResponsesSpaced(events, period)
    requires k < |events| && events[k].kind == Response
    ensures !After(events, k).full
  {
    FullCause(events, k);
    forall i | 0 <= i < k
      ensures !Untouched(events, i, k, Response, Positive)
    {
      if events[i].kind == Response {
        var n := EdgeInside(events[i].time, events[k].time, period);
        assert exists j :: i < j < k && events[j].kind == Positive;
      }
    }
  }

  /** Between two positive edges comes a negative one. */
  lemma {:induction false} EdgesAlternate(events: seq<Event>, k: nat, period: real)
    requires period > 0.0 && Clocked(events, period) && k < |events| && events[k].kind == Positive
    ensures !exists i :: 0 <= i < k && Untouched(events, i, k, Positive, Negative)
  {
    forall i | 0 <= i < k
      ensures !Untouched(events, i, k, Positive, Negative)
    {
      if events[i].kind == Positive {
        var n :| events[i].time == EdgeTime(n, Positive, period);
        var m :| events[k].time == EdgeTime(m, Positive, period);
        HalfwayEdge(n, m, period);
        assert exists j :: i < j < k && events[j].kind == Negative;
      }
    }
  }

  /** The queue behind the mailbox holds at most one entry, put there by a positive edge with no negative one since. */
  lemma {:induction false} QueueBound(events: seq<Event>, k: nat, period: real)
    requires period > 0.0 && Clocked(events, period) && k <= |events|
    ensures After(events, k).queued <= 1
    ensures After(events, k).queued == 1 ==> exists i :: 0 <= i < k && Untouched(events, i, k, Positive, Negative)
  {
    if k > 0 {
      QueueBound(events, k - 1, period);
      var b, kind := After(events, k - 1), events[k - 1].kind;
      assert After(events, k) == Next(b, kind);
      if kind == Positive && b.full {
        EdgesAlternate(events, k - 1, period);
      }
      hide Clocked, After, Untouched;
      if kind == Positive && b.full {
        assert b.queued == 0;
        Since(events, k, Positive, Negative);
      } else if b.queued == 1 && kind != Negative {
        var i :| 0 <= i < k - 1 && Untouched(events, i, k - 1, Positive, Negative);
        Extend(events, i, k, Positive, Negative);
      }
    }
  }

  lemma {:induction false} Since(events: seq<Event>, k: nat, kind: Kind, other: Kind)
    requires 0 < k <= |events| && events[k - 1].kind == kind
    ensures Untouched(events, k - 1, k, kind, other)
  {
  }

  lemma {:induction false} Extend(events: seq<Event>, i: nat, k: nat, kind: Kind, other: Kind)
    requires i + 1 < k <= |events| && Untouched(events, i, k - 1, kind, other) && events[k - 1].kind != other
    ensures Untouched(events, i, k, kind, other)
  {
  }

  // ----- From the thread to the mailbox -----

  /** When the responses among the events come. */
  function ResponsesOf(events: seq<Event>): seq<real> {
    if |events| == 0 then []
    else
      ResponsesOf(events[..|events| - 1])
      + if events[|events| - 1].kind == Response then [events[|events| - 1].time] else []
  }

  lemma {:induction false} ResponseCounted(events: seq<Event>, i: nat)
    requires i < |events| && events[i].kind == Response
    ensures events[i].time in ResponsesOf(events)
  {
    if i < |events| - 1 {
      ResponseCounted(events[..|events| - 1], i);
    }
  }

  lemma {:induction false} SpacedResponses(events: seq<Event>, period: real)
    requires Spaced(ResponsesOf(events), period)
    ensures ResponsesSpaced(events, period)
  {
    if |events| > 0 {
      var k := |events| - 1;
      var before, times := events[..k], ResponsesOf(events);
      assert forall i, j :: 0 <= i < j < |ResponsesOf(before)| ==>
               times[i] == ResponsesOf(before)[i] && times[j] == ResponsesOf(before)[j];
      SpacedResponses(before, period);
      forall i | 0 <= i < k && events[i].kind == events[k].kind == Response
        ensures events[k].time > events[i].time + period
      {
        ResponseCounted(before, i);
        var j :| 0 <= j < |ResponsesOf(before)| && ResponsesOf(before)[j] == events[i].time;
        assert times[j] == events[i].time && times[|times| - 1] == events[k].time;
      }
      hide ResponsesOf, Spaced;
      assert forall i, j :: 0 <= i < j < k ==> events[i] == before[i] && events[j] == before[j];
    }
  }

  /**
   * Whatever the thread finds on its rounds, and however its responses of one class fall among the clock's edges, none
   * finds the mailbox full, and the queue behind it never holds more than one.
   */
  lemma {:induction false} NoMailboxFull(rounds: seq<(bool, bool)>, start: real, period: real, port: real, link: real,
                                         write: bool, events: seq<Event>, k: nat)
    requires period > 0.0 && port > 0.0 && link > 0.0 && Clocked(events, period) && k <= |events|
    requires var t := Rounds(rounds, start, period, port, link);
      ResponsesOf(events) <= if write then t.writes else t.racks
    ensures k < |events| && events[k].kind == Response ==> !After(events, k).full
    ensures After(events, k).queued <= 1
  {
    RoundsSpaced(rounds, start, period, port, link);
    SpacedResponses(events, period);
    hide Rounds, ResponsesOf, Clocked;
    QueueBound(events, k, period);
    if k < |events| && events[k].kind == Response {
      NeverOverwritten(events, k, period);
    }
  }
}
