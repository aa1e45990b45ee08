/**
 * The table of signals keeps one bit per address: when a waiting read can go, and how signals are lost and shared.
 */
module SignalTable {
  import opened Basics
  import opened CxlSystem
  import opened ReadBack

  /** The i-th step raises the signal of address x. */
  ghost predicate RaisesAt(run: seq<Both>, moves: seq<Turn>, n: nat, i: nat, x: nat)
    requires i < |moves| < |run| && Shape(run[i].writing, |run[i].writing.issued|)
  {
    moves[i].OfWrites? && x in Raised(run[i].writing, moves[i].action, n)
  }

  /** A step raises the signal it adds to those a host has had, the oldest its write packets waited for. */
  lemma {:induction false} RaisedExactlyWhen(s: State, a: Action, hosts: nat, n: nat, x: nat)
    requires Shape(s, hosts) && Enabled(s, a, hosts, n)
    ensures x in Raised(s, a, n) <==>
            exists h :: 0 <= h < hosts && Step(s, a, hosts, n).signals[h] == s.signals[h] + [x]
    ensures x in Raised(s, a, n) ==> exists h :: 0 <= h < hosts && s.sync[h] == [x] + Step(s, a, hosts, n).sync[h]
  {
    hide Move, Write;
    var t := Step(s, a, hosts, n);
    if a.TakeAck? {
      var h := a.host;
      if s.wackNum[h] + 1 == n {
        assert t.signals[h] == s.signals[h] + [s.sync[h][0]] && s.sync[h] == [s.sync[h][0]] + t.sync[h];
        assert t.signals[h][|s.signals[h]|] == s.sync[h][0];
      }
      forall g | 0 <= g < hosts && t.signals[g] == s.signals[g] + [x]
        ensures x in Raised(s, a, n)
      {
        assert |t.signals[g]| == |s.signals[g]| + 1 && t.signals[g][|s.signals[g]|] == x;
      }
    } else {
      assert t.signals == s.signals;
      forall g | 0 <= g < hosts
        ensures t.signals[g] != s.signals[g] + [x]
      {
        assert |t.signals[g]| < |s.signals[g] + [x]|;
      }
    }
  }

  /** The i-th step frees it. */
  ghost predicate FreesAt(run: seq<Both>, moves: seq<Turn>, i: nat, x: nat)
    requires i < |moves| < |run|
  {
    moves[i].FreeSignal? && moves[i].host < |run[i].waits| && run[i].waits[moves[i].host] == Seen(x)
  }

  /** A step j before i raises the signal, and none after it frees it. */
  ghost predicate LastRaised(run: seq<Both>, moves: seq<Turn>, hosts: nat, n: nat, size: nat, i: nat, x: nat)
    requires BothRun(run, moves, hosts, n, size) && i < |run|
  {
    exists j :: 0 <= j < i && RaisesAt(run, moves, n, j, x) && forall k :: j < k < i ==> !FreesAt(run, moves, k, x)
  }

  lemma {:induction false} RunStep(run: seq<Both>, moves: seq<Turn>, hosts: nat, n: nat, size: nat, i: nat)
    requires BothRun(run, moves, hosts, n, size) && i < |moves|
    ensures CanMove(run[i], moves[i], hosts, n, size) && run[i + 1] == After(run[i], moves[i], hosts, n, size)
  {
  }

  lemma {:induction false} RunLength(run: seq<Both>, moves: seq<Turn>, hosts: nat, n: nat, size: nat)
    requires BothRun(run, moves, hosts, n, size)
    ensures |run| == |moves| + 1
  {
  }

  /** What one step does to an address's entry. */
  lemma {:induction false} EntryAfter(run: seq<Both>, moves: seq<Turn>, hosts: nat, n: nat, size: nat, i: nat, x: nat)
    requires BothRun(run, moves, hosts, n, size) && i < |moves|
    ensures x in run[i + 1].flags <==>
            RaisesAt(run, moves, n, i, x) || (x in run[i].flags && !FreesAt(run, moves, i, x))
  {
    RunStep(run, moves, hosts, n, size, i);
    hide BothRun, Step, Enabled, Raised, CountRack, Lookup;
  }

  /** An entry is true exactly when the last thing that happened to it is that it was raised. */
  lemma {:induction false} RaisedLastExactlyWhen(run: seq<Both>, moves: seq<Turn>, hosts: nat, n: nat, size: nat,
                                                 i: nat, x: nat)
    requires BothRun(run, moves, hosts, n, size) && i < |run|
    ensures x in run[i].flags <==> LastRaised(run, moves, hosts, n, size, i, x)
  {
    hide BothRun, RaisesAt, FreesAt;
    RunLength(run, moves, hosts, n, size);
    if i == 0 {
      EmptyAtFirst(run, moves, hosts, n, size, x);
    } else {
      LastRaisedStep(run, moves, hosts, n, size, i - 1, x);
      RaisedLastExactlyWhen(run, moves, hosts, n, size, i - 1, x);
      EntryAfter(run, moves, hosts, n, size, i - 1, x);
      hide LastRaised;
    }
  }

  lemma {:induction false} EmptyAtFirst(run: seq<Both>, moves: seq<Turn>, hosts: nat, n: nat, size: nat, x: nat)
    requires BothRun(run, moves, hosts, n, size)
    ensures x !in run[0].flags
  {
  }

  lemma {:induction false} LastRaisedStep(run: seq<Both>, moves: seq<Turn>, hosts: nat, n: nat, size: nat, i: nat,
                                          x: nat)
    requires BothRun(run, moves, hosts, n, size) && i < |moves|
    ensures i + 1 < |run| && Shape(run[i].writing, |run[i].writing.issued|)
    ensures LastRaised(run, moves, hosts, n, size, i + 1, x) <==>
            RaisesAt(run, moves, n, i, x)
                || (LastRaised(run, moves, hosts, n, size, i, x) && !FreesAt(run, moves, i, x))
  {
    hide RaisesAt, FreesAt, After;
    RunStep(run, moves, hosts, n, size, i);
    hide BothRun, CanMove;
    if LastRaised(run, moves, hosts, n, size, i, x) && !FreesAt(run, moves, i, x) {
      var j :| 0 <= j < i && RaisesAt(run, moves, n, j, x) && forall k :: j < k < i ==> !FreesAt(run, moves, k, x);
      assert forall k :: j < k < i + 1 ==> !FreesAt(run, moves, k, x);
    }
  }

  /** A read packet of a host that is free to deal with it can go on exactly then. */
  lemma {:induction false} ReadGoesExactlyWhen(run: seq<Both>, moves: seq<Turn>, hosts: nat, n: nat, size: nat, i: nat,
                                               h: nat, x: nat)
    requires BothRun(run, moves, hosts, n, size) && i < |run| && n > 0
    requires h < hosts && BothShape(run[i], hosts) && run[i].waits[h] == Moving
    ensures CanMove(run[i], SeeSignal(h, x), hosts, n, size) <==> LastRaised(run, moves, hosts, n, size, i, x)
  {
    RaisedLastExactlyWhen(run, moves, hosts, n, size, i, x);
  }

  /** No write packet of address x waits for its signal. */
  ghost predicate NoneUnsignalled(s: State, hosts: nat, x: nat)
    requires Shape(s, hosts)
  {
    forall h :: 0 <= h < hosts ==> x !in s.sync[h]
  }

  lemma {:induction false} NoneUnsignalledKept(s: State, a: Action, hosts: nat, n: nat, x: nat)
    requires Shape(s, hosts) && Enabled(s, a, hosts, n) && NoneUnsignalled(s, hosts, x) && !(a.Issue? && a.packet == x)
    ensures NoneUnsignalled(Step(s, a, hosts, n), hosts, x) && x !in Raised(s, a, n)
  {
    hide Move, Write;
  }

  ghost predicate WritesTo(m: Turn, x: nat) {
    m.OfWrites? && m.action.Issue? && m.action.packet == x
  }

  /**
   * A read packet that finds its signal gone, with no write packet of its address unsignalled, waits until another
   * write packet of that address is sent: without one it waits for ever.
   */
  lemma {:induction false} WaitsForEver(run: seq<Both>, moves: seq<Turn>, hosts: nat, n: nat, size: nat, i: nat, j: nat,
                                        x: nat)
    requires BothRun(run, moves, hosts, n, size) && i <= j < |run| && BothShape(run[i], hosts)
    requires x !in run[i].flags && NoneUnsignalled(run[i].writing, hosts, x)
    requires forall k :: i <= k < j ==> !WritesTo(moves[k], x)
    ensures BothShape(run[j], hosts) && x !in run[j].flags && NoneUnsignalled(run[j].writing, hosts, x)
    ensures forall h :: !CanMove(run[j], SeeSignal(h, x), hosts, n, size)
  {
    hide BothRun, CanMove, After, NoneUnsignalled, WritesTo;
    RunLength(run, moves, hosts, n, size);
    if i < j {
      WaitsForEver(run, moves, hosts, n, size, i, j - 1, x);
      RunStep(run, moves, hosts, n, size, j - 1);
      StillGone(run[j - 1], moves[j - 1], hosts, n, size, x);
    }
    forall h
      ensures !CanMove(run[j], SeeSignal(h, x), hosts, n, size)
    {
      NothingToSee(run[j], hosts, n, size, h, x);
    }
  }

  lemma {:induction false} StillGone(b: Both, m: Turn, hosts: nat, n: nat, size: nat, x: nat)
    requires CanMove(b, m, hosts, n, size) && x !in b.flags && NoneUnsignalled(b.writing, hosts, x) && !WritesTo(m, x)
    ensures var c := After(b, m, hosts, n, size); x !in c.flags && NoneUnsignalled(c.writing, hosts, x)
  {
    hide Step, Raised, CountRack, Lookup, Enabled, NoneUnsignalled;
    if m.OfWrites? {
      NoneUnsignalledKept(b.writing, m.action, hosts, n, x);
    }
  }

  lemma {:induction false} NothingToSee(b: Both, hosts: nat, n: nat, size: nat, h: nat, x: nat)
    requires x !in b.flags
    ensures !CanMove(b, SeeSignal(h, x), hosts, n, size)
  {
  }

  /** One signal lets two hosts' reads go if both see it before either frees it. */
  lemma {:induction false} OneSignalTwoReads(b: Both, hosts: nat, n: nat, size: nat, g: nat, h: nat, x: nat)
    requires g != h && CanMove(b, SeeSignal(g, x), hosts, n, size) && CanMove(b, SeeSignal(h, x), hosts, n, size)
    ensures var b1 := After(b, SeeSignal(g, x), hosts, n, size);
      && CanMove(b1, SeeSignal(h, x), hosts, n, size)
      && var b2 := After(b1, SeeSignal(h, x), hosts, n, size);
      && CanMove(b2, FreeSignal(g), hosts, n, size)
      && var b3 := After(b2, FreeSignal(g), hosts, n, size);
      && CanMove(b3, FreeSignal(h), hosts, n, size)
      && var b4 := After(b3, FreeSignal(h), hosts, n, size);
      b4.waits[g] == b4.waits[h] == Freed(x) && b4.writing == b.writing
  {
  }
}
