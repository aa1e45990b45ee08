/**
 * What is left when nothing moves any more: the upstream port holds back the last write unless the writes are a
 * multiple of four, and the last read if the reads are odd, so the last packet may never be answered.
 */
module AtRest {
  import opened Basics
  import opened CxlSystem
  import opened CxlPorts
  import opened ReadBack
  import opened HandedOver
  import opened PathMoves
  import opened Stretches
  import opened WholePath
  import opened PacketsOfTwo

  /** Nothing of a class is under way but what the upstream port of host h holds. */
  ghost predicate OnlyInPort(s: State, h: nat)
    requires h < |s.issued| && Shape(s, |s.issued|)
  {
    && s.forward[h][0] == s.forward[h][2] == [] && s.backward[h] == [[], [], []]
    && s.controller == s.pending == s.acks == []
  }

  lemma {:induction false} RestMeans(path: Path, h: nat)
    requires path.Valid() && !path.Busy() && h < path.hosts
    ensures OnlyInPort(path.b.writing, h) && OnlyInPort(path.b.reading, h)
    ensures |path.b.writing.forward[h][1]| == if |path.b.writing.issued[h]| % 4 == 0 then 0 else 1
    ensures |path.b.reading.forward[h][1]| == |path.b.reading.issued[h]| % 2
  {
    assert path.HostAt(h) && !path.HostBusy(h);
    HeldWhenIdle(path.usps[h]);
    hide Running, Usp.Valid, Usp.HeldWrites;
  }

  /** What is unanswered is what the port holds. */
  lemma {:induction false} Unanswered(s: State, hosts: nat, n: nat, h: nat)
    requires Inv(s, hosts, n) && h < hosts && OnlyInPort(s, h)
    ensures |s.issued[h]| == |s.acked[h]| + |s.forward[h][1]|
  {
    assert HostOrdered(s, h) && Conserved(s, h);
    hide Routed, Routes, WriteAll, Counted, NoClash;
    assert Flow(s.backward[h]) == [] by {
      EmptyFlow(s.backward[h]);
    }
    assert Flow(s.forward[h]) == s.forward[h][1] by {
      OnlyMiddle(s.forward[h]);
    }
    hide Flow, Inv, Ordered;
    Sizes(OfHost(s.arrived, h), [], [], [], s.acked[h]);
  }

  lemma {:induction false} OnlyMiddle(stages: seq<seq<Payload>>)
    requires |stages| == 3 && stages[0] == stages[2] == []
    ensures Flow(stages) == stages[1]
  {
    assert Flow(stages[1..][1..][1..]) == [];
    assert Flow(stages[1..][1..]) == [] + stages[2];
    assert Flow(stages[1..]) == Flow(stages[1..][1..]) + stages[1];
  }

  /** With one request held back the last packet is not answered, and only that one. */
  lemma {:induction false} LastOneWaits(s: State, hosts: nat, n: nat, h: nat)
    requires Inv(s, hosts, n) && h < hosts && OnlyInPort(s, h) && |s.forward[h][1]| <= 1
    ensures |s.issued[h]| == n * |s.packets[h]|
    ensures if |s.forward[h][1]| == 0 then s.signals[h] == s.packets[h]
            else |s.packets[h]| > 0 && s.signals[h] == s.packets[h][..|s.packets[h]| - 1]
  {
    Unanswered(s, hosts, n, h);
    assert HostOrdered(s, h) && Conserved(s, h) && Counted(s, h, n);
    hide Inv, Flow, OfHost, HostOrdered, Conserved;
    WaitingSignals(s, hosts, h, n);
    if |s.forward[h][1]| == 0 {
      NoneWaits(n, |s.sync[h]|, s.wackNum[h]);
    } else {
      OneWaits(n, |s.sync[h]|, s.wackNum[h]);
    }
  }

  lemma {:induction false} NoneWaits(n: nat, k: nat, c: nat)
    requires n * k == c < n
    ensures k == 0
  {
    if k > 0 {
      MoreSignals(n, 1, k);
    }
  }

  lemma {:induction false} OneWaits(n: nat, k: nat, c: nat)
    requires n * k == c + 1 && c < n
    ensures k == 1
  {
    if k > 1 {
      MoreSignals(n, 2, k);
    }
  }

  /**
   * At rest every write packet of a host is signalled if and only if its writes are a multiple of four; otherwise
   * exactly the last signal is missing, and since nothing moves it never comes.
   */
  lemma {:induction false} SignalledAtRestExactlyWhen(path: Path, h: nat)
    requires path.Valid() && !path.Busy() && h < path.hosts
    ensures var s := path.b.writing;
      && |s.issued[h]| == path.n * |s.packets[h]|
      && (s.signals[h] == s.packets[h] <==> |s.issued[h]| % 4 == 0)
      && (|s.issued[h]| % 4 != 0 ==> |s.packets[h]| > 0 && s.signals[h] == s.packets[h][..|s.packets[h]| - 1])
  {
    RestMeans(path, h);
    BothRunInv(path.run, path.moves, path.hosts, path.n, path.size, |path.run| - 1);
    hide BothRun, Ordered, Inv, path.HostsAt, path.Busy, OnlyInPort, ControllerAt;
    LastOneWaits(path.b.writing, path.hosts, path.n, h);
  }

  /** And every read packet is handed over if and only if the reads are even; otherwise all but the last one. */
  lemma {:induction false} HandedAtRestExactlyWhen(path: Path, h: nat)
    requires path.Valid() && !path.Busy() && h < path.hosts && Calm(path.run, path.hosts)
    ensures var s, handed := path.b.reading, path.b.collects[h].handed;
      && |s.issued[h]| == path.n * |s.packets[h]|
      && (|handed| == |s.packets[h]| <==> |s.issued[h]| % 2 == 0)
      && (|s.issued[h]| % 2 != 0 ==> |handed| == |s.packets[h]| - 1)
  {
    RestMeans(path, h);
    ReadingInv(path.run, path.moves, path.hosts, path.n, path.size, |path.run| - 1);
    RunCollected(path.run, path.moves, path.hosts, path.n, path.size, |path.run| - 1, h);
    HandedCount(path.b, path.hosts, path.n, h);
    hide BothRun, Ordered, Inv, path.HostsAt, path.Busy, OnlyInPort, ControllerAt, Collected;
    LastOneWaits(path.b.reading, path.hosts, path.n, h);
  }

  lemma {:induction false} HandedCount(b: Both, hosts: nat, n: nat, h: nat)
    requires BothShape(b, hosts) && h < hosts && HostCollected(b, h, n) && Inv(b.reading, hosts, n)
    ensures |b.collects[h].handed| == |b.reading.signals[h]|
  {
    assert Counted(b.reading, h, n);
    hide Inv;
    SameCount(n, |b.collects[h].handed|, b.collects[h].num, |b.reading.signals[h]|, b.reading.wackNum[h]);
  }

  lemma {:induction false} SameCount(n: nat, k: nat, c: nat, j: nat, d: nat)
    requires Product(n, k) + c == n * j + d && c < n && d < n
    ensures k == j
  {
    if k < j {
      MoreSignals(n, k + 1, j);
      OneMore(n, k);
    } else if j < k {
      MoreSignals(n, j + 1, k);
      OneMore(n, j);
    }
  }

  /** With a number of payloads per packet that four divides, nothing is ever missing. */
  lemma {:induction false} NothingMissing(path: Path, h: nat)
    requires path.Valid() && !path.Busy() && h < path.hosts
    ensures path.n % 4 == 0 ==> path.b.writing.signals[h] == path.b.writing.packets[h]
    ensures path.n % 2 == 0 && Calm(path.run, path.hosts) ==>
      |path.b.collects[h].handed| == |path.b.reading.packets[h]|
  {
    SignalledAtRestExactlyWhen(path, h);
    if Calm(path.run, path.hosts) {
      HandedAtRestExactlyWhen(path, h);
    }
    hide path.Valid, path.Busy, Calm;
    Multiples(path.n, |path.b.writing.packets[h]|);
    Multiples(path.n, |path.b.reading.packets[h]|);
  }

  lemma {:induction false} Multiples(n: nat, k: nat)
    ensures n % 4 == 0 ==> n * k % 4 == 0
    ensures n % 2 == 0 ==> n * k % 2 == 0
  {
    if n % 4 == 0 {
      var q := n / 4;
      Regrouped(4, q, k);
    }
    if n % 2 == 0 {
      var q := n / 2;
      Regrouped(2, q, k);
    }
  }

  lemma {:induction false} Regrouped(c: nat, q: nat, k: nat)
    ensures c * q * k == c * (q * k)
  {
  }

  /** One packet of two writes comes to rest in the port: its signal is missing. */
  method LastSignalMissing(portAndLink: real, period: real, ctrl: real, link: real) returns (path: Path)
    ensures fresh(path) && path.Valid() && !path.Busy() && path.n == 2
    ensures path.b.writing.packets == [[0]] && path.b.writing.signals == [[]]
  {
    hide Fresh;
    path := OneHost(portAndLink, period, ctrl, link);
    SendOne(path);
  }

  method SendOne(path: Path)
    requires Fresh(path)
    modifies path, path.usps, path.dsps, path.controller
    ensures path.Valid() && !path.Busy() && path.n == 2
    ensures path.b.writing.packets == [[0]] && path.b.writing.signals == [[]]
  {
    StartsEmpty(path.b);
    assert [[]][0 := [] + [0 as nat]] == [[0 as nat]] by {
      assert [] + [0 as nat] == [0];
    }
    hide Running, path.HostsAt, ControllerAt, Calm, OnlyHost, BothInit, path.Busy, Enabled, Step;
    SendWrites(path, 0, 0);
    path.RunToRest();
    SignalledAtRestExactlyWhen(path, 0);
    assert path.b.writing.packets[0] == [0];
  }
}
