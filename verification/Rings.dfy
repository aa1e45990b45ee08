/** Items kept in a ring of cells, from a head to a tail, with one cell always free. */
module Rings {

  /** One step around a ring of m cells. */
  function Next(i: nat, m: nat): (n: nat)
    requires i < m
    ensures n == if i + 1 < m then i + 1 else 0
  {
    (i + 1) % m
  }

  /** i steps around a ring of m cells. */
  function Steps(start: nat, i: nat, m: nat): (n: nat)
    requires start < m && i < m
    ensures n == if start + i < m then start + i else start + i - m
  {
    if start + i >= m then
      WrapOnce(start + i, m);
      (start + i) % m
    else
      (start + i) % m
  }

  lemma {:induction false} WrapOnce(x: nat, m: nat)
    requires m <= x < 2 * m
    ensures x % m == x - m
  {
    assert x / m == 1;
  }

  /** The items from the head to the tail, around the end of the cells if need be. */
  ghost function Ring<T>(cells: seq<T>, head: nat, tail: nat): seq<T>
    requires head <= |cells| && tail <= |cells|
  {
    if head <= tail then cells[head..tail] else cells[head..] + cells[..tail]
  }

  /** Where the tail lies in the new ring, the head being anywhere. */
  lemma {:induction false} RingWritten<T>(cells: seq<T>, head: nat, tail: nat, item: T)
    requires head < |cells| && tail < |cells|
    ensures var written := cells[..tail] + [item] + cells[tail + 1..];
      && (head <= tail ==> written[head..tail + 1] == Ring(cells, head, tail) + [item])
      && (head > tail ==> written[head..] + written[..tail + 1] == Ring(cells, head, tail) + [item])
  {
    var written := cells[..tail] + [item] + cells[tail + 1..];
    if head <= tail {
      assert written[head..tail + 1] == cells[head..tail] + [item];
    } else {
      assert written[head..] == cells[head..];
      assert written[..tail + 1] == cells[..tail] + [item];
    }
  }

  /** Writing at the tail and moving it on appends; if it runs into the head, moving that on drops the oldest item. */
  lemma {:induction false} RingPush<T>(cells: seq<T>, head: nat, tail: nat, item: T)
    requires head < |cells| && tail < |cells|
    ensures var written := cells[..tail] + [item] + cells[tail + 1..]; var next := Next(tail, |cells|);
      if next != head then Ring(written, head, next) == Ring(cells, head, tail) + [item]
      else Ring(written, Next(head, |cells|), next) == (Ring(cells, head, tail) + [item])[1..]
  {
    hide Next;
    RingWritten(cells, head, tail, item);
  }

  lemma {:induction false} RingPop<T>(cells: seq<T>, head: nat, tail: nat)
    requires head < |cells| && tail < |cells| && head != tail
    ensures Ring(cells, Next(head, |cells|), tail) == Ring(cells, head, tail)[1..]
  {
    hide Next;
  }
}
