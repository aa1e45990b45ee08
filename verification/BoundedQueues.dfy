/** A bounded queue that overruns its oldest item, kept in a ring with one cell always free. */
module BoundedQueues {
  import opened Rings

  /** The last n items. */
  function KeepLast<T>(s: seq<T>, n: nat): seq<T> {
    if |s| <= n then s else s[|s| - n..]
  }

  lemma {:induction false} EndOf<T>(s: seq<T>, k: nat, item: T)
    requires k <= |s|
    ensures (s + [item])[k..] == s[k..] + [item] && (s + [item])[k + 1..] == (s[k..] + [item])[1..]
  {
  }

  class CircularQ<T(0)> {
    const maxItems: nat
    const v: array<T>
    var head: nat
    var tail: nat
    var overrunCounter: nat
    ghost var pushed: seq<T>
    ghost var popped: nat

    ghost function Contents(): seq<T>
      requires InRange()
      reads this, v
    {
      Ring(v[..], head, tail)
    }

    predicate InRange()
      reads this
    {
      v.Length == maxItems && if maxItems == 0 then head == tail == 0 else head < maxItems && tail < maxItems
    }

    /**
     * First in, first out: what is stored is the end of what was pushed, and everything before it was popped or counted
     * as overrun.
     */
    ghost predicate Valid()
      reads this, v
    {
      && InRange()
      && popped + overrunCounter <= |pushed|
      && Contents() == pushed[popped + overrunCounter..]
    }

    function Capacity(): nat
      requires maxItems > 0
    {
      maxItems - 1
    }

    /** A queue of no items at all, where pushing does nothing. */
    constructor Disabled()
      ensures Valid() && Contents() == [] && maxItems == 0 && fresh(v)
    {
      maxItems, v := 0, new T[0];
      head, tail, overrunCounter, pushed, popped := 0, 0, 0, [], 0;
    }

    constructor (maxItems: nat)
      ensures Valid() && Contents() == [] && this.maxItems > 0 && Capacity() == maxItems && fresh(v)
    {
      this.maxItems, v := maxItems + 1, new T[maxItems + 1];
      head, tail, overrunCounter, pushed, popped := 0, 0, 0, [], 0;
    }

    /**
     * Writes an item to the free cell; the next cell becomes the tail, and where that is the head the oldest item goes.
     */
    method Store(item: T) returns (next: nat)
      requires InRange() && maxItems > 0
      modifies v
      ensures next < maxItems && |old(Contents())| <= Capacity()
      ensures next == head <==> |old(Contents())| == Capacity()
      ensures if next != head then Ring(v[..], head, next) == old(Contents()) + [item]
              else Ring(v[..], Next(head, maxItems), next) == (old(Contents()) + [item])[1..]
    {
      assert |Contents()| <= Capacity() && (Next(tail, maxItems) == head <==> |Contents()| == Capacity());
      RingPush(v[..], head, tail, item);
      hide Next, Ring;
      ghost var cells := v[..];
      v[tail] := item;
      assert v[..] == cells[..tail] + [item] + cells[tail + 1..];
      next := Next(tail, maxItems);
    }

    /** Appends an item; without room the oldest one goes, which is the item itself when there is no capacity. */
    method PushBack(item: T)
      requires Valid()
      modifies this, v
      ensures Valid() && popped == old(popped)
      ensures pushed == if maxItems == 0 then old(pushed) else old(pushed) + [item]
      ensures Contents() == if maxItems == 0 then [] else KeepLast(old(Contents()) + [item], Capacity())
      ensures overrunCounter == old(overrunCounter) + (if maxItems > 0 && |old(Contents())| == Capacity() then 1 else 0)
    {
      if maxItems > 0 {
        hide Next, Ring;
        var next := Store(item);
        EndOf(pushed, popped + overrunCounter, item);
        pushed := pushed + [item];
        tail := next;
        if tail == head {
          head := Next(head, maxItems);
          overrunCounter := overrunCounter + 1;
        }
      }
    }

    /** The oldest item that is neither popped nor overrun. */
    method Front() returns (item: T)
      requires Valid() && Contents() != []
      ensures item == Contents()[0] == pushed[popped + overrunCounter]
    {
      item := v[head];
    }

    method Size() returns (size: nat)
      requires Valid()
      ensures size == |Contents()| && (maxItems > 0 ==> size <= Capacity())
    {
      if tail >= head {
        return tail - head;
      } else {
        return maxItems - (head - tail);
      }
    }

    method At(i: nat) returns (item: T)
      requires Valid() && i < |Contents()|
      ensures item == Contents()[i]
    {
      hide Steps;
      item := v[Steps(head, i, maxItems)];
    }

    method PopFront()
      requires Valid() && Contents() != []
      modifies this
      ensures Valid() && Contents() == old(Contents())[1..]
      ensures popped == old(popped) + 1 && pushed == old(pushed) && overrunCounter == old(overrunCounter)
    {
      RingPop(v[..], head, tail);
      hide Next, Ring;
      head := Next(head, maxItems);
      popped := popped + 1;
    }

    method Empty() returns (empty: bool)
      requires Valid()
      ensures empty <==> Contents() == []
    {
      return tail == head;
    }

    /** Never for a disabled queue, which has no cell to be ahead of. */
    method Full() returns (full: bool)
      requires Valid()
      ensures full <==> maxItems > 0 && |Contents()| == Capacity()
    {
      if maxItems > 0 {
        return Next(tail, maxItems) == head;
      }
      return false;
    }
  }

  /** The queue between threads. Each method is what happens under its lock, once its wait is over. */
  class BlockingQueue<T(0)> {
    const q: CircularQ<T>

    constructor (maxItems: nat)
      ensures q.Valid() && q.Contents() == [] && q.maxItems > 0 && q.Capacity() == maxItems && fresh(q) && fresh(q.v)
    {
      q := new CircularQ(maxItems);
    }

    /** Waits for room first, so nothing is overrun. */
    method Enqueue(item: T)
      requires q.Valid() && !(q.maxItems > 0 && |q.Contents()| == q.Capacity()) && q.maxItems > 0
      modifies q, q.v
      ensures q.Valid() && q.Contents() == old(q.Contents()) + [item] && q.overrunCounter == old(q.overrunCounter)
    {
      q.PushBack(item);
    }

    method EnqueueNoWait(item: T)
      requires q.Valid() && q.maxItems > 0
      modifies q, q.v
      ensures q.Valid() && q.Contents() == KeepLast(old(q.Contents()) + [item], q.Capacity())
    {
      q.PushBack(item);
    }

    /** Gives up when the wait ended with nothing in the queue. */
    method DequeueFor() returns (popped: bool, item: T)
      requires q.Valid()
      modifies q
      ensures q.Valid() && popped == (old(q.Contents()) != [])
      ensures popped ==> old(q.Contents()) == [item] + q.Contents()
      ensures !popped ==> q.Contents() == []
    {
      hide q.Valid, q.Contents;
      var empty := q.Empty();
      if empty {
        item := *;
        return false, item;
      }
      item := q.Front();
      q.PopFront();
      popped := true;
    }
  }
}
