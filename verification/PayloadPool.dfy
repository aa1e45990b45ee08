/** The payload pool: a doubly linked list whose two cursors divide free payloads from empty nodes. */
module PayloadPool {
  import opened Basics

  class Access {
    var trans: nat
    var next: Access?
    var prev: Access?

    constructor ()
      ensures next == null && prev == null
    {
      trans, next, prev := 0, null, null;
    }
  }

  /** Every payload that exists is either in use or free, and in the pool once. */
  ghost predicate OneOwner(stack: seq<nat>, held: set<nat>, created: nat) {
    && Distinct(stack)
    && (forall x :: x in stack ==> x !in held)
    && (forall x: nat :: x < created <==> x in held || x in stack)
  }

  lemma {:induction false} TakeTop(stack: seq<nat>, held: set<nat>, created: nat)
    requires |stack| > 0 && OneOwner(stack, held, created)
    ensures stack[0] !in held && OneOwner(stack[1..], held + {stack[0]}, created)
  {
    assert stack == [stack[0]] + stack[1..];
  }

  lemma {:induction false} TakeNew(held: set<nat>, created: nat)
    requires OneOwner([], held, created)
    ensures created !in held && OneOwner([], held + {created}, created + 1)
  {
  }

  /** Giving back a payload in use is sound; giving back any other, for instance a second time, is not. */
  lemma {:induction false} GiveBack(stack: seq<nat>, held: set<nat>, created: nat, x: nat)
    requires OneOwner(stack, held, created)
    ensures OneOwner([x] + stack, held - {x}, created) <==> x in held
  {
    if x in stack {
      var i :| 0 <= i < |stack| && stack[i] == x;
      assert ([x] + stack)[0] == ([x] + stack)[i + 1];
    } else {
      assert x in [x] + stack;
      assert forall y :: y in [x] + stack <==> y == x || y in stack;
    }
  }

  /** A doubly linked list whose first node points back to `before`. */
  ghost predicate Linked(nodes: seq<Access>, before: Access?)
    reads nodes`next, nodes`prev
  {
    && Distinct(nodes)
    && (nodes != [] ==> nodes[0].prev == before && nodes[|nodes| - 1].next == null)
    && (forall i, j :: 0 <= i < j < |nodes| && j == i + 1 ==> nodes[i].next == nodes[j] && nodes[j].prev == nodes[i])
  }

  lemma {:induction false} LinkedCons(e: Access, nodes: seq<Access>)
    requires Linked(nodes, e) && e !in nodes && e.prev == null && e.next == if nodes == [] then null else nodes[0]
    ensures Linked([e] + nodes, null)
  {
    var s := [e] + nodes;
    forall i, j | 0 <= i < j < |s| && j == i + 1
      ensures s[i].next == s[j] && s[j].prev == s[i]
    {
      if i > 0 {
        assert s[i] == nodes[i - 1] && s[j] == nodes[j - 1];
      }
    }
  }

  /** From node k on, the nodes hold the stack, its top first. */
  ghost predicate Holds(nodes: seq<Access>, k: nat, stack: seq<nat>)
    reads nodes`trans
  {
    k + |stack| == |nodes| && forall j :: k <= j < |nodes| ==> nodes[j].trans == stack[j - k]
  }

  lemma {:induction false} HoldsCons(e: Access, nodes: seq<Access>, stack: seq<nat>)
    requires Holds(nodes, 0, stack)
    ensures Holds([e] + nodes, 1, stack)
  {
  }

  /** Payloads are numbered in the order in which they are created. */
  class Mm {
    var freeList: Access?
    var empties: Access?
    var created: nat
    ghost var nodes: seq<Access>  // the whole list
    ghost var empty: nat          // how many nodes, from the start, hold no payload
    ghost var stack: seq<nat>     // the free payloads, the last one freed first
    ghost var held: set<nat>      // the payloads in use
    ghost var high: nat           // the most payloads that ever were free together

    /**
     * One cursor is at the first payload, the other at the last empty node; nodes are made only for a new high mark.
     */
    ghost predicate Valid()
      reads this, nodes
    {
      && Linked(nodes, null)
      && empty + |stack| == |nodes| == high
      && freeList == (if empty < |nodes| then nodes[empty] else null)
      && empties == (if empty > 0 then nodes[empty - 1] else null)
      && Holds(nodes, empty, stack)
    }

    ghost predicate Owned()
      reads this
    {
      OneOwner(stack, held, created)
    }

    constructor ()
      ensures Valid() && Owned() && stack == [] && held == {} && created == 0 && fresh(nodes)
    {
      freeList, empties, created := null, null, 0;
      nodes, empty, stack, held, high := [], 0, [], {}, 0;
    }

    /** The payload freed last, or a new one; never one in use. */
    method Allocate() returns (ptr: nat)
      requires Valid()
      modifies this
      ensures Valid() && nodes == old(nodes) && high == old(high)
      ensures if old(stack) != [] then old(stack) == [ptr] + stack && created == old(created)
              else stack == [] && ptr == old(created) == created - 1
      ensures held == old(held) + {ptr}
      ensures old(Owned()) ==> Owned() && ptr !in old(held)
    {
      hide OneOwner, Linked, Holds;
      if old(Owned()) {
        if stack == [] {
          TakeNew(held, created);
        } else {
          TakeTop(stack, held, created);
        }
      }
      TopNode();
      if freeList != null {
        ptr := freeList.trans;
        empties := freeList;
        freeList := freeList.next;
        empty, stack := empty + 1, stack[1..];
      } else {
        ptr := created;
        created := created + 1;
      }
      held := held + {ptr};
    }

    /** The first payload on the stack, and what is left without it. */
    lemma {:induction false} TopNode()
      requires Valid()
      ensures freeList == null <==> stack == []
      ensures freeList != null ==>
        && freeList == nodes[empty] && freeList.trans == stack[0] && stack == [stack[0]] + stack[1..]
        && freeList.next == (if empty + 1 < |nodes| then nodes[empty + 1] else null)
        && Holds(nodes, empty + 1, stack[1..])
    {
    }

    /** Puts a payload on top. Giving back a payload in use keeps the pool sound; giving one back twice does not. */
    method Free(trans: nat)
      requires Valid()
      modifies this, nodes
      ensures Valid() && stack == [trans] + old(stack) && created == old(created)
      ensures high == |nodes| == Max(old(high), |stack|)
      ensures forall i :: 0 <= i < |nodes| ==> nodes[i] in old(nodes) || fresh(nodes[i])
      ensures held == old(held) - {trans}
      ensures old(Owned()) ==> (Owned() <==> trans in old(held))
    {
      assert |nodes| == high && (empties == null ==> |stack| == high) && (empties != null ==> |stack| < high);
      if Owned() {
        GiveBack(stack, held, created, trans);
      }
      hide OneOwner, Valid;
      if empties == null {
        var e := AddNode();
      }
      Put(trans);
    }

    lemma {:induction false} PreviousNode()
      requires Valid() && empties != null
      ensures empties == nodes[empty - 1] && empties.prev == if empty > 1 then nodes[empty - 2] else null
      ensures forall j :: empty <= j < |nodes| ==> nodes[j] != empties
    {
    }

    /** Fills the last empty node. */
    method Put(trans: nat)
      requires Valid() && empties != null
      modifies this, nodes
      ensures Valid() && stack == [trans] + old(stack) && created == old(created)
      ensures high == old(high) && nodes == old(nodes) && held == old(held) - {trans}
    {
      hide Linked;
      PreviousNode();
      freeList := empties;
      freeList.trans := trans;
      empties := freeList.prev;
      empty, stack, held := empty - 1, [trans] + stack, held - {trans};
    }

    /** A new node at the start of a list without empty nodes. */
    method AddNode() returns (e: Access)
      requires Valid() && empties == null
      modifies this`empties, this`nodes, this`empty, this`high, nodes`prev
      ensures Valid() && empties == e && fresh(e) && nodes == [e] + old(nodes)
      ensures high == |nodes| == 1 + |stack|
      ensures stack == old(stack) && held == old(held) && created == old(created)
    {
      hide Linked, Holds;
      e := NewFirst();
      HoldsCons(e, nodes, stack);
      empties := e;
      nodes, empty, high := [e] + nodes, 1, high + 1;
    }

    /** A node linked in front of the list. */
    method NewFirst() returns (e: Access)
      requires Linked(nodes, null) && freeList == if nodes == [] then null else nodes[0]
      modifies nodes`prev
      ensures fresh(e) && Linked([e] + nodes, null)
    {
      e := new Access();
      assert e !in nodes;
      e.next := freeList;
      e.prev := null;
      if freeList != null {
        PointBack(freeList, e);
      }
      LinkedCons(e, nodes);
    }

    method PointBack(first: Access, e: Access)
      requires Linked(nodes, null) && nodes != [] && first == nodes[0]
      modifies first`prev
      ensures Linked(nodes, e)
    {
      first.prev := e;
    }
  }
}
