/** The time-ordered list of the payload event queue as the code keeps it: linked elements that are used again. */
module TimeOrderedList {
  import opened Basics
  import opened PayloadEventQueue

  class Element {
    var next: Element?
    var entry: Entry

    constructor ()
      ensures next == null
    {
      next, entry := null, Entry(0, 0);
    }
  }

  /** Elements linked in this order, up to `last`. */
  ghost predicate Chain(s: seq<Element>, first: Element?, last: Element?)
    reads s`next
  {
    && first == (if s == [] then last else s[0])
    && (s != [] ==> s[|s| - 1].next == last)
    && forall i, j :: 0 <= i < j < |s| && j == i + 1 ==> s[i].next == s[j]
  }

  lemma {:induction false} ChainCons(e: Element, s: seq<Element>, first: Element?, last: Element?)
    requires Chain(s, first, last) && e.next == first
    ensures Chain([e] + s, e, last)
  {
    var t := [e] + s;
    forall i, j | 0 <= i < j < |t| && j == i + 1
      ensures t[i].next == t[j]
    {
      if i > 0 {
        assert t[i] == s[i - 1] && t[j] == s[j - 1];
      }
    }
  }

  lemma {:induction false} ChainTail(s: seq<Element>, first: Element?, last: Element?)
    requires Chain(s, first, last) && s != []
    ensures Chain(s[1..], s[0].next, last) && s[0].next == if |s| > 1 then s[1] else last
  {
    assert |s| > 1 ==> s[0].next == s[1];
    var t := s[1..];
    forall i, j | 0 <= i < j < |t| && j == i + 1
      ensures t[i].next == t[j]
    {
      assert t[i] == s[i + 1] && t[j] == s[j + 1];
    }
  }

  lemma {:induction false} ChainSplit(s: seq<Element>, first: Element?, last: Element?, k: nat)
    requires Chain(s, first, last) && k <= |s|
    ensures var middle := if k < |s| then s[k] else last;
      Chain(s[..k], if k == 0 then middle else first, middle) && Chain(s[k..], middle, last)
  {
    if k > 0 && k < |s| {
      assert s[k - 1].next == s[k];
    }
    var t := s[k..];
    forall i, j | 0 <= i < j < |t| && j == i + 1
      ensures t[i].next == t[j]
    {
      assert t[i] == s[k + i] && t[j] == s[k + j];
    }
  }

  lemma {:induction false} ChainJoin(s: seq<Element>, t: seq<Element>, first: Element?, middle: Element?,
                                     last: Element?)
    requires Chain(s, first, middle) && Chain(t, middle, last)
    ensures Chain(s + t, if s == [] then middle else first, last)
  {
    var u := s + t;
    forall i, j | 0 <= i < j < |u| && j == i + 1
      ensures u[i].next == u[j]
    {
      if i >= |s| {
        assert u[i] == t[i - |s|] && u[j] == t[j - |s|];
      }
    }
  }

  /** One element put behind another, which was linked to what follows. */
  lemma {:induction false} Rejoin(before: seq<Element>, ancestor: Element, e: Element, after: seq<Element>,
                                  first: Element?, last: Element?)
    requires Chain(before, if before == [] then ancestor else first, ancestor) && (before == [] ==> first == ancestor)
    requires ancestor.next == e && Chain(after, e.next, last)
    ensures Chain(before + [ancestor] + [e] + after, first, last)
  {
    hide Chain;
    ChainCons(e, after, e.next, last);
    ChainCons(ancestor, [e] + after, e, last);
    ChainJoin(before, [ancestor] + ([e] + after), first, ancestor, last);
    assert before + ([ancestor] + ([e] + after)) == before + [ancestor] + [e] + after;
  }

  function InsertAt<T>(s: seq<T>, k: nat, x: T): seq<T>
    requires k <= |s|
  {
    s[..k] + [x] + s[k..]
  }

  lemma {:induction false} DistinctInsert(s: seq<Element>, k: nat, x: Element)
    requires Distinct(s) && x !in s && k <= |s|
    ensures Distinct(InsertAt(s, k, x)) && forall y :: y in InsertAt(s, k, x) <==> y == x || y in s
  {
    InsertedElements(s, k, x);
    var t := InsertAt(s, k, x);
    forall i, j | 0 <= i < j < |t|
      ensures t[i] != t[j]
    {
      InsertedElement(s, k, x, i);
      InsertedElement(s, k, x, j);
    }
  }

  lemma {:induction false} InsertedElement(s: seq<Element>, k: nat, x: Element, i: nat)
    requires k <= |s| && i <= |s|
    ensures InsertAt(s, k, x)[i] == if i < k then s[i] else if i == k then x else s[i - 1]
  {
  }

  lemma {:induction false} InsertedElements(s: seq<Element>, k: nat, x: Element)
    requires k <= |s|
    ensures forall y :: y in InsertAt(s, k, x) <==> y == x || y in s
  {
    assert s == s[..k] + s[k..];
  }

  /** Position k lies between the element before it and what follows. */
  lemma {:induction false} AroundPosition(s: seq<Element>, k: nat, x: Element)
    requires Distinct(s) && 0 < k <= |s|
    ensures InsertAt(s, k, x) == s[..k - 1] + [s[k - 1]] + [x] + s[k..]
    ensures s[k - 1] in s && s[k - 1] !in s[..k - 1] && s[k - 1] !in s[k..]
    ensures forall y :: y in s[..k - 1] || y in s[k..] ==> y in s
  {
  }

  ghost predicate Carries(s: seq<Element>, entries: seq<Entry>)
    reads s`entry
  {
    |s| == |entries| && forall i :: 0 <= i < |s| ==> s[i].entry == entries[i]
  }

  lemma {:induction false} CarriesInsert(s: seq<Element>, entries: seq<Entry>, k: nat, e: Element)
    requires Carries(s, entries) && k <= |s|
    ensures Carries(InsertAt(s, k, e), InsertAt(entries, k, e.entry))
  {
  }

  /** The list ends at the element `nill`; elements taken out of it wait in a chain of their own. */
  class TimeOrdered {
    const nill: Element
    var empties: Element?
    var list: Element
    var size: nat
    ghost var nodes: seq<Element>
    ghost var spares: seq<Element>
    ghost var entries: seq<Entry>

    /** The two chains share no element with each other or with the end marker. */
    ghost predicate Valid()
      reads this, nodes, spares
    {
      && Distinct(nodes) && Distinct(spares) && nill !in nodes && nill !in spares
      && (forall e :: e in nodes ==> e !in spares)
      && Chain(nodes, list, nill) && Chain(spares, empties, null)
      && size == |nodes| && Carries(nodes, entries)
    }

    constructor ()
      ensures Valid() && entries == [] && spares == [] && nodes == []
    {
      nill := new Element();
      empties := null;
      list := nill;
      size := 0;
      nodes, spares, entries := [], [], [];
    }

    /** A new element, to be taken at once. */
    method NewSpare()
      requires Valid() && empties == null
      modifies this`empties, this`spares
      ensures Valid() && old(spares) == [] && empties != null && spares == [empties] && fresh(empties)
    {
      hide Carries;
      empties := new Element();
      empties.next := null;
      spares := [empties];
    }

    /** The element that waits first, and those behind it. */
    lemma {:induction false} FirstSpare()
      requires Valid() && empties != null
      ensures |spares| > 0 && spares == [empties] + spares[1..] && empties !in spares[1..] && empties !in nodes
      ensures Chain(spares[1..], empties.next, null)
    {
      hide Carries;
      ChainTail(spares, empties, null);
    }

    /** An element to use: one that waits, or a new one. */
    method TakeSpare(entry: Entry) returns (e: Element)
      requires Valid()
      modifies this`empties, this`spares, spares`entry
      ensures Valid() && e !in nodes && e !in spares && e != nill && e.entry == entry
      ensures if old(spares) == [] then spares == [] && fresh(e) else old(spares) == [e] + spares
    {
      hide Chain, Carries;
      if empties == null {
        NewSpare();
      }
      FirstSpare();
      e := empties;
      assert e == spares[0];
      empties := empties.next;
      spares := spares[1..];
      e.entry := entry;
    }

    /** Walks past every entry that is due no later. */
    method Search(due: int) returns (ancestor: Element, successor: Element, ghost k: nat)
      requires Valid()
      ensures k <= |nodes| && Found(ancestor, successor, k)
      ensures (forall i :: 0 <= i < k ==> entries[i].due <= due) && (k < |nodes| ==> entries[k].due > due)
    {
      ancestor, successor, k := nill, list, 0;
      while successor != nill && successor.entry.due <= due
        invariant k <= |nodes| && Found(ancestor, successor, k)
        invariant forall i :: 0 <= i < k ==> entries[i].due <= due
        decreases |nodes| - k
      {
        assert successor == nodes[k] && successor.entry == entries[k];
        assert k + 1 < |nodes| ==> nodes[k].next == nodes[k + 1];
        ancestor := successor;
        successor := successor.next;
        k := k + 1;
      }
    }

    /** The elements on either side of position k, with the end marker beyond both ends. */
    ghost predicate Found(ancestor: Element, successor: Element, k: nat)
      requires k <= |nodes|
      reads this
    {
      ancestor == (if k > 0 then nodes[k - 1] else nill) && successor == (if k < |nodes| then nodes[k] else nill)
    }

    method LinkFirst(e: Element)
      requires Valid() && e !in nodes && e !in spares && e != nill
      modifies this`list, this`size, this`nodes, this`entries, e`next
      ensures Valid() && nodes == [e] + old(nodes) && entries == [e.entry] + old(entries)
    {
      hide Chain;
      e.next := list;
      ChainCons(e, nodes, e.next, nill);
      list := e;
      size, nodes, entries := size + 1, [e] + nodes, [e.entry] + entries;
    }

    /** The two pointers that put e behind its ancestor. */
    method Relink(e: Element, ancestor: Element, successor: Element, ghost k: nat)
      requires Valid() && 0 < k <= |nodes| && Found(ancestor, successor, k)
      requires e !in nodes && e !in spares
      modifies e`next, ancestor`next
      ensures Chain(InsertAt(nodes, k, e), list, nill) && Chain(spares, empties, null)
    {
      ghost var before, after := nodes[..k - 1], nodes[k..];
      ChainSplit(nodes, list, nill, k - 1);
      ChainSplit(nodes, list, nill, k);
      AroundPosition(nodes, k, e);
      hide InsertAt, Distinct, Carries, Chain;
      e.next := successor;
      ancestor.next := e;
      Rejoin(before, ancestor, e, after, list, nill);
    }

    lemma {:induction false} AsLong(k: nat, e: Element)
      requires Valid() && k <= |nodes|
      ensures |nodes| == |entries| && |InsertAt(nodes, k, e)| == |nodes| + 1
    {
    }

    method LinkAfter(e: Element, ancestor: Element, successor: Element, ghost k: nat)
      requires Valid() && 0 < k <= |nodes| && Found(ancestor, successor, k)
      requires e !in nodes && e !in spares && e != nill
      modifies this`size, this`nodes, this`entries, e`next, ancestor`next
      ensures Valid() && nodes == InsertAt(old(nodes), k, e) && entries == InsertAt(old(entries), k, e.entry)
    {
      hide InsertAt, Distinct, Carries, Chain;
      DistinctInsert(nodes, k, e);
      AsLong(k, e);
      Relink(e, ancestor, successor, k);
      CarriesInsert(nodes, entries, k, e);
      size, nodes, entries := size + 1, InsertAt(nodes, k, e), InsertAt(entries, k, e.entry);
    }

    method Insert(entry: Entry)
      requires Valid()
      modifies this, nodes, spares
      ensures Valid() && entries == Inserted(old(entries), entry)
      ensures |nodes| == |old(nodes)| + 1 && |spares| == if old(spares) == [] then 0 else |old(spares)| - 1
    {
      assert |entries| == |nodes|;
      hide Chain, Distinct, Carries, Inserted;
      var e := TakeSpare(entry);
      var ancestor, successor, k := Search(entry.due);
      InsertedAt(entries, entry, k);
      if ancestor == nill {
        LinkFirst(e);
        assert entries == [entry] + old(entries);
      } else {
        LinkAfter(e, ancestor, successor, k);
      }
    }

    /** The list's first element, if it has one, and what is left without it. */
    lemma {:induction false} FirstNode()
      requires Valid()
      ensures list != nill <==> nodes != []
      ensures |entries| == |nodes|
      ensures nodes != [] ==>
        && list == nodes[0] && nodes == [list] + nodes[1..] && list !in nodes[1..] && list !in spares
           && list.next != null
        && Chain(nodes[1..], list.next, nill) && Carries(nodes[1..], entries[1..])
    {
      if nodes != [] {
        ChainTail(nodes, list, nill);
      }
    }

    method DeleteTop()
      requires Valid()
      modifies this, nodes
      ensures Valid() && entries == if old(entries) == [] then [] else old(entries)[1..]
      ensures if old(nodes) == [] then spares == old(spares) else spares == [old(nodes)[0]] + old(spares)
    {
      hide Chain, Carries;
      FirstNode();
      if list != nill {
        var e := list;
        ghost var rest := nodes[1..];
        list := list.next;
        e.next := empties;
        assert Chain(rest, list, nill) && Chain(spares, e.next, null);
        ChainCons(e, spares, e.next, null);
        empties := e;
        size := size - 1;
        spares := [e] + spares;
        nodes, entries := rest, entries[1..];
      }
    }
  }
}
