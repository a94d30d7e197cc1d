/**
 * The doubly linked list of listv2.c: a root pointer (LIST_V2_ROOT) to a chain
 * of elements (LIST_V2_ELT) that hold a data pointer and both the next and the
 * previous element. As for the singly linked list, the chain is abstracted by
 * the ghost sequence of its nodes and the sequence of their data.
 */
module ListV2 {
  import opened Wrappers
  import ListJrp

  /** LIST_V2_ELT: one element of a doubly linked list. */
  class ListV2Elt<T> {
    var data: T
    var next: ListV2Elt?<T>
    var previous: ListV2Elt?<T>

    constructor (d: T)
      ensures data == d && next == null && previous == null
    {
      data := d;
      next := null;
      previous := null;
    }
  }

  /** LIST_V2_ROOT: the pointer to the first element, NULL for the empty list. */
  class ListV2Root<T> {
    var first: ListV2Elt?<T>
    ghost var Nodes: seq<ListV2Elt<T>>
    ghost var Contents: seq<T>

    /**
     * The chain from `first` visits exactly Nodes, holding Contents; every next
     * link has the matching previous link back, and both ends are NULL.
     */
    ghost predicate Valid()
      reads this, Nodes
    {
      && |Nodes| == |Contents|
      && (if Nodes == [] then first == null else first == Nodes[0])
      && (forall i {:trigger Nodes[i].data} :: 0 <= i < |Nodes| ==> Nodes[i].data == Contents[i])
      && (forall i {:trigger Nodes[i].next} :: 0 <= i < |Nodes| ==> Nodes[i].next == Successor(Nodes, i))
      && (forall i {:trigger Nodes[i].previous} :: 0 <= i < |Nodes| ==> Nodes[i].previous == Predecessor(Nodes, i))
      && Distinct(Nodes)
    }

    /** The node after node i, NULL after the last one. */
    static ghost function Successor(nodes: seq<ListV2Elt<T>>, i: nat): ListV2Elt?<T>
      requires i < |nodes|
    {
      if i + 1 < |nodes| then nodes[i + 1] else null
    }

    /** The node before node i, NULL before the first one. */
    static ghost function Predecessor(nodes: seq<ListV2Elt<T>>, i: nat): ListV2Elt?<T>
      requires i < |nodes|
    {
      if i > 0 then nodes[i - 1] else null
    }

    /** An empty root. */
    constructor ()
      ensures Valid() && Contents == [] && Nodes == []
    {
      first := null;
      Nodes := [];
      Contents := [];
    }

    /** list_v2_get_first: NULL for an empty root, otherwise the first element's data. */
    function GetFirst(): (r: Option<T>)
      reads this, Nodes
      requires Valid()
      ensures Contents == [] ==> r == None
      ensures Contents != [] ==> r == Some(Contents[0])
    {
      if first == null then None else Some(first.data)
    }

    /** list_v2_get_next: NULL after the last element, otherwise the successor's data. */
    function GetNext(elt: ListV2Elt<T>, ghost i: nat): (r: Option<T>)
      reads this, Nodes
      requires Valid() && i < |Nodes| && Nodes[i] == elt
      ensures i + 1 == |Nodes| ==> r == None
      ensures i + 1 < |Nodes| ==> r == Some(Contents[i + 1])
    {
      if elt.next == null then None else Some(elt.next.data)
    }

    /** list_v2_get_previous: NULL before the first element, otherwise the predecessor's data. */
    function GetPrevious(elt: ListV2Elt<T>, ghost i: nat): (r: Option<T>)
      reads this, Nodes
      requires Valid() && i < |Nodes| && Nodes[i] == elt
      ensures i == 0 ==> r == None
      ensures i > 0 ==> r == Some(Contents[i - 1])
    {
      if elt.previous == null then None else Some(elt.previous.data)
    }

    /**
     * list_v2_add_to_start: the element becomes the root, holding `d`, with no
     * previous element and the old root as its next; the old first element points
     * back to it. No other node is touched.
     */
    method AddToStart(elt: ListV2Elt<T>, d: T)
      requires Valid() && elt !in Nodes
      modifies this, elt, first
      ensures Valid()
      ensures Nodes == [elt] + old(Nodes) && Contents == [d] + old(Contents)
      ensures first == elt && elt.previous == null && elt.next == old(first)
      ensures old(first) != null ==> old(first).previous == elt
    {
      elt.data := d;
      elt.next := first;
      elt.previous := null;
      if elt.next != null {
        elt.next.previous := elt;
      }
      first := elt;
      Nodes := [elt] + Nodes;
      Contents := [d] + Contents;
      forall i | 1 <= i < |Nodes|
        ensures Nodes[i].data == Contents[i]
        ensures Nodes[i].next == Successor(Nodes, i)
        ensures Nodes[i].previous == Predecessor(Nodes, i)
      {
        var j := i - 1;
        assert Nodes[i] == old(Nodes[j]) && Nodes[i] != elt;
        if i > 1 {
          assert Nodes[i] != old(Nodes[0]);
        }
      }
    }

    /**
     * list_v2_delete_current: the element, passed by value, is unlinked. Its
     * predecessor's next becomes its next (or the root does, when it has no
     * predecessor) and its successor's previous becomes its previous; exactly
     * that element leaves the sequence. The element's own links are left as
     * they were, since the function only has a copy of it.
     */
    method DeleteCurrent(elt: ListV2Elt<T>, ghost i: nat)
      requires Valid() && i < |Nodes| && Nodes[i] == elt
      modifies this, elt.previous, elt.next
      ensures Valid()
      ensures Nodes == Without(old(Nodes), i) && Contents == Without(old(Contents), i)
      ensures old(elt.previous) == null ==> first == old(elt.next)
      ensures old(elt.previous) != null ==> first == old(first) && old(elt.previous).next == old(elt.next)
      ensures old(elt.next) != null ==> old(elt.next).previous == old(elt.previous)
      ensures elt.next == old(elt.next) && elt.previous == old(elt.previous)
    {
      var prev, next := elt.previous, elt.next;
      if prev != null {
        prev.next := next;
      } else {
        first := next;
      }
      if next != null {
        next.previous := prev;
      }
      ghost var nodes := Nodes;
      Nodes := Without(Nodes, i);
      Contents := Without(Contents, i);
      WithoutIndex(nodes, i);
      WithoutIndex(old(Contents), i);
      WithoutKeepsDistinct(nodes, i);
      forall k {:trigger Nodes[k].next} | 0 <= k < |Nodes|
        ensures Nodes[k].next == Successor(Nodes, k)
      {
        if k + 1 == i {
          assert Nodes[k] == prev;
        } else {
          assert Nodes[k] == nodes[if k < i then k else k + 1] != prev;
        }
      }
      forall k {:trigger Nodes[k].previous} | 0 <= k < |Nodes|
        ensures Nodes[k].previous == Predecessor(Nodes, k)
      {
        if k == i {
          assert Nodes[k] == next;
        } else {
          assert Nodes[k] == nodes[if k < i then k else k + 1] != next;
        }
      }
    }

    /** Walking forward with list_v2_get_first and list_v2_get_next collects the data in order. */
    method TraverseForward() returns (ds: seq<T>)
      requires Valid()
      ensures ds == Contents
    {
      ds := [];
      var d := GetFirst();
      var cur := first;
      ghost var i := 0;
      while d.Some?
        invariant 0 <= i <= |Nodes|
        invariant ds == Contents[..i]
        invariant i < |Nodes| ==> cur == Nodes[i] && d == Some(Contents[i])
        invariant i == |Nodes| ==> d == None
        decreases |Nodes| - i
      {
        ds := ds + [d.value];
        d := GetNext(cur, i);
        cur := cur.next;
        i := i + 1;
      }
    }

    /**
     * Walking backward from the last element with list_v2_get_previous collects
     * the data in reverse order: the previous links mirror the next links.
     */
    method TraverseBackward(last: ListV2Elt<T>) returns (ds: seq<T>)
      requires Valid() && Nodes != [] && last == Nodes[|Nodes| - 1]
      ensures ds == ListJrp.Reverse(Contents)
    {
      ds := [last.data];
      var d := GetPrevious(last, |Nodes| - 1);
      var cur := last;
      ghost var i := |Nodes| - 1;
      ListJrp.ReverseIndex(Contents);
      while d.Some?
        invariant 0 <= i < |Nodes|
        invariant cur == Nodes[i]
        invariant |ds| == |Nodes| - i
        invariant forall k :: 0 <= k < |ds| ==> ds[k] == Contents[|Nodes| - 1 - k]
        invariant i > 0 ==> d == Some(Contents[i - 1])
        invariant i == 0 ==> d == None
        decreases i
      {
        ds := ds + [d.value];
        d := GetPrevious(cur.previous, i - 1);
        cur := cur.previous;
        i := i - 1;
      }
    }
  }

  /** No node appears twice. */
  ghost predicate Distinct<E>(s: seq<E>) {
    forall i, j :: 0 <= i < j < |s| ==> s[i] != s[j]
  }

  /** The sequence with its i-th entry taken out. */
  function Without<E>(s: seq<E>, i: nat): (r: seq<E>)
    requires i < |s|
    ensures |r| == |s| - 1
  {
    s[..i] + s[i + 1..]
  }

  /** Entries before i keep their place; entries after it move down by one. */
  lemma WithoutIndex<E>(s: seq<E>, i: nat)
    requires i < |s|
    ensures forall k :: 0 <= k < i ==> Without(s, i)[k] == s[k]
    ensures forall k :: i <= k < |s| - 1 ==> Without(s, i)[k] == s[k + 1]
  {
  }

  lemma WithoutKeepsDistinct<E>(s: seq<E>, i: nat)
    requires i < |s| && Distinct(s)
    ensures Distinct(Without(s, i))
  {
    WithoutIndex(s, i);
  }
}
