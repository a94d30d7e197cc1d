/**
 * The singly linked list of listjrp.h and listjrp.c: a root pointer (LIST_ROOT)
 * to a chain of elements (LIST_ELT), each holding a data pointer and the next
 * element. The list is abstracted by the ghost sequence of its nodes and the
 * sequence of the data they hold; a NULL data pointer returned by the getters
 * is `None`.
 */
module ListJrp {
  import opened Wrappers

  /** LIST_ELT: one element of a list. */
  class ListElt<T> {
    var data: T
    var next: ListElt?<T>

    constructor (d: T)
      ensures data == d && next == null
    {
      data := d;
      next := null;
    }
  }

  /** LIST_ROOT: the pointer to the first element, NULL for the empty list. */
  class ListRoot<T> {
    var first: ListElt?<T>
    ghost var Nodes: seq<ListElt<T>>
    ghost var Contents: seq<T>

    /** The chain from `first` visits exactly Nodes, holding Contents, and ends in NULL. */
    ghost predicate Valid()
      reads this, Nodes
    {
      && |Nodes| == |Contents|
      && (if Nodes == [] then first == null else first == Nodes[0])
      && (forall i {:trigger Nodes[i].data} :: 0 <= i < |Nodes| ==> Nodes[i].data == Contents[i])
      && (forall i {:trigger Nodes[i].next} :: 0 <= i < |Nodes| ==> Nodes[i].next == Successor(Nodes, i))
      && (forall i, j :: 0 <= i < j < |Nodes| ==> Nodes[i] != Nodes[j])
    }

    /** The node after node i, NULL after the last one. */
    static ghost function Successor(nodes: seq<ListElt<T>>, i: nat): ListElt?<T>
      requires i < |nodes|
    {
      if i + 1 < |nodes| then nodes[i + 1] else null
    }

    /** LIST_CREATE: the empty list. */
    constructor ()
      ensures Valid() && Contents == [] && Nodes == []
    {
      first := null;
      Nodes := [];
      Contents := [];
    }

    /** LIST_EMPTY: the root is NULL exactly when the list holds nothing. */
    function IsEmpty(): (r: bool)
      reads this, Nodes
      requires Valid()
      ensures r <==> Contents == []
    {
      first == null
    }

    /** list_get_first: NULL for the empty list, otherwise the first element's data. */
    function GetFirst(): (r: Option<T>)
      reads this, Nodes
      requires Valid()
      ensures Contents == [] ==> r == None
      ensures Contents != [] ==> r == Some(Contents[0])
    {
      if first == null then None else Some(first.data)
    }

    /** list_get_next: NULL after the last element, otherwise the successor's data. */
    function GetNext(elt: ListElt<T>, ghost i: nat): (r: Option<T>)
      reads this, Nodes
      requires Valid() && i < |Nodes| && Nodes[i] == elt
      ensures i + 1 == |Nodes| ==> r == None
      ensures i + 1 < |Nodes| ==> r == Some(Contents[i + 1])
    {
      if elt.next == null then None else Some(elt.next.data)
    }

    /**
     * LIST_ADD_TO_START(ROOT, ELT, DATA): the element becomes the first one and
     * holds DATA, followed by the old list unchanged. The element must not be on
     * the list already.
     */
    method AddToStart(elt: ListElt<T>, d: T)
      requires Valid() && elt !in Nodes
      modifies this, elt
      ensures Valid()
      ensures Nodes == [elt] + old(Nodes) && Contents == [d] + old(Contents)
      ensures first == elt && elt.next == old(first)
    {
      elt.data := d;
      elt.next := first;
      first := elt;
      Nodes := [elt] + Nodes;
      Contents := [d] + Contents;
      forall i | 1 <= i < |Nodes|
        ensures Nodes[i].data == Contents[i]
        ensures Nodes[i].next == Successor(Nodes, i)
      {
        var j := i - 1;
        assert Nodes[i] == old(Nodes[j]) && Nodes[i] != elt;
      }
    }

    /** LIST_DELETE_FIRST: asserts the list is non-empty and unlinks exactly the first element. */
    method DeleteFirst()
      requires Valid() && Contents != []
      modifies this
      ensures Valid()
      ensures Nodes == old(Nodes[1..]) && Contents == old(Contents[1..])
      ensures first == old(first.next)
    {
      first := first.next;
      Nodes := Nodes[1..];
      Contents := Contents[1..];
      forall i | 0 <= i < |Nodes|
        ensures Nodes[i].next == Successor(Nodes, i)
      {
        var j := i + 1;
        assert Nodes[i] == old(Nodes[j]);
      }
    }

    /**
     * The traversal loop of the simulator: LIST_GET_FIRST, then LIST_GET_NEXT on
     * each element until NULL, collecting the data in order. Nothing is changed.
     */
    method Traverse() returns (ds: seq<T>)
      requires Valid()
      ensures ds == Contents
    {
      ds := [];
      var d := GetFirst();
      var cur := first;
      ghost var i := 0;
      while d.Some?
        invariant 0 <= i <= |Nodes|
        invariant ds == Contents[..i]
        invariant i < |Nodes| ==> cur == Nodes[i] && d == Some(Contents[i])
        invariant i == |Nodes| ==> d == None
        decreases |Nodes| - i
      {
        ds := ds + [d.value];
        d := GetNext(cur, i);
        cur := cur.next;
        i := i + 1;
      }
    }

    /** Adding an element and then deleting the first one restores the list and the root. */
    method AddThenDelete(elt: ListElt<T>, d: T)
      requires Valid() && elt !in Nodes
      modifies this, elt
      ensures Valid()
      ensures first == old(first) && Nodes == old(Nodes) && Contents == old(Contents)
    {
      AddToStart(elt, d);
      DeleteFirst();
    }
  }

  /** The sequence backwards. */
  function Reverse<T>(s: seq<T>): (r: seq<T>)
    ensures |r| == |s|
  {
    if s == [] then [] else Reverse(s[1..]) + [s[0]]
  }

  /** Reversal mirrors indices: element i of the reversal is element |s|-1-i of s. */
  lemma {:induction false} ReverseIndex<T>(s: seq<T>)
    ensures forall i :: 0 <= i < |s| ==> Reverse(s)[i] == s[|s| - 1 - i]
  {
    if s != [] {
      ReverseIndex(s[1..]);
    }
  }

  lemma {:induction false} ReverseAppend<T>(s: seq<T>, x: T)
    ensures Reverse(s + [x]) == [x] + Reverse(s)
  {
    if s == [] {
      assert s + [x] == [x];
    } else {
      assert (s + [x])[1..] == s[1..] + [x];
      ReverseAppend(s[1..], x);
    }
  }

  /**
   * n successive LIST_ADD_TO_START calls, with fresh elements holding ds[0],
   * ds[1], ..., build the list that holds ds in reverse insertion order.
   */
  method BuildByPrepending<T>(ds: seq<T>) returns (root: ListRoot<T>)
    ensures fresh(root) && root.Valid() && root.Contents == Reverse(ds)
    ensures forall i :: 0 <= i < |root.Nodes| ==> fresh(root.Nodes[i])
  {
    root := new ListRoot();
    var k := 0;
    while k < |ds|
      invariant 0 <= k <= |ds|
      invariant fresh(root) && root.Valid() && root.Contents == Reverse(ds[..k])
      invariant forall i :: 0 <= i < |root.Nodes| ==> fresh(root.Nodes[i])
    {
      var elt := new ListElt(ds[k]);
      root.AddToStart(elt, ds[k]);
      ReverseAppend(ds[..k], ds[k]);
      assert ds[..k + 1] == ds[..k] + [ds[k]];
      k := k + 1;
    }
    assert ds[..k] == ds;
  }

  /** Prepending then traversing yields the data in reverse insertion order. */
  method PrependThenTraverse<T>(ds: seq<T>) returns (out: seq<T>)
    ensures out == Reverse(ds)
    ensures forall i :: 0 <= i < |ds| ==> out[i] == ds[|ds| - 1 - i]
  {
    var root := BuildByPrepending(ds);
    out := root.Traverse();
    ReverseIndex(ds);
  }
}
