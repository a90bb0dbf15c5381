/** What else happens to the nodes: values are stored, empty entries lose their keys to the
    collector, new vectors are made. */
module TabStore {
  import opened TabNodes
  import opened TabInsert

  // ---- Storing a value ----------------------------------------------------------------------

  function WithVal(node: Nodes, i: int, v: Value): Nodes
    requires 0 <= i < |node|
  {
    node[i := node[i].(val := v)]
  }

  lemma {:induction false} SameLeads(node: Nodes, node2: Nodes, b: int, i: int, s: nat, k: Key)
    requires |node2| == |node| && Leads(node, b, i, s, k)
    requires forall j :: 0 <= j < |node| ==> node2[j].next == node[j].next && (node2[j].key == Dead(k) ==> node[j].key == Dead(k))
    ensures Leads(node2, b, i, s, k)
    decreases s
  {
    if s > 0 { SameLeads(node, node2, node[b].next, i, s - 1, k); }
  }

  lemma {:induction false} SameEnds(node: Nodes, node2: Nodes, b: int, s: nat)
    requires |node2| == |node| && Ends(node, b, s)
    requires forall j :: 0 <= j < |node| ==> node2[j].next == node[j].next
    ensures Ends(node2, b, s)
    decreases s
  {
    if s > 0 { SameEnds(node, node2, node[b].next, s - 1); }
  }

  /** Nodes with the same links. */
  predicate SameLinks(node: Nodes, node2: Nodes) {
    |node2| == |node| && forall j :: 0 <= j < |node| ==> node2[j].next == node[j].next && (node2[j].key == NoKey <==> node[j].key == NoKey)
  }

  lemma SameLinksOk(node: Nodes, node2: Nodes)
    requires SameLinks(node, node2) && Links(node) && Apart(node) && AllEnd(node)
    ensures Links(node2) && Apart(node2) && AllEnd(node2)
  {
    forall i | 0 <= i < |node2| ensures Finite(node2, i) {
      hide Ends, Links, Apart;
      assert Finite(node, i);
      var s: nat :| Ends(node, i, s);
      SameEnds(node, node2, i, s);
    }
  }

  lemma WithValOk(h: Hasher, node: Nodes, i: int, v: Value)
    requires HashOk(h, node) && 0 <= i < |node| && node[i].key.Live?
    ensures HashOk(h, WithVal(node, i, v))
  {
    var node2 := WithVal(node, i, v);
    SameLinksOk(node, node2);
    WithValReached(h, node, i, v);
    WithValKeys(h, node, i, v);
    hide *;
    HashNow(h, WithVal(node, i, v));
  }

  lemma WithValReached(h: Hasher, node: Nodes, i: int, v: Value)
    requires Reached(h, node) && 0 <= i < |node|
    ensures Reached(h, WithVal(node, i, v))
  {
    var node2 := WithVal(node, i, v);
    forall j | 0 <= j < |node2| && node2[j].key.Live?
      ensures Found(node2, Main(h, node2[j].key.k, |node2|), j, node2[j].key.k)
    {
      hide Leads;
      var k := node[j].key.k;
      var s: nat :| Leads(node, Main(h, k, |node|), j, s, k);
      SameLeads(node, node2, Main(h, k, |node|), j, s, k);
    }
  }

  lemma WithValKeys(h: Hasher, node: Nodes, i: int, v: Value)
    requires Distinct(node) && Brent(h, node) && Blank(node) && 0 <= i < |node| && node[i].key.Live?
    ensures Distinct(WithVal(node, i, v)) && Brent(h, WithVal(node, i, v)) && Blank(WithVal(node, i, v))
  {
  }

  lemma WithValStored(node: Nodes, i: int, v: Value)
    requires Distinct(node) && 0 <= i < |node| && node[i].key.Live?
    ensures forall k :: Stored(WithVal(node, i, v), k) == if k == node[i].key.k then v else Stored(node, k)
  {
    var node2 := WithVal(node, i, v);
    assert Distinct(node2);
    forall k ensures Stored(node2, k) == if k == node[i].key.k then v else Stored(node, k) {
      if j :| 0 <= j < |node| && node[j].key == Live(k) {
        assert node2[j].key == Live(k);
        StoredIs(node, j);
        StoredIs(node2, j);
      } else {
        assert forall j :: 0 <= j < |node2| ==> node2[j].key == node[j].key;
      }
    }
  }

  // ---- Dead keys --------------------------------------------------------------------------------

  /** removeentry (lgc.c:62-66) on an empty entry. */
  function Killed(node: Nodes, i: int): Nodes
    requires 0 <= i < |node| && node[i].key.Live?
  {
    node[i := node[i].(key := Dead(node[i].key.k))]
  }

  lemma KilledOk(h: Hasher, node: Nodes, i: int)
    requires HashOk(h, node) && 0 <= i < |node| && node[i].key.Live? && node[i].val == Nil
    ensures HashOk(h, Killed(node, i))
  {
    SameLinksOk(node, Killed(node, i));
    KilledReached(h, node, i);
    KilledKeys(h, node, i);
    hide *;
    HashNow(h, Killed(node, i));
  }

  lemma KilledReached(h: Hasher, node: Nodes, i: int)
    requires Reached(h, node) && Distinct(node) && 0 <= i < |node| && node[i].key.Live?
    ensures Reached(h, Killed(node, i))
  {
    var node2 := Killed(node, i);
    forall j | 0 <= j < |node2| && node2[j].key.Live?
      ensures Found(node2, Main(h, node2[j].key.k, |node2|), j, node2[j].key.k)
    {
      hide Leads;
      var k := node[j].key.k;
      var s: nat :| Leads(node, Main(h, k, |node|), j, s, k);
      SameLeads(node, node2, Main(h, k, |node|), j, s, k);
    }
  }

  lemma KilledKeys(h: Hasher, node: Nodes, i: int)
    requires Distinct(node) && Brent(h, node) && Blank(node) && 0 <= i < |node| && node[i].key.Live? && node[i].val == Nil
    ensures Distinct(Killed(node, i)) && Brent(h, Killed(node, i)) && Blank(Killed(node, i))
  {
  }

  lemma KilledStored(node: Nodes, i: int)
    requires Distinct(node) && 0 <= i < |node| && node[i].key.Live? && node[i].val == Nil
    ensures SameStored(node, Killed(node, i))
  {
    var node2 := Killed(node, i);
    assert Distinct(node2);
    forall k ensures Stored(node2, k) == Stored(node, k) {
      if j :| 0 <= j < |node| && node[j].key == Live(k) {
        StoredIs(node, j);
        if j != i { assert node2[j].key == Live(k); StoredIs(node2, j); }
      } else {
        assert forall j :: 0 <= j < |node2| ==> node2[j].key != Live(k);
      }
    }
  }

  // ---- New vectors, and the nodes in use ----------------------------------------------------------

  function Fresh(size: nat): Nodes {
    seq(size, _ => Node(NoKey, Nil, NIL))
  }

  lemma FreshOk(h: Hasher, size: nat)
    ensures HashOk(h, Fresh(size)) && Taken(Fresh(size), size) && Keyed(Fresh(size)) == 0
    ensures forall k :: Stored(Fresh(size), k) == Nil
  {
    var node := Fresh(size);
    forall i | 0 <= i < |node| ensures Finite(node, i) {
      assert Ends(node, NIL, 0);
      assert Ends(node, i, 1);
    }
    NoneKeyed(node);
  }

  lemma {:induction false} NoneKeyed(node: Nodes)
    requires forall i :: 0 <= i < |node| ==> node[i].key == NoKey
    ensures Keyed(node) == 0
  {
    if node != [] { NoneKeyed(node[..|node| - 1]); }
  }

  /** Nodes that have a key. */
  function Keyed(node: Nodes): (c: nat)
    ensures c <= |node|
  {
    if node == [] then 0
    else Keyed(node[..|node| - 1]) + if node[|node| - 1].key == NoKey then 0 else 1
  }

  lemma {:induction false} KeyedUpdate(node: Nodes, i: int, n: Node)
    requires 0 <= i < |node|
    ensures Keyed(node[i := n]) == Keyed(node) + (if n.key == NoKey then 0 else 1) - (if node[i].key == NoKey then 0 else 1)
    decreases |node|
  {
    var init := node[..|node| - 1];
    if i < |node| - 1 {
      KeyedUpdate(init, i, n);
      assert node[i := n][..|node| - 1] == init[i := n];
    } else {
      assert node[i := n][..|node| - 1] == init;
    }
  }

  lemma {:induction false} AllKeyed(node: Nodes)
    requires forall i :: 0 <= i < |node| ==> node[i].key != NoKey
    ensures Keyed(node) == |node|
  {
    if node != [] { AllKeyed(node[..|node| - 1]); }
  }

  lemma KeyedInMain(node: Nodes, q: int, k: Key)
    requires 0 <= q < |node|
    ensures Keyed(InMain(node, q, k)) <= Keyed(node) + 1
  {
    KeyedUpdate(node, q, Node(Live(k), Nil, node[q].next));
  }

  lemma KeyedBehind(node: Nodes, q: int, n: int, k: Key)
    requires 0 <= q < |node| && 0 <= n < |node| && q != n && node[n].key == NoKey
    ensures Keyed(Behind(node, q, n, k)) == Keyed(node) + 1
  {
    var m := Node(Live(k), Nil, node[q].next);
    KeyedUpdate(node, n, m);
    KeyedUpdate(node[n := m], q, node[q].(next := n));
  }

  lemma KeyedMoved(node: Nodes, p: int, q: int, n: int, k: Key)
    requires 0 <= p < |node| && 0 <= q < |node| && 0 <= n < |node| && q != n && p != q && p != n
    requires node[n].key == NoKey && node[q].key != NoKey
    ensures Keyed(Moved(node, p, q, n, k)) == Keyed(node) + 1
  {
    var a := node[p := node[p].(next := n)];
    KeyedUpdate(node, p, node[p].(next := n));
    KeyedUpdate(a, n, node[q]);
    KeyedUpdate(a[n := node[q]], q, Node(Live(k), Nil, NIL));
  }
}
