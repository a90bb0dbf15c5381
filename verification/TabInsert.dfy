/** Inserting a key into the hash part: the three cases of newkey (ltable.c:399-429). Each keeps
    the invariant and what the table holds. */
module TabInsert {
  import opened TabNodes

  ghost predicate SameStored(node: Nodes, node2: Nodes) {
    forall k :: Stored(node2, k) == Stored(node, k)
  }

  // ---- The main position holds no value ------------------------------------------------------

  /** The key takes the node, whatever cleared or dead key was there, and leaves its link. */
  function InMain(node: Nodes, q: int, k: Key): Nodes
    requires 0 <= q < |node|
  {
    node[q := Node(Live(k), Nil, node[q].next)]
  }

  ghost predicate CanTake(h: Hasher, node: Nodes, q: int, k: Key) {
    HashOk(h, node) && !Has(node, k) && |node| > 0 && Main(h, k, |node|) == q && node[q].val == Nil
  }

  lemma InMainOk(h: Hasher, node: Nodes, q: int, k: Key)
    ensures CanTake(h, node, q, k) ==> HashOk(h, InMain(node, q, k))
  {
    if CanTake(h, node, q, k) {
      InMainLinks(h, node, q, k);
      InMainReached(h, node, q, k);
      InMainKeys(h, node, q, k);
      hide *;
      HashNow(h, InMain(node, q, k));
    }
  }

  lemma HashNow(h: Hasher, node: Nodes)
    requires Links(node) && Apart(node) && Blank(node) && AllEnd(node)
    requires Reached(h, node) && Distinct(node) && Brent(h, node)
    ensures HashOk(h, node)
  {
  }

  lemma InMainLinks(h: Hasher, node: Nodes, q: int, k: Key)
    requires CanTake(h, node, q, k)
    ensures Links(InMain(node, q, k)) && Apart(InMain(node, q, k)) && Blank(InMain(node, q, k))
  {
    hide Reached, Distinct, Brent, Has, AllEnd;
  }

  lemma InMainKeys(h: Hasher, node: Nodes, q: int, k: Key)
    requires CanTake(h, node, q, k)
    ensures Distinct(InMain(node, q, k)) && Brent(h, InMain(node, q, k))
  {
    hide Links, Reached, Blank, Apart, AllEnd;
  }

  lemma {:induction false} InMainLeads(node: Nodes, q: int, k: Key, b: int, i: int, s: nat, kk: Key)
    requires 0 <= q < |node| && Leads(node, b, i, s, kk)
    ensures Leads(InMain(node, q, k), b, i, s, kk)
    decreases s
  {
    if s > 0 { InMainLeads(node, q, k, node[b].next, i, s - 1, kk); }
  }

  lemma {:induction false} InMainEnds(node: Nodes, q: int, k: Key, b: int, s: nat)
    requires 0 <= q < |node| && Ends(node, b, s)
    ensures Ends(InMain(node, q, k), b, s)
    decreases s
  {
    if s > 0 { InMainEnds(node, q, k, node[b].next, s - 1); }
  }

  lemma InMainReached(h: Hasher, node: Nodes, q: int, k: Key)
    requires CanTake(h, node, q, k)
    ensures Reached(h, InMain(node, q, k)) && AllEnd(InMain(node, q, k))
  {
    hide Links, Distinct, Brent, Blank, Has, Leads, Ends, Apart;
    var node2 := InMain(node, q, k);
    forall i | 0 <= i < |node2| && node2[i].key.Live?
      ensures Found(node2, Main(h, node2[i].key.k, |node2|), i, node2[i].key.k)
    {
      if i == q {
        FoundHere(node2, q, k);
      } else {
        var s: nat :| Leads(node, Main(h, node[i].key.k, |node|), i, s, node[i].key.k);
        InMainLeads(node, q, k, Main(h, node[i].key.k, |node|), i, s, node[i].key.k);
      }
    }
    forall i | 0 <= i < |node2| ensures Finite(node2, i) {
      assert Finite(node, i);
      var s: nat :| Ends(node, i, s);
      InMainEnds(node, q, k, i, s);
    }
  }

  lemma FoundHere(node: Nodes, q: int, k: Key)
    ensures Found(node, q, q, k)
  {
    assert Leads(node, q, q, 0, k);
  }

  lemma InMainStored(h: Hasher, node: Nodes, q: int, k: Key)
    requires CanTake(h, node, q, k)
    ensures SameStored(node, InMain(node, q, k)) && Has(InMain(node, q, k), k)
  {
    InMainKeys(h, node, q, k);
    hide Links, Reached, Brent, Blank, Apart, AllEnd;
    var node2 := InMain(node, q, k);
    assert node2[q].key == Live(k);
    forall kk ensures Stored(node2, kk) == Stored(node, kk) {
      if i :| 0 <= i < |node| && node[i].key == Live(kk) {
        if i != q { assert node2[i] == node[i]; StoredIs(node2, i); }
        StoredIs(node, i);
        if i == q { assert forall j :: 0 <= j < |node2| && node2[j].key == Live(kk) ==> j == q; }
      } else if kk == k {
        StoredIs(node2, q);
      }
    }
  }

  // ---- The occupant is at home: the key goes to a free node behind it ------------------------------

  function Behind(node: Nodes, q: int, n: int, k: Key): Nodes
    requires 0 <= q < |node| && 0 <= n < |node|
  {
    node[n := Node(Live(k), Nil, node[q].next)][q := node[q].(next := n)]
  }

  ghost predicate CanChain(h: Hasher, node: Nodes, q: int, n: int, k: Key) {
    && HashOk(h, node) && !Has(node, k) && |node| > 0 && q == Main(h, k, |node|)
    && node[q].key.Live? && Main(h, node[q].key.k, |node|) == q
    && 0 <= n < |node| && node[n].key == NoKey
  }

  lemma ChainFacts(h: Hasher, node: Nodes, q: int, n: int, k: Key)
    requires CanChain(h, node, q, n, k)
    ensures n != q && node[n].val == Nil && node[n].next == NIL && 0 <= q < |node|
    ensures forall i :: 0 <= i < |node| ==> node[i].next != n
  {
    hide Reached, Distinct, Brent, Has, AllEnd, Apart;
  }

  lemma BehindOk(h: Hasher, node: Nodes, q: int, n: int, k: Key)
    ensures CanChain(h, node, q, n, k) ==> HashOk(h, Behind(node, q, n, k))
  {
    if CanChain(h, node, q, n, k) {
      BehindLinks(h, node, q, n, k);
      BehindReached(h, node, q, n, k);
      BehindEnd(h, node, q, n, k);
      BehindKeys(h, node, q, n, k);
      hide *;
      HashNow(h, Behind(node, q, n, k));
    }
  }

  lemma BehindLinks(h: Hasher, node: Nodes, q: int, n: int, k: Key)
    requires CanChain(h, node, q, n, k)
    ensures Links(Behind(node, q, n, k)) && Apart(Behind(node, q, n, k)) && Blank(Behind(node, q, n, k))
  {
    ChainFacts(h, node, q, n, k);
    hide Reached, Distinct, Brent, Has, AllEnd;
  }

  /** Chains that came through `q' now come through `n' as well. */
  lemma {:induction false} BehindLeads(node: Nodes, q: int, n: int, k: Key, b: int, i: int, s: nat, kk: Key) returns (r: nat)
    requires 0 <= q < |node| && 0 <= n < |node| && n != q && b != n && i != n
    requires forall j :: 0 <= j < |node| ==> node[j].next != n
    requires Leads(node, b, i, s, kk)
    ensures Leads(Behind(node, q, n, k), b, i, r, kk)
    decreases s
  {
    r := 0;
    if s > 0 {
      r := BehindLeads(node, q, n, k, node[b].next, i, s - 1, kk);
      if b == q {
        assert Leads(Behind(node, q, n, k), n, i, r + 1, kk);
        r := r + 2;
      } else {
        r := r + 1;
      }
    }
  }

  lemma {:induction false} BehindEnds(node: Nodes, q: int, n: int, k: Key, b: int, s: nat) returns (r: nat)
    requires 0 <= q < |node| && 0 <= n < |node| && n != q && b != n
    requires forall j :: 0 <= j < |node| ==> node[j].next != n
    requires Ends(node, b, s)
    ensures Ends(Behind(node, q, n, k), b, r)
    decreases s
  {
    r := 0;
    if s > 0 {
      r := BehindEnds(node, q, n, k, node[b].next, s - 1);
      if b == q {
        assert Ends(Behind(node, q, n, k), n, r + 1);
        r := r + 2;
      } else {
        r := r + 1;
      }
    }
  }

  lemma MainKeyed(h: Hasher, node: Nodes, i: int)
    requires HashOk(h, node) && 0 <= i < |node| && node[i].key.Live?
    ensures var q := Main(h, node[i].key.k, |node|); q < |node| && node[q].key != NoKey
  {
    var q := Main(h, node[i].key.k, |node|);
    hide Apart, AllEnd, Distinct, Leads, Reached, Links, Blank;
    if q != i { assert Home(h, node, q); }
  }

  lemma BehindReached(h: Hasher, node: Nodes, q: int, n: int, k: Key)
    requires CanChain(h, node, q, n, k)
    ensures Reached(h, Behind(node, q, n, k))
  {
    ChainFacts(h, node, q, n, k);
    var node2 := Behind(node, q, n, k);
    forall i | 0 <= i < |node2| && node2[i].key.Live?
      ensures Found(node2, Main(h, node2[i].key.k, |node2|), i, node2[i].key.k)
    {
      if i == n {
        BehindFound(node, q, n, k);
      } else {
        var kx := node[i].key.k;
        assert node2[i].key == Live(kx);
        MainKeyed(h, node, i);
        hide HashOk, Leads, Behind, Has;
        assert Found(node, Main(h, kx, |node|), i, kx);
        var s: nat :| Leads(node, Main(h, kx, |node|), i, s, kx);
        var r := BehindLeads(node, q, n, k, Main(h, kx, |node|), i, s, kx);
      }
    }
  }

  lemma BehindFound(node: Nodes, q: int, n: int, k: Key)
    requires 0 <= q < |node| && 0 <= n < |node| && n != q && node[q].key.Live?
    ensures Found(Behind(node, q, n, k), q, n, k)
  {
    assert Leads(Behind(node, q, n, k), n, n, 0, k);
    assert Leads(Behind(node, q, n, k), q, n, 1, k);
  }

  lemma BehindEnd(h: Hasher, node: Nodes, q: int, n: int, k: Key)
    requires CanChain(h, node, q, n, k)
    ensures AllEnd(Behind(node, q, n, k))
  {
    ChainFacts(h, node, q, n, k);
    var node2 := Behind(node, q, n, k);
    assert AllEnd(node);
    hide HashOk, Has, AllEnd;
    forall i | 0 <= i < |node2| ensures Finite(node2, i) {
      if i == n { EndsNew(node, q, n, k); } else { EndsOld(node, q, n, k, i); }
    }
  }

  lemma EndsOld(node: Nodes, q: int, n: int, k: Key, i: int)
    requires 0 <= q < |node| && 0 <= n < |node| && n != q && i != n && 0 <= i < |node| && AllEnd(node)
    requires forall j :: 0 <= j < |node| ==> node[j].next != n
    ensures Finite(Behind(node, q, n, k), i)
  {
    hide Ends, Behind;
    assert Finite(node, i);
    var s: nat :| Ends(node, i, s);
    var r := BehindEnds(node, q, n, k, i, s);
  }

  lemma EndsNew(node: Nodes, q: int, n: int, k: Key)
    requires 0 <= q < |node| && 0 <= n < |node| && n != q && AllEnd(node)
    requires forall j :: 0 <= j < |node| ==> node[j].next != n
    ensures Finite(Behind(node, q, n, k), n)
  {
    assert Finite(node, q);
    var s: nat :| Ends(node, q, s);
    var r := BehindEnds(node, q, n, k, node[q].next, s - 1);
    assert Ends(Behind(node, q, n, k), n, r + 1);
  }

  lemma BehindKeys(h: Hasher, node: Nodes, q: int, n: int, k: Key)
    requires CanChain(h, node, q, n, k)
    ensures Distinct(Behind(node, q, n, k)) && Brent(h, Behind(node, q, n, k))
  {
    ChainFacts(h, node, q, n, k);
    hide Links, Reached, Blank, Apart, AllEnd;
  }

  lemma BehindStored(h: Hasher, node: Nodes, q: int, n: int, k: Key)
    requires CanChain(h, node, q, n, k)
    ensures SameStored(node, Behind(node, q, n, k)) && Has(Behind(node, q, n, k), k)
  {
    BehindKeys(h, node, q, n, k);
    ChainFacts(h, node, q, n, k);
    var node2 := Behind(node, q, n, k);
    hide Links, Reached, Brent, Blank, Apart, AllEnd;
    assert node2[n].key == Live(k);
    forall kk ensures Stored(node2, kk) == Stored(node, kk) {
      if i :| 0 <= i < |node| && node[i].key == Live(kk) {
        assert node2[i].key == node[i].key && node2[i].val == node[i].val;
        StoredIs(node2, i);
        StoredIs(node, i);
      } else if kk == k {
        StoredIs(node2, n);
      }
    }
  }

  // ---- The occupant belongs elsewhere: it moves to a free node ----------------------------------------

  /** `p' linked to the occupant and now links to the free node. */
  function Moved(node: Nodes, p: int, q: int, n: int, k: Key): Nodes
    requires 0 <= p < |node| && 0 <= q < |node| && 0 <= n < |node|
  {
    node[p := node[p].(next := n)][n := node[q]][q := Node(Live(k), Nil, NIL)]
  }

  ghost predicate CanMove(h: Hasher, node: Nodes, p: int, q: int, n: int, k: Key) {
    && HashOk(h, node) && !Has(node, k) && |node| > 0 && q == Main(h, k, |node|)
    && node[q].key.Live? && Main(h, node[q].key.k, |node|) != q
    && 0 <= p < |node| && node[p].next == q && 0 <= n < |node| && node[n].key == NoKey
  }

  function Renamed(q: int, n: int, i: int): int { if i == q then n else i }

  lemma MoveFacts(h: Hasher, node: Nodes, p: int, q: int, n: int, k: Key)
    requires CanMove(h, node, p, q, n, k)
    ensures n != q && p != q && p != n && 0 <= q < |node| && node[n].val == Nil && node[n].next == NIL && node[q].next != q
    ensures forall i :: 0 <= i < |node| ==> node[i].next != n && (node[i].next == q ==> i == p)
  {
    hide Reached, Distinct, Brent, Has;
    if node[q].next == q {
      assert Finite(node, q);
      var s: nat :| Ends(node, q, s);
      NoLoop(node, q, s);
    }
  }

  lemma {:induction false} NoLoop(node: Nodes, q: int, s: nat)
    requires 0 <= q < |node| && node[q].next == q
    ensures !Ends(node, q, s)
    decreases s
  {
    if s > 0 { NoLoop(node, q, s - 1); }
  }

  /** The new nodes' links are the old ones, with the free node in place of the occupant's. */
  lemma {:induction false} MovedLeads(node: Nodes, p: int, q: int, n: int, k: Key, b: int, i: int, s: nat, kk: Key)
    requires 0 <= p < |node| && 0 <= q < |node| && 0 <= n < |node| && n != q && p != q && p != n && node[p].next == q
    requires forall j :: 0 <= j < |node| ==> node[j].next != n && (node[j].next == q ==> j == p)
    requires b != n && Leads(node, b, i, s, kk)
    ensures Leads(Moved(node, p, q, n, k), Renamed(q, n, b), Renamed(q, n, i), s, kk)
    decreases s
  {
    if s > 0 { MovedLeads(node, p, q, n, k, node[b].next, i, s - 1, kk); }
  }

  lemma {:induction false} MovedEnds(node: Nodes, p: int, q: int, n: int, k: Key, b: int, s: nat)
    requires 0 <= p < |node| && 0 <= q < |node| && 0 <= n < |node| && n != q && p != q && p != n && node[p].next == q
    requires forall j :: 0 <= j < |node| ==> node[j].next != n && (node[j].next == q ==> j == p)
    requires b != n && Ends(node, b, s)
    ensures Ends(Moved(node, p, q, n, k), Renamed(q, n, b), s)
    decreases s
  {
    if s > 0 { MovedEnds(node, p, q, n, k, node[b].next, s - 1); }
  }

  lemma MovedOk(h: Hasher, node: Nodes, p: int, q: int, n: int, k: Key)
    ensures CanMove(h, node, p, q, n, k) ==> HashOk(h, Moved(node, p, q, n, k))
  {
    if CanMove(h, node, p, q, n, k) {
      MovedLinks(h, node, p, q, n, k);
      MovedReached(h, node, p, q, n, k);
      MovedEnd(h, node, p, q, n, k);
      MovedKeys(h, node, p, q, n, k);
      hide *;
      HashNow(h, Moved(node, p, q, n, k));
    }
  }

  function Source(q: int, n: int, i: int): int { if i == n then q else i }

  predicate MovedFrom(node: Nodes, node2: Nodes, q: int, n: int, k: Key, i: int)
    requires 0 <= i < |node| == |node2| && 0 <= Source(q, n, i) < |node|
  {
    if i == q then node2[i] == Node(Live(k), Nil, NIL)
    else
      var s := node[Source(q, n, i)];
      node2[i] == s.(next := Renamed(q, n, s.next))
  }

  lemma MovedAt(node: Nodes, p: int, q: int, n: int, k: Key, i: int)
    requires 0 <= p < |node| && 0 <= q < |node| && 0 <= n < |node| && n != q && p != q && p != n && node[p].next == q
    requires forall j :: 0 <= j < |node| ==> node[j].next != n && (node[j].next == q ==> j == p)
    requires 0 <= i < |node|
    ensures MovedFrom(node, Moved(node, p, q, n, k), q, n, k, i)
  {
  }

  lemma MovedLinks(h: Hasher, node: Nodes, p: int, q: int, n: int, k: Key)
    requires CanMove(h, node, p, q, n, k)
    ensures Links(Moved(node, p, q, n, k)) && Apart(Moved(node, p, q, n, k)) && Blank(Moved(node, p, q, n, k))
  {
    MoveFacts(h, node, p, q, n, k);
    var node2 := Moved(node, p, q, n, k);
    forall i | 0 <= i < |node| ensures MovedFrom(node, node2, q, n, k, i) { MovedAt(node, p, q, n, k, i); }
    hide Reached, Distinct, Brent, Has, AllEnd, Moved;
    forall i, j | 0 <= i < j < |node2| && node2[i].next != NIL ensures node2[i].next != node2[j].next {
      assert MovedFrom(node, node2, q, n, k, i) && MovedFrom(node, node2, q, n, k, j);
    }
    forall i | 0 <= i < |node2|
      ensures node2[i].next == NIL || (0 <= node2[i].next < |node2| && node2[node2[i].next].key != NoKey)
    {
      assert MovedFrom(node, node2, q, n, k, i);
      if node2[i].next != NIL { assert MovedFrom(node, node2, q, n, k, node2[i].next); }
    }
    forall i | 0 <= i < |node2| ensures BlankAt(node2[i]) { assert MovedFrom(node, node2, q, n, k, i) && BlankAt(node[Source(q, n, i)]); }
  }

  /** No key has its main position at `q'. */
  lemma NoneAtHome(h: Hasher, node: Nodes, p: int, q: int, n: int, k: Key, i: int)
    requires CanMove(h, node, p, q, n, k) && 0 <= i < |node| && node[i].key.Live?
    ensures Main(h, node[i].key.k, |node|) != q
  {
    hide Reached, Distinct, Has, Links, Apart, Blank, AllEnd;
  }

  lemma MovedReached(h: Hasher, node: Nodes, p: int, q: int, n: int, k: Key)
    requires CanMove(h, node, p, q, n, k)
    ensures Reached(h, Moved(node, p, q, n, k))
  {
    MoveFacts(h, node, p, q, n, k);
    var node2 := Moved(node, p, q, n, k);
    forall i | 0 <= i < |node2| && node2[i].key.Live?
      ensures Found(node2, Main(h, node2[i].key.k, |node2|), i, node2[i].key.k)
    {
      if i == q {
        FoundHere(node2, q, k);
      } else {
        var j := if i == n then q else i;
        assert node2[i].key == node[j].key;
        MovedFound(h, node, p, q, n, k, j);
      }
    }
  }

  lemma MovedFound(h: Hasher, node: Nodes, p: int, q: int, n: int, k: Key, i: int)
    requires CanMove(h, node, p, q, n, k) && 0 <= i < |node| && node[i].key.Live?
    ensures Found(Moved(node, p, q, n, k), Main(h, node[i].key.k, |node|), Renamed(q, n, i), node[i].key.k)
  {
    MoveFacts(h, node, p, q, n, k);
    NoneAtHome(h, node, p, q, n, k, i);
    MainKeyed(h, node, i);
    var kx := node[i].key.k;
    assert Found(node, Main(h, kx, |node|), i, kx);
    hide HashOk, Leads, Moved, Has;
    var s: nat :| Leads(node, Main(h, kx, |node|), i, s, kx);
    MovedLeads(node, p, q, n, k, Main(h, kx, |node|), i, s, kx);
  }

  lemma MovedEnd(h: Hasher, node: Nodes, p: int, q: int, n: int, k: Key)
    requires CanMove(h, node, p, q, n, k)
    ensures AllEnd(Moved(node, p, q, n, k))
  {
    MoveFacts(h, node, p, q, n, k);
    assert AllEnd(node);
    hide HashOk, Has;
    var node2 := Moved(node, p, q, n, k);
    forall i | 0 <= i < |node2| ensures Finite(node2, i) {
      if i == q {
        assert Ends(node2, NIL, 0);
        assert Ends(node2, q, 1);
      } else {
        var j := if i == n then q else i;
        assert Finite(node, j);
        hide Moved, Ends;
        var s: nat :| Ends(node, j, s);
        MovedEnds(node, p, q, n, k, j, s);
      }
    }
  }

  lemma MovedDistinct(h: Hasher, node: Nodes, p: int, q: int, n: int, k: Key)
    requires CanMove(h, node, p, q, n, k)
    ensures Distinct(Moved(node, p, q, n, k))
  {
    MoveFacts(h, node, p, q, n, k);
    var node2 := Moved(node, p, q, n, k);
    forall i | 0 <= i < |node| ensures MovedFrom(node, node2, q, n, k, i) { MovedAt(node, p, q, n, k, i); }
    hide Links, Reached, Blank, Apart, AllEnd, Brent, Moved;
    forall i, j | 0 <= i < |node2| && 0 <= j < |node2| && node2[i].key.Live? && node2[i].key == node2[j].key ensures i == j {
      assert MovedFrom(node, node2, q, n, k, i) && MovedFrom(node, node2, q, n, k, j);
    }
  }

  lemma MovedBrent(h: Hasher, node: Nodes, p: int, q: int, n: int, k: Key)
    requires CanMove(h, node, p, q, n, k)
    ensures Brent(h, Moved(node, p, q, n, k))
  {
    MoveFacts(h, node, p, q, n, k);
    var node2 := Moved(node, p, q, n, k);
    forall i | 0 <= i < |node| ensures MovedFrom(node, node2, q, n, k, i) { MovedAt(node, p, q, n, k, i); }
    forall i | 0 <= i < |node2| && node2[i].key.Live? && Main(h, node2[i].key.k, |node2|) != i
      ensures Home(h, node2, Main(h, node2[i].key.k, |node2|))
    {
      assert MovedFrom(node, node2, q, n, k, i);
      if i != q { MovedHome(h, node, node2, p, q, n, k, i); }
    }
  }

  lemma MovedHome(h: Hasher, node: Nodes, node2: Nodes, p: int, q: int, n: int, k: Key, i: int)
    requires CanMove(h, node, p, q, n, k) && |node2| == |node|
    requires forall i :: 0 <= i < |node| ==> MovedFrom(node, node2, q, n, k, i)
    requires 0 <= i < |node| && i != q && node2[i].key.Live? && Main(h, node2[i].key.k, |node|) != i
    ensures Home(h, node2, Main(h, node2[i].key.k, |node|))
  {
    var j := Source(q, n, i);
    assert node2[i].key == node[j].key by { assert MovedFrom(node, node2, q, n, k, i); }
    NoneAtHome(h, node, p, q, n, k, j);
    MainKeyed(h, node, j);
    hide Links, Reached, Blank, Apart, AllEnd, Distinct, Has;
    var m := Main(h, node[j].key.k, |node|);
    assert MovedFrom(node, node2, q, n, k, m);
  }

  lemma MovedKeys(h: Hasher, node: Nodes, p: int, q: int, n: int, k: Key)
    requires CanMove(h, node, p, q, n, k)
    ensures Distinct(Moved(node, p, q, n, k)) && Brent(h, Moved(node, p, q, n, k))
  {
    MovedDistinct(h, node, p, q, n, k);
    MovedBrent(h, node, p, q, n, k);
  }

  lemma MovedStored(h: Hasher, node: Nodes, p: int, q: int, n: int, k: Key)
    requires CanMove(h, node, p, q, n, k)
    ensures SameStored(node, Moved(node, p, q, n, k)) && Has(Moved(node, p, q, n, k), k)
  {
    MovedKeys(h, node, p, q, n, k);
    MoveFacts(h, node, p, q, n, k);
    var node2 := Moved(node, p, q, n, k);
    hide Links, Reached, Brent, Blank, Apart, AllEnd;
    assert node2[q].key == Live(k);
    forall kk ensures Stored(node2, kk) == Stored(node, kk) {
      if i :| 0 <= i < |node| && node[i].key == Live(kk) {
        var j := Renamed(q, n, i);
        assert node2[j].key == node[i].key && node2[j].val == node[i].val;
        StoredIs(node2, j);
        StoredIs(node, i);
      } else if kk == k {
        StoredIs(node2, q);
      }
    }
  }
}
