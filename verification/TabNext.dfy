/** Traversal (ltable.c:137-179): luaH_next goes by the position of a key, and finds it again
    even when the entry has been cleared and its key has died. */
module TabNext {
  import opened Wrappers
  import opened TabNodes
  import opened TabEntries

  /** How findindex recognizes a key in a node. */
  predicate Matches(n: Node, k: Key) {
    n.key == Live(k) || (n.key == Dead(k) && k.Other? && k.collectable)
  }

  /** The chain leads from `b' to `i' in `s' links, past no node that matches. */
  predicate LeadsPast(node: Nodes, b: int, i: int, s: nat, k: Key)
    decreases s
  {
    if s == 0 then b == i
    else 0 <= b < |node| && !Matches(node[b], k) && LeadsPast(node, node[b].next, i, s - 1, k)
  }

  ghost predicate Onward(node: Nodes, b: int, i: int, k: Key) {
    exists s: nat :: LeadsPast(node, b, i, s, k)
  }

  /** Node `i' is the first in the key's chain that matches. */
  ghost predicate FirstMatch(h: Hasher, node: Nodes, k: Key, i: int) {
    0 <= i < |node| && Matches(node[i], k) && Onward(node, Main(h, k, |node|), i, k)
  }

  lemma {:induction false} PastOthers(node: Nodes, b: int, i: int, s: nat, k: Key) returns (r: nat)
    requires Distinct(node) && 0 <= i < |node| && node[i].key == Live(k) && Leads(node, b, i, s, k)
    ensures LeadsPast(node, b, i, r, k)
    decreases s
  {
    r := 0;
    if b != i {
      r := PastOthers(node, node[b].next, i, s - 1, k);
      r := r + 1;
    }
  }

  /** No dead key of the same object hides a live one. */
  lemma LiveFirst(h: Hasher, node: Nodes, i: int)
    requires HashOk(h, node) && 0 <= i < |node| && node[i].key.Live?
    ensures FirstMatch(h, node, node[i].key.k, i)
  {
    hide Links, Apart, Blank, Brent, AllEnd, Leads, LeadsPast, Distinct;
    var k := node[i].key.k;
    var s: nat :| Leads(node, Main(h, k, |node|), i, s, k);
    var r := PastOthers(node, Main(h, k, |node|), i, s, k);
  }

  /** Entries have been overwritten or cleared, and keys of cleared entries have died. */
  predicate Touched(node: Nodes, node2: Nodes) {
    |node2| == |node| && forall i :: 0 <= i < |node| ==>
      && node2[i].next == node[i].next
      && (node2[i].key == node[i].key
          || (node[i].key.Live? && node[i].key.k.Other? && node[i].key.k.collectable && node2[i].key == Dead(node[i].key.k)))
  }

  lemma {:induction false} PastTouched(node: Nodes, node2: Nodes, b: int, i: int, s: nat, k: Key)
    requires Touched(node, node2) && LeadsPast(node, b, i, s, k)
    ensures LeadsPast(node2, b, i, s, k)
    decreases s
  {
    if s > 0 { PastTouched(node, node2, node[b].next, i, s - 1, k); }
  }

  lemma TouchedFirst(h: Hasher, node: Nodes, node2: Nodes, k: Key, i: int)
    requires Touched(node, node2) && FirstMatch(h, node, k, i)
    ensures FirstMatch(h, node2, k, i)
  {
    hide LeadsPast;
    var s: nat :| LeadsPast(node, Main(h, k, |node|), i, s, k);
    PastTouched(node, node2, Main(h, k, |node|), i, s, k);
  }

  // ---- Positions -------------------------------------------------------------------------------

  /** The array part comes first, then the nodes. */
  function ValAt(arr: seq<Value>, node: Nodes, i: nat): Value {
    if i < |arr| then arr[i] else if i < |arr| + |node| then node[i - |arr|].val else Nil
  }

  function KeyAt(arr: seq<Value>, node: Nodes, i: nat): Key {
    if i < |arr| then Int(i + 1)
    else if i < |arr| + |node| && !node[i - |arr|].key.NoKey? then node[i - |arr|].key.k
    else NilKey
  }

  /** findindex: the position of the key; -1 before the first. */
  ghost predicate Indexed(h: Hasher, arr: seq<Value>, node: Nodes, k: Key, i: int) {
    if k.NilKey? then i == -1
    else if InArray(k, |arr|) then i == k.n - 1
    else i >= |arr| && FirstMatch(h, node, k, i - |arr|)
  }

  function NextFrom(arr: seq<Value>, node: Nodes, i: nat): (j: nat)
    requires i <= |arr| + |node|
    ensures i <= j <= |arr| + |node|
    ensures forall p :: i <= p < j ==> ValAt(arr, node, p) == Nil
    ensures j < |arr| + |node| ==> ValAt(arr, node, j) != Nil
    decreases |arr| + |node| - i
  {
    if i == |arr| + |node| || ValAt(arr, node, i) != Nil then i else NextFrom(arr, node, i + 1)
  }

  /** The entry that luaH_next gives at a position: the first from there on. */
  function EntryFrom(arr: seq<Value>, node: Nodes, i: nat): Option<Entry>
    requires i <= |arr| + |node|
  {
    var j := NextFrom(arr, node, i);
    if j < |arr| + |node| then Some(Entry(KeyAt(arr, node, j), ValAt(arr, node, j))) else None
  }

  lemma {:induction false} OnePlace(node: Nodes, b: int, i: int, s: nat, j: int, r: nat, k: Key)
    requires LeadsPast(node, b, i, s, k) && LeadsPast(node, b, j, r, k)
    requires 0 <= i < |node| && 0 <= j < |node| && Matches(node[i], k) && Matches(node[j], k)
    ensures i == j
    decreases s
  {
    if s > 0 && r > 0 { OnePlace(node, node[b].next, i, s - 1, j, r - 1, k); }
  }

  /** A key has one position at most. */
  lemma OneIndex(h: Hasher, arr: seq<Value>, node: Nodes, k: Key, i: int, j: int)
    requires Indexed(h, arr, node, k, i) && Indexed(h, arr, node, k, j)
    ensures i == j && -1 <= i < |arr| + |node|
  {
    if !k.NilKey? && !InArray(k, |arr|) {
      hide LeadsPast, Matches;
      var s: nat :| LeadsPast(node, Main(h, k, |node|), i - |arr|, s, k);
      var r: nat :| LeadsPast(node, Main(h, k, |node|), j - |arr|, r, k);
      OnePlace(node, Main(h, k, |node|), i - |arr|, s, j - |arr|, r, k);
    }
  }

  /** A table between two calls of luaH_next. */
  datatype Snap = Snap(arr: seq<Value>, node: Nodes)

  function Size(t: Snap): nat { |t.arr| + |t.node| }

  ghost predicate Sound(h: Hasher, t: Snap) { HashOk(h, t.node) && KeysOk(t.node, |t.arr|) }

  /** Between two calls the program may overwrite and clear entries, and keys of cleared entries
      may die. */
  predicate Meanwhile(t: Snap, t2: Snap) {
    |t2.arr| == |t.arr| && Touched(t.node, t2.node)
  }

  /** luaH_next finds the key and gives `r'. */
  ghost predicate Gives(h: Hasher, t: Snap, k: Key, r: Option<Entry>) {
    exists i :: Indexed(h, t.arr, t.node, k, i) && -1 <= i < Size(t) && r == EntryFrom(t.arr, t.node, i + 1)
  }

  ghost predicate GivesKey(h: Hasher, t: Snap, k: Key, nk: Key) {
    exists v :: Gives(h, t, k, Some(Entry(nk, v)))
  }

  /** The key is not `invalid' for luaH_next. */
  ghost predicate Finds(h: Hasher, t: Snap, k: Key) {
    exists i :: Indexed(h, t.arr, t.node, k, i)
  }

  lemma GivesOne(h: Hasher, t: Snap, k: Key, i: int, r: Option<Entry>)
    requires Indexed(h, t.arr, t.node, k, i) && Gives(h, t, k, r)
    ensures -1 <= i < Size(t) && r == EntryFrom(t.arr, t.node, i + 1)
  {
    hide Indexed;
    var j :| Indexed(h, t.arr, t.node, k, j) && -1 <= j < Size(t) && r == EntryFrom(t.arr, t.node, j + 1);
    OneIndex(h, t.arr, t.node, k, i, j);
  }

  /** The key that one call returned is found again by the next. */
  lemma FoundAgain(h: Hasher, t: Snap, t2: Snap, i: nat)
    requires Sound(h, t) && i < Size(t) && ValAt(t.arr, t.node, i) != Nil && Meanwhile(t, t2)
    ensures Indexed(h, t2.arr, t2.node, KeyAt(t.arr, t.node, i), i)
  {
    if i >= |t.arr| {
      var n := i - |t.arr|;
      assert t.node[n].key.Live? by { assert BlankAt(t.node[n]); }
      hide HashOk;
      LiveFirst(h, t.node, n);
      TouchedFirst(h, t.node, t2.node, t.node[n].key.k, n);
    }
  }

  lemma MeanwhileTrans(t: Snap, t2: Snap, t3: Snap)
    requires Meanwhile(t, t2) && Meanwhile(t2, t3)
    ensures Meanwhile(t, t3)
  {
  }

  // ---- Traversals --------------------------------------------------------------------------------

  /** A traversal under way: the call with key `ks[i]' is made in state `ts[i]', the first with
      nil, each other with the key that the call before it has returned. */
  ghost predicate Traverses(h: Hasher, ts: seq<Snap>, ks: seq<Key>) {
    && |ks| == |ts| > 0 && ks[0] == NilKey
    && (forall i :: 0 <= i < |ts| ==> Sound(h, ts[i]))
    && (forall i, j :: 0 <= i && j == i + 1 < |ts| ==> Meanwhile(ts[i], ts[j]))
    && (forall i, j :: 0 <= i && j == i + 1 < |ts| ==> GivesKey(h, ts[i], ks[i], ks[j]))
  }

  /** The positions of the keys. */
  ghost predicate Places(h: Hasher, ts: seq<Snap>, ks: seq<Key>, ps: seq<int>)
    requires |ks| == |ts|
  {
    && |ps| == |ts| > 0 && ps[0] == -1
    && (forall i :: 0 <= i < |ts| ==> Indexed(h, ts[i].arr, ts[i].node, ks[i], ps[i]) && -1 <= ps[i] < Size(ts[i]))
    && (forall i, j :: 0 <= i && j == i + 1 < |ts| ==> Follows(ts[i], ps[i], ps[j], ks[j]))
  }

  /** Position `q' is the first behind `p' that holds a value, and it holds key `k'. */
  predicate Follows(t: Snap, p: int, q: int, k: Key) {
    && -1 <= p < q < Size(t) && ValAt(t.arr, t.node, q) != Nil && k == KeyAt(t.arr, t.node, q)
    && forall x :: p < x < q ==> ValAt(t.arr, t.node, x) == Nil
  }

  /** From the key of position `p' luaH_next goes to the next position, which is the key's in the
      state of the next call. */
  lemma OneStep(h: Hasher, t: Snap, t2: Snap, k: Key, p: int, nk: Key, v: Value) returns (q: int)
    requires Sound(h, t) && Meanwhile(t, t2) && Indexed(h, t.arr, t.node, k, p) && Gives(h, t, k, Some(Entry(nk, v)))
    ensures Follows(t, p, q, nk) && Indexed(h, t2.arr, t2.node, nk, q) && q < Size(t2)
  {
    hide Sound, Indexed, Meanwhile;
    GivesOne(h, t, k, p, Some(Entry(nk, v)));
    q := NextFrom(t.arr, t.node, p + 1);
    FoundAgain(h, t, t2, q);
    SameSizes(t, t2);
  }

  lemma SameSizes(t: Snap, t2: Snap)
    requires Meanwhile(t, t2)
    ensures Size(t) == Size(t2) && |t.arr| == |t2.arr|
  {
  }

  lemma TraversesInit(h: Hasher, ts: seq<Snap>, ks: seq<Key>, n: nat)
    requires Traverses(h, ts, ks) && 0 < n <= |ts|
    ensures Traverses(h, ts[..n], ks[..n])
  {
    hide Sound, Meanwhile, Gives;
    var us, ls := ts[..n], ks[..n];
    forall i, j | 0 <= i && j == i + 1 < |us| ensures Meanwhile(us[i], us[j]) {
      assert Meanwhile(ts[i], ts[j]);
    }
    forall i, j | 0 <= i && j == i + 1 < |us| ensures GivesKey(h, us[i], ls[i], ls[j]) {
      assert GivesKey(h, ts[i], ks[i], ks[j]);
    }
  }

  lemma {:induction false} AllPlaces(h: Hasher, ts: seq<Snap>, ks: seq<Key>) returns (ps: seq<int>)
    requires Traverses(h, ts, ks)
    ensures Places(h, ts, ks, ps)
    decreases |ts|
  {
    hide Sound, Meanwhile, Gives, Follows, Indexed;
    if |ts| == 1 {
      ps := [-1];
      FirstIndex(h, ts[0]);
    } else {
      var n := |ts| - 1;
      TraversesInit(h, ts, ks, n);
      var qs := AllPlaces(h, ts[..n], ks[..n]);
      assert Indexed(h, ts[n - 1].arr, ts[n - 1].node, ks[n - 1], qs[n - 1]);
      assert Meanwhile(ts[n - 1], ts[n]) && Sound(h, ts[n - 1]);
      assert GivesKey(h, ts[n - 1], ks[n - 1], ks[n]);
      var v :| Gives(h, ts[n - 1], ks[n - 1], Some(Entry(ks[n], v)));
      var q := OneStep(h, ts[n - 1], ts[n], ks[n - 1], qs[n - 1], ks[n], v);
      FollowsUp(ts[n - 1], qs[n - 1], q, ks[n]);
      ps := qs + [q];
    }
  }

  lemma FirstIndex(h: Hasher, t: Snap)
    ensures Indexed(h, t.arr, t.node, NilKey, -1)
  {
  }

  lemma FollowsUp(t: Snap, p: int, q: int, k: Key)
    requires Follows(t, p, q, k)
    ensures p < q
  {
  }

  lemma {:induction false} Rises(h: Hasher, ts: seq<Snap>, ks: seq<Key>, ps: seq<int>, i: nat, j: nat)
    requires |ks| == |ts| && Places(h, ts, ks, ps) && i <= j < |ps|
    ensures ps[j] >= ps[i] + (j - i)
    decreases j
  {
    hide Indexed;
    if i < j {
      Rises(h, ts, ks, ps, i, j - 1);
      assert Follows(ts[j - 1], ps[j - 1], ps[j], ks[j]);
    }
  }

  lemma {:induction false} Since(h: Hasher, ts: seq<Snap>, ks: seq<Key>, i: nat, j: nat)
    requires Traverses(h, ts, ks) && i <= j < |ts|
    ensures Meanwhile(ts[i], ts[j])
    decreases j
  {
    hide Sound, Gives, Meanwhile;
    if i < j {
      Since(h, ts, ks, i, j - 1);
      MeanwhileTrans(ts[i], ts[j - 1], ts[j]);
    } else {
      MeanwhileRefl(ts[i]);
    }
  }

  lemma MeanwhileRefl(t: Snap)
    ensures Meanwhile(t, t)
  {
  }

  /** Different positions with a value, now and later, hold different keys. */
  lemma KeysDiffer(h: Hasher, t: Snap, t2: Snap, p: nat, q: nat)
    requires Sound(h, t) && Sound(h, t2) && Meanwhile(t, t2) && p < q < Size(t)
    requires ValAt(t.arr, t.node, p) != Nil && ValAt(t2.arr, t2.node, q) != Nil
    ensures KeyAt(t.arr, t.node, p) != KeyAt(t2.arr, t2.node, q)
  {
    hide Links, Apart, AllEnd, Reached, Brent;
    if q >= |t.arr| {
      assert BlankAt(t2.node[q - |t.arr|]);
      if p >= |t.arr| { assert BlankAt(t.node[p - |t.arr|]); }
    }
  }

  /** The position of a key that has a value, now and later. */
  lemma PresentAt(h: Hasher, t: Snap, k: Key) returns (p: nat)
    requires Sound(h, t) && ValueAt(t.arr, t.node, k) != Nil
    ensures p < Size(t) && k == KeyAt(t.arr, t.node, p) && ValAt(t.arr, t.node, p) != Nil
  {
    hide Links, Apart, AllEnd, Reached, Brent, Blank;
    if InArray(k, |t.arr|) {
      p := k.n - 1;
    } else {
      assert Has(t.node, k) by { if !Has(t.node, k) { StoredNone(t.node, k); } }
      var i :| 0 <= i < |t.node| && t.node[i].key == Live(k);
      StoredIs(t.node, i);
      p := |t.arr| + i;
    }
  }

  lemma PresentStill(h: Hasher, t: Snap, t2: Snap, k: Key, p: nat)
    requires Sound(h, t) && Sound(h, t2) && Meanwhile(t, t2) && ValueAt(t2.arr, t2.node, k) != Nil
    requires p < Size(t) && k == KeyAt(t.arr, t.node, p) && ValAt(t.arr, t.node, p) != Nil
    ensures p < Size(t2) && ValAt(t2.arr, t2.node, p) != Nil && k == KeyAt(t2.arr, t2.node, p)
  {
    SameSizes(t, t2);
    var q := PresentAt(h, t2, k);
    if q < p { KeysDifferBack(h, t, t2, q, p); } else if p < q { KeysDiffer(h, t, t2, p, q); }
  }

  lemma KeysDifferBack(h: Hasher, t: Snap, t2: Snap, q: nat, p: nat)
    requires Sound(h, t) && Sound(h, t2) && Meanwhile(t, t2) && q < p < Size(t)
    requires ValAt(t.arr, t.node, p) != Nil && ValAt(t2.arr, t2.node, q) != Nil
    ensures KeyAt(t.arr, t.node, p) != KeyAt(t2.arr, t2.node, q)
  {
    hide Links, Apart, AllEnd, Reached, Brent;
    if p >= |t.arr| {
      assert BlankAt(t.node[p - |t.arr|]);
      if q >= |t.arr| { assert BlankAt(t2.node[q - |t.arr|]); }
    }
  }

  /** The key has a value in every state of the traversal. */
  ghost predicate AlwaysThere(ts: seq<Snap>, k: Key) {
    forall i :: 0 <= i < |ts| ==> ValueAt(ts[i].arr, ts[i].node, k) != Nil
  }

  lemma NoneTwice(h: Hasher, ts: seq<Snap>, ks: seq<Key>, ps: seq<int>, i: nat, j: nat)
    requires Traverses(h, ts, ks) && Places(h, ts, ks, ps) && 0 < i < j < |ks|
    ensures ks[i] != ks[j]
  {
    hide Sound, Gives, Meanwhile, Indexed, KeyAt, ValAt;
    Since(h, ts, ks, i - 1, j - 1);
    Rises(h, ts, ks, ps, i, j);
    assert Follows(ts[i - 1], ps[i - 1], ps[i], ks[i]) && Follows(ts[j - 1], ps[j - 1], ps[j], ks[j]);
    SameSizes(ts[i - 1], ts[j - 1]);
    KeysDiffer(h, ts[i - 1], ts[j - 1], ps[i], ps[j]);
  }

  /** The position is passed at some call, which returns it. */
  lemma {:induction false} PassedAt(h: Hasher, ts: seq<Snap>, ks: seq<Key>, ps: seq<int>, p: nat, m: nat) returns (j: nat)
    requires |ks| == |ts| && Places(h, ts, ks, ps) && m < |ps| && p <= ps[m]
    requires forall i :: 0 <= i < |ts| ==> p < Size(ts[i]) && ValAt(ts[i].arr, ts[i].node, p) != Nil
    ensures 0 < j < |ks| && ps[j] == p && ks[j] == KeyAt(ts[j - 1].arr, ts[j - 1].node, p)
    decreases m
  {
    hide Indexed, KeyAt, ValAt;
    assert Follows(ts[m - 1], ps[m - 1], ps[m], ks[m]);
    if p <= ps[m - 1] { j := PassedAt(h, ts, ks, ps, p, m - 1); } else { j := m; }
  }

  lemma NoneLeft(h: Hasher, t: Snap, k: Key, p: int, q: nat)
    requires Indexed(h, t.arr, t.node, k, p) && Gives(h, t, k, None) && q < Size(t) && ValAt(t.arr, t.node, q) != Nil
    ensures q <= p
  {
    hide Indexed;
    GivesOne(h, t, k, p, None);
  }

  lemma AllMet(h: Hasher, ts: seq<Snap>, ks: seq<Key>, ps: seq<int>, k: Key)
    requires Traverses(h, ts, ks) && Places(h, ts, ks, ps) && AlwaysThere(ts, k)
    requires Gives(h, ts[|ts| - 1], ks[|ks| - 1], None)
    ensures k in ks
  {
    hide Sound, Gives, Meanwhile, Indexed, KeyAt, ValAt, ValueAt, Follows;
    var p := PresentAt(h, ts[0], k);
    forall i | 0 <= i < |ts|
      ensures p < Size(ts[i]) && ValAt(ts[i].arr, ts[i].node, p) != Nil && k == KeyAt(ts[i].arr, ts[i].node, p)
    {
      Since(h, ts, ks, 0, i);
      PresentStill(h, ts[0], ts[i], k, p);
    }
    NoneLeft(h, ts[|ts| - 1], ks[|ks| - 1], ps[|ps| - 1], p);
    var j := PassedAt(h, ts, ks, ps, p, |ps| - 1);
  }

  /** A traversal during which entries are overwritten and cleared: every call finds its key, no
      key is returned twice, so that there are no more calls than places and one, and when it has
      ended, every key that had a value all the time has been returned. */
  lemma TraversalComplete(h: Hasher, ts: seq<Snap>, ks: seq<Key>)
    ensures Traverses(h, ts, ks) ==>
      && |ks| == |ts| > 0
      && (forall i :: 0 <= i < |ts| ==> Finds(h, ts[i], ks[i]))
      && |ks| <= Size(ts[0]) + 1
      && (forall i, j :: 0 < i < j < |ks| ==> ks[i] != ks[j])
      && (Gives(h, ts[|ts| - 1], ks[|ks| - 1], None) ==> forall k :: AlwaysThere(ts, k) ==> k in ks)
  {
    hide Sound, Gives, Meanwhile, Indexed, Follows, Traverses, Places, AlwaysThere;
    if Traverses(h, ts, ks) {
      var ps := AllPlaces(h, ts, ks);
      PlacesFacts(h, ts, ks, ps);
      forall i, j | 0 < i < j < |ks| ensures ks[i] != ks[j] { NoneTwice(h, ts, ks, ps, i, j); }
      if Gives(h, ts[|ts| - 1], ks[|ks| - 1], None) {
        forall k | AlwaysThere(ts, k) ensures k in ks { AllMet(h, ts, ks, ps, k); }
      }
    }
  }

  lemma PlacesFacts(h: Hasher, ts: seq<Snap>, ks: seq<Key>, ps: seq<int>)
    requires Traverses(h, ts, ks) && Places(h, ts, ks, ps)
    ensures |ks| == |ts| > 0 && |ks| <= Size(ts[0]) + 1
    ensures forall i :: 0 <= i < |ts| ==> Finds(h, ts[i], ks[i])
  {
    hide Sound, Gives, Meanwhile, Indexed, Follows;
    var last := |ps| - 1;
    Since(h, ts, ks, 0, last);
    SameSizes(ts[0], ts[last]);
    Rises(h, ts, ks, ps, 0, last);
    assert ps[last] < Size(ts[last]);
    forall i | 0 <= i < |ts| ensures Finds(h, ts[i], ks[i]) {
      assert Indexed(h, ts[i].arr, ts[i].node, ks[i], ps[i]);
    }
  }
}
