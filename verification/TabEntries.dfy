/** The entries of a table, in the order in which a resize inserts them again, and how many of
    them belong into an array of a given size (ltable.c:247-324). */
module TabEntries {
  import opened TabNodes

  datatype Entry = Entry(k: Key, v: Value)

  /** The key has a place in an array of `n' slots. */
  predicate InArray(k: Key, n: int) { k.Int? && 1 <= k.n <= n }

  predicate Storable(k: Key) { !k.NilKey? && !k.NaN? }

  /** The keys of the hash part, beside an array of `n' slots. */
  predicate KeysOk(node: Nodes, n: nat) {
    forall i :: 0 <= i < |node| && node[i].key.Live? ==> Storable(node[i].key.k) && !InArray(node[i].key.k, n)
  }

  /** The value of a key; nil if it has none. */
  ghost function ValueAt(arr: seq<Value>, node: Nodes, k: Key): Value {
    if InArray(k, |arr|) then arr[k.n - 1] else Stored(node, k)
  }

  function ArrayEntries(arr: seq<Value>, n: nat): seq<Entry>
    requires n <= |arr|
  {
    if n == 0 then []
    else ArrayEntries(arr, n - 1) + (if arr[n - 1] == Nil then [] else [Entry(Int(n), arr[n - 1])])
  }

  /** From the last node down to node `i'. */
  function NodeEntries(node: Nodes, i: nat): seq<Entry>
    decreases |node| - i
  {
    if i >= |node| then []
    else NodeEntries(node, i + 1) + EntryOf(node[i])
  }

  function EntryOf(n: Node): seq<Entry> {
    if n.val != Nil && n.key.Live? then [Entry(n.key.k, n.val)] else []
  }

  function AllEntries(arr: seq<Value>, node: Nodes): seq<Entry> {
    ArrayEntries(arr, |arr|) + NodeEntries(node, 0)
  }

  /** What is stored for a key if the entries are inserted one after the other. */
  function Assoc(es: seq<Entry>, k: Key): Value {
    if es == [] then Nil
    else if es[|es| - 1].k == k then es[|es| - 1].v
    else Assoc(es[..|es| - 1], k)
  }

  lemma AssocLast(es: seq<Entry>, e: Entry, k: Key)
    ensures Assoc(es + [e], k) == if e.k == k then e.v else Assoc(es, k)
  {
    assert (es + [e])[..|es|] == es;
  }

  lemma {:induction false} ArrayAssoc(arr: seq<Value>, n: nat, k: Key)
    requires n <= |arr|
    ensures Assoc(ArrayEntries(arr, n), k) == if InArray(k, n) then arr[k.n - 1] else Nil
  {
    if n > 0 {
      ArrayAssoc(arr, n - 1, k);
      if arr[n - 1] != Nil {
        AssocLast(ArrayEntries(arr, n - 1), Entry(Int(n), arr[n - 1]), k);
      } else {
        assert ArrayEntries(arr, n - 1) + [] == ArrayEntries(arr, n - 1);
      }
    }
  }

  /** The nodes from `i' on hold a value for the key. */
  ghost predicate HeldFrom(node: Nodes, i: nat, k: Key) {
    exists j :: i <= j < |node| && node[j].key == Live(k) && node[j].val != Nil
  }

  lemma {:induction false} NodeAssoc(es: seq<Entry>, node: Nodes, i: nat, k: Key)
    requires Distinct(node) && i <= |node|
    ensures HeldFrom(node, i, k) ==> Assoc(es + NodeEntries(node, i), k) == Stored(node, k)
    ensures !HeldFrom(node, i, k) ==> Assoc(es + NodeEntries(node, i), k) == Assoc(es, k)
    decreases |node| - i
  {
    if i >= |node| {
      assert es + [] == es;
    } else {
      NodeAssoc(es, node, i + 1, k);
      var rest := es + NodeEntries(node, i + 1);
      assert es + NodeEntries(node, i) == rest + EntryOf(node[i]);
      if EntryOf(node[i]) != [] {
        AssocLast(rest, Entry(node[i].key.k, node[i].val), k);
        StoredIs(node, i);
        HeldStep(node, i, k);
      } else {
        assert rest + [] == rest;
        HeldStep(node, i, k);
      }
    }
  }

  lemma HeldStep(node: Nodes, i: nat, k: Key)
    requires i < |node|
    ensures HeldFrom(node, i, k) <==> HeldFrom(node, i + 1, k) || (node[i].key == Live(k) && node[i].val != Nil)
  {
  }

  /** All entries together give what the table holds. */
  lemma AllAssoc(arr: seq<Value>, node: Nodes, k: Key)
    requires Distinct(node)
    requires forall i :: 0 <= i < |node| && node[i].key.Live? ==> !InArray(node[i].key.k, |arr|)
    ensures Assoc(AllEntries(arr, node), k) == if InArray(k, |arr|) then arr[k.n - 1] else Stored(node, k)
  {
    ArrayAssoc(arr, |arr|, k);
    NodeAssoc(ArrayEntries(arr, |arr|), node, 0, k);
    if HeldFrom(node, 0, k) {
    } else if i :| 0 <= i < |node| && node[i].key == Live(k) {
      StoredIs(node, i);
    }
  }

  // ---- Counting -------------------------------------------------------------------------------

  /** Entries that belong into an array of `m' slots. */
  function CountIn(es: seq<Entry>, m: int): (c: nat)
    ensures c <= |es|
  {
    if es == [] then 0
    else CountIn(es[..|es| - 1], m) + if InArray(es[|es| - 1].k, m) then 1 else 0
  }

  /** Entries that belong into the hash part. */
  function CountOut(es: seq<Entry>, m: int): nat { |es| - CountIn(es, m) }

  lemma CountLast(es: seq<Entry>, e: Entry, m: int)
    ensures CountIn(es + [e], m) == CountIn(es, m) + if InArray(e.k, m) then 1 else 0
  {
    assert (es + [e])[..|es|] == es;
  }

  lemma {:induction false} CountConcat(es: seq<Entry>, fs: seq<Entry>, m: int)
    ensures CountIn(es + fs, m) == CountIn(es, m) + CountIn(fs, m)
    decreases |fs|
  {
    if fs == [] {
      assert es + [] == es;
    } else {
      var init, last := fs[..|fs| - 1], fs[|fs| - 1];
      CountConcat(es, init, m);
      CountLast(es + init, last, m);
      assert es + fs == es + init + [last];
    }
  }

  lemma CountNone(es: seq<Entry>)
    ensures CountIn(es, 0) == 0
  {
    if es != [] { CountNone(es[..|es| - 1]); }
  }

  lemma {:induction false} CountGrows(es: seq<Entry>, m: int, m2: int)
    requires m <= m2
    ensures CountIn(es, m) <= CountIn(es, m2)
    decreases |es|
  {
    if es != [] { CountGrows(es[..|es| - 1], m, m2); }
  }

  /** What is inserted first is a part of it all. */
  lemma {:induction false} ArrayPart(arr: seq<Value>, n: nat, n2: nat)
    requires n <= n2 <= |arr|
    ensures |ArrayEntries(arr, n)| <= |ArrayEntries(arr, n2)|
    ensures ArrayEntries(arr, n2)[..|ArrayEntries(arr, n)|] == ArrayEntries(arr, n)
    decreases n2
  {
    if n < n2 { ArrayPart(arr, n, n2 - 1); }
  }

  lemma {:induction false} NodePart(node: Nodes, i: nat, j: nat)
    requires j <= i <= |node|
    ensures |NodeEntries(node, i)| <= |NodeEntries(node, j)|
    ensures NodeEntries(node, j)[..|NodeEntries(node, i)|] == NodeEntries(node, i)
    decreases i - j
  {
    if j < i { NodePart(node, i, j + 1); }
  }

  lemma PartOut(es: seq<Entry>, all: seq<Entry>, m: int)
    requires |es| <= |all| && all[..|es|] == es
    ensures CountOut(es, m) <= CountOut(all, m)
  {
    CountConcat(es, all[|es|..], m);
    assert es + all[|es|..] == all;
  }
}
