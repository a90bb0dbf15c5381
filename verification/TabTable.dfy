/** Lua tables (ltable.c): an array part and a hash part that give, together, a finite map from
    keys to values; and the methods that find, insert and move its entries. */
module TabTable {
  import opened Wrappers
  import opened TabNodes
  import opened TabInsert
  import opened TabStore
  import opened TabEntries
  import opened TabSizes
  import opened TabNext

  /** Where the value of a key is kept. */
  datatype Slot = InArr(i: nat) | InNode(i: nat)

  datatype SetResult = At(slot: Slot) | IndexNil | IndexNaN | Overflow

  /** A node vector's size is a power of two. */
  ghost predicate SizeOk(n: nat) {
    exists lg :: 0 <= lg <= MAXBITS && n == Pow2(lg)
  }

  /** The whole invariant. The shared dummy node stands for an empty hash part. */
  ghost predicate TableOk(h: Hasher, arr: seq<Value>, node: Nodes, lastfree: int, dummy: bool) {
    && |node| > 0 && SizeOk(|node|) && HashOk(h, node) && KeysOk(node, |arr|) && |arr| <= MAXASIZE
    && if dummy then node == Fresh(1) && lastfree <= 0 else Taken(node, lastfree)
  }

  /** What an overflow leaves: all entries where they were, and perhaps a longer array, whose new
      slots hide the values of their indices in the hash part. */
  predicate Stuck(arr: seq<Value>, node: Nodes, arr2: seq<Value>, node2: Nodes) {
    node2 == node && arr <= arr2 && forall i :: |arr| <= i < |arr2| ==> arr2[i] == Nil
  }

  predicate SlotFor(arr: seq<Value>, node: Nodes, k: Key, s: Slot) {
    match s
    case InArr(i) => i < |arr| && k == Int(i + 1)
    case InNode(i) => i < |node| && node[i].key == Live(k) && !InArray(k, |arr|)
  }

  class Table {
    const h: Hasher
    var arr: seq<Value>
    var node: Nodes
    var lastfree: int
    var dummy: bool

    ghost predicate Valid()
      reads this
    {
      TableOk(h, arr, node, lastfree, dummy)
    }

    ghost function Value(k: Key): Value
      reads this
    {
      ValueAt(arr, node, k)
    }

    ghost predicate Room()
      reads this
    {
      !dummy && Keyed(node) < |node|
    }

    /** The key has a place already, perhaps without a value. */
    predicate Placed(k: Key)
      reads this
    {
      InArray(k, |arr|) || Has(node, k)
    }

    /** 1 if the key cannot be inserted before the table is rehashed: it has no place, its main
        position holds a value, and no node is free. */
    ghost function Need(k: Key): nat
      reads this
    {
      if Placed(k) || !Storable(k) || Room() || (!dummy && |node| > 0 && node[Main(h, k, |node|)].val == Nil) then 0 else 1
    }

    /** A rehash is needed, and would leave too many keys outside the array. */
    ghost predicate Overflowing(k: Key)
      reads this
    {
      Need(k) == 1 && Overflows(AllEntries(arr, node) + [Entry(k, Nil)])
    }

    /** luaH_new; after a `table overflow' there is no hash part. */
    constructor (hash: Hasher, narray: nat, nhash: nat)
      requires narray <= MAXASIZE
      ensures Valid() && h == hash && |arr| == narray
      ensures nhash == 0 || CeilLog2(nhash) <= MAXBITS <==> nhash <= |node|
      ensures dummy <==> nhash == 0 || nhash > |node|
      ensures forall k :: Value(k) == Nil
    {
      h := hash;
      arr := seq(narray, _ => Nil);
      node, dummy, lastfree := Fresh(1), true, 0;
      new;
      var ok := SetNodeVector(nhash);
      StartHolding(h, [], arr, node, lastfree, dummy, narray, if ok then nhash else 0);
    }

    // ---- Looking up ---------------------------------------------------------------------------

    /** The loop of luaH_get, luaH_getnum and luaH_getstr over a chain. */
    method FindNode(k: Key) returns (n: int)
      requires Valid() && Storable(k)
      ensures n == NIL ==> !Has(node, k)
      ensures n != NIL ==> 0 <= n < |node| && node[n].key == Live(k)
    {
      hide TableOk, Ends, Ahead, Main, Has;
      n := Main(h, k, |node|);
      ghost var s := SearchStart(h, arr, node, lastfree, dummy, k);
      while n != NIL
        invariant (n == NIL || 0 <= n < |node|) && Ends(node, n, s) && Ahead(node, n, k)
        decreases s
      {
        if node[n].key == Live(k) { return; }
        SearchStep(node, n, s, k);
        n := node[n].next;
        s := s - 1;
      }
      SearchEnd(node, k);
    }

    /** luaH_get */
    method Get(k: Key) returns (v: Value)
      requires Valid()
      ensures v == Value(k)
    {
      hide TableOk;
      if InArray(k, |arr|) {
        v := arr[k.n - 1];
      } else if !Storable(k) {
        NotStored(h, arr, node, lastfree, dummy, k);
        v := Nil;
      } else {
        var n := FindNode(k);
        if n == NIL {
          StoredNone(node, k);
          v := Nil;
        } else {
          FoundValue(h, arr, node, lastfree, dummy, n);
          v := node[n].val;
        }
      }
    }

    // ---- Inserting ------------------------------------------------------------------------------

    /** getfreepos; the dummy node is never free. */
    method GetFreePos() returns (n: int)
      requires if dummy then lastfree <= 0 else Taken(node, lastfree)
      modifies `lastfree
      ensures n == NIL ==> lastfree <= 0 && (dummy || Taken(node, 0))
      ensures n != NIL ==> !dummy && 0 <= n < |node| && lastfree == n && node[n].key == NoKey && Taken(node, n + 1)
    {
      while true
        invariant if dummy then lastfree <= 0 else Taken(node, lastfree)
        decreases lastfree
      {
        var more := lastfree > 0;
        lastfree := lastfree - 1;
        if !more { return NIL; }
        if node[lastfree].key == NoKey { return lastfree; }
      }
    }

    /** The walk of newkey to the node in front of the colliding one. */
    method FindPrevious(from: int, mp: int, ghost k: Key) returns (p: int)
      requires from != mp && Found(node, from, mp, k)
      ensures 0 <= p < |node| && node[p].next == mp
    {
      p := from;
      ghost var s: nat :| Leads(node, p, mp, s, k);
      while node[p].next != mp
        invariant p != mp && Leads(node, p, mp, s, k) && 0 <= p < |node|
        decreases s
      {
        p := node[p].next;
        s := s - 1;
      }
    }

    /** newkey */
    method NewKey(k: Key) returns (r: SetResult)
      requires Valid() && Storable(k) && !InArray(k, |arr|) && !Has(node, k)
      modifies this
      ensures r.At? || r.Overflow?
      ensures r.At? ==> Valid() && SlotFor(arr, node, k, r.slot) && forall kk :: Value(kk) == old(Value(kk))
      ensures old(Need(k)) == 0 ==> r.At? && arr == old(arr) && |node| == old(|node|) && dummy == old(dummy)
                                    && Keyed(node) <= old(Keyed(node)) + 1
      ensures r.Overflow? <==> old(Overflowing(k))
      ensures r.Overflow? ==> Stuck(old(arr), old(node), arr, node)
      decreases Need(k), 2
    {
      hide Overflows, Stuck, TableOk, ValueAt, Has, InMain, Behind, Moved, Keyed, Main, CanMove, CanChain, CanTake, Inserted;
      ghost var node0 := node;
      TableFacts(h, arr, node, lastfree, dummy, k);
      var mp := Main(h, k, |node|);
      if node[mp].val != Nil || dummy {
        var n := GetFreePos();
        if n == NIL {
          NoRoom(h, arr, node, old(lastfree), dummy, lastfree);
          assert Need(k) == 1;
          var ok := Rehash(k);
          if !ok { return Overflow; }
          r := Set(k);
          return;
        }
        FreeLess(node, n);
        Colliding(h, arr, node, old(lastfree), dummy, k, n);
        var othern := Main(h, node[mp].key.k, |node|);
        if othern != mp {
          var p := FindPrevious(othern, mp, node[mp].key.k);
          MoveKeeps(h, arr, node0, old(lastfree), dummy, p, mp, n, k);
          node := node[p := node[p].(next := n)];
          node := node[n := node[mp]];
          node := node[mp := node[mp].(next := NIL, val := Nil)];
          MovedIs(node0, p, mp, n, k);
        } else {
          ChainKeeps(h, arr, node0, old(lastfree), dummy, mp, n, k);
          node := node[n := node[n].(next := node[mp].next)];
          node := node[mp := node[mp].(next := n)];
          BehindIs(node0, mp, n, k);
          mp := n;
        }
      } else {
        TakeKeeps(h, arr, node0, lastfree, dummy, mp, k);
        InMainIs(node0, mp, k);
      }
      node := node[mp := node[mp].(key := Live(k))];
      InsertDone(h, arr, node0, node, lastfree, dummy, mp, k);
      r := At(InNode(mp));
    }

    /** luaH_set */
    method Set(k: Key) returns (r: SetResult)
      requires Valid()
      modifies this
      ensures r.IndexNil? <==> k.NilKey?
      ensures r.IndexNaN? <==> k.NaN?
      ensures !Storable(k) ==> Valid() && forall kk :: Value(kk) == old(Value(kk))
      ensures r.At? ==> Valid() && SlotFor(arr, node, k, r.slot) && forall kk :: Value(kk) == old(Value(kk))
      ensures Storable(k) && old(Need(k)) == 0 ==> r.At? && arr == old(arr) && |node| == old(|node|) && dummy == old(dummy)
      ensures Storable(k) && old(Need(k)) == 0 ==> Keyed(node) <= old(Keyed(node)) + if InArray(k, |arr|) then 0 else 1
      ensures r.Overflow? <==> old(Overflowing(k))
      ensures r.Overflow? ==> Stuck(old(arr), old(node), arr, node)
      ensures old(Placed(k)) ==> r.At? && arr == old(arr) && node == old(node)
      decreases Need(k), 3
    {
      hide TableOk, ValueAt, Keyed, Overflows, Stuck;
      if !Storable(k) { NotStorable(h, arr, node, lastfree, dummy, k); }
      if k.NilKey? { return IndexNil; }
      if InArray(k, |arr|) { return At(InArr(k.n - 1)); }
      if k.NaN? { return IndexNaN; }
      var n := FindNode(k);
      if n != NIL { return At(InNode(n)); }
      r := NewKey(k);
    }

    /** The assignment through the pointer that luaH_set returns. */
    method Write(k: Key, s: Slot, v: Value)
      requires Valid() && SlotFor(arr, node, k, s)
      modifies this
      ensures Valid() && forall kk :: Value(kk) == if kk == k then v else old(Value(kk))
      ensures |arr| == old(|arr|) && |node| == old(|node|) && dummy == old(dummy) && Keyed(node) == old(Keyed(node))
      ensures Touched(old(node), node)
    {
      hide TableOk, ValueAt, Keyed;
      match s
      case InArr(i) =>
        ghost var before := arr;
        WriteArray(h, arr, node, lastfree, dummy, i, v);
        arr := arr[i := v];
        forall kk ensures Value(kk) == if kk == k then v else old(Value(kk)) {
          assert k == Int(i + 1);
          assert old(Value(kk)) == ValueAt(before, node, kk);
          assert ValueAt(before[i := v], node, kk) == if kk == k then v else ValueAt(before, node, kk);
        }
      case InNode(i) =>
        WriteNode(h, arr, node, lastfree, dummy, i, v);
        node := node[i := node[i].(val := v)];
    }

    /** t[k] = v */
    method Store(k: Key, v: Value) returns (r: SetResult)
      requires Valid()
      modifies this
      ensures r.IndexNil? <==> k.NilKey?
      ensures r.IndexNaN? <==> k.NaN?
      ensures r.At? ==> Valid() && forall kk :: Value(kk) == if kk == k then v else old(Value(kk))
      ensures !Storable(k) ==> Valid() && forall kk :: Value(kk) == old(Value(kk))
      ensures r.Overflow? <==> old(Overflowing(k))
      ensures r.Overflow? ==> Stuck(old(arr), old(node), arr, node)
      ensures r.Overflow? ==> |old(AllEntries(arr, node))| >= MAXASIZE
      ensures old(Placed(k)) ==> r.At? && Meanwhile(Snap(old(arr), old(node)), Snap(arr, node))
    {
      hide TableOk, ValueAt, Stuck, Overflows, AllEntries;
      OverflowsOnly(AllEntries(arr, node) + [Entry(k, Nil)]);
      r := Set(k);
      if r.At? { Write(k, r.slot, v); }
    }

    /** The collector turns the key of an empty entry into a dead key (removeentry). */
    method KillEmpty(i: nat)
      requires Valid() && i < |node| && node[i].key.Live? && node[i].val == Nil
      requires node[i].key.k.Other? && node[i].key.k.collectable
      modifies `node
      ensures Valid() && (forall k :: Value(k) == old(Value(k))) && Touched(old(node), node)
    {
      hide TableOk, ValueAt;
      KillKeeps(h, arr, node, lastfree, dummy, i);
      node := node[i := node[i].(key := Dead(node[i].key.k))];
    }

    // ---- Traversal --------------------------------------------------------------------------------

    /** findindex; false if the key is not found, which is an error. */
    method FindIndex(k: Key) returns (i: int, found: bool)
      requires Valid()
      ensures found <==> Finds(h, Snap(arr, node), k)
      ensures found ==> Indexed(h, arr, node, k, i) && -1 <= i < |arr| + |node|
    {
      hide TableOk, LeadsPast;
      if k.NilKey? {
        FirstIndex(h, Snap(arr, node));
        return -1, true;
      }
      if InArray(k, |arr|) {
        assert Indexed(h, arr, node, k, k.n - 1);
        return k.n - 1, true;
      }
      var n := Main(h, k, |node|);
      ghost var s := SearchStart(h, arr, node, lastfree, dummy, k);
      PastNone(node, n, k);
      while n != NIL
        invariant (n == NIL || 0 <= n < |node|) && Ends(node, n, s) && Onward(node, Main(h, k, |node|), n, k)
        invariant forall j :: FirstMatch(h, node, k, j) ==> Onward(node, n, j, k)
        decreases s
      {
        if Matches(node[n], k) {
          assert Indexed(h, arr, node, k, n + |arr|);
          return n + |arr|, true;
        }
        ChainStep(node, n, s);
        MatchStep(h, node, n, k);
        PastMore(node, Main(h, k, |node|), n, k);
        n := node[n].next;
        s := s - 1;
      }
      MatchEnd(h, node, k);
      return 0, false;
    }

    /** luaH_next: the first entry behind the key's position, if there is one; or the error that
        the key is not found. */
    method Next(k: Key) returns (found: bool, more: bool, nk: Key, v: TabNodes.Value)
      requires Valid()
      ensures found <==> Finds(h, Snap(arr, node), k)
      ensures found ==> Gives(h, Snap(arr, node), k, if more then Some(Entry(nk, v)) else None)
      ensures found && more ==> v != Nil && Value(nk) == v
    {
      hide TableOk, Indexed, FirstMatch, ValueAt;
      var i;
      i, found := FindIndex(k);
      if !found { return false, false, NilKey, Nil; }
      var p := i + 1;
      while p < |arr| + |node| && ValAt(arr, node, p) == Nil
        invariant 0 <= p <= |arr| + |node| && NextFrom(arr, node, p) == NextFrom(arr, node, i + 1)
      {
        p := p + 1;
      }
      GivesNow(h, Snap(arr, node), k, i);
      if p == |arr| + |node| { return true, false, NilKey, Nil; }
      EntryAt(h, arr, node, lastfree, dummy, p);
      more, nk, v := true, KeyAt(arr, node, p), ValAt(arr, node, p);
    }

    // ---- Borders ----------------------------------------------------------------------------------

    /** n is zero or present, and n + 1 is absent. */
    ghost predicate Border(n: int)
      reads this
    {
      n >= 0 && (n == 0 || Value(Int(n)) != Nil) && Value(Int(n + 1)) == Nil
    }

    /** The binary search between a present index (or zero) and an absent one. */
    method Between(i0: nat, j0: nat) returns (i: nat)
      requires Valid() && i0 < j0 && (i0 == 0 || Value(Int(i0)) != Nil) && Value(Int(j0)) == Nil
      ensures Border(i)
    {
      hide TableOk, ValueAt;
      i := i0;
      var j := j0;
      while j - i > 1
        invariant i < j && (i == 0 || Value(Int(i)) != Nil) && Value(Int(j)) == Nil
        decreases j - i
      {
        var m := (i + j) / 2;
        var v := Get(Int(m));
        if v == Nil { j := m; } else { i := m; }
      }
    }

    /** unbound_search */
    method UnboundSearch(j0: nat) returns (i: nat)
      requires Valid() && (j0 == 0 || Value(Int(j0)) != Nil) && j0 < MAX_INT
      ensures Border(i)
    {
      hide TableOk, ValueAt;
      i := j0;
      var j := j0 + 1;
      var v := Get(Int(j));
      while v != Nil
        invariant i < j <= MAX_INT && (i == 0 || Value(Int(i)) != Nil) && v == Value(Int(j))
        decreases MAX_INT - j
      {
        i := j;
        j := j * 2;
        if j > MAX_INT {
          i := LinearSearch();
          return;
        }
        v := Get(Int(j));
      }
      i := Between(i, j);
    }

    /** The table was built for it: look at one index after the other. */
    method LinearSearch() returns (n: nat)
      requires Valid()
      ensures Border(n)
    {
      hide TableOk, ValueAt;
      var i := 1;
      var v := Get(Int(i));
      while v != Nil
        invariant i >= 1 && v == Value(Int(i)) && forall m :: 1 <= m < i ==> Value(Int(m)) != Nil
        invariant i - 1 <= |arr| + |node|
        decreases |arr| + |node| + 1 - i
      {
        PresentBound(h, arr, node, lastfree, dummy, i);
        i := i + 1;
        v := Get(Int(i));
      }
      n := i - 1;
    }

    /** luaH_getn */
    method Getn() returns (n: nat)
      requires Valid()
      ensures Border(n)
    {
      hide HashOk, Stored, Taken;
      var j := |arr|;
      if j > 0 && arr[j - 1] == Nil {
        n := Between(0, j);
      } else if dummy {
        FreshOk(h, 1);
        n := j;
      } else {
        n := UnboundSearch(j);
      }
    }

    // ---- Growing ----------------------------------------------------------------------------------

    /** setnodevector; false is the error `table overflow'. */
    method SetNodeVector(size: nat) returns (ok: bool)
      modifies `node, `lastfree, `dummy
      ensures ok <==> size == 0 || CeilLog2(size) <= MAXBITS
      ensures ok ==> dummy == (size == 0) && node == Fresh(if size == 0 then 1 else Pow2(CeilLog2(size)))
                     && lastfree == (if size == 0 then 0 else |node|)
      ensures !ok ==> node == old(node) && lastfree == old(lastfree) && dummy == old(dummy)
    {
      if size == 0 {
        node := Fresh(1);
        dummy, lastfree := true, 0;
      } else {
        var lsize := CeilLog2(size);
        if lsize > MAXBITS { return false; }
        node := Fresh(Pow2(lsize));
        dummy, lastfree := false, Pow2(lsize);
      }
      ok := true;
    }

    /** While a resize is under way: what was inserted again so far. */
    ghost predicate Holding(es: seq<Entry>, nasize: nat, nhsize: nat)
      reads this
    {
      && Valid() && |arr| == nasize && dummy == (nhsize == 0) && nhsize <= |node|
      && (forall k :: Value(k) == Assoc(es, k)) && Keyed(node) <= CountOut(es, nasize)
    }

    method Reinsert(k: Key, v: Value, ghost es: seq<Entry>, ghost nasize: nat, ghost nhsize: nat)
      requires Holding(es, nasize, nhsize) && Storable(k)
      requires CountOut(es + [Entry(k, v)], nasize) <= nhsize
      modifies this
      ensures Holding(es + [Entry(k, v)], nasize, nhsize)
      decreases 0, 4
    {
      hide TableOk, ValueAt, Keyed, Assoc, CountOut, Has;
      OutLast(es, Entry(k, v), nasize);
      var r := Set(k);
      Write(k, r.slot, v);
      forall kk ensures Assoc(es + [Entry(k, v)], kk) == if kk == k then v else Assoc(es, kk) {
        AssocLast(es, Entry(k, v), kk);
      }
    }

    /** resize, for an array part and a hash part that have room for all entries. */
    method Resize(nasize: nat, nhsize: nat) returns (ok: bool)
      requires Valid() && nasize <= MAXASIZE && CountOut(AllEntries(arr, node), nasize) <= nhsize
      modifies this
      ensures ok <==> nhsize == 0 || CeilLog2(nhsize) <= MAXBITS
      ensures ok ==> Valid() && |arr| == nasize && forall k :: Value(k) == old(Value(k))
      ensures ok ==> nhsize <= |node| && dummy == (nhsize == 0) && Keyed(node) <= CountOut(old(AllEntries(arr, node)), nasize)
      ensures !ok ==> Stuck(old(arr), old(node), arr, node)
      decreases 1, 0
    {
      hide TableOk, ValueAt, Keyed, Assoc, CountOut, Has, AllEntries, ArrayEntries, NodeEntries;
      var oldarr, nold := arr, node;
      OldFacts(h, arr, node, lastfree, dummy);
      if nasize > |arr| { arr := arr + seq(nasize - |arr|, _ => Nil); }
      ok := SetNodeVector(nhsize);
      if !ok { return; }
      ghost var es := ArrayEntries(oldarr, Least(nasize, |oldarr|));
      if nasize < |oldarr| {
        arr := arr[..nasize];
        StartHolding(h, oldarr, arr, node, lastfree, dummy, nasize, nhsize);
        for i := nasize to |oldarr|
          invariant es == ArrayEntries(oldarr, i) && Holding(es, nasize, nhsize)
        {
          NextArray(oldarr, nold, nasize, nhsize, i);
          if oldarr[i] != Nil {
            Reinsert(Int(i + 1), oldarr[i], es, nasize, nhsize);
          }
          es := ArrayEntries(oldarr, i + 1);
        }
      } else {
        StartHolding(h, oldarr, arr, node, lastfree, dummy, nasize, nhsize);
      }
      NodesStart(oldarr, nold);
      var i := |nold|;
      while i > 0
        invariant 0 <= i <= |nold| && es == ArrayEntries(oldarr, |oldarr|) + NodeEntries(nold, i) && Holding(es, nasize, nhsize)
      {
        i := i - 1;
        NextNode(oldarr, nold, nasize, nhsize, i);
        if nold[i].val != Nil {
          Reinsert(nold[i].key.k, nold[i].val, es, nasize, nhsize);
        }
        es := ArrayEntries(oldarr, |oldarr|) + NodeEntries(nold, i);
      }
      AllBack(oldarr, nold);
    }

    /** luaH_resizearray, to a larger array, or to a smaller one if the hash part has room. */
    method ResizeArray(nasize: nat)
      requires Valid() && nasize <= MAXASIZE
      requires |arr| <= nasize || CountOut(AllEntries(arr, node), nasize) <= if dummy then 0 else |node|
      modifies this
      ensures Valid() && |arr| == nasize && forall k :: Value(k) == old(Value(k))
    {
      hide TableOk, ValueAt, AllEntries;
      var nsize := if dummy then 0 else |node|;
      SameSize(h, arr, node, lastfree, dummy, nasize);
      var ok := Resize(nasize, nsize);
    }

    /** rehash: the best array size, and room for the extra key. */
    method Rehash(ek: Key) returns (ok: bool)
      requires Valid() && Storable(ek) && !InArray(ek, |arr|) && !Has(node, ek)
      modifies this
      ensures ok ==> Valid() && Need(ek) == 0 && forall k :: Value(k) == old(Value(k))
      ensures ok ==> Best(old(AllEntries(arr, node)) + [Entry(ek, Nil)], |arr|)
      ensures ok <==> !Overflows(old(AllEntries(arr, node)) + [Entry(ek, Nil)])
      ensures !ok ==> Stuck(old(arr), old(node), arr, node)
      decreases 1, 1
    {
      hide Overflows, Stuck, TableOk, ValueAt, Keyed, CountOut, Has, AllEntries, ArrayEntries, NodeEntries, Best, Counted, CountIn, DistinctKeys;
      ghost var all := AllEntries(arr, node);
      RehashFacts(h, arr, node, lastfree, dummy, ek);
      var nums := new int[MAXBITS + 1](_ => 0);
      var nasize := NumUseArray(arr, nums);
      var totaluse := nasize;
      var tu, au := NumUseHash(node, nums, ArrayEntries(arr, |arr|));
      nasize, totaluse := nasize + au, totaluse + tu;
      var c := CountInt(ek, nums, all, Nil);
      nasize, totaluse := nasize + c, totaluse + 1;
      var n, na := ComputeSizes(nums, nasize, all + [Entry(ek, Nil)]);
      HashSize(all, ek, n);
      OverflowsIs(all + [Entry(ek, Nil)], n);
      ok := Resize(n, totaluse - na);
    }
  }

  // ---- Searching ----------------------------------------------------------------------------------

  /** Wherever the key is, the chain from `n' leads there. */
  ghost predicate Ahead(node: Nodes, n: int, k: Key) {
    forall i :: 0 <= i < |node| && node[i].key == Live(k) ==> Found(node, n, i, k)
  }

  lemma SearchStart(h: Hasher, arr: seq<Value>, node: Nodes, lastfree: int, dummy: bool, k: Key) returns (s: nat)
    requires TableOk(h, arr, node, lastfree, dummy)
    ensures 0 <= Main(h, k, |node|) < |node| && Ends(node, Main(h, k, |node|), s) && Ahead(node, Main(h, k, |node|), k)
  {
    hide Ends, Found, Links, Apart, Blank, Brent;
    assert Finite(node, Main(h, k, |node|));
    s :| Ends(node, Main(h, k, |node|), s);
  }

  lemma SearchStep(node: Nodes, n: int, s: nat, k: Key)
    requires 0 <= n < |node| && Ends(node, n, s) && Ahead(node, n, k) && node[n].key != Live(k)
    ensures s > 0 && Ends(node, node[n].next, s - 1) && Ahead(node, node[n].next, k)
    ensures node[n].next == NIL || 0 <= node[n].next < |node|
  {
    forall i | 0 <= i < |node| && node[i].key == Live(k) ensures Found(node, node[n].next, i, k) {
      assert Found(node, n, i, k);
      var r: nat :| Leads(node, n, i, r, k);
      assert Leads(node, node[n].next, i, r - 1, k);
    }
  }

  lemma NilFound(node: Nodes, i: int, k: Key)
    requires i >= 0
    ensures !Found(node, NIL, i, k)
  {
    forall s: nat ensures !Leads(node, NIL, i, s, k) {}
  }

  lemma SearchEnd(node: Nodes, k: Key)
    requires Ahead(node, NIL, k)
    ensures !Has(node, k)
  {
    forall i | 0 <= i < |node| ensures !Found(node, NIL, i, k) { NilFound(node, i, k); }
    hide Found;
  }

  lemma NotStored(h: Hasher, arr: seq<Value>, node: Nodes, lastfree: int, dummy: bool, k: Key)
    requires TableOk(h, arr, node, lastfree, dummy) && !Storable(k)
    ensures ValueAt(arr, node, k) == Nil
  {
    hide HashOk, Taken;
    assert !Has(node, k);
    StoredNone(node, k);
  }

  lemma FoundValue(h: Hasher, arr: seq<Value>, node: Nodes, lastfree: int, dummy: bool, n: int)
    requires TableOk(h, arr, node, lastfree, dummy) && 0 <= n < |node| && node[n].key.Live?
    ensures ValueAt(arr, node, node[n].key.k) == node[n].val
  {
    hide Links, Apart, Blank, Brent, AllEnd, Reached, Taken;
    StoredIs(node, n);
  }

  // ---- Inserting ------------------------------------------------------------------------------------

  lemma TableFacts(h: Hasher, arr: seq<Value>, node: Nodes, lastfree: int, dummy: bool, k: Key)
    requires TableOk(h, arr, node, lastfree, dummy)
    ensures 0 <= Main(h, k, |node|) < |node| && (if dummy then lastfree <= 0 else Taken(node, lastfree))
  {
    hide HashOk, KeysOk, Taken;
  }

  lemma NoRoom(h: Hasher, arr: seq<Value>, node: Nodes, lastfree: int, dummy: bool, lastfree2: int)
    requires TableOk(h, arr, node, lastfree, dummy) && lastfree2 <= 0 && (dummy || Taken(node, 0))
    ensures TableOk(h, arr, node, lastfree2, dummy) && (dummy || Keyed(node) == |node|)
  {
    hide HashOk, KeysOk;
    if !dummy { AllKeyed(node); }
  }

  /** The occupant of the main position, and how to get to it. */
  lemma Colliding(h: Hasher, arr: seq<Value>, node: Nodes, lastfree: int, dummy: bool, k: Key, n: int)
    requires TableOk(h, arr, node, lastfree, dummy) && Main(h, k, |node|) < |node| && node[Main(h, k, |node|)].val != Nil
    ensures var mp := Main(h, k, |node|); node[mp].key.Live? && Found(node, Main(h, node[mp].key.k, |node|), mp, node[mp].key.k)
  {
    hide Links, Apart, Brent, AllEnd, Distinct, Taken, KeysOk, Found;
    assert BlankAt(node[Main(h, k, |node|)]);
  }

  /** A key has been put into a node; nothing else has changed for the table. */
  ghost predicate Inserted(h: Hasher, arr: seq<Value>, node: Nodes, node2: Nodes, lastfree: int, dummy: bool, i: int, k: Key) {
    && TableOk(h, arr, node2, lastfree, dummy) && SameStored(node, node2)
    && 0 <= i < |node2| == |node| && node2[i].key == Live(k) && Keyed(node2) <= Keyed(node) + 1
  }

  ghost predicate Inserts(h: Hasher, arr: seq<Value>, node: Nodes, lastfree: int, dummy: bool, k: Key) {
    TableOk(h, arr, node, lastfree, dummy) && !dummy && Storable(k) && !InArray(k, |arr|) && !Has(node, k)
  }

  lemma InsertedNow(h: Hasher, arr: seq<Value>, node: Nodes, node2: Nodes, lastfree: int, i: int, k: Key)
    requires KeysOk(node, |arr|) && |arr| <= MAXASIZE && SizeOk(|node|) && Storable(k) && !InArray(k, |arr|)
    requires |node2| == |node| > 0 && HashOk(h, node2) && Taken(node2, lastfree) && SameStored(node, node2)
    requires 0 <= i < |node2| && node2[i].key == Live(k) && Keyed(node2) <= Keyed(node) + 1
    requires forall j :: 0 <= j < |node2| && node2[j].key.Live? && j != i ==> exists l :: 0 <= l < |node| && node[l].key == node2[j].key
    ensures Inserted(h, arr, node, node2, lastfree, false, i, k)
  {
    hide HashOk, Taken, SameStored, Keyed;
  }

  lemma TableParts(h: Hasher, arr: seq<Value>, node: Nodes, lastfree: int, dummy: bool)
    requires TableOk(h, arr, node, lastfree, dummy)
    ensures KeysOk(node, |arr|) && |arr| <= MAXASIZE && |node| > 0 && SizeOk(|node|)
  {
  }

  lemma MovedRest(node: Nodes, p: int, q: int, n: int, k: Key)
    requires 0 <= p < |node| && 0 <= q < |node| && 0 <= n < |node| && p != q && n != q && n != p
    requires Taken(node, n + 1) && node[q].key != NoKey
    ensures Taken(Moved(node, p, q, n, k), n) && Moved(node, p, q, n, k)[q].key == Live(k)
    ensures forall j :: 0 <= j < |node| && Moved(node, p, q, n, k)[j].key.Live? && j != q ==>
      exists l :: 0 <= l < |node| && node[l].key == Moved(node, p, q, n, k)[j].key
  {
    var node2 := Moved(node, p, q, n, k);
    forall j | 0 <= j < |node2| && node2[j].key.Live? && j != q
      ensures exists l :: 0 <= l < |node| && node[l].key == node2[j].key
    {
      assert node[Source(q, n, j)].key == node2[j].key;
    }
  }

  lemma MoveKeeps(h: Hasher, arr: seq<Value>, node: Nodes, lastfree: int, dummy: bool, p: int, q: int, n: int, k: Key)
    requires Inserts(h, arr, node, lastfree, dummy, k) && q == Main(h, k, |node|) && 0 <= q < |node|
    requires node[q].key.Live? && Main(h, node[q].key.k, |node|) != q && 0 <= p < |node| && node[p].next == q
    requires 0 <= n < |node| && node[n].key == NoKey && Taken(node, n + 1)
    ensures p != q && n != q && n != p
    ensures Inserted(h, arr, node, Moved(node, p, q, n, k), n, dummy, q, k)
  {
    hide HashOk, Has, Keyed, SameStored, Inserted;
    assert CanMove(h, node, p, q, n, k);
    MoveFacts(h, node, p, q, n, k);
    MovedOk(h, node, p, q, n, k);
    MovedStored(h, node, p, q, n, k);
    KeyedMoved(node, p, q, n, k);
    hide CanMove, TableOk;
    MovedRest(node, p, q, n, k);
    TableParts(h, arr, node, lastfree, dummy);
    hide Moved;
    InsertedNow(h, arr, node, Moved(node, p, q, n, k), n, q, k);
  }

  lemma ChainKeeps(h: Hasher, arr: seq<Value>, node: Nodes, lastfree: int, dummy: bool, q: int, n: int, k: Key)
    requires Inserts(h, arr, node, lastfree, dummy, k) && q == Main(h, k, |node|) && 0 <= q < |node|
    requires node[q].key.Live? && Main(h, node[q].key.k, |node|) == q
    requires 0 <= n < |node| && node[n].key == NoKey && Taken(node, n + 1)
    ensures n != q && node[n].val == Nil
    ensures Inserted(h, arr, node, Behind(node, q, n, k), n, dummy, n, k)
  {
    assert CanChain(h, node, q, n, k);
    hide HashOk, Has, Keyed, SameStored;
    BehindOk(h, node, q, n, k);
    BehindStored(h, node, q, n, k);
    ChainFacts(h, node, q, n, k);
    KeyedBehind(node, q, n, k);
    var node2 := Behind(node, q, n, k);
    forall j | 0 <= j < |node2| && node2[j].key.Live? && j != n
      ensures exists l :: 0 <= l < |node| && node[l].key == node2[j].key
    {
      assert node[j].key == node2[j].key;
    }
    assert Taken(node2, n);
    InsertedNow(h, arr, node, node2, n, n, k);
  }

  lemma TakeKeeps(h: Hasher, arr: seq<Value>, node: Nodes, lastfree: int, dummy: bool, q: int, k: Key)
    requires Inserts(h, arr, node, lastfree, dummy, k) && q == Main(h, k, |node|) && 0 <= q < |node| && node[q].val == Nil
    ensures Inserted(h, arr, node, InMain(node, q, k), lastfree, dummy, q, k)
  {
    assert CanTake(h, node, q, k);
    hide HashOk, Has, Keyed, SameStored;
    InMainOk(h, node, q, k);
    InMainStored(h, node, q, k);
    KeyedInMain(node, q, k);
    var node2 := InMain(node, q, k);
    forall j | 0 <= j < |node2| && node2[j].key.Live? && j != q
      ensures exists l :: 0 <= l < |node| && node[l].key == node2[j].key
    {
      assert node[j].key == node2[j].key;
    }
    assert Taken(node2, lastfree);
    InsertedNow(h, arr, node, node2, lastfree, q, k);
  }

  lemma MovedIs(node: Nodes, p: int, q: int, n: int, k: Key)
    requires 0 <= p < |node| && 0 <= q < |node| && 0 <= n < |node| && p != q && n != q && n != p
    ensures var a := node[p := node[p].(next := n)];
      var b := a[n := a[q]];
      var c := b[q := b[q].(next := NIL, val := Nil)];
      c[q := c[q].(key := Live(k))] == Moved(node, p, q, n, k)
  {
  }

  lemma BehindIs(node: Nodes, q: int, n: int, k: Key)
    requires 0 <= q < |node| && 0 <= n < |node| && n != q && node[n].val == Nil
    ensures var a := node[n := node[n].(next := node[q].next)];
      var b := a[q := a[q].(next := n)];
      b[n := b[n].(key := Live(k))] == Behind(node, q, n, k)
  {
  }

  lemma InMainIs(node: Nodes, q: int, k: Key)
    requires 0 <= q < |node| && node[q].val == Nil
    ensures node[q := node[q].(key := Live(k))] == InMain(node, q, k)
  {
  }

  lemma InsertDone(h: Hasher, arr: seq<Value>, node: Nodes, node2: Nodes, lastfree: int, dummy: bool, i: int, k: Key)
    requires Inserted(h, arr, node, node2, lastfree, dummy, i, k) && !InArray(k, |arr|)
    ensures TableOk(h, arr, node2, lastfree, dummy) && SlotFor(arr, node2, k, InNode(i))
    ensures |node2| == |node| && Keyed(node2) <= Keyed(node) + 1
    ensures forall kk :: ValueAt(arr, node2, kk) == ValueAt(arr, node, kk)
  {
    hide TableOk, Keyed, Stored;
  }

  // ---- Writing --------------------------------------------------------------------------------------

  lemma WriteArray(h: Hasher, arr: seq<Value>, node: Nodes, lastfree: int, dummy: bool, i: nat, v: Value)
    requires TableOk(h, arr, node, lastfree, dummy) && i < |arr|
    ensures TableOk(h, arr[i := v], node, lastfree, dummy)
    ensures forall kk :: ValueAt(arr[i := v], node, kk) == if kk == Int(i + 1) then v else ValueAt(arr, node, kk)
  {
    hide HashOk, Taken, Stored;
    forall kk ensures ValueAt(arr[i := v], node, kk) == if kk == Int(i + 1) then v else ValueAt(arr, node, kk) {
      if InArray(kk, |arr|) && kk.n == i + 1 { assert kk == Int(i + 1); }
    }
  }

  lemma WriteNode(h: Hasher, arr: seq<Value>, node: Nodes, lastfree: int, dummy: bool, i: nat, v: Value)
    requires TableOk(h, arr, node, lastfree, dummy) && i < |node| && node[i].key.Live?
    ensures var node2 := node[i := node[i].(val := v)];
      && TableOk(h, arr, node2, lastfree, dummy) && Keyed(node2) == Keyed(node)
      && forall kk :: ValueAt(arr, node2, kk) == if kk == node[i].key.k then v else ValueAt(arr, node, kk)
  {
    var node2 := node[i := node[i].(val := v)];
    assert node2 == WithVal(node, i, v);
    WithValOk(h, node, i, v);
    WithValStored(node, i, v);
    KeyedUpdate(node, i, node[i].(val := v));
    hide HashOk, Stored, Keyed;
    assert !InArray(node[i].key.k, |arr|);
  }

  // ---- Growing --------------------------------------------------------------------------------------

  lemma OutLast(es: seq<Entry>, e: Entry, m: int)
    ensures CountOut(es + [e], m) == CountOut(es, m) + if InArray(e.k, m) then 0 else 1
  {
    CountLast(es, e, m);
  }

  lemma OldFacts(h: Hasher, arr: seq<Value>, node: Nodes, lastfree: int, dummy: bool)
    requires TableOk(h, arr, node, lastfree, dummy)
    ensures Distinct(node) && Blank(node) && KeysOk(node, |arr|)
    ensures forall k :: Assoc(AllEntries(arr, node), k) == ValueAt(arr, node, k)
  {
    hide Taken, Links, Apart, AllEnd, Reached, Brent;
    forall k ensures Assoc(AllEntries(arr, node), k) == ValueAt(arr, node, k) { AllAssoc(arr, node, k); }
  }

  lemma FreshSize(n: nat)
    requires n == 0 || CeilLog2(n) <= MAXBITS
    ensures SizeOk(if n == 0 then 1 else Pow2(CeilLog2(n))) && n <= Pow2(CeilLog2(n))
  {
    CeilLog2Is(n);
    assert 1 == Pow2(0);
  }

  lemma StartHolding(h: Hasher, oldarr: seq<Value>, arr: seq<Value>, node: Nodes, lastfree: int, dummy: bool, nasize: nat, nhsize: nat)
    requires |arr| == nasize <= MAXASIZE && dummy == (nhsize == 0) && (nhsize == 0 || CeilLog2(nhsize) <= MAXBITS)
    requires node == Fresh(if nhsize == 0 then 1 else Pow2(CeilLog2(nhsize))) && lastfree == (if nhsize == 0 then 0 else |node|)
    requires forall i :: 0 <= i < nasize ==> arr[i] == if i < |oldarr| then oldarr[i] else Nil
    ensures var es := ArrayEntries(oldarr, Least(nasize, |oldarr|));
      && TableOk(h, arr, node, lastfree, dummy) && nhsize <= |node|
      && (forall k :: ValueAt(arr, node, k) == Assoc(es, k)) && Keyed(node) <= CountOut(es, nasize)
  {
    hide HashOk, Assoc, ArrayEntries, CountOut, Stored, Keyed, Pow2, CeilLog2, SizeOk;
    FreshOk(h, |node|);
    FreshSize(nhsize);
    var es := ArrayEntries(oldarr, Least(nasize, |oldarr|));
    forall k ensures ValueAt(arr, node, k) == Assoc(es, k) { ArrayAssoc(oldarr, Least(nasize, |oldarr|), k); }
    assert 0 <= CountOut(es, nasize);
  }

  lemma NextArray(arr: seq<Value>, node: Nodes, nasize: nat, nhsize: nat, i: nat)
    requires i < |arr| && CountOut(AllEntries(arr, node), nasize) <= nhsize
    ensures arr[i] != Nil ==> ArrayEntries(arr, i + 1) == ArrayEntries(arr, i) + [Entry(Int(i + 1), arr[i])]
    ensures arr[i] == Nil ==> ArrayEntries(arr, i + 1) == ArrayEntries(arr, i)
    ensures CountOut(ArrayEntries(arr, i + 1), nasize) <= nhsize
  {
    ArrayPart(arr, i + 1, |arr|);
    var all := AllEntries(arr, node);
    assert all[..|ArrayEntries(arr, |arr|)|] == ArrayEntries(arr, |arr|);
    assert all[..|ArrayEntries(arr, i + 1)|] == ArrayEntries(arr, i + 1);
    PartOut(ArrayEntries(arr, i + 1), all, nasize);
  }

  lemma NodesStart(arr: seq<Value>, node: Nodes)
    ensures ArrayEntries(arr, |arr|) + NodeEntries(node, |node|) == ArrayEntries(arr, |arr|)
  {
  }

  lemma NextNode(arr: seq<Value>, node: Nodes, nasize: nat, nhsize: nat, i: nat)
    requires i < |node| && CountOut(AllEntries(arr, node), nasize) <= nhsize && Blank(node) && KeysOk(node, |arr|)
    ensures node[i].val != Nil ==> node[i].key.Live? && Storable(node[i].key.k)
    ensures var base := ArrayEntries(arr, |arr|);
      && (node[i].val != Nil ==>
            base + NodeEntries(node, i) == base + NodeEntries(node, i + 1) + [Entry(node[i].key.k, node[i].val)])
      && (node[i].val == Nil ==> base + NodeEntries(node, i) == base + NodeEntries(node, i + 1))
      && CountOut(base + NodeEntries(node, i), nasize) <= nhsize
  {
    assert BlankAt(node[i]);
    var base := ArrayEntries(arr, |arr|);
    var all := AllEntries(arr, node);
    NodePart(node, i, 0);
    assert all[..|base + NodeEntries(node, i)|] == base + NodeEntries(node, i);
    PartOut(base + NodeEntries(node, i), all, nasize);
    hide ArrayEntries;
  }

  lemma AllBack(arr: seq<Value>, node: Nodes)
    ensures ArrayEntries(arr, |arr|) + NodeEntries(node, 0) == AllEntries(arr, node)
  {
  }

  lemma RehashFacts(h: Hasher, arr: seq<Value>, node: Nodes, lastfree: int, dummy: bool, ek: Key)
    requires TableOk(h, arr, node, lastfree, dummy) && Storable(ek) && !InArray(ek, |arr|) && !Has(node, ek)
    ensures |arr| <= MAXASIZE && Blank(node) && ArrayEntries(arr, |arr|) + NodeEntries(node, 0) == AllEntries(arr, node)
    ensures DistinctKeys(AllEntries(arr, node) + [Entry(ek, Nil)])
    ensures CountIn(AllEntries(arr, node) + [Entry(ek, Nil)], MAXASIZE) ==
      |ArrayEntries(arr, |arr|)| + CountIn(NodeEntries(node, 0), MAXASIZE) + if InArray(ek, MAXASIZE) then 1 else 0
    ensures |AllEntries(arr, node)| == |ArrayEntries(arr, |arr|)| + |NodeEntries(node, 0)|
  {
    AllDistinct(h, arr, node, lastfree, dummy, ek);
    hide HashOk, DistinctKeys, Taken, KeysOk;
    var base := ArrayEntries(arr, |arr|);
    CountLast(AllEntries(arr, node), Entry(ek, Nil), MAXASIZE);
    CountConcat(base, NodeEntries(node, 0), MAXASIZE);
    ArrayCount(arr, |arr|, MAXASIZE);
  }

  lemma {:induction false} ArrayKeysIn(arr: seq<Value>, n: nat)
    requires n <= |arr|
    ensures forall j :: 0 <= j < |ArrayEntries(arr, n)| ==> InArray(ArrayEntries(arr, n)[j].k, n)
    ensures DistinctKeys(ArrayEntries(arr, n))
  {
    if n > 0 { ArrayKeysIn(arr, n - 1); }
  }

  lemma EntriesStep(node: Nodes, i: nat)
    requires i < |node|
    ensures NodeEntries(node, i) == NodeEntries(node, i + 1) + EntryOf(node[i])
  {
  }

  predicate KeyFrom(node: Nodes, i: nat, k: Key) {
    exists l :: i <= l < |node| && node[l].key == Live(k)
  }

  lemma {:induction false} NodeKeysIn(node: Nodes, i: nat)
    requires Distinct(node) && i <= |node|
    ensures forall j :: 0 <= j < |NodeEntries(node, i)| ==> KeyFrom(node, i, NodeEntries(node, i)[j].k)
    ensures DistinctKeys(NodeEntries(node, i))
    decreases |node| - i
  {
    if i < |node| {
      NodeKeysIn(node, i + 1);
      EntriesStep(node, i);
      hide NodeEntries;
      var es := NodeEntries(node, i + 1);
      forall j | 0 <= j < |es|
        ensures KeyFrom(node, i, es[j].k) && (node[i].key.Live? ==> es[j].k != node[i].key.k)
      {
        assert KeyFrom(node, i + 1, es[j].k);
      }
      forall j | 0 <= j < |NodeEntries(node, i)| ensures KeyFrom(node, i, NodeEntries(node, i)[j].k) {
        if j < |es| { assert NodeEntries(node, i)[j] == es[j]; } else { assert node[i].key == Live(NodeEntries(node, i)[j].k); }
      }
    }
  }

  lemma AllDistinct(h: Hasher, arr: seq<Value>, node: Nodes, lastfree: int, dummy: bool, ek: Key)
    requires TableOk(h, arr, node, lastfree, dummy) && !InArray(ek, |arr|) && !Has(node, ek)
    ensures Blank(node) && DistinctKeys(AllEntries(arr, node) + [Entry(ek, Nil)])
  {
    hide Links, Apart, AllEnd, Reached, Brent, Taken;
    ArrayKeysIn(arr, |arr|);
    NodeKeysIn(node, 0);
    hide ArrayEntries, NodeEntries;
    var a, b := ArrayEntries(arr, |arr|), NodeEntries(node, 0);
    var all := a + b + [Entry(ek, Nil)];
    forall i, j | 0 <= i < j < |all| ensures all[i].k != all[j].k {
      if j < |a| {
        assert a[i].k != a[j].k;
      } else if i >= |a| && j < |a| + |b| {
        assert b[i - |a|].k != b[j - |a|].k;
      }
    }
  }

  lemma HashSize(all: seq<Entry>, ek: Key, n: nat)
    ensures |all| + 1 - CountIn(all + [Entry(ek, Nil)], n) == CountOut(all, n) + if InArray(ek, n) then 0 else 1
    ensures |all| + 1 - CountIn(all + [Entry(ek, Nil)], n) == CountOut(all + [Entry(ek, Nil)], n)
    ensures CountOut(all, n) >= 0
  {
    CountLast(all, Entry(ek, Nil), n);
  }

  // ---- Overflow ------------------------------------------------------------------------------------

  lemma FreeLess(node: Nodes, n: int)
    requires 0 <= n < |node| && node[n].key == NoKey
    ensures Keyed(node) < |node|
  {
    KeyedUpdate(node, n, Node(Live(NilKey), Nil, NIL));
  }

  // ---- Traversal, borders, dead keys -----------------------------------------------------------------

  const MAX_INT: int := 0x7fff_fffd

  lemma KillKeeps(h: Hasher, arr: seq<Value>, node: Nodes, lastfree: int, dummy: bool, i: nat)
    requires TableOk(h, arr, node, lastfree, dummy) && i < |node| && node[i].key.Live? && node[i].val == Nil
    ensures var node2 := node[i := node[i].(key := Dead(node[i].key.k))];
      TableOk(h, arr, node2, lastfree, dummy) && forall k :: ValueAt(arr, node2, k) == ValueAt(arr, node, k)
  {
    assert node[i := node[i].(key := Dead(node[i].key.k))] == Killed(node, i);
    KilledOk(h, node, i);
    KilledStored(node, i);
    hide HashOk, Stored;
  }

  lemma ChainStep(node: Nodes, n: int, s: nat)
    requires 0 <= n < |node| && Ends(node, n, s)
    ensures s > 0 && Ends(node, node[n].next, s - 1) && (node[n].next == NIL || 0 <= node[n].next < |node|)
  {
  }

  lemma PastNone(node: Nodes, n: int, k: Key)
    ensures Onward(node, n, n, k)
  {
    assert LeadsPast(node, n, n, 0, k);
  }

  lemma {:induction false} PastOne(node: Nodes, b: int, n: int, s: nat, k: Key)
    requires LeadsPast(node, b, n, s, k) && 0 <= n < |node| && !Matches(node[n], k)
    ensures LeadsPast(node, b, node[n].next, s + 1, k)
    decreases s
  {
    if s > 0 {
      PastOne(node, node[b].next, n, s - 1, k);
    } else {
      assert LeadsPast(node, node[n].next, node[n].next, 0, k);
    }
  }

  lemma PastMore(node: Nodes, b: int, n: int, k: Key)
    requires Onward(node, b, n, k) && 0 <= n < |node| && !Matches(node[n], k)
    ensures Onward(node, b, node[n].next, k)
  {
    hide LeadsPast;
    var s: nat :| LeadsPast(node, b, n, s, k);
    PastOne(node, b, n, s, k);
  }

  lemma GivesNow(h: Hasher, t: Snap, k: Key, i: int)
    requires Indexed(h, t.arr, t.node, k, i) && -1 <= i < Size(t)
    ensures Gives(h, t, k, EntryFrom(t.arr, t.node, i + 1))
  {
    hide Indexed;
  }

  lemma MatchStep(h: Hasher, node: Nodes, n: int, k: Key)
    requires 0 <= n < |node| && !Matches(node[n], k) && forall j :: FirstMatch(h, node, k, j) ==> Onward(node, n, j, k)
    ensures forall j :: FirstMatch(h, node, k, j) ==> Onward(node, node[n].next, j, k)
  {
    forall j | FirstMatch(h, node, k, j) ensures Onward(node, node[n].next, j, k) {
      var s: nat :| LeadsPast(node, n, j, s, k);
      assert LeadsPast(node, node[n].next, j, s - 1, k);
    }
  }

  lemma MatchEnd(h: Hasher, node: Nodes, k: Key)
    requires forall j :: FirstMatch(h, node, k, j) ==> Onward(node, NIL, j, k)
    ensures forall j :: !FirstMatch(h, node, k, j)
  {
    forall j | 0 <= j ensures !Onward(node, NIL, j, k) {
      forall s: nat ensures !LeadsPast(node, NIL, j, s, k) {}
    }
    hide Onward;
  }

  lemma EntryAt(h: Hasher, arr: seq<Value>, node: Nodes, lastfree: int, dummy: bool, i: nat)
    requires TableOk(h, arr, node, lastfree, dummy) && i < |arr| + |node| && ValAt(arr, node, i) != Nil
    ensures Indexed(h, arr, node, KeyAt(arr, node, i), i)
    ensures ValueAt(arr, node, KeyAt(arr, node, i)) == ValAt(arr, node, i)
  {
    FoundAgain(h, Snap(arr, node), Snap(arr, node), i);
    hide Links, Apart, AllEnd, Reached, Brent, Taken;
    if i >= |arr| {
      assert BlankAt(node[i - |arr|]);
      StoredIs(node, i - |arr|);
    }
  }

  /** Only so many indices in a row can be present. */
  lemma PresentBound(h: Hasher, arr: seq<Value>, node: Nodes, lastfree: int, dummy: bool, n: nat)
    requires TableOk(h, arr, node, lastfree, dummy)
    requires forall m :: 1 <= m <= n ==> ValueAt(arr, node, Int(m)) != Nil
    ensures n <= |arr| + |node|
  {
    var all := AllEntries(arr, node);
    AllUnique(h, arr, node, lastfree, dummy);
    EntriesLength(arr, node);
    IntsCount(all, n);
    var s := Upto(n);
    OldFacts(h, arr, node, lastfree, dummy);
    hide TableOk, ValueAt, AllEntries, IntsIn, CountIn, Assoc;
    forall x | x in s ensures x in IntsIn(all, n) {
      assert ValueAt(arr, node, Int(x)) != Nil;
      AssocHas(all, Int(x));
      IntsAre(all, n, x);
    }
    Subset(s, IntsIn(all, n));
  }

  lemma {:induction false} AssocHas(es: seq<Entry>, k: Key)
    requires Assoc(es, k) != Nil
    ensures exists i :: 0 <= i < |es| && es[i].k == k
  {
    if es[|es| - 1].k != k {
      AssocHas(es[..|es| - 1], k);
      var i :| 0 <= i < |es| - 1 && es[..|es| - 1][i].k == k;
      assert es[i].k == k;
    }
  }

  lemma EntriesLength(arr: seq<Value>, node: Nodes)
    ensures |AllEntries(arr, node)| <= |arr| + |node|
  {
    ArrayLength(arr, |arr|);
    NodesLength(node, 0);
  }

  lemma {:induction false} ArrayLength(arr: seq<Value>, n: nat)
    requires n <= |arr|
    ensures |ArrayEntries(arr, n)| <= n
  {
    if n > 0 { ArrayLength(arr, n - 1); }
  }

  lemma {:induction false} NodesLength(node: Nodes, i: nat)
    requires i <= |node|
    ensures |NodeEntries(node, i)| <= |node| - i
    decreases |node| - i
  {
    if i < |node| { NodesLength(node, i + 1); }
  }

  lemma AllUnique(h: Hasher, arr: seq<Value>, node: Nodes, lastfree: int, dummy: bool)
    requires TableOk(h, arr, node, lastfree, dummy)
    ensures DistinctKeys(AllEntries(arr, node))
  {
    NotStorable(h, arr, node, lastfree, dummy, NaN);
    AllDistinct(h, arr, node, lastfree, dummy, NaN);
    var all := AllEntries(arr, node);
    hide AllEntries, TableOk;
    forall i, j | 0 <= i < j < |all| ensures all[i].k != all[j].k {
      var more := all + [Entry(NaN, Nil)];
      assert more[i] == all[i] && more[j] == all[j];
    }
  }

  lemma NotStorable(h: Hasher, arr: seq<Value>, node: Nodes, lastfree: int, dummy: bool, k: Key)
    requires TableOk(h, arr, node, lastfree, dummy) && !Storable(k)
    ensures !Has(node, k)
  {
    hide HashOk, Taken;
  }

  lemma SameSize(h: Hasher, arr: seq<Value>, node: Nodes, lastfree: int, dummy: bool, nasize: nat)
    requires TableOk(h, arr, node, lastfree, dummy)
    ensures |arr| <= nasize ==> CountOut(AllEntries(arr, node), nasize) <= if dummy then 0 else |node|
    ensures CeilLog2(|node|) <= MAXBITS
  {
    CountConcat(ArrayEntries(arr, |arr|), NodeEntries(node, 0), nasize);
    ArrayCount(arr, |arr|, nasize);
    NodesLength(node, 0);
    if dummy { assert NodeEntries(node, 1) == [] && NodeEntries(node, 0) == []; }
    var lg :| 0 <= lg <= MAXBITS && |node| == Pow2(lg);
    LogBounds(|node|, lg);
  }
}
