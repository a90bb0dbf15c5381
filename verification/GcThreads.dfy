/** Lists of open upvalues, as a thread keeps them: by descending stack slot. */
module GcThreads {
  import opened GcHeap
  import opened GcState

  /** Open upvalues in order. */
  predicate Descending(h: Heap, us: seq<Ref>) {
    && (forall j :: 0 <= j < |us| ==> us[j] in h && h[us[j]].OpenUpval?)
    && (forall j, k :: 0 <= j < k < |us| ==> h[us[j]].slot > h[us[k]].slot)
  }

  lemma DescendingOf(h: Heap, s: Ref)
    requires s in h && h[s].Thread? && ThreadOk(h, s)
    ensures Descending(h, h[s].openupval)
  {
  }

  lemma MemberAt(h: Heap, us: seq<Ref>, j: nat)
    requires Descending(h, us) && j < |us|
    ensures us[j] in h && h[us[j]].OpenUpval?
  {
  }

  lemma DescendAt(h: Heap, us: seq<Ref>, j: nat, k: nat)
    requires Descending(h, us) && j < k < |us|
    ensures us[j] in h && us[k] in h && h[us[j]].OpenUpval? && h[us[k]].OpenUpval? && h[us[j]].slot > h[us[k]].slot
  {
  }

  lemma DescendingNow(h: Heap, us: seq<Ref>)
    requires forall j :: 0 <= j < |us| ==> us[j] in h && h[us[j]].OpenUpval?
    requires forall j, k :: 0 <= j < k < |us| ==> h[us[j]].slot > h[us[k]].slot
    ensures Descending(h, us)
  {
  }

  /** Removing one leaves the others in their order. */
  lemma OrderWithout(h: Heap, us: seq<Ref>, i: nat)
    requires i < |us| && Descending(h, us)
    ensures Descending(h, us[..i] + us[i + 1..])
  {
    hide Descending;
    var vs := us[..i] + us[i + 1..];
    forall j | 0 <= j < |vs| ensures vs[j] in h && h[vs[j]].OpenUpval? {
      MemberAt(h, us, if j < i then j else j + 1);
    }
    forall j, k | 0 <= j < k < |vs| ensures h[vs[j]].slot > h[vs[k]].slot {
      DescendAt(h, us, if j < i then j else j + 1, if k < i then k else k + 1);
    }
    DescendingNow(h, vs);
  }

  ghost predicate Unchanged(h: Heap, h2: Heap, s: Ref, vs: seq<Ref>)
    requires s in h && h[s].Thread?
  {
    forall j :: 0 <= j < |vs| ==> vs[j] in h[s].openupval && vs[j] in h && vs[j] in h2 && h2[vs[j]] == h[vs[j]]
  }

  lemma UnchangedNow(h: Heap, h2: Heap, s: Ref, vs: seq<Ref>)
    requires s in h && h[s].Thread?
    requires forall j :: 0 <= j < |vs| ==> vs[j] in h[s].openupval && vs[j] in h && vs[j] in h2 && h2[vs[j]] == h[vs[j]]
    ensures Unchanged(h, h2, s, vs)
  {
  }

  /** Some of a thread's open upvalues, unchanged and in order, make a good list again. */
  lemma ThreadAgain(h: Heap, h2: Heap, s: Ref, vs: seq<Ref>)
    requires s in h && h[s].Thread? && ThreadOk(h, s) && s in h2 && h2[s].Thread?
    requires h2[s].stack == h[s].stack && h2[s].openupval == vs && Descending(h, vs) && Unchanged(h, h2, s, vs)
    ensures ThreadOk(h2, s)
  {
    hide Descending;
    forall j | 0 <= j < |vs| ensures vs[j] in h2 && h2[vs[j]].OpenUpval? && h2[vs[j]].thread == s && h2[vs[j]].slot < |h2[s].stack| {
      assert vs[j] in h[s].openupval;
    }
    forall j, k | 0 <= j < k < |vs| ensures h2[vs[j]].slot > h2[vs[k]].slot {
      DescendAt(h, vs, j, k);
    }
  }

  lemma MemberOwned(h: Heap, s: Ref, u: Ref)
    requires s in h && h[s].Thread? && ThreadOk(h, s) && u in h[s].openupval
    ensures u in h && h[u].OpenUpval? && h[u].thread == s && h[u].slot < |h[s].stack|
  {
  }

  /** Where a new open upvalue belongs: behind those above its slot. */
  predicate SplitsAt(h: Heap, us: seq<Ref>, n: nat, level: nat) {
    && n <= |us|
    && (forall i :: 0 <= i < |us| ==> us[i] in h && h[us[i]].OpenUpval? && (if i < n then h[us[i]].slot > level else h[us[i]].slot < level))
  }

  lemma SplitAt(h: Heap, us: seq<Ref>, n: nat, level: nat, i: nat)
    requires SplitsAt(h, us, n, level) && i < |us|
    ensures us[i] in h && h[us[i]].OpenUpval? && (if i < n then h[us[i]].slot > level else h[us[i]].slot < level)
  {
  }

  /** Inserting it there keeps the list in order. */
  lemma ThreadInserted(h: Heap, h2: Heap, t: Ref, n: nat, x: Ref, level: nat)
    requires t in h && h[t].Thread? && ThreadOk(h, t) && level < |h[t].stack| && SplitsAt(h, h[t].openupval, n, level)
    requires t in h2 && h2[t] == h[t].(openupval := h[t].openupval[..n] + [x] + h[t].openupval[n..])
    requires x in h2 && h2[x] == OpenUpval(t, level)
    requires forall w :: w in h[t].openupval ==> w in h2 && w in h && h2[w] == h[w]
    ensures ThreadOk(h2, t)
  {
    var us, vs := h[t].openupval, h2[t].openupval;
    DescendingOf(h, t);
    hide Descending, SplitsAt;
    forall j | 0 <= j < |vs|
      ensures vs[j] in h2 && h2[vs[j]].OpenUpval? && h2[vs[j]].thread == t && h2[vs[j]].slot < |h2[t].stack|
    {
      if j != n { MemberOwned(h, t, us[if j < n then j else j - 1]); }
    }
    hide ThreadOk;
    forall j, k | 0 <= j < k < |vs| ensures h2[vs[j]].slot > h2[vs[k]].slot {
      InsertedPair(h, h2, t, n, x, level, j, k);
    }
  }

  lemma InsertedPair(h: Heap, h2: Heap, t: Ref, n: nat, x: Ref, level: nat, j: nat, k: nat)
    requires t in h && h[t].Thread? && Descending(h, h[t].openupval) && SplitsAt(h, h[t].openupval, n, level)
    requires x in h2 && h2[x] == OpenUpval(t, level)
    requires forall w :: w in h[t].openupval ==> w in h2 && w in h && h2[w] == h[w]
    requires j < k < |h[t].openupval| + 1
    ensures var vs := h[t].openupval[..n] + [x] + h[t].openupval[n..];
      && vs[j] in h2 && h2[vs[j]].OpenUpval? && vs[k] in h2 && h2[vs[k]].OpenUpval?
      && h2[vs[j]].slot > h2[vs[k]].slot
  {
    var us := h[t].openupval;
    SplitBounds(h, us, n, level);
    InsertIndex(us, n, x, j);
    InsertIndex(us, n, x, k);
    hide Descending, SplitsAt;
    if j != n { InsertedAt(h, h2, us, n, level, if j < n then j else j - 1); }
    if k != n { InsertedAt(h, h2, us, n, level, if k < n then k else k - 1); }
    if j != n && k != n { DescendAt(h, us, if j < n then j else j - 1, if k < n then k else k - 1); }
  }

  lemma InsertIndex(us: seq<Ref>, n: nat, x: Ref, j: nat)
    requires n <= |us| && j < |us| + 1
    ensures (us[..n] + [x] + us[n..])[j] == if j < n then us[j] else if j == n then x else us[j - 1]
  {
  }

  lemma InsertedAt(h: Heap, h2: Heap, us: seq<Ref>, n: nat, level: nat, j: nat)
    requires SplitsAt(h, us, n, level) && j < |us|
    requires forall w :: w in us ==> w in h2 && w in h && h2[w] == h[w]
    ensures us[j] in h2 && us[j] in h && h2[us[j]] == h[us[j]] && h2[us[j]].OpenUpval?
    ensures if j < n then h2[us[j]].slot > level else h2[us[j]].slot < level
  {
    SplitAt(h, us, n, level, j);
    hide SplitsAt;
    var w := us[j];
    assert w in us;
  }

  lemma SplitBounds(h: Heap, us: seq<Ref>, n: nat, level: nat)
    requires SplitsAt(h, us, n, level)
    ensures n <= |us|
  {
  }
}
