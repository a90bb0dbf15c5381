/** What the collector leaves to the program: no object that is not dead is freed, and no
    surviving object changes its contents. */
module GcKeeps {
  import opened Wrappers
  import opened GcHeap
  import opened GcMark
  import opened GcState
  import opened GcPropagate
  import opened GcAtomic
  import opened GcBarrier
  import opened GcClose
  import opened GcSweep

  /** The contents of an object as the program sees them: an upvalue is its value whether
      open or closed, and empty table entries do not matter. */
  function Shown(h: Heap, x: Ref): Body
    requires x in h
  {
    match h[x]
    case OpenUpval(t, i) => ClosedUpval(StackValue(h, t, i))
    case Thread(gt, st, _) => Thread(gt, st, [])
    case Table(_, _, _) => Cleaned(h[x])
    case _ => h[x]
  }

  /** The value that an upvalue gives access to. */
  function ValueOf(h: Heap, u: Ref): Value
    requires u in h && (h[u].OpenUpval? || h[u].ClosedUpval?)
  {
    if h[u].ClosedUpval? then h[u].value
    else
      var t, i := h[u].thread, h[u].slot;
      if t in h && h[t].Thread? && i < |h[t].stack| then h[t].stack[i] else Nil
  }

  /** The object of a key, dead or not. */
  function Owner(k: Key): Option<Ref> {
    match k
    case Dead(r) => Some(r)
    case Live(v) => if v.Gc? then Some(v.ref) else None
  }

  predicate SameEntry(n: Node, m: Node) {
    n.val == m.val && (n.key == m.key || (n.val == Nil && Owner(n.key).Some? && Owner(n.key) == Owner(m.key)))
  }

  /** An object is the same in both heaps: all fields of it, but an upvalue may be closed, and
      the key of an empty entry dead. */
  predicate SameContents(h: Heap, h': Heap, x: Ref)
    requires x in h && x in h'
  {
    match h[x]
    case OpenUpval(_, _) => (h'[x].OpenUpval? || h'[x].ClosedUpval?) && ValueOf(h', x) == ValueOf(h, x)
    case ClosedUpval(_) => (h'[x].OpenUpval? || h'[x].ClosedUpval?) && ValueOf(h', x) == ValueOf(h, x)
    case Thread(gt, stack, _) => h'[x].Thread? && h'[x].gt == gt && h'[x].stack == stack
    case Table(meta, arr, nodes) =>
      && h'[x].Table? && h'[x].tmeta == meta && h'[x].arr == arr && |h'[x].nodes| == |nodes|
      && forall i :: 0 <= i < |nodes| ==> SameEntry(nodes[i], h'[x].nodes[i])
    case _ => h'[x] == h[x]
  }

  lemma ShownExact(h: Heap, h': Heap, x: Ref)
    requires x in h && x in h'
    ensures Shown(h', x) == Shown(h, x) <==> SameContents(h, h', x)
  {
    if h[x].Table? && h'[x].Table? {
      var ns, ms := h[x].nodes, h'[x].nodes;
      if |ns| == |ms| {
        forall i | 0 <= i < |ns| ensures SameEntry(ns[i], ms[i]) <==> RemoveEntry(ns[i]) == RemoveEntry(ms[i]) {}
        if forall i :: 0 <= i < |ns| ==> SameEntry(ns[i], ms[i]) {
          assert RemoveEntries(ns) == RemoveEntries(ms);
        }
        if RemoveEntries(ns) == RemoveEntries(ms) {
          forall i | 0 <= i < |ns| ensures SameEntry(ns[i], ms[i]) {
            assert RemoveEntries(ns)[i] == RemoveEntries(ms)[i];
          }
        }
      }
    }
  }

  /** A collector step between two flips of the current white. */
  ghost predicate Keeps(g: G, r: G) {
    && r.cw == g.cw && r.fixed == g.fixed && r.Roots() == g.Roots()
    && (forall x :: x in r.body ==> x in g.body && Shown(r.body, x) == Shown(g.body, x))
    && (forall x :: x in g.body && (!g.IsDead(x) || x in g.fixed) ==> x in r.body)
    && (forall x :: g.Alive(x) ==> r.Alive(x))
    && (forall x :: x in r.body && g.IsDead(x) && x !in g.fixed ==> r.IsDead(x))
  }

  lemma KeepsRefl(g: G)
    ensures Keeps(g, g)
  {
  }

  lemma KeepsTrans(g: G, q: G, r: G)
    requires Keeps(g, q) && Keeps(q, r) && g.body.Keys == g.colour.Keys && q.body.Keys == q.colour.Keys
    ensures Keeps(g, r)
  {
    forall x | x in g.body && (!g.IsDead(x) || x in g.fixed) ensures x in r.body {
      if !g.IsDead(x) { assert g.Alive(x) && q.Alive(x); } else { assert x in q.body; }
    }
  }

  /** References depend on the contents shown only. */
  lemma ShownRefers(h: Heap, h': Heap, x: Ref, y: Ref)
    requires x in h && x in h' && Shown(h, x) == Shown(h', x)
    ensures Refers(h, x, y) == Refers(h', x, y)
  {
    if h[x].Table? {
      assert h'[x].Table?;
      CleanedChildren(h, x, x);
      CleanedChildren(h', x, x);
      assert Children(h[x := Cleaned(h[x])], x) == Children(h'[x := Cleaned(h'[x])], x);
    }
  }

  // ---- Marking --------------------------------------------------------------------------

  lemma CleaningShown(h: Heap, h': Heap, x: Ref)
    requires Cleaning(h, h') && x in h
    ensures Shown(h', x) == Shown(h, x)
  {
    if h[x].Table? {
      CleanedTwice(h[x]);
    } else if h[x].OpenUpval? {
      assert StackValue(h', h[x].thread, h[x].slot) == StackValue(h, h[x].thread, h[x].slot);
    }
  }

  lemma MarkingKeepsAll(g: G, r: G)
    requires Marking(g, r) && NoDead(g)
    ensures Keeps(g, r)
  {
    forall x | x in r.body ensures Shown(r.body, x) == Shown(g.body, x) {
      CleaningShown(g.body, r.body, x);
    }
  }

  // ---- Sweeping -------------------------------------------------------------------------

  lemma WhitenKeeps(g: G, x: Ref)
    requires x in g.body && Survives(g, x)
    ensures Keeps(g, Whiten(g, x))
  {
  }

  lemma FreeKeeps(g: G, r: G, x: Ref)
    requires x in g.body && !Survives(g, x) && g.body.Keys == g.colour.Keys
    requires forall y :: y in g.body && g.body[y].OpenUpval? ==> g.body[y].thread != x
    requires r.body == g.body - {x} && r.colour == g.colour - {x} && r.cw == g.cw && r.fixed == g.fixed
    requires r.Roots() == g.Roots()
    ensures Keeps(g, r)
  {
    forall y | y in r.body ensures Shown(r.body, y) == Shown(g.body, y) {
      if g.body[y].OpenUpval? {
        assert StackValue(r.body, g.body[y].thread, g.body[y].slot) == StackValue(g.body, g.body[y].thread, g.body[y].slot);
      }
    }
  }

  lemma FreeStringKeeps(g: G, b: nat, i: nat)
    requires ListsOk(g) && b < |g.strt| && i < |g.strt[b]| && !Survives(g, g.strt[b][i])
    ensures Keeps(g, FreeString(g, b, i))
  {
    assert g.strt[b][i] in g.strt[b];
    assert FreeString(g, b, i).Roots() == g.Roots();
    FreeKeeps(g, FreeString(g, b, i), g.strt[b][i]);
  }

  lemma {:induction false} SweepBucketKeeps(g: G, b: nat, i: nat)
    requires Inv(g) && Sweeping(g) && b < |g.strt|
    ensures Keeps(g, SweepBucket(g, b, i))
    decreases |g.strt[b]| - i
  {
    SweepBucketIs(g, b, i);
    if i >= |g.strt[b]| {
      KeepsRefl(g);
    } else {
      hide *;
      InvLists(g);
      BucketListed(g, b, i);
      if Survives(g, g.strt[b][i]) {
        WhitenKeeps(g, g.strt[b][i]);
        WhitenInv(g, g.strt[b][i]);
        SweepBucketKeeps(Whiten(g, g.strt[b][i]), b, i + 1);
        SweptTrans(g, Whiten(g, g.strt[b][i]), SweepBucket(Whiten(g, g.strt[b][i]), b, i + 1));
      } else {
        FreeStringKeeps(g, b, i);
        FreeStringInv(g, b, i);
        SweepBucketKeeps(FreeString(g, b, i), b, i);
        SweptTrans(g, FreeString(g, b, i), SweepBucket(FreeString(g, b, i), b, i));
      }
    }
  }

  /** One string of the bucket. */
  lemma SweepBucketIs(g: G, b: nat, i: nat)
    requires b < |g.strt|
    ensures i >= |g.strt[b]| ==> SweepBucket(g, b, i) == g
    ensures i < |g.strt[b]| ==>
      var x, w, f := g.strt[b][i], Whiten(g, g.strt[b][i]), FreeString(g, b, i);
      && |w.strt| == |g.strt| == |f.strt| && w.strt[b] == g.strt[b] && |f.strt[b]| == |g.strt[b]| - 1
      && (Sweeping(g) ==> Sweeping(w) && Sweeping(f))
      && SweepBucket(g, b, i) == if Survives(g, x) then SweepBucket(w, b, i + 1) else SweepBucket(f, b, i)
  {
  }

  lemma InvLists(g: G)
    requires Inv(g)
    ensures ListsOk(g)
  {
  }

  lemma BucketListed(g: G, b: nat, i: nat)
    requires ListsOk(g) && b < |g.strt| && i < |g.strt[b]|
    ensures g.strt[b][i] in g.body
  {
    assert StringsOk(g);
    var x := g.strt[b][i];
    assert x in g.strt[b];
  }

  lemma SweptTrans(g: G, q: G, r: G)
    requires Inv(g) && Inv(q) && Keeps(g, q) && Keeps(q, r)
    ensures Keeps(g, r)
  {
    hide LiveOk, ColoursOk, StringsOk, UpvalsOk, RootListOk, FixedOk;
    KeepsTrans(g, q, r);
  }

  lemma DropUpvalKeeps(g: G, t: Ref, i: nat)
    requires g.body.Keys == g.colour.Keys && HasUpval(g, t, i) && !Survives(g, g.body[t].openupval[i])
    ensures Keeps(g, DropUpval(g, t, i))
  {
    DropPoints(g, t, i);
    hide *;
    LessKeepsColours(g, DropUpval(g, t, i), g.body[t].openupval[i]);
    LessShown(g, DropUpval(g, t, i), g.body[t].openupval[i], t);
    KeepsNow(g, DropUpval(g, t, i));
  }

  ghost predicate KeepsColours(g: G, r: G) {
    && r.cw == g.cw && r.fixed == g.fixed && r.Roots() == g.Roots()
    && (forall x :: x in g.body && (!g.IsDead(x) || x in g.fixed) ==> x in r.body)
    && (forall x :: g.Alive(x) ==> r.Alive(x))
    && (forall x :: x in r.body && g.IsDead(x) && x !in g.fixed ==> r.IsDead(x))
  }

  lemma KeepsNow(g: G, r: G)
    requires KeepsColours(g, r) && forall x :: x in r.body ==> x in g.body && Shown(r.body, x) == Shown(g.body, x)
    ensures Keeps(g, r)
  {
    hide Shown;
  }

  lemma LessKeepsColours(g: G, r: G, u: Ref)
    requires g.body.Keys == g.colour.Keys && u in g.body && !Survives(g, u)
    requires r.body.Keys == g.body.Keys - {u} && r.colour == g.colour - {u}
    requires r.Roots() == g.Roots() && r.cw == g.cw && r.fixed == g.fixed
    ensures KeepsColours(g, r)
  {
  }

  /** One object less, and another list of open upvalues for the thread. */
  lemma LessShown(g: G, r: G, u: Ref, t: Ref)
    requires t in g.body && g.body[t].Thread? && u != t
    requires r.body.Keys == g.body.Keys - {u} && r.body[t].Thread? && r.body[t] == g.body[t].(openupval := r.body[t].openupval)
    requires forall x :: x in r.body && x != t ==> r.body[x] == g.body[x]
    requires u in g.body && g.body[u].OpenUpval?
    ensures forall y :: y in r.body ==> y in g.body && Shown(r.body, y) == Shown(g.body, y)
  {
    forall y | y in r.body ensures y in g.body && Shown(r.body, y) == Shown(g.body, y) {
      if g.body[y].OpenUpval? {
        assert StackValue(r.body, g.body[y].thread, g.body[y].slot) == StackValue(g.body, g.body[y].thread, g.body[y].slot);
      }
    }
  }

  lemma {:induction false} SweepOpenKeeps(g: G, t: Ref, i: nat)
    requires Inv(g) && Sweeping(g)
    ensures Keeps(g, SweepOpen(g, t, i))
    decreases |OpenList(g.body, t)| - i
  {
    InvUpvals(g);
    SweepOpenIs(g, t, i);
    if i >= |OpenList(g.body, t)| {
      KeepsRefl(g);
    } else {
      hide *;
      InvLists(g);
      ListsKeys(g);
      UpvalAt(g, t, i);
      if Survives(g, g.body[t].openupval[i]) {
        WhitenKeeps(g, g.body[t].openupval[i]);
        WhitenInv(g, g.body[t].openupval[i]);
        SweepOpenKeeps(Whiten(g, g.body[t].openupval[i]), t, i + 1);
        SweptTrans(g, Whiten(g, g.body[t].openupval[i]), SweepOpen(g, t, i));
      } else {
        NotSurviving(g, g.body[t].openupval[i]);
        DropUpvalKeeps(g, t, i);
        DropUpvalInv(g, t, i);
        SweepOpenKeeps(DropUpval(g, t, i), t, i);
        SweptTrans(g, DropUpval(g, t, i), SweepOpen(g, t, i));
      }
    }
  }

  lemma NotSurviving(g: G, x: Ref)
    requires !Survives(g, x)
    ensures g.IsDead(x)
  {
  }

  lemma UpvalAt(g: G, t: Ref, i: nat)
    requires UpvalsOk(g) && i < |OpenList(g.body, t)|
    ensures t in g.body && g.body[t].Thread? && i < |g.body[t].openupval| && HasUpval(g, t, i)
    ensures g.body[t].openupval[i] in g.body
  {
    DropReady(g, t, i);
  }

  /** One open upvalue of the thread. */
  lemma SweepOpenIs(g: G, t: Ref, i: nat)
    requires UpvalsOk(g)
    ensures i >= |OpenList(g.body, t)| ==> SweepOpen(g, t, i) == g
    ensures i < |OpenList(g.body, t)| ==>
      var x, w, d := g.body[t].openupval[i], Whiten(g, g.body[t].openupval[i]), DropUpval(g, t, i);
      && OpenList(w.body, t) == OpenList(g.body, t) && |OpenList(d.body, t)| < |OpenList(g.body, t)|
      && (Sweeping(g) ==> Sweeping(w) && Sweeping(d))
      && SweepOpen(g, t, i) == if Survives(g, x) then SweepOpen(w, t, i + 1) else SweepOpen(d, t, i)
  {
    if i < |OpenList(g.body, t)| { DropShortens(g, t, i); }
    hide UpvalsOk;
  }

  lemma DropRestLen(g: G, t: Ref, i: nat)
    requires HasUpval(g, t, i)
    ensures |OpenList(DropUpval(g, t, i).body, t)| < |OpenList(g.body, t)|
  {
    DropReady(g, t, i);
  }

  /** Closing an upvalue shows: the value it had on the stack is the value it holds now. */
  lemma CloseOneKeeps(g: G, t: Ref)
    requires UpvalsOk(g) && FixedOk(g) && g.body.Keys == g.colour.Keys && Sweeping(g) && OpenList(g.body, t) != []
    requires g.mainthread in g.body ==> !g.body[g.mainthread].OpenUpval?
    ensures Keeps(g, CloseOne(g, t))
  {
    DropReady(g, t, 0);
    if g.IsDead(g.body[t].openupval[0]) {
      CloseDead(g, t);
      assert g.body[t].openupval[0] !in g.fixed;
      DropUpvalKeeps(g, t, 0);
    } else {
      CloseLiveKeeps(g, t);
    }
  }

  lemma LiveKeepsColours(g: G, t: Ref)
    requires ClosingOk(g.body, t) && g.body.Keys == g.colour.Keys && Sweeping(g)
    requires !g.IsDead(g.body[t].openupval[0])
    ensures CloseOne(g, t).body == ClosedBody(g.body, t) && KeepsColours(g, CloseOne(g, t))
  {
    CloseOneIs(g, t);
    hide CloseOne, ThreadOk;
  }

  lemma CloseLiveKeeps(g: G, t: Ref)
    requires UpvalsOk(g) && g.body.Keys == g.colour.Keys && Sweeping(g) && OpenList(g.body, t) != []
    requires !g.IsDead(g.body[t].openupval[0])
    ensures Keeps(g, CloseOne(g, t))
  {
    ClosingReady(g, t);
    CloseOneIs(g, t);
    LiveKeepsColours(g, t);
    hide CloseOne, Shown, UpvalsOk;
    forall y | y in ClosedBody(g.body, t) ensures y in g.body && Shown(ClosedBody(g.body, t), y) == Shown(g.body, y) {
      CloseShown(g.body, t, y);
    }
    KeepsNow(g, CloseOne(g, t));
  }

  lemma CloseShown(h: Heap, t: Ref, y: Ref)
    requires ClosingOk(h, t) && y in ClosedBody(h, t)
    ensures y in h && Shown(ClosedBody(h, t), y) == Shown(h, y)
  {
    var h' := ClosedBody(h, t);
    if h'[y].OpenUpval? {
      assert StackValue(h', h[y].thread, h[y].slot) == StackValue(h, h[y].thread, h[y].slot);
    }
  }

  lemma {:induction false} CloseKeeps(g: G, t: Ref, level: nat)
    requires Inv(g) && Sweeping(g)
    ensures Keeps(g, Close(g, t, level))
    decreases |OpenList(g.body, t)|
  {
    if !MustClose(g.body, t, level) {
      KeepsRefl(g);
    } else {
      InvUpvals(g);
      InvLists(g);
      ListsKeys(g);
      MainNoUpval(g);
      hide Inv, Keeps, CloseOne, ListsOk, UpvalsOk, LiveOk;
      CloseShortens(g, t);
      CloseOneKeeps(g, t);
      CloseOneInv(g, t);
      CloseOnePhase(g, t);
      CloseKeeps(CloseOne(g, t), t, level);
      SweptTrans(g, CloseOne(g, t), Close(g, t, level));
    }
  }

  lemma MainNoUpval(g: G)
    requires Inv(g)
    ensures (g.mainthread in g.body ==> !g.body[g.mainthread].OpenUpval?) && FixedOk(g)
  {
  }

  lemma CloseOnePhase(g: G, t: Ref)
    requires OpenList(g.body, t) != []
    ensures CloseOne(g, t).phase == g.phase
  {
  }

  lemma EraseKeeps(g: G, x: Ref)
    requires Inv(g) && Sweeping(g) && x in g.rootgc && !Survives(g, x)
    ensures Keeps(g, Erase(g, x))
  {
    CloseKeeps(g, x, 0);
    CloseInv(g, x, 0);
    if g.body[x].Thread? { CloseCloses(g, x); }
    FreeRootKeeps(Close(g, x, 0), x);
    EraseTrans(g, Close(g, x, 0), Erase(g, x));
  }

  lemma EraseTrans(g: G, q: G, r: G)
    requires Inv(g) && Inv(q) && Keeps(g, q) && Keeps(q, r)
    ensures Keeps(g, r)
  {
    SweptTrans(g, q, r);
  }

  lemma FreeRootKeeps(g: G, x: Ref)
    requires Inv(g) && x in g.rootgc && !Survives(g, x) && OpenList(g.body, x) == []
    ensures Keeps(g, Free(g, x).(rootgc := Remove(g.rootgc, x)))
  {
    hide LiveOk, ColoursOk, StringsOk;
    NoUpvalsOf(g, x);
    var r := Free(g, x).(rootgc := Remove(g.rootgc, x));
    assert r.Roots() == g.Roots();
    FreeKeeps(g, r, x);
  }

  lemma SweepOneKeeps(g: G)
    requires Inv(g) && g.phase == Sweep && g.sweepgc < |g.rootgc|
    ensures Keeps(g, SweepOne(g))
  {
    hide Inv, SweepOpen, Erase, Whiten, SweepReady, Keeps;
    var x := g.rootgc[g.sweepgc];
    MakeReady(g, x);
    SweepOpenKeeps(g, x, 0);
    DecideKeeps(SweepOpen(g, x, 0), x);
    ReadyInv(SweepOpen(g, x, 0), x);
    SweptTrans(g, SweepOpen(g, x, 0), SweepOne(g));
  }

  lemma ReadyInv(g: G, x: Ref)
    requires SweepReady(g, x)
    ensures Inv(g)
  {
    hide Inv;
  }

  lemma ReadyFacts(g: G, x: Ref)
    requires SweepReady(g, x)
    ensures Inv(g) && Sweeping(g) && x in g.rootgc
  {
  }

  lemma PassKeeps(g: G, x: Ref)
    requires x in g.body && Survives(g, x)
    ensures Keeps(g, Whiten(g, x).(sweepgc := g.sweepgc + 1))
  {
    WhitenKeeps(g, x);
    hide Shown;
    assert g.Roots() == Whiten(g, x).(sweepgc := g.sweepgc + 1).Roots();
  }

  lemma DecideKeeps(g: G, x: Ref)
    requires SweepReady(g, x)
    ensures Keeps(g, if Survives(g, x) then Whiten(g, x).(sweepgc := g.sweepgc + 1) else Erase(g, x))
  {
    RootListed(g, x);
    ReadyFacts(g, x);
    hide Inv, Keeps, Erase, SweepReady;
    if Survives(g, x) { PassKeeps(g, x); } else { EraseKeeps(g, x); }
  }

  lemma {:induction false} SweepListKeeps(g: G, count: nat)
    requires Inv(g) && g.phase == Sweep
    ensures Keeps(g, SweepList(g, count))
    decreases count
  {
    hide Inv, SweepOne, Keeps;
    if count == 0 || g.sweepgc >= |g.rootgc| {
      KeepsRefl(g);
    } else {
      SweepOneInv(g);
      SweepOneKeeps(g);
      SweepListKeeps(SweepOne(g), count - 1);
      SweptTrans(g, SweepOne(g), SweepList(g, count));
    }
  }
}
