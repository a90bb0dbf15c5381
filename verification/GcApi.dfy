/** lua_setupvalue on a Lua closure (lapi.c:1071-1086): the value goes where the upvalue points
    to, but the barrier looks at the closure. The invariant survives exactly when the barrier
    would not have been needed for the upvalue, or the closure happens to trigger it. */
module GcApi {
  import opened GcHeap
  import opened GcMark
  import opened GcState
  import opened GcPropagate
  import opened GcAtomic
  import opened GcThreads
  import opened GcBarrier
  import opened GcClose
  import opened GcSweep
  import opened GcStep
  import opened GcMutator
  import opened GcAlloc

  /** An upvalue object whose `v' points somewhere: into a live stack, or to itself. */
  predicate IsUpval(g: G, u: Ref) {
    u in g.body &&
    match g.body[u]
    case ClosedUpval(_) => true
    case OpenUpval(t, slot) => t in g.body && g.body[t].Thread? && slot < |g.body[t].stack|
    case _ => false
  }

  predicate IsUpvalOf(g: G, f: Ref, u: Ref) {
    f in g.body && g.body[f].LClosure? && u in g.body[f].lups && IsUpval(g, u)
  }

  predicate IsClosedUpvalOf(g: G, f: Ref, u: Ref) {
    IsUpvalOf(g, f, u) && g.body[u].ClosedUpval?
  }

  /** Assignment through `v' of the upvalue. */
  function Assigned(g: G, u: Ref, v: Value): G
    requires IsUpval(g, u)
  {
    match g.body[u]
    case OpenUpval(t, slot) => WithStack(g, t, g.body[t].gt, g.body[t].stack[slot := v])
    case _ => Write(g, u, ClosedUpval(v))
  }

  /** The upvalue has the value, in itself or in its stack slot, and nothing else has changed. */
  predicate AssignedTo(g: G, r: G, u: Ref, v: Value) {
    && u in g.body && r == g.(body := r.body) && r.body.Keys == g.body.Keys
    && match g.body[u]
       case ClosedUpval(_) => r.body[u] == ClosedUpval(v) && forall x :: x in g.body && x != u ==> r.body[x] == g.body[x]
       case OpenUpval(t, i) =>
         && t in g.body && g.body[t].Thread? && r.body[t].Thread?
         && r.body[t].gt == g.body[t].gt && r.body[t].openupval == g.body[t].openupval
         && OnlyAt(g.body[t].stack, r.body[t].stack, i) && i < |r.body[t].stack| && r.body[t].stack[i] == v
         && forall x :: x in g.body && x != t ==> r.body[x] == g.body[x]
       case _ => false
  }

  lemma AssignedExact(g: G, u: Ref, v: Value)
    requires IsUpval(g, u)
    ensures AssignedTo(g, Assigned(g, u, v), u, v)
  {
  }

  /** The store into upvalue `u' of closure `f', and the barrier on `f'. */
  function SetUpvalueApi(g: G, f: Ref, u: Ref, v: Value): G
    requires IsUpvalOf(g, f, u)
  {
    Barrier(Assigned(g, u, v), f, v)
  }

  /** The upvalue needs a barrier that the closure does not trigger. */
  predicate MissedBarrier(g: G, f: Ref, u: Ref, v: Value) {
    g.phase == Propagate && v.Gc? && IsWhite(g.colour, v.ref) && IsBlack(g, u) && !IsBlack(g, f)
  }

  lemma SetUpvalueApiExact(g: G, f: Ref, u: Ref, v: Value)
    ensures Inv(g) && IsUpvalOf(g, f, u) && g.Alive(f) && (v.Gc? ==> g.Alive(v.ref)) ==>
      (Inv(SetUpvalueApi(g, f, u, v)) <==> !MissedBarrier(g, f, u, v))
  {
    if Inv(g) && IsUpvalOf(g, f, u) && g.Alive(f) && (v.Gc? ==> g.Alive(v.ref)) {
      if MissedBarrier(g, f, u, v) {
        OpenNotBlack(g, u);
        MissedBreaks(g, f, u, v);
      } else {
        SetUpvalueApiInv(g, f, u, v);
      }
    }
  }

  lemma SetUpvalueApiInv(g: G, f: Ref, u: Ref, v: Value)
    requires Inv(g) && IsUpvalOf(g, f, u) && g.Alive(f) && (v.Gc? ==> g.Alive(v.ref)) && !MissedBarrier(g, f, u, v)
    ensures Inv(SetUpvalueApi(g, f, u, v))
  {
    if g.body[u].ClosedUpval? {
      hide Inv;
      ApiKeeps(g, f, u, v);
    } else {
      hide *;
      ApiOpenKeeps(g, f, u, v);
    }
  }

  lemma OpenNotBlack(g: G, u: Ref)
    requires Inv(g) && u in g.body
    ensures g.body[u].OpenUpval? ==> !IsBlack(g, u)
  {
    if Sweeping(g) || g.phase == Propagate { assert KindOk(g, u); }
  }

  /** Through an open upvalue the value goes into a stack, which `atomic' traverses again. */
  lemma ApiOpenKeeps(g: G, f: Ref, u: Ref, v: Value)
    requires Inv(g) && IsUpvalOf(g, f, u) && g.Alive(f) && (v.Gc? ==> g.Alive(v.ref)) && !IsClosedUpvalOf(g, f, u)
    ensures Inv(SetUpvalueApi(g, f, u, v))
  {
    OpenAssignedInv(g, u, v);
    OpenAssignedColours(g, u, v);
    hide Inv, Assigned;
    AnyBarrierInv(Assigned(g, u, v), f, v);
  }

  lemma OpenAssignedColours(g: G, u: Ref, v: Value)
    requires IsUpval(g, u) && g.body[u].OpenUpval?
    ensures Assigned(g, u, v).colour == g.colour && Assigned(g, u, v).body.Keys == g.body.Keys
    ensures Assigned(g, u, v).cw == g.cw
  {
  }

  lemma OpenAssignedInv(g: G, u: Ref, v: Value)
    requires Inv(g) && IsUpval(g, u) && g.body[u].OpenUpval? && (v.Gc? ==> g.Alive(v.ref))
    ensures Inv(Assigned(g, u, v))
  {
    OpenSlotOk(g, u, v);
    hide Inv, StackOk;
    StackInv(g, g.body[u].thread, g.body[g.body[u].thread].gt, g.body[g.body[u].thread].stack[g.body[u].slot := v]);
  }

  lemma OpenSlotOk(g: G, u: Ref, v: Value)
    requires Inv(g) && IsUpval(g, u) && g.body[u].OpenUpval? && (v.Gc? ==> g.Alive(v.ref))
    ensures StackOk(g, g.body[u].thread, g.body[g.body[u].thread].gt,
                    g.body[g.body[u].thread].stack[g.body[u].slot := v])
  {
    InvParts(g);
    assert ThreadOk(g.body, g.body[u].thread);
    hide Inv, ListsOk, LiveOk, ColoursOk, UpvalsOk;
    StackSlotOk(g, g.body[u].thread, g.body[u].slot, v);
  }

  lemma StackSlotOk(g: G, t: Ref, i: nat, v: Value)
    requires t in g.body && g.body[t].Thread? && ThreadOk(g.body, t) && i < |g.body[t].stack| && (v.Gc? ==> g.Alive(v.ref))
    ensures StackOk(g, t, g.body[t].gt, g.body[t].stack[i := v])
  {
    var st := g.body[t].stack[i := v];
    forall w | w in g.body[t].openupval ensures w in g.body && g.body[w].OpenUpval? && g.body[w].slot < |st| {
      MemberOwned(g.body, t, w);
    }
    hide ThreadOk;
    assert forall k :: 0 <= k < |st| && k != i ==> st[k] == g.body[t].stack[k];
    assert forall y :: Gc(y) in st ==> Gc(y) in g.body[t].stack || Gc(y) == v;
  }

  /** A forward barrier with live arguments keeps the invariant, whatever it is for. */
  lemma AnyBarrierInv(g: G, o: Ref, v: Value)
    requires Inv(g) && (v.Gc? ==> g.Alive(v.ref))
    ensures Inv(Barrier(g, o, v))
  {
    if v.Gc? && IsWhite(g.colour, v.ref) && IsBlack(g, o) {
      BlackPhase(g, o);
      hide Inv;
      if g.phase == Propagate { MarkMore(g, v.ref); } else { WhitenInv(g, o); }
    }
  }

  lemma MissedBreaks(g: G, f: Ref, u: Ref, v: Value)
    requires IsClosedUpvalOf(g, f, u) && MissedBarrier(g, f, u, v)
    ensures !Inv(SetUpvalueApi(g, f, u, v))
  {
    var r := SetUpvalueApi(g, f, u, v);
    assert r.body == g.body[u := ClosedUpval(v)] && r.colour == g.colour;
    assert Holds(r.body, u, v.ref) && IsWhite(r.colour, v.ref);
    assert r.colour[u] == Black && !BlackOk(r, u);
  }

  lemma UpvalAlive(g: G, f: Ref, u: Ref)
    requires Inv(g) && IsClosedUpvalOf(g, f, u) && g.Alive(f)
    ensures g.Alive(u)
  {
    RefsMember(g.body[f].lups, Gc(u));
    assert HoldsAlive(g, f);
    assert Holds(g.body, f, u);
  }

  lemma ApiKeeps(g: G, f: Ref, u: Ref, v: Value)
    requires Inv(g) && IsClosedUpvalOf(g, f, u) && g.Alive(f) && (v.Gc? ==> g.Alive(v.ref))
    requires !MissedBarrier(g, f, u, v)
    ensures Inv(SetUpvalueApi(g, f, u, v))
  {
    UpvalAlive(g, f, u);
    if v.Gc? && IsWhite(g.colour, v.ref) && IsBlack(g, f) {
      FiredKeeps(g, f, u, v);
    } else {
      hide Inv, WriteOk;
      PlainWriteOk(g, f, u, v);
      WriteInv(g, u, ClosedUpval(v));
    }
  }

  lemma PlainWriteOk(g: G, f: Ref, u: Ref, v: Value)
    requires IsClosedUpvalOf(g, f, u) && g.Alive(u) && (v.Gc? ==> g.Alive(v.ref))
    requires !MissedBarrier(g, f, u, v) && !(v.Gc? && IsWhite(g.colour, v.ref) && IsBlack(g, f))
    ensures WriteOk(g, u, ClosedUpval(v))
  {
    assert Children(g.body[u := ClosedUpval(v)], u) == [v];
  }

  /** The closure's own barrier marks the value, or whitens the closure during a sweep. */
  lemma FiredKeeps(g: G, f: Ref, u: Ref, v: Value)
    requires Inv(g) && IsClosedUpvalOf(g, f, u) && g.Alive(f) && g.Alive(u) && v.Gc? && g.Alive(v.ref)
    requires IsWhite(g.colour, v.ref) && IsBlack(g, f)
    ensures Inv(SetUpvalueApi(g, f, u, v))
  {
    BlackPhase(g, f);
    if g.phase == Propagate { FiredMarking(g, f, u, v); } else { FiredSweeping(g, f, u, v); }
  }

  lemma FiredIs(g: G, f: Ref, u: Ref, v: Value)
    requires IsClosedUpvalOf(g, f, u) && v.Gc? && IsWhite(g.colour, v.ref) && IsBlack(g, f) && !IsWhite(g.colour, u)
    requires g.phase == Propagate
    ensures SetUpvalueApi(g, f, u, v) == Write(g.WithMarks(Mark(g.body, g.MarkState(), v.ref)), u, ClosedUpval(v))
  {
    MarkIgnoresMarked(g.body, g.MarkState(), v.ref, u, ClosedUpval(v));
    hide Mark;
  }

  lemma FiredMarking(g: G, f: Ref, u: Ref, v: Value)
    requires Inv(g) && IsClosedUpvalOf(g, f, u) && g.Alive(u) && v.Gc? && g.Alive(v.ref)
    requires IsWhite(g.colour, v.ref) && IsBlack(g, f) && g.phase == Propagate
    ensures Inv(SetUpvalueApi(g, f, u, v))
  {
    UpvalNotWhite(g, f, u);
    FiredIs(g, f, u, v);
    InvParts(g);
    PropagateNoDead(g);
    hide *;
    MarkedWriteOk(g, u, v);
    MarkMore(g, v.ref);
    WriteInv(g.WithMarks(Mark(g.body, g.MarkState(), v.ref)), u, ClosedUpval(v));
  }

  lemma FiredWhitens(g: G, f: Ref, u: Ref, v: Value)
    requires Inv(g) && IsClosedUpvalOf(g, f, u) && v.Gc? && IsWhite(g.colour, v.ref) && IsBlack(g, f) && Sweeping(g)
    ensures SetUpvalueApi(g, f, u, v) == Whiten(Write(g, u, ClosedUpval(v)), f)
    ensures var w := Write(g, u, ClosedUpval(v)); Sweeping(w) && f in w.body && Survives(w, f)
    ensures g.body[u].ClosedUpval?
  {
    hide Inv;
  }

  lemma FiredSweeping(g: G, f: Ref, u: Ref, v: Value)
    requires Inv(g) && IsClosedUpvalOf(g, f, u) && g.Alive(u) && v.Gc? && g.Alive(v.ref)
    requires IsWhite(g.colour, v.ref) && IsBlack(g, f) && Sweeping(g)
    ensures Inv(SetUpvalueApi(g, f, u, v))
  {
    FiredWhitens(g, f, u, v);
    hide *;
    SweepingWriteOk(g, u, v);
    WriteInv(g, u, ClosedUpval(v));
    WhitenInv(Write(g, u, ClosedUpval(v)), f);
  }

  lemma SweepingWriteOk(g: G, u: Ref, v: Value)
    requires g.Alive(u) && g.body[u].ClosedUpval? && v.Gc? && g.Alive(v.ref) && Sweeping(g)
    ensures WriteOk(g, u, ClosedUpval(v))
  {
    assert Children(g.body[u := ClosedUpval(v)], u) == [v];
  }

  lemma UpvalNotWhite(g: G, f: Ref, u: Ref)
    requires Inv(g) && g.phase == Propagate && IsClosedUpvalOf(g, f, u) && IsBlack(g, f)
    ensures !IsWhite(g.colour, u)
  {
    RefsMember(g.body[f].lups, Gc(u));
    assert BlackOk(g, f);
    assert Holds(g.body, f, u);
  }

  lemma ClosedHolds(h: Heap, u: Ref, v: Value)
    ensures forall y :: Holds(h[u := ClosedUpval(v)], u, y) ==> v == Gc(y)
  {
    assert Children(h[u := ClosedUpval(v)], u) == [v];
  }

  lemma MarkedWriteOk(g: G, u: Ref, v: Value)
    requires g.body.Keys == g.colour.Keys && g.Alive(u) && g.body[u].ClosedUpval? && v.Gc? && g.Alive(v.ref)
    requires NoDead(g)
    ensures WriteOk(g.WithMarks(Mark(g.body, g.MarkState(), v.ref)), u, ClosedUpval(v))
  {
    MarkSpares(g, v.ref);
    ClosedHolds(g.body, u, v);
    hide Mark, NoDead, Holds;
  }
}
