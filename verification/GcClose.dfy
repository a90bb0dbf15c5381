/** Closing an upvalue, freeing a dead object and whitening a survivor keep the invariant. */
module GcClose {
  import opened GcHeap
  import opened GcMark
  import opened GcState
  import opened GcThreads
  import opened GcPropagate
  import opened GcAtomic
  import opened GcBarrier

  // ---- Closing an upvalue ---------------------------------------------------------------

  function ClosedBody(h: Heap, t: Ref): Heap
    requires OpenList(h, t) != [] && h[t].openupval[0] in h && h[h[t].openupval[0]].OpenUpval?
  {
    var u := h[t].openupval[0];
    h[t := h[t].(openupval := h[t].openupval[1..])][u := ClosedUpval(StackValue(h, t, h[u].slot))]
  }

  predicate ClosingOk(h: Heap, t: Ref) {
    && OpenList(h, t) != []
    && (forall x :: x in h && h[x].Thread? ==> ThreadOk(h, x))
    && h[t].openupval[0] in h && h[h[t].openupval[0]].OpenUpval? && h[h[t].openupval[0]].thread == t
  }

  lemma ClosingReady(g: G, t: Ref)
    requires UpvalsOk(g) && OpenList(g.body, t) != []
    ensures ClosingOk(g.body, t)
  {
    assert ThreadOk(g.body, t);
  }

  lemma ClosedChildren(h: Heap, t: Ref, x: Ref)
    requires ClosingOk(h, t) && x in h
    ensures x in ClosedBody(h, t) && Children(ClosedBody(h, t), x) == Children(h, x)
    ensures h[x].Table? ==> ClosedBody(h, t)[x] == h[x]
    ensures ClosedBody(h, t)[x].Table? ==> h[x].Table?
    ensures ClosedBody(h, t).Keys == h.Keys
  {
    hide ThreadOk;
    var h' := ClosedBody(h, t);
    assert h'[t].stack == h[t].stack;
    if x != h[t].openupval[0] && h[x].OpenUpval? {
      assert StackValue(h', h[x].thread, h[x].slot) == StackValue(h, h[x].thread, h[x].slot);
    }
  }

  /** The closed upvalue holds the value it pointed to, and no other reference changes. */
  lemma ClosedRefers(h: Heap, t: Ref, x: Ref, y: Ref)
    requires ClosingOk(h, t)
    ensures Refers(ClosedBody(h, t), x, y) == Refers(h, x, y)
    ensures Holds(ClosedBody(h, t), x, y) == Holds(h, x, y)
  {
    if x in h {
      ClosedChildren(h, t, x);
      hide Children, ClosedBody, ThreadOk;
      assert h[x].Table? ==> ClosedBody(h, t)[x] == h[x];
    }
  }

  lemma ClosedUpvals(g: G, t: Ref, r: G)
    requires UpvalsOk(g) && ClosingOk(g.body, t)
    requires r.body == ClosedBody(g.body, t) && r.uvhead == Remove(g.uvhead, g.body[t].openupval[0])
    ensures UpvalsOk(r)
  {
    hide ThreadOk, ClosedBody;
    ClosedHeads(g, t, r);
    forall s | s in r.body && r.body[s].Thread? ensures ThreadOk(r.body, s) {
      ClosedThread(g, t, r, s);
    }
    forall w | w in r.body && r.body[w].OpenUpval?
      ensures r.body[w].thread in r.body && r.body[r.body[w].thread].Thread?
      ensures w in r.body[r.body[w].thread].openupval && w in r.uvhead
    {
      ClosedOther(g, t, r, w);
    }
  }

  lemma ClosedHeads(g: G, t: Ref, r: G)
    requires UpvalsOk(g) && ClosingOk(g.body, t)
    requires r.body == ClosedBody(g.body, t) && r.uvhead == Remove(g.uvhead, g.body[t].openupval[0])
    ensures NoDup(r.uvhead) && forall u :: u in r.uvhead ==> u in r.body && r.body[u].OpenUpval?
  {
    hide ThreadOk;
    RemoveNoDup(g.uvhead, g.body[t].openupval[0]);
  }

  lemma ClosedOther(g: G, t: Ref, r: G, w: Ref)
    requires UpvalsOk(g) && ClosingOk(g.body, t)
    requires r.body == ClosedBody(g.body, t) && r.uvhead == Remove(g.uvhead, g.body[t].openupval[0])
    requires w in r.body && r.body[w].OpenUpval?
    ensures r.body[w].thread in r.body && r.body[r.body[w].thread].Thread?
    ensures w in r.body[r.body[w].thread].openupval && w in r.uvhead
  {
    hide ThreadOk;
    var u := g.body[t].openupval[0];
    RemoveNoDup(g.uvhead, u);
    assert w != u && w in g.body[g.body[w].thread].openupval;
    if g.body[w].thread == t {
      assert g.body[t].openupval == [u] + g.body[t].openupval[1..];
    }
  }

  lemma ClosedThread(g: G, t: Ref, r: G, s: Ref)
    requires UpvalsOk(g) && ClosingOk(g.body, t)
    requires r.body == ClosedBody(g.body, t)
    requires s in r.body && r.body[s].Thread?
    ensures ThreadOk(r.body, s)
  {
    ClosedShape(g, t, r, s);
    ClosedMembers(g, t, r, s);
    hide UpvalsOk, ClosingOk, ClosedBody, ThreadOk;
    DescendingOf(g.body, s);
    if s == t { OrderWithout(g.body, g.body[t].openupval, 0); }
    hide *;
    ThreadAgain(g.body, r.body, s, r.body[s].openupval);
  }

  lemma ClosedShape(g: G, t: Ref, r: G, s: Ref)
    requires UpvalsOk(g) && ClosingOk(g.body, t) && r.body == ClosedBody(g.body, t)
    requires s in r.body && r.body[s].Thread?
    ensures s in g.body && g.body[s].Thread? && ThreadOk(g.body, s) && r.body[s].stack == g.body[s].stack
    ensures s != t ==> r.body[s].openupval == g.body[s].openupval
    ensures s == t ==> g.body[t].openupval != [] && r.body[s].openupval == g.body[t].openupval[..0] + g.body[t].openupval[0 + 1..]
  {
    hide ThreadOk;
    if s == t { assert g.body[t].openupval[..0] + g.body[t].openupval[0 + 1..] == g.body[t].openupval[1..]; }
  }

  lemma ClosedMemberAt(g: G, t: Ref, r: G, s: Ref, j: nat)
    requires UpvalsOk(g) && ClosingOk(g.body, t) && r.body == ClosedBody(g.body, t)
    requires s in r.body && r.body[s].Thread? && s in g.body && g.body[s].Thread? && j < |r.body[s].openupval|
    ensures var w := r.body[s].openupval[j]; w in g.body[s].openupval && w in g.body && w in r.body && r.body[w] == g.body[w]
  {
    ClosedShape(g, t, r, s);
    hide *;
    if s == t {
      TailAt(g.body[t].openupval, j);
      FirstDiffers(g, t, j + 1);
    }
    ClosedMember(g, t, r, s, r.body[s].openupval[j]);
  }

  lemma TailAt(us: seq<Ref>, j: nat)
    requires |us| > 0 && j < |us| - 1
    ensures us[1..][j] == us[j + 1] && us[j + 1] in us
  {
  }

  lemma ClosedMembers(g: G, t: Ref, r: G, s: Ref)
    requires UpvalsOk(g) && ClosingOk(g.body, t) && r.body == ClosedBody(g.body, t)
    requires s in r.body && r.body[s].Thread? && s in g.body && g.body[s].Thread?
    ensures Unchanged(g.body, r.body, s, r.body[s].openupval)
  {
    hide *;
    forall j | 0 <= j < |r.body[s].openupval|
      ensures var w := r.body[s].openupval[j]; w in g.body[s].openupval && w in g.body && w in r.body && r.body[w] == g.body[w]
    {
      ClosedMemberAt(g, t, r, s, j);
    }
    UnchangedNow(g.body, r.body, s, r.body[s].openupval);
  }

  lemma FirstDiffers(g: G, t: Ref, k: nat)
    requires ClosingOk(g.body, t) && 0 < k < |g.body[t].openupval|
    ensures g.body[t].openupval[k] != g.body[t].openupval[0]
  {
    assert ThreadOk(g.body, t);
    hide ThreadOk;
    DescendingOf(g.body, t);
    DescendAt(g.body, g.body[t].openupval, 0, k);
  }

  lemma ClosedMember(g: G, t: Ref, r: G, s: Ref, w: Ref)
    requires ClosingOk(g.body, t) && r.body == ClosedBody(g.body, t)
    requires s in g.body && g.body[s].Thread? && ThreadOk(g.body, s) && w in g.body[s].openupval
    requires s == t ==> w != g.body[t].openupval[0]
    ensures w in g.body && w in r.body && r.body[w] == g.body[w]
  {
    MemberOwned(g.body, s, w);
  }

  lemma LinkedRootList(g: G, t: Ref, r: G)
    requires RootListOk(g) && ClosingOk(g.body, t)
    requires r.body == ClosedBody(g.body, t) && r.rootgc == [g.body[t].openupval[0]] + g.rootgc
    ensures RootListOk(r)
  {
    var u := g.body[t].openupval[0];
    assert u !in g.rootgc;
    NoDupConcat([u], g.rootgc);
  }

  lemma ClosedLists(g: G, t: Ref, r: G)
    requires ListsOk(g) && ClosingOk(g.body, t)
    requires r.body == ClosedBody(g.body, t) && r.uvhead == Remove(g.uvhead, g.body[t].openupval[0])
    requires r.rootgc == [g.body[t].openupval[0]] + g.rootgc && r.colour.Keys == g.colour.Keys
    requires r.strt == g.strt && r.fixed == g.fixed && r.mainthread == g.mainthread
    requires r.sweepstrgc == g.sweepstrgc && r.sweepgc == (if g.sweepgc > 0 then g.sweepgc + 1 else 0)
    ensures ListsOk(r)
  {
    ClosedUpvals(g, t, r);
    LinkedRootList(g, t, r);
    assert StringsOk(r);
    assert FixedOk(r);
  }

  /** The state before the colour of the closed upvalue is looked at. */
  function Relinked(g: G, t: Ref): G
    requires OpenList(g.body, t) != []
  {
    var u := g.body[t].openupval[0];
    if u in g.body && g.body[u].OpenUpval? then
      LinkRoot(g.(uvhead := Remove(g.uvhead, u), body := ClosedBody(g.body, t)), u)
    else g
  }

  lemma RelinkedLists(g: G, t: Ref)
    requires ListsOk(g) && ClosingOk(g.body, t)
    ensures ListsOk(Relinked(g, t))
  {
    ClosedLists(g, t, Relinked(g, t));
  }

  /** No reference changes and no object is born or dies, so liveness is unaffected. */
  lemma SameLive(g: G, r: G)
    requires LiveOk(g)
    requires forall x :: r.Alive(x) <==> g.Alive(x)
    requires forall x, y :: g.Alive(x) && Holds(r.body, x, y) ==> Holds(g.body, x, y)
    requires r.Roots() == g.Roots() && r.mainthread == g.mainthread && r.running == g.running
    requires g.mainthread in r.body && r.body[g.mainthread].Thread?
    requires g.running in r.body && r.body[g.running].Thread?
    ensures LiveOk(r)
  {
    forall x | r.Alive(x) ensures HoldsAlive(r, x) {
      assert HoldsAlive(g, x);
    }
  }

  lemma RelinkedLive(g: G, t: Ref)
    requires g.body.Keys == g.colour.Keys && LiveOk(g) && ClosingOk(g.body, t)
    ensures LiveOk(Relinked(g, t))
  {
    var r := Relinked(g, t);
    assert forall x :: r.Alive(x) <==> g.Alive(x);
    forall x, y | g.Alive(x) && Holds(r.body, x, y) ensures Holds(g.body, x, y) {
      ClosedRefers(g.body, t, x, y);
    }
    assert r.Roots() == g.Roots();
    SameLive(g, r);
  }

  /** Recolouring live objects with colours that are not dead. */
  lemma RecolourLive(g: G, r: G)
    requires LiveOk(g) && r == g.(colour := r.colour, gray := r.gray, grayagain := r.grayagain)
    requires forall x :: r.Alive(x) <==> g.Alive(x)
    ensures LiveOk(r)
  {
    assert r.Roots() == g.Roots();
    SameLive(g, r);
  }

  /** CloseOne on an upvalue that is not dead, in terms of the relinked state. */
  lemma CloseOneIs(g: G, t: Ref)
    requires ClosingOk(g.body, t) && !g.IsDead(g.body[t].openupval[0]) && g.body.Keys == g.colour.Keys
    ensures var u := g.body[t].openupval[0];
      var q := Relinked(g, t);
      CloseOne(g, t) ==
        if g.colour[u] != Gray then q
        else if g.phase == Propagate then
          Barrier(q.(colour := q.colour[u := Black]), u, StackValue(g.body, t, g.body[u].slot))
        else Whiten(q, u)
  {
  }

  /** Closing while marking: a gray upvalue turns black and its value is marked. */
  lemma ClosedTriColour(g: G, t: Ref)
    requires g.phase == Propagate && TriColour(g, false, false) && ClosingOk(g.body, t)
    requires NoDead(g)
    ensures var r := CloseOne(g, t);
      && TriColour(r, false, false)
      && r == Relinked(g, t).(colour := r.colour, gray := r.gray)
      && r.colour.Keys == g.colour.Keys
      && (forall x :: x in g.body && r.colour[x].White? ==> r.colour[x] == g.colour[x])
  {
    var u := g.body[t].openupval[0];
    CloseOneIs(g, t);
    assert KindOk(g, u);
    if g.colour[u] == Gray { ClosedGray(g, t); } else { RelinkedTriColour(g, t); }
  }

  /** The colours while the value of a gray closed upvalue is being marked. */
  function Blackened(g: G, t: Ref): G
    requires OpenList(g.body, t) != []
  {
    var q := Relinked(g, t);
    q.(colour := q.colour[g.body[t].openupval[0] := Black])
  }

  function BlackenedMarks(g: G, t: Ref): Marks
    requires OpenList(g.body, t) != []
  {
    var b := Blackened(g, t);
    var v := if g.body[t].openupval[0] in g.body && g.body[g.body[t].openupval[0]].OpenUpval?
             then StackValue(g.body, t, g.body[g.body[t].openupval[0]].slot) else Nil;
    if v.Gc? && IsWhite(b.colour, v.ref) then Mark(b.body, b.MarkState(), v.ref) else b.MarkState()
  }

  lemma BlackenedExtends(g: G, t: Ref)
    requires g.body.Keys == g.colour.Keys && ClosingOk(g.body, t)
    ensures Extends(Blackened(g, t).body, Blackened(g, t).MarkState(), BlackenedMarks(g, t))
    ensures forall y :: Refers(Blackened(g, t).body, g.body[t].openupval[0], y) ==> !IsWhite(BlackenedMarks(g, t).colour, y)
  {
    var u := g.body[t].openupval[0];
    var b := Blackened(g, t);
    var v := StackValue(g.body, t, g.body[u].slot);
    assert b.body.Keys == b.colour.Keys;
    if v.Gc? && IsWhite(b.colour, v.ref) {
      MarkExtends(b.body, b.MarkState(), v.ref);
    } else {
      ExtendsRefl(b.body, b.MarkState());
    }
    assert Children(b.body, u) == [v];
  }

  lemma BlackenedLists(g: G, t: Ref)
    requires TriColour(g, false, false) && ClosingOk(g.body, t)
    requires Extends(Blackened(g, t).body, Blackened(g, t).MarkState(), BlackenedMarks(g, t))
    ensures var m := BlackenedMarks(g, t);
      && GrayListOk(Blackened(g, t).WithMarks(m), m.gray) && GrayListOk(Blackened(g, t).WithMarks(m), g.grayagain)
      && NoDup(m.gray + g.grayagain)
  {
    var b := Blackened(g, t);
    assert GrayListOk(b, b.gray) && GrayListOk(b, b.grayagain) by {
      assert !g.body[g.body[t].openupval[0]].Traversable();
      assert !g.body[t].OpenUpval?;
    }
    ExtendLists(b, BlackenedMarks(g, t));
  }

  lemma ClosedGray(g: G, t: Ref)
    requires g.phase == Propagate && TriColour(g, false, false) && ClosingOk(g.body, t)
    requires g.colour[g.body[t].openupval[0]] == Gray
    ensures var r := CloseOne(g, t);
      && TriColour(r, false, false)
      && r == Relinked(g, t).(colour := r.colour, gray := r.gray)
      && r.colour.Keys == g.colour.Keys
      && (forall x :: x in g.body && r.colour[x].White? ==> r.colour[x] == g.colour[x])
  {
    CloseOneIs(g, t);
    var b, m := Blackened(g, t), BlackenedMarks(g, t);
    assert CloseOne(g, t) == b.WithMarks(m);
    BlackenedExtends(g, t);
    BlackenedLists(g, t);
    BlackenedTriColour(g, t, b, m);
    ExtendsWhite(b.body, b.MarkState(), m);
  }

  lemma RelinkedTriColour(g: G, t: Ref)
    requires TriColour(g, false, false) && ClosingOk(g.body, t) && g.colour[g.body[t].openupval[0]] != Gray
    ensures TriColour(Relinked(g, t), false, false)
  {
    var u := g.body[t].openupval[0];
    var r := Relinked(g, t);
    forall x | x in r.body
      ensures KindOk(r, x)
      ensures r.colour[x] == Black ==> BlackOk(r, x)
      ensures r.colour[x] == Gray ==> GrayOk(r, x, false, false)
    {
      assert KindOk(g, x);
      if g.colour[x] == Gray { assert GrayOk(g, x, false, false); }
      if g.colour[x] == Black {
        forall y | Holds(r.body, x, y) ensures !IsWhite(r.colour, y) {
          ClosedRefers(g.body, t, x, y);
          assert BlackOk(g, x);
        }
      }
    }
  }

  lemma BlackenedTriColour(g: G, t: Ref, b: G, m: Marks)
    requires TriColour(g, false, false) && ClosingOk(g.body, t) && g.colour[g.body[t].openupval[0]] == Gray
    requires var q := Relinked(g, t); b == q.(colour := q.colour[g.body[t].openupval[0] := Black])
    requires Extends(b.body, b.MarkState(), m)
    requires forall y :: Refers(b.body, g.body[t].openupval[0], y) ==> !IsWhite(m.colour, y)
    requires GrayListOk(b.WithMarks(m), m.gray) && GrayListOk(b.WithMarks(m), g.grayagain)
    requires NoDup(m.gray + g.grayagain)
    ensures TriColour(b.WithMarks(m), false, false)
  {
    var u := g.body[t].openupval[0];
    var r := b.WithMarks(m);
    assert forall y :: IsWhite(r.colour, y) ==> IsWhite(g.colour, y);
    forall x | x in r.body
      ensures KindOk(r, x)
      ensures r.colour[x] == Black ==> BlackOk(r, x)
      ensures r.colour[x] == Gray ==> GrayOk(r, x, false, false)
    {
      assert KindOk(g, x);
      if m.colour[x] != b.MarkState().colour[x] { assert Settled(b.body, m, x); }
      if g.colour[x] == Gray && x != u {
        assert GrayOk(g, x, false, false);
        if x in g.gray { assert x in m.gray[|m.gray| - |g.gray|..]; }
      }
      if g.colour[x] == Black {
        forall y | Holds(r.body, x, y) ensures !IsWhite(r.colour, y) {
          ClosedRefers(g.body, t, x, y);
          assert BlackOk(g, x);
        }
      }
    }
  }

  lemma CloseAliveInv(g: G, t: Ref)
    requires Inv(g) && OpenList(g.body, t) != [] && !g.IsDead(g.body[t].openupval[0])
    ensures Inv(CloseOne(g, t))
  {
    ClosingReady(g, t);
    RelinkedLists(g, t);
    RelinkedLive(g, t);
    if g.phase == Propagate { ClosePropagate(g, t); } else { CloseElsewhere(g, t); }
  }

  lemma ClosePropagate(g: G, t: Ref)
    requires Inv(g) && ClosingOk(g.body, t) && g.phase == Propagate
    requires ListsOk(Relinked(g, t)) && LiveOk(Relinked(g, t))
    ensures Inv(CloseOne(g, t))
  {
    ClosedTriColour(g, t);
    ClosePropagateRest(g, Relinked(g, t), CloseOne(g, t));
  }

  lemma ClosePropagateRest(g: G, q: G, r: G)
    requires ListsOk(q) && LiveOk(q) && g.phase == q.phase == Propagate
    requires q.cw == g.cw && q.registry == g.registry && q.mainthread == g.mainthread && q.colour == g.colour
    requires g.body.Keys == q.body.Keys && NoDead(g)
    requires !IsWhite(g.colour, g.mainthread) && (g.registry.Gc? ==> !IsWhite(g.colour, g.registry.ref))
    requires TriColour(r, false, false) && r == q.(colour := r.colour, gray := r.gray)
    requires r.colour.Keys == g.colour.Keys == g.body.Keys
    requires forall x :: x in g.body && r.colour[x].White? ==> r.colour[x] == g.colour[x]
    ensures Inv(r)
  {
    RecolourLists(q, r);
    RecolourLive(q, r);
  }

  lemma RecolourLists(q: G, r: G)
    requires ListsOk(q) && r == q.(colour := r.colour, gray := r.gray, grayagain := r.grayagain)
    requires r.colour.Keys == q.colour.Keys
    ensures ListsOk(r)
  {
    assert StringsOk(r);
    assert RootListOk(r);
    assert UpvalsOk(r);
    assert FixedOk(r);
  }

  lemma CloseElsewhere(g: G, t: Ref)
    requires Inv(g) && ClosingOk(g.body, t) && g.phase != Propagate
    requires !g.IsDead(g.body[t].openupval[0])
    requires ListsOk(Relinked(g, t)) && LiveOk(Relinked(g, t))
    ensures Inv(CloseOne(g, t))
  {
    hide ListsOk, LiveOk, ColoursOk, Relinked, CloseOne;
    ElsewhereIs(g, t);
    WhitenedLists(g, Relinked(g, t), CloseOne(g, t), g.body[t].openupval[0]);
    ElsewhereColours(g, t);
  }

  lemma ElsewhereIs(g: G, t: Ref)
    requires ListsOk(g) && ClosingOk(g.body, t) && g.phase != Propagate && !g.IsDead(g.body[t].openupval[0])
    ensures var u := g.body[t].openupval[0]; var q := Relinked(g, t);
      && (CloseOne(g, t) == q || CloseOne(g, t) == Whiten(q, u))
      && u in q.colour && !q.IsDead(u)
  {
    hide ListsOk;
    ListsKeys(g);
    CloseOneIs(g, t);
  }

  lemma ListsKeys(g: G)
    requires ListsOk(g)
    ensures g.body.Keys == g.colour.Keys
  {
  }

  lemma ElsewhereColours(g: G, t: Ref)
    requires Inv(g) && ClosingOk(g.body, t) && g.phase != Propagate && !g.IsDead(g.body[t].openupval[0])
    requires ListsOk(CloseOne(g, t))
    ensures ColoursOk(CloseOne(g, t))
  {
    hide ListsOk, LiveOk, CloseOne, Relinked;
    ListsKeys(g);
    CloseOneIs(g, t);
    ElsewhereState(g, t);
    if g.phase == SweepString || g.phase == Sweep {
      assert KindOk(g, g.body[t].openupval[0]);
      CloseSweeping(g, t, Relinked(g, t), CloseOne(g, t));
    }
  }

  lemma ElsewhereState(g: G, t: Ref)
    requires g.body.Keys == g.colour.Keys && ClosingOk(g.body, t)
    ensures var q := Relinked(g, t);
      q.colour == g.colour && q.phase == g.phase && q.cw == g.cw && q.body.Keys == g.body.Keys
  {
  }

  lemma WhitenedLists(g: G, q: G, r: G, u: Ref)
    requires ListsOk(q) && LiveOk(q) && u in q.colour && !q.IsDead(u)
    requires r == q || r == Whiten(q, u)
    ensures ListsOk(r) && LiveOk(r)
  {
    RecolourLists(q, r);
    assert forall x :: r.Alive(x) <==> q.Alive(x);
    RecolourLive(q, r);
  }

  lemma CloseSweeping(g: G, t: Ref, q: G, r: G)
    requires ListsOk(g) && ColoursOk(g) && ClosingOk(g.body, t) && (g.phase == SweepString || g.phase == Sweep)
    requires q == Relinked(g, t) && r == q.(colour := r.colour)
    requires r.colour == g.colour[g.body[t].openupval[0] := White(g.cw)]
    ensures r.body.Keys == r.colour.Keys && r.sweepgc <= |r.rootgc| && ColoursOk(r)
  {
    forall x | x in r.body
      ensures KindOk(r, x) && (Swept(r, x) ==> r.colour[x] == White(r.cw))
    {
      CloseSwept(g, t, q, r, x);
    }
  }

  lemma CloseSwept(g: G, t: Ref, q: G, r: G, x: Ref)
    requires ListsOk(g) && ClosingOk(g.body, t) && x in g.body
    requires KindOk(g, x) && (Swept(g, x) ==> g.colour[x] == White(g.cw))
    requires q == Relinked(g, t) && r == q.(colour := r.colour)
    requires r.colour == g.colour[g.body[t].openupval[0] := White(g.cw)]
    ensures r.sweepgc <= |r.rootgc|
    ensures KindOk(r, x) && (Swept(r, x) ==> r.colour[x] == White(r.cw))
  {
    var u := g.body[t].openupval[0];
    if x != u && Swept(r, x) { SweptBefore(g, t, q, r, x); }
  }

  lemma SweptBefore(g: G, t: Ref, q: G, r: G, x: Ref)
    requires ListsOk(g) && ClosingOk(g.body, t) && x in g.body && x != g.body[t].openupval[0]
    requires q == Relinked(g, t) && r == q.(colour := r.colour)
    requires r.sweepgc <= |r.rootgc| && Swept(r, x)
    ensures Swept(g, x)
  {
    hide ThreadOk, StringsOk, RootListOk, FixedOk;
    var u := g.body[t].openupval[0];
    if g.sweepgc > 0 { assert r.rootgc[..r.sweepgc] == [u] + g.rootgc[..g.sweepgc]; }
    if g.body[x].OpenUpval? { assert g.body[g.body[x].thread].Thread?; }
  }
}
