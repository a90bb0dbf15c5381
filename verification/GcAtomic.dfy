/** The two ends of the mark phase: markroot (lgc.c:501-512) and atomic (lgc.c:515-560). */
module GcAtomic {
  import opened GcHeap
  import opened GcMark
  import opened GcState
  import opened GcPropagate

  function MainGlobals(g: G): Value {
    if g.mainthread in g.body && g.body[g.mainthread].Thread? then g.body[g.mainthread].gt else Nil
  }

  function MarkRoot(g: G): G {
    g.WithMarks(MarkAll(g.body, Marks(g.colour, []),
                        [Gc(g.mainthread), MainGlobals(g), g.registry] + g.mt))
     .(grayagain := [], phase := Propagate)
  }

  /** remarkupvals: mark again what the gray open upvalues point to. */
  function RemarkUpvals(g: G, us: seq<Ref>): (r: G)
    ensures r.body == g.body && r.colour.Keys == g.colour.Keys
    decreases |us|
  {
    if us == [] then g
    else if us[0] in g.body && us[0] in g.colour && g.colour[us[0]] == Gray then
      RemarkUpvals(g.WithMarks(MarkAll(g.body, g.MarkState(), Children(g.body, us[0]))), us[1..])
    else RemarkUpvals(g, us[1..])
  }

  function RemarkRoots(g: G): G {
    g.WithMarks(MarkAll(g.body, g.MarkState(), [Gc(g.running)] + g.mt))
  }

  function GrayAgain(g: G): G {
    g.(gray := g.grayagain, grayagain := [])
  }

  /** Everything `atomic' marks, before the current white is flipped. */
  function AtomicMark(g: G): (r: G)
    requires g.body.Keys == g.colour.Keys
    ensures r.body.Keys == g.body.Keys == r.colour.Keys
  {
    var g1 := PropagateAll(RemarkUpvals(g, g.uvhead));
    var g2 := PropagateAll(RemarkRoots(g1));
    PropagateAll(GrayAgain(g2))
  }

  function Atomic(g: G): G
    requires g.body.Keys == g.colour.Keys
  {
    AtomicMark(g).(cw := !g.cw, sweepstrgc := 0, sweepgc := 0, phase := SweepString)
  }

  // ---- What marking leaves alone --------------------------------------------------------

  predicate Cleaning(h: Heap, h': Heap) {
    h.Keys == h'.Keys && forall x :: x in h ==> h'[x] == h[x] || h'[x] == Cleaned(h[x])
  }

  /** The marking steps change colours of white objects, remove empty table entries, and
      touch no list but the two gray ones. */
  ghost predicate Marking(g: G, r: G) {
    && r == g.(body := r.body, colour := r.colour, gray := r.gray, grayagain := r.grayagain)
    && Cleaning(g.body, r.body)
    && r.colour.Keys == g.colour.Keys == g.body.Keys
    && forall x :: x in g.body && r.colour[x].White? ==> r.colour[x] == g.colour[x]
  }

  lemma CleanedTwice(b: Body)
    ensures Cleaned(Cleaned(b)) == Cleaned(b)
  {
  }

  lemma MarkingTrans(g: G, q: G, r: G)
    requires Marking(g, q) && Marking(q, r)
    ensures Marking(g, r)
  {
    forall x | x in g.body ensures r.body[x] == g.body[x] || r.body[x] == Cleaned(g.body[x]) {
      CleanedTwice(g.body[x]);
    }
  }

  lemma ExtendMarking(g: G, m: Marks)
    requires Extends(g.body, g.MarkState(), m)
    ensures Marking(g, g.WithMarks(m))
  {
    assert forall x :: x in g.body && m.colour[x] != g.MarkState().colour[x] ==> Settled(g.body, m, x);
  }

  lemma PropagateMarking(g: G)
    requires g.body.Keys == g.colour.Keys && |g.gray| > 0
    ensures Marking(g, PropagateMark(g))
  {
    var o := g.gray[0];
    if o in g.body && g.body[o].Traversable() && !IsWhite(g.colour, o) {
      var s := if g.body[o].Thread? then Marks(g.colour, g.gray[1..]) else Marks(g.colour[o := Black], g.gray[1..]);
      MarkAllExtends(g.body, s, Children(g.body, o));
      ExtendsWhite(g.body, s, MarkAll(g.body, s, Children(g.body, o)));
      hide MarkAll, Children, Extends;
    }
  }

  lemma {:induction false} PropagateAllMarking(g: G)
    requires g.body.Keys == g.colour.Keys
    ensures Marking(g, PropagateAll(g))
    decreases Whites(g.colour), |g.gray|
  {
    if g.gray != [] {
      PropagateProgress(g);
      PropagateMarking(g);
      PropagateAllMarking(PropagateMark(g));
      MarkingTrans(g, PropagateMark(g), PropagateAll(g));
    }
  }

  lemma CleaningRefers(h: Heap, h': Heap, x: Ref, y: Ref)
    requires Cleaning(h, h')
    ensures Refers(h', x, y) == Refers(h, x, y)
    ensures Holds(h', x, y) ==> Holds(h, x, y)
  {
    if x in h {
      if h[x].OpenUpval? {
        var t, i := h[x].thread, h[x].slot;
        assert StackValue(h', t, i) == StackValue(h, t, i);
      } else {
        CleanedHere(h, h', x);
        if h'[x] != h[x] && Holds(h', x, y) && !Refers(h', x, y) {
          var n :| n in h'[x].nodes && n.key == Live(Gc(y));
          EmptyKeyGone(h, x, n, y);
        }
      }
    }
  }

  lemma CleanedHere(h: Heap, h': Heap, x: Ref)
    requires Cleaning(h, h') && x in h && !h[x].OpenUpval?
    ensures Children(h', x) == Children(h, x)
  {
    if h'[x] != h[x] { CleanedNodes(h[x].nodes); }
  }

  predicate NoDead(g: G) {
    forall x :: x in g.body && x in g.colour ==> g.colour[x] != White(!g.cw)
  }

  /** Lists and liveness do not notice marking, while there is no dead object. */
  lemma MarkingKeeps(g: G, r: G)
    requires Marking(g, r) && ListsOk(g) && LiveOk(g) && NoDead(g)
    ensures ListsOk(r) && LiveOk(r) && NoDead(r) && r.Roots() == g.Roots()
  {
    MarkingLists(g, r);
    MarkingLive(g, r);
  }

  lemma MarkingLive(g: G, r: G)
    requires Marking(g, r) && LiveOk(g) && NoDead(g)
    ensures LiveOk(r) && NoDead(r) && r.Roots() == g.Roots()
  {
    assert forall x :: g.Alive(x) <==> r.Alive(x);
    forall x | r.Alive(x) ensures HoldsAlive(r, x) {
      assert HoldsAlive(g, x);
      forall y | Holds(r.body, x, y) ensures r.Alive(y) { CleaningRefers(g.body, r.body, x, y); }
    }
    assert r.body[g.mainthread] == g.body[g.mainthread] && r.body[g.running] == g.body[g.running];
  }

  /** Only the contents of tables differ. */
  predicate TablesOnly(h: Heap, h': Heap) {
    h.Keys == h'.Keys && forall x :: x in h ==> h'[x] == h[x] || (h'[x].Table? && h[x].Table?)
  }

  lemma MarkingLists(g: G, r: G)
    requires Marking(g, r) && ListsOk(g)
    ensures ListsOk(r)
  {
    assert TablesOnly(g.body, r.body);
    MarkingStrings(g, r);
    MarkingUpvals(g, r);
    assert RootListOk(r);
    assert FixedOk(r);
  }

  lemma MarkingStrings(g: G, r: G)
    requires TablesOnly(g.body, r.body) && StringsOk(g) && r.strt == g.strt
    ensures StringsOk(r)
  {
  }

  lemma MarkingUpvals(g: G, r: G)
    requires TablesOnly(g.body, r.body) && UpvalsOk(g) && r.uvhead == g.uvhead
    ensures UpvalsOk(r)
  {
    forall t | t in r.body && r.body[t].Thread? ensures ThreadOk(r.body, t) {
      assert ThreadOk(g.body, t);
    }
  }

  // ---- markroot -------------------------------------------------------------------------

  /** The state in which markroot starts to mark: white all over, gray lists emptied. */
  function Whitened(g: G): G {
    g.(gray := [], grayagain := [], phase := Propagate)
  }

  lemma WhitenedOk(g: G)
    requires Inv(g) && (g.phase == Pause || g.phase == Finalize)
    ensures ListsOk(Whitened(g)) && LiveOk(Whitened(g)) && TriColour(Whitened(g), false, false)
    ensures NoDead(Whitened(g))
  {
    hide LiveOk, ListsOk;
    WhitenedLists(g);
    WhitenedLive(g);
    WhitenedColours(g);
  }

  lemma WhitenedLists(g: G)
    requires ListsOk(g)
    ensures ListsOk(Whitened(g)) && g.body.Keys == g.colour.Keys
  {
    assert StringsOk(Whitened(g)) && RootListOk(Whitened(g)) && UpvalsOk(Whitened(g)) && FixedOk(Whitened(g));
  }

  lemma WhitenedLive(g: G)
    requires LiveOk(g)
    ensures LiveOk(Whitened(g))
  {
    var s := Whitened(g);
    assert forall x :: g.Alive(x) <==> s.Alive(x);
    assert s.Roots() == g.Roots();
    forall x | s.Alive(x) ensures HoldsAlive(s, x) { assert HoldsAlive(g, x); }
  }

  lemma WhitenedColours(g: G)
    requires Inv(g) && (g.phase == Pause || g.phase == Finalize)
    ensures TriColour(Whitened(g), false, false) && NoDead(Whitened(g))
  {
    hide ListsOk, LiveOk;
    WhitenedLists(g);
  }

  lemma MarkRootMarks(s: G, g: G)
    requires s == Whitened(g) && s.body.Keys == s.colour.Keys && TriColour(s, false, false)
    ensures var r := MarkRoot(g);
      && Marking(s, r) && TriColour(r, false, false)
      && !IsWhite(r.colour, g.mainthread)
      && (g.registry.Gc? ==> !IsWhite(r.colour, g.registry.ref))
  {
    var vs := [Gc(g.mainthread), MainGlobals(g), g.registry] + g.mt;
    var m := MarkAll(g.body, s.MarkState(), vs);
    MarkAllExtends(g.body, s.MarkState(), vs);
    ExtendTriColour(s, m, false, false);
    assert MarkRoot(g) == s.WithMarks(m);
    ExtendMarking(s, m);
    assert vs[0] == Gc(g.mainthread) && vs[2] == g.registry;
  }

  lemma MarkRootInv(g: G)
    requires Inv(g) && (g.phase == Pause || g.phase == Finalize)
    ensures Inv(MarkRoot(g))
  {
    var s, r := Whitened(g), MarkRoot(g);
    WhitenedOk(g);
    MarkRootMarks(s, g);
    MarkingKeeps(s, r);
  }

  // ---- atomic ---------------------------------------------------------------------------

  /** A gray open upvalue whose value is marked. */
  ghost predicate UpvalDone(g: G, u: Ref)
    requires u in g.body && u in g.colour
  {
    g.colour[u] == Gray ==> ChildrenMarked(g.body, g.colour, u)
  }

  lemma {:induction false} RemarkUpvalsMarking(g: G, us: seq<Ref>)
    requires TriColour(g, false, false)
    ensures TriColour(RemarkUpvals(g, us), false, false) && Marking(g, RemarkUpvals(g, us))
    decreases |us|
  {
    if us == [] {
    } else if us[0] in g.body && g.colour[us[0]] == Gray {
      var vs := Children(g.body, us[0]);
      var m := MarkAll(g.body, g.MarkState(), vs);
      MarkAllExtends(g.body, g.MarkState(), vs);
      ExtendTriColour(g, m, false, false);
      ExtendMarking(g, m);
      RemarkUpvalsMarking(g.WithMarks(m), us[1..]);
      MarkingTrans(g, g.WithMarks(m), RemarkUpvals(g, us));
    } else {
      RemarkUpvalsMarking(g, us[1..]);
    }
  }

  /** Once the gray open upvalues have been looked at, all of them have a marked value:
      those in the list, and those marked on the way. */
  lemma {:induction false} RemarkUpvalsOk(g: G, us: seq<Ref>, u: Ref)
    requires TriColour(g, false, false)
    requires u in g.body && g.body[u].OpenUpval? && (u in us || UpvalDone(g, u))
    ensures UpvalDone(RemarkUpvals(g, us), u)
    decreases |us|
  {
    if us == [] {
    } else if us[0] in g.body && g.colour[us[0]] == Gray {
      var vs := Children(g.body, us[0]);
      var m := MarkAll(g.body, g.MarkState(), vs);
      MarkAllExtends(g.body, g.MarkState(), vs);
      ExtendTriColour(g, m, false, false);
      var q := g.WithMarks(m);
      assert forall y :: IsWhite(q.colour, y) ==> IsWhite(g.colour, y);
      if u == us[0] {
        assert UpvalDone(q, u);
      } else if u !in us[1..] {
        if m.colour[u] != g.MarkState().colour[u] { assert Settled(g.body, m, u); }
        assert UpvalDone(q, u);
      }
      RemarkUpvalsOk(q, us[1..], u);
    } else {
      RemarkUpvalsOk(g, us[1..], u);
    }
  }

  lemma RemarkedUpvals(g: G)
    requires TriColour(g, false, false) && ListsOk(g)
    ensures TriColour(RemarkUpvals(g, g.uvhead), true, false) && Marking(g, RemarkUpvals(g, g.uvhead))
  {
    RemarkUpvalsMarking(g, g.uvhead);
    var r := RemarkUpvals(g, g.uvhead);
    forall x | x in r.body && r.colour[x] == Gray ensures GrayOk(r, x, true, false) {
      assert GrayOk(r, x, false, false);
      if r.body[x].OpenUpval? { RemarkUpvalsOk(g, g.uvhead, x); }
    }
  }

  lemma RemarkedRoots(g: G)
    requires TriColour(g, true, false)
    ensures var r := RemarkRoots(g);
      && TriColour(r, true, false) && Marking(g, r)
      && forall y :: Gc(y) in [Gc(g.running)] + g.mt ==> !IsWhite(r.colour, y)
  {
    var vs := [Gc(g.running)] + g.mt;
    MarkAllExtends(g.body, g.MarkState(), vs);
    var m := MarkAll(g.body, g.MarkState(), vs);
    ExtendTriColour(g, m, true, false);
    ExtendMarking(g, m);
  }

  /** Restarting from the grayagain list, every gray object is in the gray list again. */
  lemma GrayAgainTriColour(g: G)
    requires TriColour(g, true, false) && g.gray == []
    ensures TriColour(GrayAgain(g), true, true) && Marking(g, GrayAgain(g))
  {
    var r := GrayAgain(g);
    assert g.gray + g.grayagain == g.grayagain;
    assert r.gray + r.grayagain == r.gray;
    forall x | x in r.body
      ensures KindOk(r, x)
      ensures r.colour[x] == Black ==> BlackOk(r, x)
      ensures r.colour[x] == Gray ==> GrayOk(r, x, true, true)
    {
      assert KindOk(g, x);
      if r.colour[x] == Black { assert BlackOk(g, x); }
      if r.colour[x] == Gray { assert GrayOk(g, x, true, false); }
    }
  }

  lemma AtomicMarkOk(g: G)
    requires TriColour(g, false, false) && ListsOk(g)
    ensures var r := AtomicMark(g);
      && TriColour(r, true, true) && Marking(g, r) && r.gray == []
      && forall y :: Gc(y) in [Gc(g.running)] + g.mt ==> !IsWhite(r.colour, y)
  {
    var g0 := RemarkUpvals(g, g.uvhead);
    RemarkedUpvals(g);
    var g1 := PropagateAll(g0);
    PropagateAllTriColour(g0, true, false);
    PropagateAllMarking(g0);
    MarkingTrans(g, g0, g1);
    var q1 := RemarkRoots(g1);
    RemarkedRoots(g1);
    MarkingTrans(g, g1, q1);
    var g2 := PropagateAll(q1);
    PropagateAllTriColour(q1, true, false);
    PropagateAllMarking(q1);
    MarkingTrans(g, q1, g2);
    var q2 := GrayAgain(g2);
    GrayAgainTriColour(g2);
    MarkingTrans(g, g2, q2);
    var r := PropagateAll(q2);
    PropagateAllTriColour(q2, true, true);
    PropagateAllMarking(q2);
    MarkingTrans(g, q2, r);
    MarkingTrans(q1, g2, q2);
    MarkingTrans(q1, q2, r);
  }

  /** When nothing is left to traverse, marked objects hold marked objects only. */
  lemma MarkedIsClosed(g: G, x: Ref, y: Ref)
    requires TriColour(g, true, true) && g.gray == [] && x in g.body && !IsWhite(g.colour, x)
    requires Holds(g.body, x, y)
    ensures !IsWhite(g.colour, y)
  {
    if g.colour[x] == Black {
      assert BlackOk(g, x);
    } else {
      assert GrayOk(g, x, true, true);
    }
  }

  /** Both whites swap their meaning: exactly the marked objects are not dead. */
  lemma FlipAlive(q: G, r: G, x: Ref)
    requires r == q.(cw := !q.cw, sweepstrgc := 0, sweepgc := 0, phase := SweepString)
    requires x in q.body && x in q.colour && q.colour[x] != White(!q.cw)
    ensures r.Alive(x) <==> !IsWhite(q.colour, x)
  {
  }

  lemma AtomicMarked(g: G)
    requires Inv(g) && g.phase == Propagate
    ensures var q := AtomicMark(g);
      && ListsOk(q) && LiveOk(q) && NoDead(q) && q.Roots() == g.Roots() && q.cw == g.cw
      && TriColour(q, true, true) && q.gray == []
      && (forall y :: Gc(y) in g.Roots() ==> !IsWhite(q.colour, y))
  {
    AtomicMarkOk(g);
    var q := AtomicMark(g);
    MarkingKeeps(g, q);
    RootsMarked(g, q);
  }

  lemma RootsMarked(g: G, q: G)
    requires Marking(g, q)
    requires forall y :: Gc(y) in [Gc(g.running)] + g.mt ==> !IsWhite(q.colour, y)
    requires !IsWhite(g.colour, g.mainthread) && (g.registry.Gc? ==> !IsWhite(g.colour, g.registry.ref))
    ensures forall y :: Gc(y) in g.Roots() ==> !IsWhite(q.colour, y)
  {
    forall y | Gc(y) in g.Roots() ensures !IsWhite(q.colour, y) {
      var vs := [Gc(g.running)] + g.mt;
      if Gc(y) in g.mt { assert Gc(y) in vs; }
      assert vs[0] == Gc(g.running);
    }
  }

  lemma FlipLists(q: G, r: G)
    requires r == q.(cw := !q.cw, sweepstrgc := 0, sweepgc := 0, phase := SweepString)
    requires ListsOk(q)
    ensures ListsOk(r)
  {
    assert StringsOk(r);
    assert RootListOk(r);
    assert UpvalsOk(r);
    assert FixedOk(r);
  }

  /** The flip: the survivors are closed under references, so no live object holds a dead one. */
  lemma AtomicInv(g: G)
    requires Inv(g) && g.phase == Propagate
    ensures Inv(Atomic(g))
  {
    AtomicMarked(g);
    FlipInv(AtomicMark(g), Atomic(g));
  }

  lemma FlipInv(q: G, r: G)
    requires r == q.(cw := !q.cw, sweepstrgc := 0, sweepgc := 0, phase := SweepString)
    requires ListsOk(q) && LiveOk(q) && NoDead(q) && TriColour(q, true, true) && q.gray == []
    requires forall y :: Gc(y) in q.Roots() ==> !IsWhite(q.colour, y)
    ensures Inv(r)
  {
    FlipLists(q, r);
    AtomicLive(q, r);
    AtomicColours(q, r);
  }

  lemma AtomicLive(q: G, r: G)
    requires r == q.(cw := !q.cw, sweepstrgc := 0, sweepgc := 0, phase := SweepString)
    requires LiveOk(q) && TriColour(q, true, true) && q.gray == []
    requires NoDead(q)
    requires forall y :: Gc(y) in q.Roots() ==> !IsWhite(q.colour, y)
    ensures LiveOk(r)
  {
    assert r.Roots() == q.Roots();
    forall x | r.Alive(x) ensures HoldsAlive(r, x) {
      FlipAlive(q, r, x);
      assert q.Alive(x) && HoldsAlive(q, x);
      forall y | Holds(r.body, x, y) ensures r.Alive(y) {
        assert q.Alive(y);
        MarkedIsClosed(q, x, y);
        FlipAlive(q, r, y);
      }
    }
    forall y | Gc(y) in r.Roots() ensures r.Alive(y) {
      assert q.Alive(y);
      FlipAlive(q, r, y);
    }
    assert r.Roots()[0] == Gc(r.mainthread) && r.Roots()[1] == Gc(r.running);
  }

  lemma AtomicColours(q: G, r: G)
    requires r == q.(cw := !q.cw, sweepstrgc := 0, sweepgc := 0, phase := SweepString)
    requires TriColour(q, true, true) && |q.strt| > 0
    ensures r.body.Keys == r.colour.Keys && ColoursOk(r)
  {
    forall x | x in r.body ensures KindOk(r, x) && !Swept(r, x) {
      assert KindOk(q, x);
    }
  }
}
