/** The collector in its own form: an object whose fields its methods update in place, with
    the loops of lgc.c, lfunc.c and lstring.c. Each method is proved against the function on
    states that the invariants and the safety theorems are about. */
module GcCollector {
  import opened GcHeap
  import opened GcMark
  import opened GcState
  import opened GcPropagate
  import opened GcAtomic
  import opened GcBarrier
  import opened GcClose
  import opened GcSweep
  import opened GcStep
  import opened GcFull
  import opened GcKeeps
  import opened GcUpvals
  import opened GcMutator
  import opened GcAlloc

  // ---- Marking a list in pieces ---------------------------------------------------------

  lemma {:induction false} MarkAllConcat(h: Heap, m: Marks, a: seq<Value>, b: seq<Value>)
    ensures MarkAll(h, m, a + b) == MarkAll(h, MarkAll(h, m, a), b)
    decreases Whites(m.colour), |a|
  {
    if a == [] {
      assert a + b == b;
    } else {
      assert (a + b)[1..] == a[1..] + b;
      MarkAllConcat(h, MarkValue(h, m, a[0]), a[1..], b);
    }
  }

  lemma MarkAllLast(h: Heap, m: Marks, a: seq<Value>, v: Value)
    ensures MarkAll(h, m, a + [v]) == MarkValue(h, MarkAll(h, m, a), v)
  {
    MarkAllConcat(h, m, a, [v]);
    assert [v][1..] == [];
  }

  lemma MarkAllOne(h: Heap, m: Marks, v: Value)
    ensures MarkAll(h, m, [v]) == MarkValue(h, m, v)
  {
    assert [v][1..] == [];
  }

  lemma MarkThree(h: Heap, m: Marks, m1: Marks, m2: Marks, m3: Marks, a: Value, b: Value, c: Value)
    requires m1 == MarkValue(h, m, a) && m2 == MarkValue(h, m1, b) && m3 == MarkValue(h, m2, c)
    ensures m3 == MarkAll(h, m, [a, b, c])
  {
    hide Mark, MarkAll;
    MarkAllOne(h, m, a);
    MarkAllLast(h, m, [a], b);
    MarkAllLast(h, m, [a, b], c);
    assert [a] + [b] == [a, b] && [a, b] + [c] == [a, b, c];
  }

  lemma MarkRootIs(g: G, m: Marks, r: Marks)
    requires m == MarkAll(g.body, Marks(g.colour, []), [Gc(g.mainthread), MainGlobals(g), g.registry])
    requires r == MarkAll(g.body, m, g.mt)
    ensures MarkRoot(g) == g.(gray := r.gray, grayagain := [], colour := r.colour, phase := Propagate)
  {
    hide MarkAll;
    MarkAllConcat(g.body, Marks(g.colour, []), [Gc(g.mainthread), MainGlobals(g), g.registry], g.mt);
  }

  lemma NodesBack(ns: seq<Node>, i: nat)
    requires i < |ns|
    ensures NodeValues(ns[..i + 1]) == EntryValues(ns[i]) + NodeValues(ns[..i])
    ensures (ns[..i + 1] + RemoveEntries(ns[i + 1..]))[i] == ns[i]
    ensures (ns[..i + 1] + RemoveEntries(ns[i + 1..]))[i := RemoveEntry(ns[i])] == ns[..i] + RemoveEntries(ns[i..])
  {
    assert ns[..i + 1][..i] == ns[..i] && ns[..i + 1][i] == ns[i];
    var rs, qs := RemoveEntries(ns[i + 1..]), RemoveEntries(ns[i..]);
    var s := (ns[..i + 1] + rs)[i := RemoveEntry(ns[i])];
    forall k | 0 <= k < |ns| ensures s[k] == (ns[..i] + qs)[k] {
      if k > i { assert rs[k - i - 1] == RemoveEntry(ns[k]) == qs[k - i]; }
    }
    assert s == ns[..i] + qs;
  }

  lemma CleanedSame(h: Heap, o: Ref)
    requires o in h && !h[o].Table?
    ensures h[o := Cleaned(h[o])] == h
  {
  }

  class GlobalState {
    var body: Heap
    var colour: Colours
    var fixed: set<Ref>
    var strt: seq<seq<Ref>>
    var rootgc: seq<Ref>
    var uvhead: seq<Ref>
    var gray: seq<Ref>
    var grayagain: seq<Ref>
    var cw: bool
    var phase: Phase
    var sweepstrgc: nat
    var sweepgc: nat
    var mainthread: Ref
    var running: Ref
    var registry: Value
    var mt: seq<Value>

    function Snap(): G
      reads this
    {
      G(body, colour, fixed, strt, rootgc, uvhead, gray, grayagain, cw, phase, sweepstrgc, sweepgc,
        mainthread, running, registry, mt)
    }

    // ---- Marking ------------------------------------------------------------------------

    /** markobject */
    method MarkObject(x: Ref)
      modifies this`colour, this`gray
      ensures Marks(colour, gray) == Mark(body, old(Marks(colour, gray)), x)
      decreases Whites(colour), 2
    {
      if x in body && x in colour && colour[x].White? {
        ReallyMarkObject(x);
      }
    }

    /** markvalue */
    method MarkTValue(v: Value)
      modifies this`colour, this`gray
      ensures Marks(colour, gray) == MarkValue(body, old(Marks(colour, gray)), v)
      decreases Whites(colour), 3
    {
      if v.Gc? { MarkObject(v.ref); }
    }

    /** reallymarkobject */
    method ReallyMarkObject(x: Ref)
      requires x in body && IsWhite(colour, x)
      modifies this`colour, this`gray
      ensures Marks(colour, gray) == Mark(body, old(Marks(colour, gray)), x)
      decreases Whites(colour), 1
    {
      ghost var c0 := colour;
      assert x in Whites(c0);
      colour := colour[x := Gray];
      assert x !in Whites(colour) && x !in Whites(colour[x := Black]);
      match body[x]
      case Str(_) =>
      case Udata(mt, env) =>
        colour := colour[x := Black];
        assert colour == c0[x := Black];
        ghost var m := Marks(colour, gray);
        if mt.Some? {
          MarkObject(mt.value);
          MarkAllConcat(body, m, [Gc(mt.value)], [Gc(env)]);
          MarkAllOne(body, m, Gc(mt.value));
        } else {
          assert OptRef(mt) + [Gc(env)] == [Gc(env)];
        }
        MarkAllOne(body, Marks(colour, gray), Gc(env));
        MarkObject(env);
      case OpenUpval(t, i) =>
        MarkAllOne(body, Marks(colour, gray), StackValue(body, t, i));
        MarkTValue(StackValue(body, t, i));
      case ClosedUpval(v) =>
        MarkAllOne(body, Marks(colour, gray), v);
        MarkTValue(v);
        colour := colour[x := Black];
      case _ =>
        gray := [x] + gray;
    }

    // ---- Traversals ---------------------------------------------------------------------

    /** traversetable */
    method TraverseTable(o: Ref)
      requires o in body && body[o].Table?
      modifies this`colour, this`gray, this`body
      ensures Marks(colour, gray) == MarkAll(old(body), old(Marks(colour, gray)), Children(old(body), o))
      ensures body == old(body)[o := Cleaned(old(body)[o])]
    {
      ghost var h, m0 := body, Marks(colour, gray);
      var t := body[o];
      if t.tmeta.Some? {
        MarkObject(t.tmeta.value);
        MarkAllOne(h, m0, Gc(t.tmeta.value));
      }
      ghost var m1 := Marks(colour, gray);
      assert m1 == MarkAll(h, m0, OptRef(t.tmeta));
      MarkArray(t.arr);
      ghost var m2 := Marks(colour, gray);
      MarkAllConcat(h, m0, OptRef(t.tmeta), Reverse(t.arr));
      MarkNodes(o);
      MarkAllConcat(h, m0, OptRef(t.tmeta) + Reverse(t.arr), NodeValues(t.nodes));
    }

    /** The array part of a table, from the last slot down. */
    method MarkArray(arr: seq<Value>)
      modifies this`colour, this`gray
      ensures Marks(colour, gray) == MarkAll(body, old(Marks(colour, gray)), Reverse(arr))
    {
      var i := |arr|;
      assert arr[..i] == arr;
      while i > 0
        invariant 0 <= i <= |arr|
        invariant MarkAll(body, Marks(colour, gray), Reverse(arr[..i])) == MarkAll(body, old(Marks(colour, gray)), Reverse(arr))
      {
        i := i - 1;
        assert arr[..i + 1][..i] == arr[..i];
        assert Reverse(arr[..i + 1])[1..] == Reverse(arr[..i]);
        MarkTValue(arr[i]);
      }
    }

    /** The node vector of a table, from the last node down: empty entries lose their key,
        the others mark key and value. */
    method MarkNodes(o: Ref)
      requires o in body && body[o].Table?
      modifies this`colour, this`gray, this`body
      ensures Marks(colour, gray) == MarkAll(old(body), old(Marks(colour, gray)), NodeValues(old(body)[o].nodes))
      ensures body == old(body)[o := Cleaned(old(body)[o])]
    {
      ghost var h := body;
      var ns := body[o].nodes;
      var i := |ns|;
      assert ns[..i] == ns;
      while i > 0
        invariant 0 <= i <= |ns|
        invariant o in body && body[o].Table? && body == h[o := h[o].(nodes := body[o].nodes)]
        invariant body[o].nodes == ns[..i] + RemoveEntries(ns[i..])
        invariant MarkAll(h, Marks(colour, gray), NodeValues(ns[..i])) == MarkAll(h, old(Marks(colour, gray)), NodeValues(ns))
      {
        i := i - 1;
        NodesBack(ns, i);
        MarkAllConcat(h, Marks(colour, gray), EntryValues(ns[i]), NodeValues(ns[..i]));
        VisitNode(o, i, h);
      }
      assert ns[..0] + RemoveEntries(ns[0..]) == RemoveEntries(ns);
    }

    method VisitNode(o: Ref, i: nat, ghost h: Heap)
      requires o in body && body[o].Table? && o in h && h[o].Table? && body == h[o := h[o].(nodes := body[o].nodes)]
      requires i < |body[o].nodes|
      modifies this`colour, this`gray, this`body
      ensures Marks(colour, gray) == MarkAll(h, old(Marks(colour, gray)), EntryValues(old(body)[o].nodes[i]))
      ensures o in body && body[o].Table? && body == h[o := h[o].(nodes := body[o].nodes)]
      ensures body[o].nodes == old(body)[o].nodes[i := RemoveEntry(old(body)[o].nodes[i])]
    {
      var n := body[o].nodes[i];
      if n.val == Nil {
        body := body[o := body[o].(nodes := body[o].nodes[i := RemoveEntry(n)])];
      } else {
        MarkEntry(o, n, h);
        assert body[o].nodes[i := n] == body[o].nodes;
      }
    }

    method MarkEntry(o: Ref, n: Node, ghost h: Heap)
      requires o in body && body[o].Table? && o in h && h[o].Table? && body == h[o := body[o]]
      requires n.val != Nil
      modifies this`colour, this`gray
      ensures Marks(colour, gray) == MarkAll(h, old(Marks(colour, gray)), EntryValues(n))
    {
      ghost var m := Marks(colour, gray);
      if n.key.Live? {
        MarkTValue(n.key.v);
        MarkAllConcat(body, m, [n.key.v], [n.val]);
        MarkAllOne(body, m, n.key.v);
      }
      MarkAllOne(body, Marks(colour, gray), n.val);
      MarkTValue(n.val);
      assert EntryValues(n) == (if n.key.Live? then [n.key.v] + [n.val] else [n.val]);
      MarkAllIgnoresTables(h, body, m, EntryValues(n));
    }

    /** The loops over the upvalues of a closure, the constants of a prototype, a stack. */
    method MarkEach(vs: seq<Value>)
      modifies this`colour, this`gray
      ensures Marks(colour, gray) == MarkAll(body, old(Marks(colour, gray)), vs)
    {
      var i := 0;
      while i < |vs|
        invariant 0 <= i <= |vs|
        invariant Marks(colour, gray) == MarkAll(body, old(Marks(colour, gray)), vs[..i])
      {
        MarkAllLast(body, old(Marks(colour, gray)), vs[..i], vs[i]);
        assert vs[..i + 1] == vs[..i] + [vs[i]];
        MarkTValue(vs[i]);
        i := i + 1;
      }
      assert vs[..i] == vs;
    }

    /** traverseclosure */
    method TraverseClosure(o: Ref)
      requires o in body && (body[o].CClosure? || body[o].LClosure?)
      modifies this`colour, this`gray
      ensures Marks(colour, gray) == MarkAll(body, old(Marks(colour, gray)), Children(body, o))
    {
      ghost var m := Marks(colour, gray);
      match body[o]
      case CClosure(env, us) =>
        MarkObject(env);
        MarkAllOne(body, m, Gc(env));
        MarkEach(us);
        MarkAllConcat(body, m, [Gc(env)], us);
      case LClosure(env, p, us) =>
        MarkObject(env);
        MarkAllOne(body, m, Gc(env));
        MarkObject(p);
        MarkAllLast(body, m, [Gc(env)], Gc(p));
        assert [Gc(env)] + [Gc(p)] == [Gc(env), Gc(p)];
        MarkEach(Refs(us));
        MarkAllConcat(body, m, [Gc(env), Gc(p)], Refs(us));
    }

    /** traversestack */
    method TraverseStack(o: Ref)
      requires o in body && body[o].Thread?
      modifies this`colour, this`gray
      ensures Marks(colour, gray) == MarkAll(body, old(Marks(colour, gray)), Children(body, o))
    {
      ghost var m := Marks(colour, gray);
      MarkTValue(body[o].gt);
      MarkAllOne(body, m, body[o].gt);
      MarkEach(body[o].stack);
      MarkAllConcat(body, m, [body[o].gt], body[o].stack);
    }

    /** traverseproto */
    method TraverseProto(o: Ref)
      requires o in body && body[o].Proto?
      modifies this`colour, this`gray
      ensures Marks(colour, gray) == MarkAll(body, old(Marks(colour, gray)), Children(body, o))
    {
      ghost var m := Marks(colour, gray);
      var b := body[o];
      MarkEach(OptRef(b.source));
      MarkEach(b.k);
      MarkAllConcat(body, m, OptRef(b.source), b.k);
      MarkEach(Refs(b.upnames));
      MarkAllConcat(body, m, OptRef(b.source) + b.k, Refs(b.upnames));
      MarkEach(Refs(b.p));
      MarkAllConcat(body, m, OptRef(b.source) + b.k + Refs(b.upnames), Refs(b.p));
      MarkEach(Refs(b.locnames));
      MarkAllConcat(body, m, OptRef(b.source) + b.k + Refs(b.upnames) + Refs(b.p), Refs(b.locnames));
    }

    lemma SnapIs()
      ensures Snap() == G(body, colour, fixed, strt, rootgc, uvhead, gray, grayagain, cw, phase, sweepstrgc, sweepgc,
                          mainthread, running, registry, mt)
    {
    }

    /** propagatemark */
    method PropagateOne()
      requires |gray| > 0
      modifies this`colour, this`gray, this`grayagain, this`body
      ensures Snap() == PropagateMark(old(Snap()))
    {
      hide *;
      ghost var g := Snap();
      SnapIs();
      PropagateIs(g);
      var o := gray[0];
      gray := gray[1..];
      if o in body && body[o].Traversable() && !IsWhite(colour, o) {
        if body[o].Thread? {
          grayagain := [o] + grayagain;
          TraverseStack(o);
        } else {
          colour := colour[o := Black];
          TraverseBlack(o);
        }
      }
      SnapIs();
    }

    /** By kind, for everything but threads. */
    method TraverseBlack(o: Ref)
      requires o in body && body[o].Traversable() && !body[o].Thread?
      modifies this`colour, this`gray, this`body
      ensures Marks(colour, gray) == MarkAll(old(body), old(Marks(colour, gray)), Children(old(body), o))
      ensures body == old(body)[o := Cleaned(old(body)[o])]
    {
      hide MarkAll, Children, Cleaned;
      if body[o].Table? {
        TraverseTable(o);
      } else {
        CleanedSame(body, o);
        if body[o].Proto? { TraverseProto(o); } else { TraverseClosure(o); }
      }
    }

    /** propagateall */
    method PropagateEverything()
      requires body.Keys == colour.Keys
      modifies this`colour, this`gray, this`grayagain, this`body
      ensures Snap() == PropagateAll(old(Snap()))
    {
      while |gray| > 0
        invariant body.Keys == colour.Keys
        invariant PropagateAll(Snap()) == PropagateAll(old(Snap()))
        invariant Snap() == old(Snap()).(colour := colour, gray := gray, grayagain := grayagain, body := body)
        decreases Whites(colour), |gray|
      {
        hide PropagateMark, MarkAll;
        ghost var g := Snap();
        PropagateProgress(g);
        PropagateMarking(g);
        PropagateOne();
      }
    }

    /** The main thread, its globals and the registry. */
    method MarkFirstRoots()
      modifies this`colour, this`gray
      ensures Marks(colour, gray)
        == MarkAll(body, old(Marks(colour, gray)), [Gc(mainthread), MainGlobals(Snap()), registry])
    {
      hide MarkAll, Mark;
      var globals := if mainthread in body && body[mainthread].Thread? then body[mainthread].gt else Nil;
      ghost var m := Marks(colour, gray);
      MarkObject(mainthread);
      ghost var m1 := Marks(colour, gray);
      MarkTValue(globals);
      ghost var m2 := Marks(colour, gray);
      MarkTValue(registry);
      MarkThree(body, m, m1, m2, Marks(colour, gray), Gc(mainthread), globals, registry);
    }

    /** markroot */
    method MarkRoots()
      modifies this`colour, this`gray, this`grayagain, this`phase
      ensures Snap() == MarkRoot(old(Snap()))
    {
      hide MarkAll, Mark;
      ghost var g := Snap();
      gray, grayagain := [], [];
      MarkFirstRoots();
      ghost var m := Marks(colour, gray);
      MarkEach(mt);
      phase := Propagate;
      MarkRootIs(g, m, Marks(colour, gray));
    }

    /** remarkupvals */
    method RemarkOpenUpvals()
      modifies this`colour, this`gray
      ensures Snap() == RemarkUpvals(old(Snap()), old(uvhead))
    {
      var i := 0;
      assert uvhead[0..] == uvhead;
      while i < |uvhead|
        invariant 0 <= i <= |uvhead|
        invariant RemarkUpvals(Snap(), uvhead[i..]) == RemarkUpvals(old(Snap()), old(uvhead))
        invariant Snap() == old(Snap()).(colour := colour, gray := gray)
      {
        var u := uvhead[i];
        assert uvhead[i..][1..] == uvhead[i + 1..];
        if u in body && u in colour && colour[u] == Gray {
          MarkEach(Children(body, u));
        }
        i := i + 1;
      }
    }

    /** The running thread and the basic metatables, again. */
    method MarkLiveRoots()
      modifies this`colour, this`gray
      ensures Snap() == RemarkRoots(old(Snap())) && colour.Keys == old(colour.Keys)
    {
      hide MarkAll, Mark;
      ghost var m := Marks(colour, gray);
      MarkObject(running);
      MarkAllOne(body, m, Gc(running));
      MarkEach(mt);
      MarkAllConcat(body, m, [Gc(running)], mt);
    }

    /** What `atomic' marks. */
    method MarkAtomic()
      requires body.Keys == colour.Keys
      modifies this`body, this`colour, this`gray, this`grayagain
      ensures Snap() == AtomicMark(old(Snap()))
    {
      hide MarkAll, Mark, PropagateAll, RemarkUpvals, RemarkRoots;
      RemarkOpenUpvals();
      PropagateEverything();
      MarkLiveRoots();
      PropagateEverything();
      gray, grayagain := grayagain, [];
      PropagateEverything();
    }

    /** atomic */
    method AtomicStep()
      requires body.Keys == colour.Keys
      modifies this
      ensures Snap() == Atomic(old(Snap()))
    {
      hide AtomicMark;
      MarkAtomic();
      cw := !cw;
      sweepstrgc, sweepgc := 0, 0;
      phase := SweepString;
    }

    // ---- Barriers and upvalues ----------------------------------------------------------

    /** luaC_barrierf */
    method ForwardBarrier(o: Ref, x: Ref)
      requires x in body && IsWhite(colour, x)
      modifies this`colour, this`gray
      ensures Snap() == BarrierForward(old(Snap()), o, x)
    {
      if phase == Propagate { ReallyMarkObject(x); } else { colour := colour[o := White(cw)]; }
    }

    /** luaC_barrierback */
    method BackBarrier(t: Ref)
      modifies this`colour, this`grayagain
      ensures Snap() == BarrierBack(old(Snap()), t)
    {
      colour := colour[t := Gray];
      grayagain := [t] + grayagain;
    }

    /** luaC_linkupval */
    method LinkUpvalue(u: Ref, v: Value)
      requires v.Gc? && v.ref in colour ==> v.ref in body
      modifies this
      ensures Snap() == LinkUpval(old(Snap()), u, v)
    {
      hide *;
      ghost var g := Snap();
      SnapIs();
      LinkUpvalIs(g, u, v);
      rootgc := [u] + rootgc;
      sweepgc := if sweepgc > 0 then sweepgc + 1 else 0;
      if u in colour && colour[u] == Gray {
        if phase == Propagate {
          colour := colour[u := Black];
          SnapIs();
          if v.Gc? && IsWhite(colour, v.ref) {
            WhiteThere(colour, v.ref);
            ForwardBarrier(u, v.ref);
          }
        } else {
          colour := colour[u := White(cw)];
        }
      }
      SnapIs();
    }

    /** luaF_freeupval and freeobj */
    method FreeObject(x: Ref)
      modifies this
      ensures Snap() == Free(old(Snap()), x)
    {
      if x in body && body[x].OpenUpval? { uvhead := Remove(uvhead, x); }
      body, colour := body - {x}, colour - {x};
    }

    /** luaF_close */
    method CloseUpvalues(t: Ref, level: nat)
      requires body.Keys == colour.Keys
      modifies this
      ensures Snap() == Close(old(Snap()), t, level)
      ensures old(Inv(Snap())) ==> ClosedDown(old(Snap()), Snap(), t, level)
    {
      hide Inv, ClosedDown, Close, CloseOne, LinkUpval, Free, Remove, Refs;
      CloseAlways(Snap(), t, level);
      while MustClose(body, t, level)
        invariant body.Keys == colour.Keys
        invariant Close(Snap(), t, level) == Close(old(Snap()), t, level)
        decreases |OpenList(body, t)|
      {
        ghost var g := Snap();
        CloseMore(g, t, level);
        var u := body[t].openupval[0];
        var slot := body[u].slot;
        body := body[t := body[t].(openupval := body[t].openupval[1..])];
        if (u in colour && colour[u] == White(!cw)) || u !in body || !body[u].OpenUpval? {
          FreeObject(u);
        } else {
          var v := StackValue(body, t, slot);
          assert v == StackValue(g.body, t, g.body[u].slot);
          uvhead := Remove(uvhead, u);
          body := body[u := ClosedUpval(v)];
          LinkUpvalue(u, v);
        }
        assert Snap() == CloseOne(g, t);
      }
      CloseNone(Snap(), t, level);
    }

    // ---- Sweeping -----------------------------------------------------------------------

    /** sweepwholelist on a bucket of the string table */
    method SweepStrings(b: nat)
      requires b < |strt|
      modifies this
      ensures Snap() == SweepBucket(old(Snap()), b, 0)
    {
      var i := 0;
      while i < |strt[b]|
        invariant b < |strt|
        invariant SweepBucket(Snap(), b, i) == SweepBucket(old(Snap()), b, 0)
        decreases |strt[b]| - i
      {
        var x := strt[b][i];
        if !(x in colour && colour[x] == White(!cw)) || x in fixed {
          colour := colour[x := White(cw)];
          i := i + 1;
        } else {
          strt := strt[b := Without(strt[b], i)];
          FreeObject(x);
        }
      }
    }

    /** sweepwholelist on the open upvalues of a thread */
    method SweepOpenUpvals(t: Ref)
      modifies this
      ensures Snap() == SweepOpen(old(Snap()), t, 0)
    {
      hide SweepOpen;
      var i := 0;
      while i < |OpenList(body, t)|
        invariant SweepOpen(Snap(), t, i) == SweepOpen(old(Snap()), t, 0)
        decreases |OpenList(body, t)| - i
      {
        var u := body[t].openupval[i];
        SweepOpenTurn(Snap(), t, i);
        if !(u in colour && colour[u] == White(!cw)) || u in fixed {
          colour := colour[u := White(cw)];
          i := i + 1;
        } else {
          body := body[t := body[t].(openupval := Without(body[t].openupval, i))];
          FreeObject(u);
        }
      }
      SweepOpenEnd(Snap(), t, i);
    }

    /** sweeplist on `rootgc' */
    method SweepRootList(count: nat)
      requires Inv(Snap()) && phase == Sweep
      modifies this
      ensures Snap() == SweepList(old(Snap()), count)
    {
      hide Inv, SweepOne;
      var n := count;
      while n > 0 && sweepgc < |rootgc|
        invariant Inv(Snap()) && phase == Sweep
        invariant SweepList(Snap(), n) == SweepList(old(Snap()), count)
        decreases n
      {
        ghost var g := Snap();
        SweepOneInv(g);
        SweepNext();
        n := n - 1;
      }
    }

    /** Unlinks and frees a dead object; a thread closes its upvalues first. */
    method EraseObject(x: Ref)
      requires body.Keys == colour.Keys
      modifies this
      ensures Snap() == Erase(old(Snap()), x)
    {
      hide Close, Free;
      ghost var g := Snap();
      rootgc := Remove(rootgc, x);
      CloseUnlinked(g, x);
      CloseUpvalues(x, 0);
      FreeObject(x);
      FreeUnlinked(Close(g, x, 0), x);
    }

    /** one round of sweeplist on `rootgc' */
    method SweepNext()
      requires Inv(Snap()) && phase == Sweep && sweepgc < |rootgc|
      modifies this
      ensures Snap() == SweepOne(old(Snap()))
    {
      hide Inv, SweepOpen, Erase;
      ghost var g := Snap();
      var x := rootgc[sweepgc];
      SweepOpenInv(g, x, 0);
      SweepOpenUpvals(x);
      ghost var g1 := Snap();
      InvKeys(g1);
      if !(x in colour && colour[x] == White(!cw)) || x in fixed {
        colour := colour[x := White(cw)];
        sweepgc := sweepgc + 1;
      } else {
        EraseObject(x);
      }
    }

    // ---- The step machine ---------------------------------------------------------------

    /** singlestep: the invariant is kept, and nothing reachable is freed or changed. */
    method Step()
      requires Inv(Snap())
      modifies this
      ensures old(body.Keys == colour.Keys) && Snap() == SingleStep(old(Snap()))
      ensures Inv(Snap())
      ensures forall x :: old(Snap()).Reachable(x) ==>
                x in body && x in old(body) && Shown(body, x) == Shown(old(body), x)
    {
      hide *;
      ghost var g := Snap();
      SnapIs();
      StepFacts(g);
      StepIs(g);
      match phase
      case Pause => MarkRoots(); SnapIs();
      case Propagate => if |gray| > 0 { PropagateOne(); } else { AtomicStep(); } SnapIs();
      case SweepString => StepStrings(); SnapIs();
      case Sweep => StepSweep(); SnapIs();
      case Finalize => phase := Pause; SnapIs();
    }

    method StepStrings()
      requires Inv(Snap()) && phase == SweepString
      modifies this
      ensures Snap() == StringStep(old(Snap()))
    {
      SweepBucketReady(Snap());
      hide Inv, SweepBucket;
      SweepStrings(sweepstrgc);
      sweepstrgc := sweepstrgc + 1;
      phase := if sweepstrgc >= |strt| then Sweep else SweepString;
    }

    method StepSweep()
      requires Inv(Snap()) && phase == Sweep
      modifies this
      ensures Snap() == SweepStep(old(Snap()))
    {
      hide Inv, SweepList;
      SweepRootList(GCSWEEPMAX);
      if sweepgc >= |rootgc| { phase := Finalize; }
    }

    /** A mark phase under way is given up: everything is swept first, and nothing is dead. */
    method Restart()
      modifies this`sweepstrgc, this`sweepgc, this`gray, this`grayagain, this`phase
      ensures Snap() == Restarted(old(Snap()))
    {
      if phase == Pause || phase == Propagate {
        sweepstrgc, sweepgc := 0, 0;
        gray, grayagain := [], [];
        phase := SweepString;
      }
    }

    /** luaC_fullgc */
    method FullCollect()
      requires Inv(Snap())
      modifies this
      ensures Snap() == FullGc(old(Snap())) && Inv(Snap())
      ensures forall x :: x in body <==> x in old(body) && (old(Snap()).Reachable(x) || x in old(fixed))
      ensures forall x :: x in body ==> Shown(body, x) == Shown(old(body), x)
    {
      ghost var g := Snap();
      FullGcExact(g);
      hide Inv, SingleStep, MarkRoot, Shown, Restarted;
      Restart();
      RestartedInv(g);
      StepUntil(Finalize);
      MarkRootInv(Snap());
      MarkRoots();
      StepUntil(Pause);
    }

    /** `while (g->gcstate != target) singlestep(L)' */
    method StepUntil(target: Phase)
      requires Inv(Snap()) && (target == Pause || (target == Finalize && phase != Pause))
      modifies this
      ensures old(Inv(Snap())) && Snap() == RunUntil(old(Snap()), target)
    {
      hide Inv, SingleStep, Shown;
      while phase != target
        invariant Inv(Snap()) && (target == Pause || (target == Finalize && phase != Pause))
        invariant RunUntil(Snap(), target) == RunUntil(old(Snap()), target)
        decreases Rank(phase), WhiteBound(Snap()), Measure(Snap())
      {
        ghost var g := Snap();
        StepDescends(g);
        StepNotPause(g);
        Step();
      }
    }

    // ---- The program's side -------------------------------------------------------------

    /** luaC_link */
    method Link(x: Ref, b: Body)
      modifies this
      ensures Snap() == Alloc(old(Snap()), x, b, 0)
      ensures body == old(body)[x := b] && colour == old(colour)[x := White(cw)] && rootgc == [x] + old(rootgc)
    {
      rootgc := [x] + rootgc;
      sweepgc := if sweepgc > 0 then sweepgc + 1 else 0;
      body, colour := body[x := b], colour[x := White(cw)];
      assert old(rootgc)[..0] + [x] + old(rootgc)[0..] == rootgc;
    }

    /** luaC_barrier and luaC_barriert */
    method Guard(o: Ref, v: Value, isTable: bool)
      requires v.Gc? ==> v.ref in body
      modifies this`colour, this`gray, this`grayagain
      ensures Snap() == if isTable then TableBarrier(old(Snap()), o, v) else Barrier(old(Snap()), o, v)
    {
      hide BarrierForward, BarrierBack;
      if v.Gc? && IsWhite(colour, v.ref) && o in colour && colour[o] == Black {
        if isTable { BackBarrier(o); } else { ForwardBarrier(o, v.ref); }
      }
    }

    /** A store and the barrier that follows it. */
    method StoreRef(o: Ref, e: Edit)
      requires Inv(Snap()) && o in body && Fits(body[o], e)
      requires Snap().Alive(o) && (e.Stored().Gc? ==> Snap().Alive(e.Stored().ref))
      modifies this
      ensures old(o in body && Fits(body[o], e)) && Snap() == Store(old(Snap()), o, e) && Inv(Snap())
      ensures StoredIn(old(Snap()), Snap(), o, e)
    {
      ghost var g := Snap();
      hide Inv, Edited, Store, StoredIn, TableBarrier, Barrier, Fits;
      StoreInv(g, o, e);
      StoreExact(g, o, e);
      StoreIs(g, o, e);
      var isTable := body[o].Table?;
      body := body[o := Edited(body[o], e)];
      Guard(o, e.Stored(), isTable);
    }

    /** luaF_findupval: walk the descending list; reuse, or chain a new upvalue in place. */
    method FindUpvalue(t: Ref, level: nat, x: Ref) returns (u: Ref)
      requires t in body && body[t].Thread?
      modifies this
      ensures old(t in body && body[t].Thread?) && (u, Snap()) == FindUpval(old(Snap()), t, level, x)
      ensures old(Inv(Snap())) && x !in old(body) ==> FoundFor(old(Snap()), Snap(), t, level, x, u)
    {
      ghost var g := Snap();
      hide Inv, FoundFor;
      FindAlways(g, t, level, x);
      var us := body[t].openupval;
      var pp := 0;
      assert us[0..] == us;
      while pp < |us| && us[pp] in body && body[us[pp]].OpenUpval? && body[us[pp]].slot > level
        invariant 0 <= pp <= |us|
        invariant FindFrom(body, us, level) == pp + FindFrom(body, us[pp..], level)
      {
        assert us[pp..][1..] == us[pp + 1..];
        pp := pp + 1;
      }
      assert FindFrom(body, us, level) == pp;
      if pp < |us| && us[pp] in body && body[us[pp]].OpenUpval? && body[us[pp]].slot == level {
        u := us[pp];
        if u in colour && colour[u] == White(!cw) { colour := colour[u := White(cw)]; }
      } else {
        u := x;
        body := body[t := body[t].(openupval := us[..pp] + [x] + us[pp..])];
        body, colour := body[x := OpenUpval(t, level)], colour[x := White(cw)];
        uvhead := [x] + uvhead;
      }
    }
  }

  lemma CloseMore(g: G, t: Ref, level: nat)
    requires MustClose(g.body, t, level) && g.body.Keys == g.colour.Keys
    ensures var u := g.body[t].openupval[0]; var g1 := WithOpenList(g, t, g.body[t].openupval[1..]);
      var v := StackValue(g.body, t, g.body[u].slot);
      CloseOne(g, t) ==
        if g.IsDead(u) || u !in g1.body || !g1.body[u].OpenUpval? then Free(g1, u)
        else LinkUpval(g1.(uvhead := Remove(g1.uvhead, u), body := g1.body[u := ClosedUpval(v)]), u, v)
    ensures |OpenList(CloseOne(g, t).body, t)| < |OpenList(g.body, t)|
    ensures CloseOne(g, t).body.Keys == CloseOne(g, t).colour.Keys
    ensures Close(g, t, level) == Close(CloseOne(g, t), t, level)
  {
    CloseShortens(g, t);
    CloseOneKeys(g, t);
    hide LinkUpval, Remove;
  }

  lemma CloseNone(g: G, t: Ref, level: nat)
    requires !MustClose(g.body, t, level)
    ensures Close(g, t, level) == g
  {
  }

  lemma CloseAlways(g: G, t: Ref, level: nat)
    ensures Inv(g) ==> ClosedDown(g, Close(g, t, level), t, level)
  {
    hide ClosedDown, Inv, Close;
    if Inv(g) { CloseExact(g, t, level); }
  }

  lemma FindAlways(g: G, t: Ref, level: nat, x: Ref)
    requires t in g.body && g.body[t].Thread?
    ensures Inv(g) && x !in g.body ==> FoundFor(g, FindUpval(g, t, level, x).1, t, level, x, FindUpval(g, t, level, x).0)
  {
    hide FoundFor, FindUpval;
    if Inv(g) && x !in g.body {
      InvParts(g);
      FindUpvalExact(g, t, level, x);
    }
  }

  lemma StoreIs(g: G, o: Ref, e: Edit)
    requires o in g.body && Fits(g.body[o], e)
    ensures var w := g.(body := g.body[o := Edited(g.body[o], e)]);
      Store(g, o, e) == if g.body[o].Table? then TableBarrier(w, o, e.Stored()) else Barrier(w, o, e.Stored())
  {
  }

  lemma PropagateIs(g: G)
    requires |g.gray| > 0
    ensures var o := g.gray[0]; var rest := g.gray[1..];
      var m := MarkAll(g.body, Marks(g.colour, rest), if o in g.body then Children(g.body, o) else []);
      var n := MarkAll(g.body, Marks(g.colour[o := Black], rest), if o in g.body then Children(g.body, o) else []);
      PropagateMark(g) ==
        if o !in g.body || !g.body[o].Traversable() || IsWhite(g.colour, o) then g.(gray := rest)
        else if g.body[o].Thread? then g.(colour := m.colour, gray := m.gray, grayagain := [o] + g.grayagain)
        else g.(body := g.body[o := Cleaned(g.body[o])], colour := n.colour, gray := n.gray)
  {
    hide MarkAll, Children, Cleaned;
  }

  lemma StepIs(g: G)
    requires g.body.Keys == g.colour.Keys
    ensures SingleStep(g) ==
      match g.phase
      case Pause => MarkRoot(g)
      case Propagate => if g.gray != [] then PropagateMark(g) else Atomic(g)
      case SweepString => StringStep(g)
      case Sweep => SweepStep(g)
      case Finalize => g.(phase := Pause)
  {
    hide MarkRoot, PropagateMark, Atomic, StringStep, SweepStep;
  }

  lemma StepFacts(g: G)
    requires Inv(g)
    ensures g.body.Keys == g.colour.Keys && Inv(SingleStep(g))
    ensures forall x :: g.Reachable(x) ==>
              x in SingleStep(g).body && x in g.body && Shown(SingleStep(g).body, x) == Shown(g.body, x)
  {
    InvKeys(g);
    hide Inv, SingleStep, Shown;
    StepInv(g);
    StepSpares(g);
    forall x | g.Reachable(x)
      ensures x in SingleStep(g).body && x in g.body && Shown(SingleStep(g).body, x) == Shown(g.body, x)
    {
      InvLive(g);
      ReachableAlive(g, x);
    }
  }

  lemma InvLive(g: G)
    requires Inv(g)
    ensures LiveOk(g)
  {
  }

  lemma FreeUnlinked(g: G, x: Ref)
    ensures Free(g.(rootgc := Remove(g.rootgc, x)), x) == Free(g, x).(rootgc := Remove(g.rootgc, x))
  {
  }

  lemma SweepOpenEnd(g: G, t: Ref, i: nat)
    requires i >= |OpenList(g.body, t)|
    ensures SweepOpen(g, t, i) == g
  {
  }

  lemma SweepOpenTurn(g: G, t: Ref, i: nat)
    requires i < |OpenList(g.body, t)|
    ensures var u := g.body[t].openupval[i];
      SweepOpen(g, t, i) == if Survives(g, u) then SweepOpen(Whiten(g, u), t, i + 1) else SweepOpen(DropUpval(g, t, i), t, i)
  {
  }

  lemma LinkUpvalKeys(g: G, u: Ref, v: Value)
    requires g.body.Keys == g.colour.Keys && u in g.body
    ensures LinkUpval(g, u, v).body.Keys == LinkUpval(g, u, v).colour.Keys
  {
    hide Mark;
  }

  lemma CloseOneKeys(g: G, t: Ref)
    requires g.body.Keys == g.colour.Keys && OpenList(g.body, t) != []
    requires MustClose(g.body, t, 0)
    ensures CloseOne(g, t).body.Keys == CloseOne(g, t).colour.Keys
  {
    hide LinkUpval, Remove;
    var u := g.body[t].openupval[0];
    var g1 := WithOpenList(g, t, g.body[t].openupval[1..]);
    if !g.IsDead(u) && u in g1.body && g1.body[u].OpenUpval? {
      var v := StackValue(g.body, t, g1.body[u].slot);
      LinkUpvalKeys(g1.(uvhead := Remove(g1.uvhead, u), body := g1.body[u := ClosedUpval(v)]), u, v);
    }
  }

  /** The thread may be unlinked from `rootgc' before or after its upvalues are closed. */
  lemma {:induction false} CloseUnlinked(g: G, t: Ref)
    ensures Close(g.(rootgc := Remove(g.rootgc, t)), t, 0) == Close(g, t, 0).(rootgc := Remove(Close(g, t, 0).rootgc, t))
    decreases |OpenList(g.body, t)|
  {
    if MustClose(g.body, t, 0) {
      CloseOneUnlinked(g, t);
      CloseShortens(g, t);
      hide CloseOne;
      CloseUnlinked(CloseOne(g, t), t);
    }
  }

  lemma CloseOneUnlinked(g: G, t: Ref)
    requires MustClose(g.body, t, 0)
    ensures CloseOne(g.(rootgc := Remove(g.rootgc, t)), t) == CloseOne(g, t).(rootgc := Remove(CloseOne(g, t).rootgc, t))
  {
    var u := g.body[t].openupval[0];
    var s := g.(rootgc := Remove(g.rootgc, t));
    var q := WithOpenList(g, t, g.body[t].openupval[1..]);
    assert u != t;
    if g.IsDead(u) {
      hide Remove;
      assert CloseOne(s, t) == Free(q, u).(rootgc := Remove(g.rootgc, t));
    } else {
      var v := StackValue(g.body, t, g.body[u].slot);
      var r := q.(uvhead := Remove(q.uvhead, u), body := q.body[u := ClosedUpval(v)]);
      LinkUnlinked(r, u, v, t);
      assert CloseOne(g, t) == LinkUpval(r, u, v);
      assert CloseOne(s, t) == LinkUpval(r.(rootgc := Remove(r.rootgc, t)), u, v);
    }
  }

  lemma LinkUpvalIs(g: G, u: Ref, v: Value)
    ensures var r := g.(rootgc := [u] + g.rootgc, sweepgc := if g.sweepgc > 0 then g.sweepgc + 1 else 0);
      LinkUpval(g, u, v) ==
        if !(u in g.colour && g.colour[u] == Gray) then r
        else if g.phase == Propagate then
          var b := r.(colour := r.colour[u := Black]);
          if v.Gc? && IsWhite(b.colour, v.ref) then BarrierForward(b, u, v.ref) else b
        else r.(colour := r.colour[u := White(r.cw)])
  {
    hide BarrierForward;
  }

  lemma WhiteThere(c: Colours, x: Ref)
    requires IsWhite(c, x)
    ensures x in c
  {
  }

  lemma LinkUnlinked(g: G, u: Ref, v: Value, t: Ref)
    requires u != t
    ensures LinkUpval(g.(rootgc := Remove(g.rootgc, t)), u, v) == LinkUpval(g, u, v).(rootgc := Remove(LinkUpval(g, u, v).rootgc, t))
  {
    assert Remove([u] + g.rootgc, t) == [u] + Remove(g.rootgc, t);
    hide Remove, Mark, Barrier, Whiten;
    var a, b := LinkRoot(g, u), LinkRoot(g.(rootgc := Remove(g.rootgc, t)), u);
    assert b == a.(rootgc := b.rootgc) && b.rootgc == Remove(a.rootgc, t);
    WhitenRoot(a, b, u);
    BarrierRoot(a.(colour := a.colour[u := Black]), b.(colour := b.colour[u := Black]), u, v);
  }

  lemma WhitenRoot(a: G, b: G, u: Ref)
    requires b == a.(rootgc := b.rootgc)
    ensures Whiten(b, u) == Whiten(a, u).(rootgc := b.rootgc) && Whiten(a, u).rootgc == a.rootgc
  {
  }

  lemma BarrierRoot(a: G, b: G, u: Ref, v: Value)
    requires b == a.(rootgc := b.rootgc)
    ensures Barrier(b, u, v) == Barrier(a, u, v).(rootgc := b.rootgc) && Barrier(a, u, v).rootgc == a.rootgc
  {
    hide Mark;
  }
}
