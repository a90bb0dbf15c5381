/** A run from the initial state after which one lua_setupvalue call (lapi.c:1071-1086) makes
    the collector free a table that the program can still reach. */
module GcWitness {
  import opened Wrappers
  import opened GcHeap
  import opened GcMark
  import opened GcState
  import opened GcPropagate
  import opened GcAtomic
  import opened GcBarrier
  import opened GcSweep
  import opened GcStep
  import opened GcMutator
  import opened GcAlloc
  import opened GcApi
  import opened GcRun
  import opened GcSafety

  const MAIN: Ref := 1
  const GLOBALS: Ref := 2
  const REGISTRY: Ref := 3
  const CODE: Ref := 4
  const SHARED: Ref := 5
  const FIRST: Ref := 6
  const SECOND: Ref := 7
  const FRESH: Ref := 8

  function Function(): Body { LClosure(GLOBALS, CODE, [SHARED]) }

  /** Two closures with the same code share one upvalue; its function returns; the collector
      marks the roots, the registry, the globals, the stack and the second closure; then a
      table is created. */
  function EventAt(i: nat): Event {
    if i == 0 then NewObject(CODE, Proto(None, [], [], [], []))
    else if i == 1 then FindUp(0, SHARED)
    else if i == 2 then NewObject(FIRST, Function())
    else if i == 3 then NewObject(SECOND, Function())
    else if i == 4 then CloseUpvals(0)
    else if i <= 9 then Collect
    else NewObject(FRESH, Table(None, [], []))
  }

  const STEPS: nat := 11

  function Events(i: nat): seq<Event>
    decreases STEPS - i
  {
    if i >= STEPS then [] else [EventAt(i)] + Events(i + 1)
  }

  // ---- The states on the way ------------------------------------------------------------

  function Tab(): Body { Table(None, [], []) }
  function Chunk(): Body { Proto(None, [], [], [], []) }

  function State(h: Heap, c: Colours, rootgc: seq<Ref>, uvhead: seq<Ref>, gray: seq<Ref>, again: seq<Ref>, phase: Phase): G {
    G(h, c, {MAIN}, [[]], rootgc, uvhead, gray, again, false, phase, 0, 0, MAIN, MAIN, Gc(REGISTRY), [])
  }

  function At0(): G {
    State(map[MAIN := Thread(Gc(GLOBALS), [Nil], []),
              GLOBALS := Tab(), REGISTRY := Tab()],
          map[MAIN := White(false), GLOBALS := White(false), REGISTRY := White(false)],
          [REGISTRY, GLOBALS, MAIN], [], [], [], Pause)
  }

  function At1(): G {
    State(map[MAIN := Thread(Gc(GLOBALS), [Nil, Gc(CODE)], []),
              GLOBALS := Tab(), REGISTRY := Tab(), CODE := Chunk()],
          map[MAIN := White(false), GLOBALS := White(false), REGISTRY := White(false), CODE := White(false)],
          [CODE, REGISTRY, GLOBALS, MAIN], [], [], [], Pause)
  }

  function At2(): G {
    State(map[MAIN := Thread(Gc(GLOBALS), [Nil, Gc(CODE)], [SHARED]),
              GLOBALS := Tab(), REGISTRY := Tab(), CODE := Chunk(), SHARED := OpenUpval(MAIN, 0)],
          map[MAIN := White(false), GLOBALS := White(false), REGISTRY := White(false), CODE := White(false), SHARED := White(false)],
          [CODE, REGISTRY, GLOBALS, MAIN], [SHARED], [], [], Pause)
  }

  function At3(): G {
    State(map[MAIN := Thread(Gc(GLOBALS), [Nil, Gc(CODE), Gc(FIRST)], [SHARED]),
              GLOBALS := Tab(), REGISTRY := Tab(), CODE := Chunk(), SHARED := OpenUpval(MAIN, 0), FIRST := Function()],
          map[MAIN := White(false), GLOBALS := White(false), REGISTRY := White(false), CODE := White(false), SHARED := White(false), FIRST := White(false)],
          [FIRST, CODE, REGISTRY, GLOBALS, MAIN], [SHARED], [], [], Pause)
  }

  function At4(): G {
    State(map[MAIN := Thread(Gc(GLOBALS), [Nil, Gc(CODE), Gc(FIRST), Gc(SECOND)], [SHARED]),
              GLOBALS := Tab(), REGISTRY := Tab(), CODE := Chunk(), SHARED := OpenUpval(MAIN, 0), FIRST := Function(), SECOND := Function()],
          map[MAIN := White(false), GLOBALS := White(false), REGISTRY := White(false), CODE := White(false), SHARED := White(false), FIRST := White(false), SECOND := White(false)],
          [SECOND, FIRST, CODE, REGISTRY, GLOBALS, MAIN], [SHARED], [], [], Pause)
  }

  function At5(): G {
    State(map[MAIN := Thread(Gc(GLOBALS), [Nil, Gc(CODE), Gc(FIRST), Gc(SECOND)], []),
              GLOBALS := Tab(), REGISTRY := Tab(), CODE := Chunk(), SHARED := ClosedUpval(Nil), FIRST := Function(), SECOND := Function()],
          map[MAIN := White(false), GLOBALS := White(false), REGISTRY := White(false), CODE := White(false), SHARED := White(false), FIRST := White(false), SECOND := White(false)],
          [SHARED, SECOND, FIRST, CODE, REGISTRY, GLOBALS, MAIN], [], [], [], Pause)
  }

  function At6(): G {
    State(map[MAIN := Thread(Gc(GLOBALS), [Nil, Gc(CODE), Gc(FIRST), Gc(SECOND)], []),
              GLOBALS := Tab(), REGISTRY := Tab(), CODE := Chunk(), SHARED := ClosedUpval(Nil), FIRST := Function(), SECOND := Function()],
          map[MAIN := Gray, GLOBALS := Gray, REGISTRY := Gray, CODE := White(false), SHARED := White(false), FIRST := White(false), SECOND := White(false)],
          [SHARED, SECOND, FIRST, CODE, REGISTRY, GLOBALS, MAIN], [], [REGISTRY, GLOBALS, MAIN], [], Propagate)
  }

  function At7(): G {
    State(map[MAIN := Thread(Gc(GLOBALS), [Nil, Gc(CODE), Gc(FIRST), Gc(SECOND)], []),
              GLOBALS := Tab(), REGISTRY := Tab(), CODE := Chunk(), SHARED := ClosedUpval(Nil), FIRST := Function(), SECOND := Function()],
          map[MAIN := Gray, GLOBALS := Gray, REGISTRY := Black, CODE := White(false), SHARED := White(false), FIRST := White(false), SECOND := White(false)],
          [SHARED, SECOND, FIRST, CODE, REGISTRY, GLOBALS, MAIN], [], [GLOBALS, MAIN], [], Propagate)
  }

  function At8(): G {
    State(map[MAIN := Thread(Gc(GLOBALS), [Nil, Gc(CODE), Gc(FIRST), Gc(SECOND)], []),
              GLOBALS := Tab(), REGISTRY := Tab(), CODE := Chunk(), SHARED := ClosedUpval(Nil), FIRST := Function(), SECOND := Function()],
          map[MAIN := Gray, GLOBALS := Black, REGISTRY := Black, CODE := White(false), SHARED := White(false), FIRST := White(false), SECOND := White(false)],
          [SHARED, SECOND, FIRST, CODE, REGISTRY, GLOBALS, MAIN], [], [MAIN], [], Propagate)
  }

  function At9(): G {
    State(map[MAIN := Thread(Gc(GLOBALS), [Nil, Gc(CODE), Gc(FIRST), Gc(SECOND)], []),
              GLOBALS := Tab(), REGISTRY := Tab(), CODE := Chunk(), SHARED := ClosedUpval(Nil), FIRST := Function(), SECOND := Function()],
          map[MAIN := Gray, GLOBALS := Black, REGISTRY := Black, CODE := Gray, SHARED := White(false), FIRST := Gray, SECOND := Gray],
          [SHARED, SECOND, FIRST, CODE, REGISTRY, GLOBALS, MAIN], [], [SECOND, FIRST, CODE], [MAIN], Propagate)
  }

  function At10(): G {
    State(map[MAIN := Thread(Gc(GLOBALS), [Nil, Gc(CODE), Gc(FIRST), Gc(SECOND)], []),
              GLOBALS := Tab(), REGISTRY := Tab(), CODE := Chunk(), SHARED := ClosedUpval(Nil), FIRST := Function(), SECOND := Function()],
          map[MAIN := Gray, GLOBALS := Black, REGISTRY := Black, CODE := Gray, SHARED := Black, FIRST := Gray, SECOND := Black],
          [SHARED, SECOND, FIRST, CODE, REGISTRY, GLOBALS, MAIN], [], [FIRST, CODE], [MAIN], Propagate)
  }

  function At11(): G {
    assert MAIN in At10().body && At10().body[MAIN].Thread?;
    WithNew(At10(), FRESH, Tab())
  }

  lemma StartIs()
    ensures Start(MAIN, GLOBALS, REGISTRY, 1, 0, []) == At0()
  {
    var s := Start(MAIN, GLOBALS, REGISTRY, 1, 0, []);
    assert s.strt[0] == [];
    assert s.strt == [[]] && s.mt == [] && s.rootgc == At0().rootgc;
    assert s.body == At0().body && s.colour == At0().colour;
  }

  // ---- Each event is allowed and leads to the next state --------------------------------

  lemma StackReachable(g: G, k: nat)
    requires MAIN in g.body && g.body[MAIN].Thread? && g.mainthread == MAIN
    requires k < |g.body[MAIN].stack| && g.body[MAIN].stack[k].Gc?
    ensures g.Reachable(g.body[MAIN].stack[k].ref)
  {
    assert g.Roots()[0] == Gc(MAIN);
    ReachableRoot(g.body, g.Roots(), MAIN);
    assert Children(g.body, MAIN)[k + 1] == g.body[MAIN].stack[k];
    ReachableStep(g.body, g.Roots(), MAIN, g.body[MAIN].stack[k].ref);
  }

  lemma GlobalsReachable(g: G)
    requires MAIN in g.body && g.body[MAIN].Thread? && g.mainthread == MAIN && g.body[MAIN].gt.Gc?
    ensures g.Reachable(g.body[MAIN].gt.ref)
  {
    assert g.Roots()[0] == Gc(MAIN);
    ReachableRoot(g.body, g.Roots(), MAIN);
    assert Children(g.body, MAIN)[0] == g.body[MAIN].gt;
    ReachableStep(g.body, g.Roots(), MAIN, g.body[MAIN].gt.ref);
  }

  /** A new object other than a userdata is linked at the head and pushed on the stack. */
  function WithNew(g: G, x: Ref, b: Body): G
    requires MAIN in g.body && g.body[MAIN].Thread?
  {
    g.(body := g.body[x := b][MAIN := g.body[MAIN].(stack := g.body[MAIN].stack + [Gc(x)])],
       colour := g.colour[x := White(g.cw)], rootgc := [x] + g.rootgc)
  }

  lemma HeadPlace(g: G, b: Body)
    requires !b.Udata?
    ensures LinkPlace(g, b) == 0
  {
    hide IndexOf;
  }

  lemma NewIs(g: G, x: Ref, b: Body)
    requires Inv(g) && Allowed(g, NewObject(x, b)) && !b.Udata? && g.running == MAIN && x != MAIN && g.sweepgc == 0
    ensures MAIN in g.body && g.body[MAIN].Thread? && Apply(g, NewObject(x, b)) == WithNew(g, x, b)
  {
    hide Inv, LinkPlace, IndexOf;
    BornRunning(g, x, b);
    hide Allowed;
    HeadPlace(g, b);
    assert g.rootgc[..0] + [x] + g.rootgc[0..] == [x] + g.rootgc;
    assert Alloc(g, x, b, 0) == g.(body := g.body[x := b], colour := g.colour[x := White(g.cw)], rootgc := [x] + g.rootgc);
  }

  lemma NothingHeld(h: Heap, x: Ref)
    requires x in h && (h[x] == Chunk() || h[x] == Tab())
    ensures forall y :: !Holds(h, x, y)
  {
    assert Children(h, x) == [];
  }

  lemma FunctionHeld(h: Heap, x: Ref, y: Ref)
    requires x in h && h[x] == Function() && Holds(h, x, y)
    ensures y == GLOBALS || y == CODE || y == SHARED
  {
    assert Refs([SHARED]) == [Gc(SHARED)];
    assert Children(h, x) == [Gc(GLOBALS), Gc(CODE), Gc(SHARED)];
  }

  lemma PlainAllowed(g: G, x: Ref, b: Body)
    requires x !in g.body && (b == Chunk() || b == Tab())
    ensures Allowed(g, NewObject(x, b))
  {
    NothingHeld(g.body[x := b], x);
  }

  lemma Step0()
    requires Inv(At0())
    ensures Allowed(At0(), EventAt(0)) && Apply(At0(), EventAt(0)) == At1()
  {
    hide Inv, Holdable, Holds, Allowed;
    PlainAllowed(At0(), CODE, Chunk());
    NewIs(At0(), CODE, Chunk());
    assert At1().body[MAIN].stack == WithNew(At0(), CODE, Chunk()).body[MAIN].stack;
    assert At1().body == WithNew(At0(), CODE, Chunk()).body;
    assert At1().colour == WithNew(At0(), CODE, Chunk()).colour;
    assert At1().rootgc == WithNew(At0(), CODE, Chunk()).rootgc;
  }

  lemma FirstUpval(g: G)
    requires MAIN in g.body && g.body[MAIN].Thread? && g.body[MAIN].openupval == []
    ensures !HasSlot(g.body, MAIN, 0)
    ensures InsertUpval(g, MAIN, 0, SHARED) ==
      g.(body := g.body[MAIN := g.body[MAIN].(openupval := [SHARED])][SHARED := OpenUpval(MAIN, 0)],
         colour := g.colour[SHARED := White(g.cw)], uvhead := [SHARED] + g.uvhead)
  {
    assert FindFrom(g.body, [], 0) == 0;
    assert [][..0] + [SHARED] + [][0..] == [SHARED];
  }

  lemma Step1()
    requires Inv(At1())
    ensures Allowed(At1(), EventAt(1)) && Apply(At1(), EventAt(1)) == At2()
  {
    hide Inv, InsertUpval, FindFrom;
    var g := At1();
    FirstUpval(g);
    assert At2().body == InsertUpval(g, MAIN, 0, SHARED).body;
    assert At2().colour == InsertUpval(g, MAIN, 0, SHARED).colour;
  }

  lemma FunctionAllowed(g: G, x: Ref)
    requires g.running == MAIN && g.mainthread == MAIN && x !in g.body
    requires MAIN in g.body && g.body[MAIN].Thread? && g.body[MAIN].gt == Gc(GLOBALS) && g.body[MAIN].openupval == [SHARED]
    requires |g.body[MAIN].stack| >= 2 && g.body[MAIN].stack[1] == Gc(CODE) && g.Alive(SHARED)
    ensures Allowed(g, NewObject(x, Function()))
  {
    StackReachable(g, 1);
    GlobalsReachable(g);
    forall y | Holds(g.body[x := Function()], x, y) ensures Holdable(g, y) { FunctionHeld(g.body[x := Function()], x, y); }
  }

  lemma Step2()
    requires Inv(At2())
    ensures Allowed(At2(), EventAt(2)) && Apply(At2(), EventAt(2)) == At3()
  {
    hide Inv, Holdable, Holds, Allowed;
    FunctionAllowed(At2(), FIRST);
    NewIs(At2(), FIRST, Function());
    assert At3().body[MAIN].stack == WithNew(At2(), FIRST, Function()).body[MAIN].stack;
    assert At3().body == WithNew(At2(), FIRST, Function()).body;
    assert At3().colour == WithNew(At2(), FIRST, Function()).colour;
    assert At3().rootgc == WithNew(At2(), FIRST, Function()).rootgc;
  }

  lemma Step3()
    requires Inv(At3())
    ensures Allowed(At3(), EventAt(3)) && Apply(At3(), EventAt(3)) == At4()
  {
    hide Inv, Holdable, Holds, Allowed;
    FunctionAllowed(At3(), SECOND);
    NewIs(At3(), SECOND, Function());
    assert At4().body[MAIN].stack == WithNew(At3(), SECOND, Function()).body[MAIN].stack;
    assert At4().body == WithNew(At3(), SECOND, Function()).body;
    assert At4().colour == WithNew(At3(), SECOND, Function()).colour;
    assert At4().rootgc == WithNew(At3(), SECOND, Function()).rootgc;
  }

  lemma CloseShared()
    ensures MustClose(At4().body, MAIN, 0) && CloseOne(At4(), MAIN) == At5() && !MustClose(At5().body, MAIN, 0)
  {
    var g := At4();
    var r := CloseOne(g, MAIN);
    assert [SHARED][1..] == [] && Remove([SHARED], SHARED) == [];
    assert r.body == At5().body && r.colour == At5().colour && r.rootgc == At5().rootgc;
  }

  lemma SharedEvent()
    ensures EventAt(4) == CloseUpvals(0) && At4().running == MAIN
  {
  }

  lemma Step4()
    requires Inv(At4())
    ensures Allowed(At4(), EventAt(4)) && Apply(At4(), EventAt(4)) == At5()
  {
    hide Inv, CloseOne, At4, At5, EventAt;
    CloseShared();
    assert Close(At4(), MAIN, 0) == Close(At5(), MAIN, 0) == At5();
    SharedEvent();
  }

  lemma Step10()
    requires Inv(At10())
    ensures Allowed(At10(), EventAt(10)) && Apply(At10(), EventAt(10)) == At11()
  {
    hide Inv, Holdable, Holds, Allowed;
    PlainAllowed(At10(), FRESH, Tab());
    NewIs(At10(), FRESH, Tab());
    hide WithNew, Apply;
  }

  // ---- Five collector steps -------------------------------------------------------------

  /** Marking a white object that is traversed later puts it in the gray list. */
  lemma MarkOne(h: Heap, m: Marks, x: Ref, vs: seq<Value>)
    requires x in h && h[x].Traversable() && IsWhite(m.colour, x)
    ensures MarkAll(h, m, [Gc(x)] + vs) == MarkAll(h, Marks(m.colour[x := Gray], [x] + m.gray), vs)
  {
    MarkGray(h, m, x);
    hide Mark;
    assert ([Gc(x)] + vs)[0] == Gc(x) && ([Gc(x)] + vs)[1..] == vs;
    assert MarkValue(h, m, Gc(x)) == Mark(h, m, x);
  }

  lemma MarkGray(h: Heap, m: Marks, x: Ref)
    requires x in h && h[x].Traversable() && IsWhite(m.colour, x)
    ensures Mark(h, m, x) == Marks(m.colour[x := Gray], [x] + m.gray)
  {
    hide MarkAll, Children;
  }

  /** Nothing happens to a value that is not a white object. */
  lemma MarkNone(h: Heap, m: Marks, v: Value, vs: seq<Value>)
    requires v.Gc? ==> !IsWhite(m.colour, v.ref)
    ensures MarkAll(h, m, [v] + vs) == MarkAll(h, m, vs)
  {
    assert ([v] + vs)[0] == v && ([v] + vs)[1..] == vs;
    assert MarkValue(h, m, v) == m;
  }

  lemma MarkEmpty(h: Heap, m: Marks)
    ensures MarkAll(h, m, []) == m
  {
  }

  lemma Step5()
    requires Inv(At5())
    ensures Allowed(At5(), EventAt(5)) && Apply(At5(), EventAt(5)) == At6()
  {
    RootsMarked();
    hide Inv, MarkAll, Mark;
    var g := At5();
    assert [Gc(g.mainthread), MainGlobals(g), g.registry] + g.mt == [Gc(MAIN), Gc(GLOBALS), Gc(REGISTRY)];
    assert At6().colour == g.colour[MAIN := Gray][GLOBALS := Gray][REGISTRY := Gray];
    assert Apply(g, EventAt(5)) == MarkRoot(g);
    assert MarkRoot(g) == At6();
  }

  lemma RootsMarked()
    ensures MarkAll(At5().body, Marks(At5().colour, []), [Gc(MAIN), Gc(GLOBALS), Gc(REGISTRY)])
      == Marks(At5().colour[MAIN := Gray][GLOBALS := Gray][REGISTRY := Gray], [REGISTRY, GLOBALS, MAIN])
  {
    var h, c := At5().body, At5().colour;
    hide Mark, MarkAll;
    MarkOne(h, Marks(c, []), MAIN, [Gc(GLOBALS), Gc(REGISTRY)]);
    MarkOne(h, Marks(c[MAIN := Gray], [MAIN]), GLOBALS, [Gc(REGISTRY)]);
    MarkOne(h, Marks(c[MAIN := Gray][GLOBALS := Gray], [GLOBALS, MAIN]), REGISTRY, []);
    MarkEmpty(h, Marks(c[MAIN := Gray][GLOBALS := Gray][REGISTRY := Gray], [REGISTRY, GLOBALS, MAIN]));
    assert [Gc(MAIN)] + [Gc(GLOBALS), Gc(REGISTRY)] == [Gc(MAIN), Gc(GLOBALS), Gc(REGISTRY)];
    assert [Gc(GLOBALS)] + [Gc(REGISTRY)] == [Gc(GLOBALS), Gc(REGISTRY)];
    assert [Gc(REGISTRY)] + [] == [Gc(REGISTRY)];
    assert [MAIN] + [] == [MAIN] && [GLOBALS] + [MAIN] == [GLOBALS, MAIN];
    assert [REGISTRY] + [GLOBALS, MAIN] == [REGISTRY, GLOBALS, MAIN];
  }

  /** Traversing an empty table, or a function prototype without constants, marks nothing. */
  lemma PlainTraversal(g: G)
    requires g.gray != [] && g.gray[0] in g.body && (g.body[g.gray[0]] == Tab() || g.body[g.gray[0]] == Chunk())
    requires !IsWhite(g.colour, g.gray[0])
    ensures PropagateMark(g) == g.(gray := g.gray[1..], colour := g.colour[g.gray[0] := Black])
  {
    var o := g.gray[0];
    assert Children(g.body, o) == [];
    MarkEmpty(g.body, Marks(g.colour[o := Black], g.gray[1..]));
    assert Cleaned(g.body[o]) == g.body[o];
    assert g.body[o := g.body[o]] == g.body;
  }

  lemma Step6()
    requires Inv(At6())
    ensures Allowed(At6(), EventAt(6)) && Apply(At6(), EventAt(6)) == At7()
  {
    hide Inv, PropagateMark, Children, MarkAll, Mark, Cleaned;
    assert At6().gray[0] == REGISTRY && At6().gray[1..] == [GLOBALS, MAIN];
    PlainTraversal(At6());
    assert At7().colour == At6().colour[REGISTRY := Black];
    assert Apply(At6(), EventAt(6)) == PropagateMark(At6());
  }

  lemma Step7()
    requires Inv(At7())
    ensures Allowed(At7(), EventAt(7)) && Apply(At7(), EventAt(7)) == At8()
  {
    hide Inv, PropagateMark, Children, MarkAll, Mark, Cleaned;
    assert At7().gray[0] == GLOBALS && At7().gray[1..] == [MAIN];
    PlainTraversal(At7());
    assert At8().colour == At7().colour[GLOBALS := Black];
    assert Apply(At7(), EventAt(7)) == PropagateMark(At7());
  }

  lemma Step8()
    requires Inv(At8())
    ensures Allowed(At8(), EventAt(8)) && Apply(At8(), EventAt(8)) == At9()
  {
    StackMarked();
    hide Inv, MarkAll, Mark;
    var g := At8();
    assert [MAIN][1..] == [];
    assert Children(g.body, MAIN) == [Gc(GLOBALS), Nil, Gc(CODE), Gc(FIRST), Gc(SECOND)];
    assert At9().colour == g.colour[CODE := Gray][FIRST := Gray][SECOND := Gray];
    assert Apply(g, EventAt(8)) == PropagateMark(g);
    assert [MAIN] + [] == [MAIN];
    assert PropagateMark(g) == At9();
  }

  lemma StackMarked()
    ensures MarkAll(At8().body, Marks(At8().colour, []), [Gc(GLOBALS), Nil, Gc(CODE), Gc(FIRST), Gc(SECOND)])
      == Marks(At8().colour[CODE := Gray][FIRST := Gray][SECOND := Gray], [SECOND, FIRST, CODE])
  {
    var h, c := At8().body, At8().colour;
    hide Mark, MarkAll;
    MarkNone(h, Marks(c, []), Gc(GLOBALS), [Nil, Gc(CODE), Gc(FIRST), Gc(SECOND)]);
    MarkNone(h, Marks(c, []), Nil, [Gc(CODE), Gc(FIRST), Gc(SECOND)]);
    MarkOne(h, Marks(c, []), CODE, [Gc(FIRST), Gc(SECOND)]);
    MarkOne(h, Marks(c[CODE := Gray], [CODE]), FIRST, [Gc(SECOND)]);
    MarkOne(h, Marks(c[CODE := Gray][FIRST := Gray], [FIRST, CODE]), SECOND, []);
    MarkEmpty(h, Marks(c[CODE := Gray][FIRST := Gray][SECOND := Gray], [SECOND, FIRST, CODE]));
    assert [Gc(GLOBALS)] + [Nil, Gc(CODE), Gc(FIRST), Gc(SECOND)] == [Gc(GLOBALS), Nil, Gc(CODE), Gc(FIRST), Gc(SECOND)];
    assert [Nil] + [Gc(CODE), Gc(FIRST), Gc(SECOND)] == [Nil, Gc(CODE), Gc(FIRST), Gc(SECOND)];
    assert [Gc(CODE)] + [Gc(FIRST), Gc(SECOND)] == [Gc(CODE), Gc(FIRST), Gc(SECOND)];
    assert [Gc(FIRST)] + [Gc(SECOND)] == [Gc(FIRST), Gc(SECOND)];
    assert [Gc(SECOND)] + [] == [Gc(SECOND)];
    assert [CODE] + [] == [CODE] && [FIRST] + [CODE] == [FIRST, CODE] && [SECOND] + [FIRST, CODE] == [SECOND, FIRST, CODE];
  }

  lemma Step9()
    requires Inv(At9())
    ensures Allowed(At9(), EventAt(9)) && Apply(At9(), EventAt(9)) == At10()
  {
    SecondMarked();
    hide Inv, MarkAll, Mark;
    var g := At9();
    assert g.gray[1..] == [FIRST, CODE];
    FunctionChildren(g.body, SECOND);
    assert At10().colour == g.colour[SECOND := Black][SHARED := Black];
    assert Apply(g, EventAt(9)) == PropagateMark(g);
    assert g.body[SECOND := Cleaned(g.body[SECOND])] == g.body;
    assert PropagateMark(g) == At10();
  }

  lemma FunctionChildren(h: Heap, x: Ref)
    requires x in h && h[x] == Function()
    ensures Children(h, x) == [Gc(GLOBALS), Gc(CODE), Gc(SHARED)]
  {
    assert Refs([SHARED]) == [Gc(SHARED)];
  }

  lemma SecondMarked()
    ensures MarkAll(At9().body, Marks(At9().colour[SECOND := Black], [FIRST, CODE]), [Gc(GLOBALS), Gc(CODE), Gc(SHARED)])
      == Marks(At9().colour[SECOND := Black][SHARED := Black], [FIRST, CODE])
  {
    var h, c := At9().body, At9().colour[SECOND := Black];
    MarkClosed(h, Marks(c, [FIRST, CODE]), SHARED);
    hide Mark, MarkAll;
    MarkNone(h, Marks(c, [FIRST, CODE]), Gc(GLOBALS), [Gc(CODE), Gc(SHARED)]);
    MarkNone(h, Marks(c, [FIRST, CODE]), Gc(CODE), [Gc(SHARED)]);
    assert [Gc(GLOBALS)] + [Gc(CODE), Gc(SHARED)] == [Gc(GLOBALS), Gc(CODE), Gc(SHARED)];
    assert [Gc(CODE)] + [Gc(SHARED)] == [Gc(CODE), Gc(SHARED)];
  }

  /** A closed upvalue that holds nil turns black at once. */
  lemma MarkClosed(h: Heap, m: Marks, u: Ref)
    requires u in h && h[u] == ClosedUpval(Nil) && IsWhite(m.colour, u)
    ensures MarkAll(h, m, [Gc(u)]) == Marks(m.colour[u := Black], m.gray)
  {
    var n := m.(colour := m.colour[u := Gray]);
    assert Children(h, u) == [Nil] + [];
    MarkNone(h, n, Nil, []);
    MarkEmpty(h, n);
    assert Mark(h, m, u) == n.(colour := n.colour[u := Black]);
    assert n.colour[u := Black] == m.colour[u := Black];
    assert [Gc(u)][1..] == [];
    assert MarkValue(h, m, Gc(u)) == Mark(h, m, u);
    MarkEmpty(h, Mark(h, m, u));
  }

  // ---- The whole run --------------------------------------------------------------------

  function At(i: nat): G {
    if i == 0 then At0() else if i == 1 then At1() else if i == 2 then At2() else if i == 3 then At3()
    else if i == 4 then At4() else if i == 5 then At5() else if i == 6 then At6() else if i == 7 then At7()
    else if i == 8 then At8() else if i == 9 then At9() else if i == 10 then At10() else At11()
  }

  lemma StepAt(i: nat)
    requires i < STEPS && Inv(At(i))
    ensures Allowed(At(i), EventAt(i)) && Apply(At(i), EventAt(i)) == At(i + 1)
  {
    hide Inv, Allowed, Apply, EventAt;
    hide At0, At1, At2, At3, At4, At5, At6, At7, At8, At9, At10, At11;
    match i
    case 0 => Step0();
    case 1 => Step1();
    case 2 => Step2();
    case 3 => Step3();
    case 4 => Step4();
    case 5 => Step5();
    case 6 => Step6();
    case 7 => Step7();
    case 8 => Step8();
    case 9 => Step9();
    case _ => Step10();
  }

  lemma {:induction false} RunsFrom(i: nat)
    requires i <= STEPS && Inv(At(i))
    ensures Legal(At(i), Events(i)) && Run(At(i), Events(i)) == At11()
    decreases STEPS - i
  {
    hide Inv, Allowed, Apply, EventAt;
    hide At0, At1, At2, At3, At4, At5, At6, At7, At8, At9, At10, At11;
    if i < STEPS {
      StepAt(i);
      ApplyInv(At(i), EventAt(i));
      hide At;
      RunsFrom(i + 1);
      assert Events(i)[0] == EventAt(i) && Events(i)[1..] == Events(i + 1);
    }
  }

  /** The state in which lua_setupvalue is called, as the run reaches it. */
  lemma RunReaches()
    ensures Inv(Start(MAIN, GLOBALS, REGISTRY, 1, 0, [])) && Legal(Start(MAIN, GLOBALS, REGISTRY, 1, 0, []), Events(0))
    ensures Run(Start(MAIN, GLOBALS, REGISTRY, 1, 0, []), Events(0)) == At11()
    ensures Inv(At11())
  {
    StartInv(MAIN, GLOBALS, REGISTRY, 1, 0, []);
    StartIs();
    hide Inv, Start, At0, At11;
    RunsFrom(0);
  }

  // ---- The call, and what the collector makes of it -------------------------------------

  function PoppedStack(): seq<Value> { [Nil, Gc(CODE), Gc(FIRST), Gc(SECOND)] }

  /** lua_setupvalue moves the new table from the stack into the upvalue. */
  function After(): G {
    ReadyForCall();
    WithStack(SetUpvalueApi(At11(), FIRST, SHARED, Gc(FRESH)), MAIN, Gc(GLOBALS), PoppedStack())
  }

  function AfterBody(): Heap {
    map[MAIN := Thread(Gc(GLOBALS), PoppedStack(), []), GLOBALS := Tab(), REGISTRY := Tab(), CODE := Chunk(),
        SHARED := ClosedUpval(Gc(FRESH)), FIRST := Function(), SECOND := Function(), FRESH := Tab()]
  }

  lemma ReadyForCall()
    ensures IsClosedUpvalOf(At11(), FIRST, SHARED) && MissedBarrier(At11(), FIRST, SHARED, Gc(FRESH))
    ensures SetUpvalueApi(At11(), FIRST, SHARED, Gc(FRESH)) == Write(At11(), SHARED, ClosedUpval(Gc(FRESH)))
  {
  }

  lemma CallReachable()
    ensures At11().Reachable(FIRST) && At11().Reachable(FRESH)
  {
    assert At11().body[MAIN].stack == [Nil, Gc(CODE), Gc(FIRST), Gc(SECOND), Gc(FRESH)];
    StackReachable(At11(), 2);
    StackReachable(At11(), 4);
  }

  /** The barrier does nothing: the closure is gray. */
  lemma AfterIs()
    ensures After() == At11().(body := AfterBody())
  {
    ReadyForCall();
    hide SetUpvalueApi;
    assert After().body == AfterBody();
  }

  lemma {:induction false} MarkedAlready(h: Heap, m: Marks, vs: seq<Value>)
    requires forall y :: Gc(y) in vs ==> !IsWhite(m.colour, y)
    ensures MarkAll(h, m, vs) == m
  {
    if vs == [] {
      MarkEmpty(h, m);
    } else {
      assert vs[0] in vs;
      assert [vs[0]] + vs[1..] == vs;
      hide Mark, MarkAll;
      MarkNone(h, m, vs[0], vs[1..]);
      MarkedAlready(h, m, vs[1..]);
    }
  }

  function AfterFirst(): G {
    At11().(body := AfterBody(), colour := At11().colour[FIRST := Black], gray := [CODE])
  }

  function AfterCode(): G {
    AfterFirst().(colour := AfterFirst().colour[CODE := Black], gray := [])
  }

  /** Traversing the closure marks nothing: the upvalue is black already. */
  lemma FirstTraversed()
    ensures After().body.Keys == After().colour.Keys && SingleStep(After()) == AfterFirst()
  {
    AfterIs();
    hide Inv, MarkAll, Mark, After;
    var g := At11().(body := AfterBody());
    assert g.gray[0] == FIRST && g.gray[1..] == [CODE];
    FunctionChildren(g.body, FIRST);
    MarkedAlready(g.body, Marks(g.colour[FIRST := Black], [CODE]), [Gc(GLOBALS), Gc(CODE), Gc(SHARED)]);
    assert g.body[FIRST := Cleaned(g.body[FIRST])] == g.body;
    assert PropagateMark(g) == AfterFirst();
  }

  lemma CodeTraversed()
    ensures AfterFirst().body.Keys == AfterFirst().colour.Keys && SingleStep(AfterFirst()) == AfterCode()
  {
    hide PropagateMark, Children, MarkAll, Mark, Cleaned;
    assert AfterFirst().gray[0] == CODE && AfterFirst().gray[1..] == [];
    PlainTraversal(AfterFirst());
  }

  /** The stack refers to marked objects only. */
  lemma StackAgain()
    ensures var q := GrayAgain(AfterCode());
      q.gray == [MAIN] && PropagateMark(q) == AfterCode()
  {
    var q := GrayAgain(AfterCode());
    hide MarkAll, Mark;
    assert Children(q.body, MAIN) == [Gc(GLOBALS), Nil, Gc(CODE), Gc(FIRST), Gc(SECOND)];
    assert q.gray[0] == MAIN && q.gray[1..] == [] && [MAIN] + [] == [MAIN];
    MarkedAlready(q.body, Marks(q.colour, []), [Gc(GLOBALS), Nil, Gc(CODE), Gc(FIRST), Gc(SECOND)]);
  }

  lemma NothingGray(g: G)
    requires g.body.Keys == g.colour.Keys && g.gray == []
    ensures PropagateAll(g) == g
  {
  }

  lemma AtomicMissesIt()
    ensures AfterCode().body.Keys == AfterCode().colour.Keys
    ensures AtomicMark(AfterCode()) == AfterCode()
  {
    var g := AfterCode();
    assert RemarkUpvals(g, g.uvhead) == g;
    MarkedAlready(g.body, g.MarkState(), [Gc(MAIN)] + g.mt);
    assert RemarkRoots(g) == g;
    StackAgain();
    hide PropagateMark, AfterCode, MarkAll, Mark;
    NothingGray(g);
    PropagateProgress(GrayAgain(g));
    assert PropagateAll(GrayAgain(g)) == PropagateAll(PropagateMark(GrayAgain(g)));
  }

  function Flipped(): G {
    AfterCode().(cw := true, phase := SweepString)
  }

  lemma AtomicFlips()
    ensures AfterCode().body.Keys == AfterCode().colour.Keys && SingleStep(AfterCode()) == Flipped()
  {
    AtomicMissesIt();
    hide AtomicMark;
  }

  function Swept(): G {
    Flipped().(sweepstrgc := 1, phase := Sweep)
  }

  /** The string table is empty. */
  lemma StringsSwept()
    ensures Flipped().body.Keys == Flipped().colour.Keys
    ensures SingleStep(Flipped()) == Swept()
  {
    assert Flipped().strt == [[]];
  }

  lemma AfterEdges()
    ensures Refers(AfterBody(), MAIN, FIRST) && Refers(AfterBody(), FIRST, SHARED) && Refers(AfterBody(), SHARED, FRESH)
  {
    var h := AfterBody();
    assert Children(h, MAIN)[3] == Gc(FIRST);
    FunctionChildren(h, FIRST);
    assert [Gc(GLOBALS), Gc(CODE), Gc(SHARED)][2] == Gc(SHARED);
    assert Children(h, SHARED) == [Gc(FRESH)];
  }

  lemma FreshReachable()
    ensures Reachable(AfterBody(), At11().Roots(), FRESH)
  {
    var h, roots := AfterBody(), At11().Roots();
    AfterEdges();
    assert roots[0] == Gc(MAIN);
    hide AfterBody, At11, Refers;
    ReachableRoot(h, roots, MAIN);
    ReachableStep(h, roots, MAIN, FIRST);
    ReachableStep(h, roots, FIRST, SHARED);
    ReachableStep(h, roots, SHARED, FRESH);
  }

  predicate NoOpen(g: G) {
    forall t :: t in g.body ==> OpenList(g.body, t) == []
  }

  lemma SweepOneShrinks(g: G)
    requires g.sweepgc < |g.rootgc| && NoOpen(g)
    ensures NoOpen(SweepOne(g)) && SweepOne(g).body.Keys <= g.body.Keys
    ensures !Survives(g, g.rootgc[g.sweepgc]) ==> g.rootgc[g.sweepgc] !in SweepOne(g).body
  {
    var x := g.rootgc[g.sweepgc];
    assert OpenList(g.body, x) == [];
    assert SweepOpen(g, x, 0) == g && Close(g, x, 0) == g;
    hide SweepOpen, Close;
  }

  lemma {:induction false} SweepListShrinks(g: G, count: nat)
    requires NoOpen(g)
    ensures SweepList(g, count).body.Keys <= g.body.Keys
    ensures count > 0 && g.sweepgc < |g.rootgc| && !Survives(g, g.rootgc[g.sweepgc]) ==>
      g.rootgc[g.sweepgc] !in SweepList(g, count).body
    decreases count
  {
    if count > 0 && g.sweepgc < |g.rootgc| {
      SweepOneShrinks(g);
      hide NoOpen, SweepOne, Survives;
      SweepListShrinks(SweepOne(g), count - 1);
    }
  }

  lemma SweepStepIs(g: G)
    requires g.body.Keys == g.colour.Keys && g.phase == Sweep
    ensures SingleStep(g).body == SweepList(g, GCSWEEPMAX).body
  {
    hide SweepList;
  }

  /** The sweep frees the table. */
  lemma FreshSwept()
    ensures Swept().body.Keys == Swept().colour.Keys && FRESH !in SingleStep(Swept()).body
  {
    FlippedFresh();
    assert GCSWEEPMAX > 0;
    hide *;
    SweepStepIs(Swept());
    SweepListShrinks(Swept(), GCSWEEPMAX);
  }

  lemma FlippedFresh()
    ensures var g := Swept();
      g.body.Keys == g.colour.Keys && g.phase == Sweep && NoOpen(g) && g.sweepgc == 0 && |g.rootgc| > 0 && g.rootgc[0] == FRESH && !Survives(g, FRESH)
  {
  }

  /** `n' calls of singlestep. */
  function Steps(g: G, n: nat): G
    requires g.body.Keys == g.colour.Keys
    decreases n
  {
    if n == 0 || SingleStep(g).body.Keys != SingleStep(g).colour.Keys then g else Steps(SingleStep(g), n - 1)
  }

  /** After the run `es', a lua_setupvalue call that also sets the stack, and `n' collector
      steps, object `x' is reachable, and the next step frees it. */
  ghost predicate Loses(s: G, es: seq<Event>, f: Ref, u: Ref, x: Ref, st: seq<Value>, n: nat) {
    && Inv(s) && Legal(s, es)
    && var g := Run(s, es);
    && g.Reachable(f) && g.Reachable(x) && CallLoses(g, f, u, x, st, n)
  }

  ghost predicate CallLoses(g: G, f: Ref, u: Ref, x: Ref, st: seq<Value>, n: nat) {
    && IsClosedUpvalOf(g, f, u) && g.running in g.body && g.body[g.running].Thread?
    && var a := SetUpvalueApi(g, f, u, Gc(x));
    && g.running in a.body && a.body[g.running].Thread?
    && var b := WithStack(a, g.running, g.body[g.running].gt, st);
    && b.body.Keys == b.colour.Keys && StepsLose(Steps(b, n), x)
  }

  ghost predicate StepsLose(r: G, x: Ref) {
    r.body.Keys == r.colour.Keys && r.Reachable(x) && x in r.body && x !in SingleStep(r).body
  }

  lemma SetUpvalueLosesAnObject()
    ensures Loses(Start(MAIN, GLOBALS, REGISTRY, 1, 0, []), Events(0), FIRST, SHARED, FRESH, PoppedStack(), 4)
  {
    RunReaches();
    CallReachable();
    CallLosesFresh();
    hide *;
    LosesIs(Start(MAIN, GLOBALS, REGISTRY, 1, 0, []), Events(0), FIRST, SHARED, FRESH, PoppedStack(), 4, At11());
  }

  lemma LosesIs(s: G, es: seq<Event>, f: Ref, u: Ref, x: Ref, st: seq<Value>, n: nat, g: G)
    requires Inv(s) && Legal(s, es) && Run(s, es) == g
    requires g.Reachable(f) && g.Reachable(x) && CallLoses(g, f, u, x, st, n)
    ensures Loses(s, es, f, u, x, st, n)
  {
    hide CallLoses, Run, Legal, Inv;
  }

  lemma StepsLoseFresh()
    ensures StepsLose(Swept(), FRESH)
  {
    FreshSwept();
    SweptReachable();
    hide SingleStep, Swept;
  }

  lemma CallLosesFresh()
    ensures CallLoses(At11(), FIRST, SHARED, FRESH, PoppedStack(), 4)
  {
    CallIs();
    FourSteps();
    StepsLoseFresh();
    hide SetUpvalueApi, Steps, After, StepsLose, PoppedStack, IsClosedUpvalOf;
  }

  lemma CallIs()
    ensures IsClosedUpvalOf(At11(), FIRST, SHARED) && At11().Reachable(FIRST) && At11().Reachable(FRESH)
    ensures MAIN in At11().body && At11().body[MAIN].Thread? && At11().running == MAIN && At11().body[MAIN].gt == Gc(GLOBALS)
    ensures SetUpvalueApi(At11(), FIRST, SHARED, Gc(FRESH)).body == At11().body[SHARED := ClosedUpval(Gc(FRESH))]
    ensures WithStack(SetUpvalueApi(At11(), FIRST, SHARED, Gc(FRESH)), MAIN, Gc(GLOBALS), PoppedStack()) == After()
  {
    ReadyForCall();
    CallReachable();
    hide SetUpvalueApi;
  }

  lemma FourSteps()
    ensures After().body.Keys == After().colour.Keys
    ensures Steps(After(), 4) == Swept()
  {
    FirstTraversed();
    CodeTraversed();
    AtomicFlips();
    StringsSwept();
    FlippedKeys();
    hide SingleStep, After, AfterFirst, AfterCode, Flipped;
    assert Steps(Flipped(), 1) == Swept();
    assert Steps(AfterCode(), 2) == Steps(Flipped(), 1);
    assert Steps(AfterFirst(), 3) == Steps(AfterCode(), 2);
  }

  lemma FlippedKeys()
    ensures Flipped().body.Keys == Flipped().colour.Keys
    ensures Flipped().body == AfterBody() && Flipped().Roots() == At11().Roots() && FRESH in AfterBody()
  {
  }

  lemma SweptReachable()
    ensures var r := Swept();
      r.body.Keys == r.colour.Keys && r.Reachable(FRESH) && FRESH in r.body
  {
    FlippedKeys();
    FreshReachable();
    hide Flipped, At11, AfterBody, Reachable;
    assert Swept().Roots() == Flipped().Roots();
  }
}
