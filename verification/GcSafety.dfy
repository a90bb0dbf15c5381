/** The collector's promises over whole runs: reachable objects are never freed or changed,
    and what was not marked at the flip is gone when the sweep ends. */
module GcSafety {
  import opened Wrappers
  import opened GcHeap
  import opened GcMark
  import opened GcState
  import opened GcPropagate
  import opened GcAtomic
  import opened GcBarrier
  import opened GcClose
  import opened GcSweep
  import opened GcKeeps
  import opened GcUpvals
  import opened GcStep
  import opened GcFull
  import opened GcMutator
  import opened GcAlloc
  import opened GcApi
  import opened GcRun

  /** Every event of the run is allowed in the state it meets. */
  ghost predicate Legal(g: G, es: seq<Event>)
    requires Inv(g)
    decreases |es|
  {
    es == [] ||
    (Allowed(g, es[0]) && (ApplyInv(g, es[0]); Legal(Apply(g, es[0]), es[1..])))
  }

  function Run(g: G, es: seq<Event>): (r: G)
    requires Inv(g) && Legal(g, es)
    ensures Inv(r)
    decreases |es|
  {
    if es == [] then g
    else
      ApplyInv(g, es[0]);
      Run(Apply(g, es[0]), es[1..])
  }

  // ---- The initial state ----------------------------------------------------------------

  /** A string made at the start that is never collected. */
  datatype Name = Name(ref: Ref, hash: nat)

  /** lua_newstate and f_luaopen (lstate.c:69-82, 147-202): the main thread, its table of globals,
      the registry, and the names of events and reserved words (ltm.c:30-43, llex.c:64-72). */
  function Start(main: Ref, globals: Ref, reg: Ref, buckets: nat, tags: nat, names: seq<Name>): G
    requires buckets > 0
  {
    WithNames(Bare(main, globals, reg, buckets, tags), names)
  }

  function WithNames(g: G, names: seq<Name>): G
    requires |g.strt| > 0
    decreases |names|
  {
    if names == [] then g
    else WithNames(FixString(AllocString(g, names[0].ref, names[0].hash), names[0].ref), names[1..])
  }

  ghost predicate Startable(main: Ref, globals: Ref, reg: Ref, buckets: nat, names: seq<Name>) {
    main != globals && main != reg && globals != reg && buckets > 0 && NewNames({main, globals, reg}, names)
  }

  ghost predicate NewNames(used: set<Ref>, names: seq<Name>) {
    && (forall i :: 0 <= i < |names| ==> names[i].ref !in used)
    && forall i, j :: 0 <= i < j < |names| ==> names[i].ref != names[j].ref
  }

  lemma StartInv(main: Ref, globals: Ref, reg: Ref, buckets: nat, tags: nat, names: seq<Name>)
    requires Startable(main, globals, reg, buckets, names)
    ensures Inv(Start(main, globals, reg, buckets, tags, names))
  {
    BareInv(main, globals, reg, buckets, tags);
    hide Inv;
    NamesInv(Bare(main, globals, reg, buckets, tags), names);
  }

  lemma {:induction false} NamesInv(g: G, names: seq<Name>)
    requires Inv(g) && |g.strt| > 0 && NewNames(g.body.Keys, names)
    ensures Inv(WithNames(g, names))
    decreases |names|
  {
    if names != [] {
      var x, hash := names[0].ref, names[0].hash;
      FirstName(g.body.Keys, names);
      AllocStringInv(g, x, hash);
      NewNameIs(g, x, hash);
      hide Inv, AllocString, FixString, Allowed, NewNames;
      FixInv(AllocString(g, x, hash), x);
      NamesInv(FixString(AllocString(g, x, hash), x), names[1..]);
    }
  }

  lemma FirstName(used: set<Ref>, names: seq<Name>)
    requires NewNames(used, names) && names != []
    ensures names[0].ref !in used && NewNames(used + {names[0].ref}, names[1..])
  {
  }

  lemma NewNameIs(g: G, x: Ref, hash: nat)
    requires |g.strt| > 0
    ensures var r := AllocString(g, x, hash);
      Allowed(r, Fix(x)) && |r.strt| == |g.strt| && r.body.Keys == g.body.Keys + {x}
    ensures |FixString(AllocString(g, x, hash), x).strt| == |g.strt|
    ensures FixString(AllocString(g, x, hash), x).body.Keys == g.body.Keys + {x}
  {
  }

  function Bare(main: Ref, globals: Ref, reg: Ref, buckets: nat, tags: nat): G {
    G(map[main := Thread(Gc(globals), [Nil], []), globals := Table(None, [], []), reg := Table(None, [], [])],
      map[main := White(false), globals := White(false), reg := White(false)],
      {main}, seq(buckets, i => []), [reg, globals, main], [], [], [], false, Pause, 0, 0,
      main, main, Gc(reg), seq(tags, i => Nil))
  }

  lemma BareInv(main: Ref, globals: Ref, reg: Ref, buckets: nat, tags: nat)
    requires main != globals && main != reg && globals != reg && buckets > 0
    ensures Inv(Bare(main, globals, reg, buckets, tags))
  {
    BareLists(main, globals, reg, buckets, tags);
    BareLive(main, globals, reg, buckets, tags);
  }

  lemma BareLists(main: Ref, globals: Ref, reg: Ref, buckets: nat, tags: nat)
    requires main != globals && main != reg && globals != reg && buckets > 0
    ensures ListsOk(Bare(main, globals, reg, buckets, tags))
  {
    var g := Bare(main, globals, reg, buckets, tags);
    assert StringsOk(g);
    assert RootListOk(g);
    assert UpvalsOk(g) by { assert ThreadOk(g.body, main); }
  }

  lemma BareLive(main: Ref, globals: Ref, reg: Ref, buckets: nat, tags: nat)
    requires main != globals && main != reg && globals != reg && buckets > 0
    ensures LiveOk(Bare(main, globals, reg, buckets, tags))
  {
    var g := Bare(main, globals, reg, buckets, tags);
    forall x | g.Alive(x) ensures HoldsAlive(g, x) {
      if x != main { assert Children(g.body, x) == []; }
    }
    forall y | Gc(y) in g.Roots() ensures g.Alive(y) {
      assert Gc(y) !in g.mt;
    }
  }

  // ---- Safety ---------------------------------------------------------------------------

  /** The object is there and, to the program, what it was. */
  predicate Spared(g: G, r: G, x: Ref) {
    x in g.body && r.Alive(x) && Shown(r.body, x) == Shown(g.body, x)
  }

  lemma CloseOneSpares(g: G, t: Ref, x: Ref)
    requires Inv(g) && OpenList(g.body, t) != [] && g.Alive(x)
    ensures Spared(g, CloseOne(g, t), x)
  {
    if Sweeping(g) {
      CloseOneKeeps(g, t);
      hide *;
      KeptSpared(g, CloseOne(g, t), x);
    } else {
      CloseOneBody(g, t);
      CloseOneInv(g, t);
      hide *;
      CloseOnePhase(g, t);
      AliveInBody(g, x);
      ClosedSpared(g, t, CloseOne(g, t), x);
    }
  }

  lemma AliveInBody(g: G, x: Ref)
    requires g.Alive(x)
    ensures x in g.body
  {
  }

  lemma KeptSpared(g: G, r: G, x: Ref)
    requires Keeps(g, r) && g.Alive(x)
    ensures Spared(g, r, x)
  {
    hide Shown;
    assert r.Alive(x);
  }

  lemma ClosedSpared(g: G, t: Ref, r: G, x: Ref)
    requires ClosingOk(g.body, t) && r.body == ClosedBody(g.body, t) && x in g.body
    requires Inv(r) && (Sweeping(r) <==> Sweeping(g)) && !Sweeping(g)
    ensures Spared(g, r, x)
  {
    ClosedHas(g.body, t, x);
    NotSweepingAlive(r, x);
    hide Inv, Sweeping, ClosingOk, ClosedBody, Shown, ThreadOk;
    CloseShown(g.body, t, x);
  }

  lemma ClosedHas(h: Heap, t: Ref, x: Ref)
    requires ClosingOk(h, t) && x in h
    ensures x in ClosedBody(h, t)
  {
  }

  lemma NotSweepingAlive(g: G, x: Ref)
    requires Inv(g) && !Sweeping(g) && x in g.body
    ensures g.Alive(x)
  {
  }

  /** Closing, in any phase of the collector: what is not dead stays, and every upvalue has
      the value it had on the stack. */
  lemma {:induction false} CloseSpares(g: G, t: Ref, level: nat, x: Ref)
    requires Inv(g) && g.Alive(x)
    ensures Spared(g, Close(g, t, level), x)
    decreases |OpenList(g.body, t)|
  {
    if MustClose(g.body, t, level) {
      CloseShortens(g, t);
      CloseOneInv(g, t);
      CloseOneSpares(g, t, x);
      hide Inv, CloseOne, Shown;
      CloseSpares(CloseOne(g, t), t, level, x);
    }
  }

  /** Apart from collections and the freeing of dead upvalues, no event frees anything. */
  lemma OthersOnlyAdd(g: G, e: Event)
    requires Inv(g) && Allowed(g, e) && !e.Collect? && !e.FullCollect? && !e.CloseUpvals?
    ensures g.body.Keys <= Apply(g, e).body.Keys
  {
    if e.StoreAt? || e.SetUpvalue? || e.ApiSetUpvalue? || e.FindUp? {
      hide *;
      WritesOnlyAdd(g, e);
    } else if e.NewObject? || e.NewString? || e.SameString? {
      hide *;
      BirthsOnlyAdd(g, e);
    } else {
      hide Inv;
    }
  }

  lemma WritesOnlyAdd(g: G, e: Event)
    requires Inv(g) && Allowed(g, e) && (e.StoreAt? || e.SetUpvalue? || e.ApiSetUpvalue? || e.FindUp?)
    ensures g.body.Keys <= Apply(g, e).body.Keys
  {
    match e
    case StoreAt(o, d) => hide *; StoreAtKeys(g, o, d);
    case SetUpvalue(u, v) => hide *; UpvalueKeys(g, u, v);
    case ApiSetUpvalue(f, u, v) => hide *; ApiUpvalueKeys(g, f, u, v);
    case FindUp(level, y) => hide *; FindUpKeys(g, level, y);
    case _ =>
  }

  lemma StoreAtKeys(g: G, o: Ref, d: Edit)
    requires Inv(g) && Allowed(g, StoreAt(o, d))
    ensures g.body.Keys <= Apply(g, StoreAt(o, d)).body.Keys
  {
    hide Inv, Store;
    StoreKeys(g, o, d);
  }

  lemma FindUpKeys(g: G, level: nat, y: Ref)
    requires Inv(g) && Allowed(g, FindUp(level, y))
    ensures g.body.Keys <= Apply(g, FindUp(level, y)).body.Keys
  {
    hide Inv, FindUpval;
    FindKeys(g, g.running, level, y);
  }

  lemma UpvalueKeys(g: G, u: Ref, v: Value)
    requires Inv(g) && Allowed(g, SetUpvalue(u, v))
    ensures g.body.Keys <= Apply(g, SetUpvalue(u, v)).body.Keys
  {
    OpenIsUpval(g, u);
    AssignedKeys(g, u, v);
    hide Inv, Barrier, Assigned;
    BarrierBody(Assigned(g, u, v), u, v);
  }

  lemma ApiUpvalueKeys(g: G, f: Ref, u: Ref, v: Value)
    requires Inv(g) && Allowed(g, ApiSetUpvalue(f, u, v))
    ensures g.body.Keys <= Apply(g, ApiSetUpvalue(f, u, v)).body.Keys
  {
    AssignedKeys(g, u, v);
    hide Inv, Barrier, Assigned;
    BarrierBody(Assigned(g, u, v), f, v);
  }

  lemma AssignedKeys(g: G, u: Ref, v: Value)
    requires IsUpval(g, u)
    ensures Assigned(g, u, v).body.Keys == g.body.Keys
    ensures Assigned(g, u, v) == g.(body := Assigned(g, u, v).body)
  {
  }

  lemma BirthsOnlyAdd(g: G, e: Event)
    requires Inv(g) && Allowed(g, e) && (e.NewObject? || e.NewString? || e.SameString?)
    ensures g.body.Keys <= Apply(g, e).body.Keys
  {
    match e
    case NewObject(y, b) => hide *; NewObjectKeys(g, y, b);
    case NewString(y, hash) => hide *; NewStringKeys(g, y, hash);
    case SameString(s) => RunningIsThread(g); hide Inv;
    case _ =>
  }

  lemma NewObjectKeys(g: G, y: Ref, b: Body)
    requires Inv(g) && Allowed(g, NewObject(y, b))
    ensures g.body.Keys <= Apply(g, NewObject(y, b)).body.Keys
  {
    BornRunning(g, y, b);
    hide Inv, LinkPlace;
  }

  lemma NewStringKeys(g: G, y: Ref, hash: nat)
    requires Inv(g) && Allowed(g, NewString(y, hash))
    ensures g.body.Keys <= Apply(g, NewString(y, hash)).body.Keys
  {
    BornRunning(g, y, Str(hash));
    hide Inv;
  }

  lemma StoreKeys(g: G, o: Ref, d: Edit)
    requires o in g.body && Fits(g.body[o], d)
    ensures g.body.Keys <= Store(g, o, d).body.Keys
  {
    hide Mark;
  }

  lemma FindKeys(g: G, t: Ref, level: nat, x: Ref)
    requires t in g.body && g.body[t].Thread?
    ensures g.body.Keys <= FindUpval(g, t, level, x).1.body.Keys
  {
    hide HasSlot;
  }

  lemma EventSpares(g: G, e: Event, x: Ref)
    requires Inv(g) && Allowed(g, e) && g.Reachable(x)
    ensures x in g.body && x in Apply(g, e).body
    ensures e.Collect? || e.FullCollect? || e.CloseUpvals? ==> Shown(Apply(g, e).body, x) == Shown(g.body, x)
  {
    ReachableAlive(g, x);
    if e.Collect? {
      StepSpares(g);
    } else if e.FullCollect? {
      FullGcExact(g);
    } else if e.CloseUpvals? {
      CloseSpares(g, g.running, e.level, x);
    } else {
      OthersOnlyAdd(g, e);
    }
  }

  /** In every run from the initial state, whatever happens next, no object that is reachable
      at that moment is freed, and the collector does not change its contents. */
  lemma NoReachableFreed(main: Ref, globals: Ref, reg: Ref, buckets: nat, tags: nat, names: seq<Name>,
                         es: seq<Event>, e: Event, x: Ref)
    requires Startable(main, globals, reg, buckets, names)
    ensures var s := Start(main, globals, reg, buckets, tags, names);
      Inv(s) &&
      (Legal(s, es) && Allowed(Run(s, es), e) && Run(s, es).Reachable(x) ==>
        var g := Run(s, es);
        && x in g.body && x in Apply(g, e).body
        && (e.Collect? || e.FullCollect? || e.CloseUpvals? ==> Shown(Apply(g, e).body, x) == Shown(g.body, x)))
  {
    StartInv(main, globals, reg, buckets, tags, names);
    var s := Start(main, globals, reg, buckets, tags, names);
    hide Inv, Allowed, Apply, Start;
    if Legal(s, es) && Allowed(Run(s, es), e) && Run(s, es).Reachable(x) {
      EventSpares(Run(s, es), e, x);
    }
  }

  // ---- Garbage goes ---------------------------------------------------------------------

  /** The event brings a dead object back (an interned string, an open upvalue), or reuses
      its address. */
  predicate Touches(g: G, e: Event, x: Ref) {
    match e
    case SameString(s) => s == x
    case NewObject(y, _) => y == x
    case NewString(y, _) => y == x
    case FindUp(level, y) =>
      y == x || (g.running in g.body && g.body[g.running].Thread? && FindUpval(g, g.running, level, y).0 == x)
    case _ => false
  }

  /** Waiting to be swept, or already gone. */
  predicate Doomed(g: G, x: Ref) {
    x !in g.body || (Sweeping(g) && g.IsDead(x) && x !in g.fixed)
  }

  lemma KeepsDoomed(g: G, r: G, x: Ref)
    requires Inv(g) && Inv(r) && Keeps(g, r) && Doomed(g, x)
    requires Sweeping(r) || r.phase == Finalize
    ensures Doomed(r, x)
  {
    if x in r.body && r.IsDead(x) { OnlyDeadWhileSweeping(r, x); }
  }

  lemma StepDoomed(g: G, x: Ref)
    requires Inv(g) && Doomed(g, x)
    ensures g.body.Keys == g.colour.Keys && Doomed(SingleStep(g), x)
  {
    StepInv(g);
    if Sweeping(g) {
      SweepingStepKeeps(g);
      SweepingStays(g);
      hide Inv, Keeps, Doomed;
      KeepsDoomed(g, SingleStep(g), x);
    } else {
      StepKeys(g);
    }
  }

  lemma StepKeys(g: G)
    requires Inv(g) && !Sweeping(g)
    ensures g.body.Keys == g.colour.Keys && SingleStep(g).body.Keys == g.body.Keys
  {
  }

  lemma CloseDoomed(g: G, level: nat, x: Ref)
    requires Inv(g) && Doomed(g, x)
    ensures Doomed(Close(g, g.running, level), x)
  {
    CloseInv(g, g.running, level);
    if Sweeping(g) {
      CloseKeeps(g, g.running, level);
      CloseFrame(g, g.running, level);
      hide Inv, Keeps, Doomed;
      KeepsDoomed(g, Close(g, g.running, level), x);
    } else {
      CloseAdds(g, g.running, level, x);
    }
  }

  lemma CloseOneAdds(g: G, t: Ref, x: Ref)
    requires UpvalsOk(g) && OpenList(g.body, t) != [] && x !in g.body
    ensures x !in CloseOne(g, t).body
  {
    DropReady(g, t, 0);
    hide UpvalsOk, NoDup, Barrier, Mark;
    var u := g.body[t].openupval[0];
    if !g.IsDead(u) { BarrierBodies(g, u); }
  }

  lemma BarrierBodies(g: G, u: Ref)
    ensures forall r, v :: Barrier(r, u, v).body == r.body
  {
    forall r, v ensures Barrier(r, u, v).body == r.body { BarrierBody(r, u, v); }
  }

  lemma {:induction false} CloseAdds(g: G, t: Ref, level: nat, x: Ref)
    requires Inv(g) && x !in g.body
    ensures x !in Close(g, t, level).body
    decreases |OpenList(g.body, t)|
  {
    if MustClose(g.body, t, level) {
      CloseShortens(g, t);
      CloseOneInv(g, t);
      CloseOneAdds(g, t, x);
      hide Inv, CloseOne;
      CloseAdds(CloseOne(g, t), t, level, x);
    }
  }

  lemma FullDoomed(g: G, x: Ref)
    requires Inv(g) && Doomed(g, x)
    ensures Doomed(FullGc(g), x)
  {
    FullGcExact(g);
    if x in g.body && g.Reachable(x) { ReachableAlive(g, x); }
  }

  lemma BarrierFirstDoomed(g: G, o: Ref, d: Edit, x: Ref)
    requires o in g.body && Doomed(g, x)
    ensures Doomed(BarrierFirst(g, o, d), x) && BarrierFirst(g, o, d).body == g.body
  {
    hide Mark;
  }

  lemma WriteDoomed(g: G, o: Ref, b: Body, x: Ref)
    requires o in g.body && Doomed(g, x)
    ensures Doomed(Write(g, o, b), x)
  {
  }

  lemma StoreDoomed(g: G, o: Ref, d: Edit, x: Ref)
    requires Inv(g) && o in g.body && Fits(g.body[o], d) && Doomed(g, x)
    ensures Doomed(Store(g, o, d), x)
  {
    StoreIsBarrierFirst(g, o, d);
    hide Inv, Doomed, Store, BarrierFirst, Edited;
    BarrierFirstDoomed(g, o, d, x);
    WriteDoomed(BarrierFirst(g, o, d), o, Edited(g.body[o], d), x);
  }

  lemma OtherDoomed(g: G, e: Event, x: Ref)
    requires Inv(g) && Allowed(g, e) && Doomed(g, x) && !Touches(g, e, x)
    requires e.Relayout? || e.SetStack? || e.SetBasicMeta? || e.Resume? || e.Fix? || e.SameString? || e.FindUp? || e.NewObject? || e.NewString?
    ensures Doomed(Apply(g, e), x)
  {
    if e.FindUp? {
      hide Inv, Doomed;
      FindDoomed(g, e.level, e.x, x);
    } else if e.NewObject? || e.NewString? || e.SameString? {
      hide *;
      BornDoomed(g, e, x);
    } else {
      hide Inv;
    }
  }

  lemma BornDoomed(g: G, e: Event, x: Ref)
    requires Inv(g) && Allowed(g, e) && Doomed(g, x) && !Touches(g, e, x)
    requires e.SameString? || e.NewObject? || e.NewString?
    ensures Doomed(Apply(g, e), x)
  {
    match e
    case NewObject(y, b) => hide *; NewObjectDoomed(g, y, b, x);
    case NewString(y, hash) => hide *; NewStringDoomed(g, y, hash, x);
    case SameString(s) => hide *; SameStringDoomed(g, s, x);
    case _ =>
  }

  lemma PushDoomed(g: G, v: Value, x: Ref)
    requires g.running in g.body && g.body[g.running].Thread? && Doomed(g, x)
    ensures Doomed(Push(g, v), x)
  {
  }

  lemma BirthDoomed(g: G, r: G, y: Ref, b: Body, x: Ref)
    requires Doomed(g, x) && BornFrom(g, r, y, b) && r.fixed == g.fixed && x != y
    ensures Doomed(r, x)
  {
  }

  lemma NewObjectDoomed(g: G, y: Ref, b: Body, x: Ref)
    requires Inv(g) && Allowed(g, NewObject(y, b)) && Doomed(g, x) && !Touches(g, NewObject(y, b), x)
    ensures Doomed(Apply(g, NewObject(y, b)), x)
  {
    NewObjectIs(g, y, b);
    AllocIs(g, y, b, LinkPlace(g, b));
    hide Inv, LinkPlace, Allowed, Apply, Doomed, Push, BornFrom;
    BirthDoomed(g, Alloc(g, y, b, LinkPlace(g, b)), y, b, x);
    PushDoomed(Alloc(g, y, b, LinkPlace(g, b)), Gc(y), x);
  }

  lemma NewObjectIs(g: G, y: Ref, b: Body)
    requires Inv(g) && Allowed(g, NewObject(y, b))
    ensures var r := Alloc(g, y, b, LinkPlace(g, b));
      && r.running in r.body && r.body[r.running].Thread?
      && Apply(g, NewObject(y, b)) == Push(r, Gc(y))
  {
    BornRunning(g, y, b);
    hide Inv, LinkPlace;
  }

  lemma NewStringDoomed(g: G, y: Ref, hash: nat, x: Ref)
    requires Inv(g) && Allowed(g, NewString(y, hash)) && Doomed(g, x) && !Touches(g, NewString(y, hash), x)
    ensures Doomed(Apply(g, NewString(y, hash)), x)
  {
    InvParts(g);
    InvStrings(g);
    NewStringIs(g, y, hash);
    AllocStringIs(g, y, hash);
    hide Inv, Allowed, Apply, Doomed, Push, BornFrom;
    BirthDoomed(g, AllocString(g, y, hash), y, Str(hash), x);
    PushDoomed(AllocString(g, y, hash), Gc(y), x);
  }

  lemma SameStringDoomed(g: G, s: Ref, x: Ref)
    requires Inv(g) && Allowed(g, SameString(s)) && Doomed(g, x) && !Touches(g, SameString(s), x)
    ensures Doomed(Apply(g, SameString(s)), x)
  {
    RunningIsThread(g);
    SameStringIs(g, s);
    hide Inv, Allowed, Apply, Push;
    ReviveDoomed(g, s, x);
    PushDoomed(Revive(g, s), Gc(s), x);
  }

  lemma ReviveDoomed(g: G, s: Ref, x: Ref)
    requires Doomed(g, x) && s != x
    ensures Doomed(Revive(g, s), x)
  {
  }

  lemma ReviveBody(g: G, s: Ref)
    ensures Revive(g, s).body == g.body && Revive(g, s).running == g.running
  {
  }

  lemma SameStringIs(g: G, s: Ref)
    requires Inv(g) && Allowed(g, SameString(s))
    ensures Revive(g, s).running in Revive(g, s).body && Revive(g, s).body[Revive(g, s).running].Thread?
    ensures Apply(g, SameString(s)) == Push(Revive(g, s), Gc(s))
  {
    hide Inv, Reachable, Whiten;
    RunningIsThread(g);
    ReviveBody(g, s);
  }

  lemma FindDoomed(g: G, level: nat, y: Ref, x: Ref)
    requires Inv(g) && Allowed(g, FindUp(level, y)) && Doomed(g, x) && !Touches(g, FindUp(level, y), x)
    ensures Doomed(FindUpval(g, g.running, level, y).1, x)
  {
    if HasSlot(g.body, g.running, level) {
      var u := g.body[g.running].openupval[FindFrom(g.body, g.body[g.running].openupval, level)];
      hide Inv;
      assert FindUpval(g, g.running, level, y) == (u, Revive(g, u));
      ReviveDoomed(g, u, x);
    } else {
      hide Inv;
      assert FindUpval(g, g.running, level, y) == (y, InsertUpval(g, g.running, level, y));
    }
  }

  lemma SetUpvalueDoomed(g: G, u: Ref, v: Value, x: Ref)
    requires Inv(g) && Allowed(g, SetUpvalue(u, v)) && Doomed(g, x)
    ensures Doomed(Apply(g, SetUpvalue(u, v)), x)
  {
    OpenIsUpval(g, u);
    OpenNotBlack(g, u);
    hide Inv, Doomed, Assigned;
    BarrierDoomed(g, u, u, v, x);
  }

  lemma ApiUpvalueDoomed(g: G, f: Ref, u: Ref, v: Value, x: Ref)
    requires Inv(g) && Allowed(g, ApiSetUpvalue(f, u, v)) && Doomed(g, x)
    ensures Doomed(Apply(g, ApiSetUpvalue(f, u, v)), x)
  {
    hide Inv, Doomed, Assigned;
    BarrierDoomed(g, f, u, v, x);
  }

  lemma BarrierDoomed(g: G, o: Ref, u: Ref, v: Value, x: Ref)
    requires IsUpval(g, u) && Doomed(g, x)
    ensures Doomed(Barrier(Assigned(g, u, v), o, v), x)
  {
    AssignedKeys(g, u, v);
    hide Assigned, IsUpval;
    BarrierBody(Assigned(g, u, v), o, v);
  }

  lemma ApplyDoomed(g: G, e: Event, x: Ref)
    requires Inv(g) && Allowed(g, e) && Doomed(g, x) && !Touches(g, e, x)
    ensures Doomed(Apply(g, e), x)
  {
    if e.Collect? { hide Inv, Doomed; StepDoomed(g, x); }
    else if e.FullCollect? { hide Inv, Doomed; FullDoomed(g, x); }
    else if e.CloseUpvals? { hide Inv, Doomed; CloseDoomed(g, e.level, x); }
    else if e.StoreAt? { hide Inv, Doomed; StoreDoomed(g, e.o, e.e, x); }
    else if e.SetUpvalue? { hide Inv, Doomed; SetUpvalueDoomed(g, e.u, e.v, x); }
    else if e.ApiSetUpvalue? { hide Inv, Doomed; ApiUpvalueDoomed(g, e.f, e.u, e.v, x); }
    else { hide Inv, Doomed; OtherDoomed(g, e, x); }
  }

  ghost predicate Untouched(g: G, es: seq<Event>, x: Ref)
    requires Inv(g) && Legal(g, es)
    decreases |es|
  {
    es == [] ||
    (!Touches(g, es[0], x) && (ApplyInv(g, es[0]); Untouched(Apply(g, es[0]), es[1..], x)))
  }

  lemma {:induction false} RunDoomed(g: G, es: seq<Event>, x: Ref)
    requires Inv(g) && Legal(g, es) && Untouched(g, es, x) && Doomed(g, x)
    ensures Doomed(Run(g, es), x)
    decreases |es|
  {
    hide Inv, Doomed, Apply, Allowed, Touches;
    if es != [] {
      ApplyInv(g, es[0]);
      ApplyDoomed(g, es[0], x);
      RunDoomed(Apply(g, es[0]), es[1..], x);
    }
  }

  /** An object that is dead and not fixed when a sweep is under way, and that the program
      does not bring back, is freed by the time the sweep is over. */
  lemma GarbageFreed(g: G, es: seq<Event>, x: Ref)
    ensures Inv(g) && Sweeping(g) && g.IsDead(x) && x !in g.fixed && Legal(g, es) && Untouched(g, es, x)
            && !Sweeping(Run(g, es))
      ==> x !in Run(g, es).body
  {
    if Inv(g) && Sweeping(g) && g.IsDead(x) && x !in g.fixed && Legal(g, es) && Untouched(g, es, x) {
      hide Inv, Run, Legal, Untouched;
      RunDoomed(g, es, x);
    }
  }

  /** Outside the sweep no object carries the other white; between cycles every object has
      the current white. */
  lemma WhitesBetweenCycles(g: G, es: seq<Event>, x: Ref)
    ensures Inv(g) && Legal(g, es) && x in Run(g, es).body && !Sweeping(Run(g, es)) ==>
      var r := Run(g, es);
      !r.IsDead(x) && (r.phase != Propagate ==> IsCurrentWhite(r, x))
  {
    if Inv(g) && Legal(g, es) && x in Run(g, es).body && !Sweeping(Run(g, es)) {
      StateWhites(Run(g, es), x);
    }
  }

  lemma StateWhites(r: G, x: Ref)
    requires Inv(r) && x in r.body && !Sweeping(r)
    ensures !r.IsDead(x) && (r.phase != Propagate ==> IsCurrentWhite(r, x))
  {
  }
}
