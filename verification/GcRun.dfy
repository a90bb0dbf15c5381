/** Runs: any interleaving of collector steps, whole collections, and program events. */
module GcRun {
  import opened GcHeap
  import opened GcMark
  import opened GcState
  import opened GcThreads
  import opened GcPropagate
  import opened GcAtomic
  import opened GcBarrier
  import opened GcClose
  import opened GcSweep
  import opened GcKeeps
  import opened GcStep
  import opened GcFull
  import opened GcMutator
  import opened GcAlloc
  import opened GcApi

  datatype Event =
    | Collect                                       // singlestep
    | FullCollect                                   // luaC_fullgc
    | StoreAt(o: Ref, e: Edit)                      // a store followed by its barrier
    | Relayout(t: Ref, arr: seq<Value>, nodes: seq<Node>)   // a rehash of a table
    | SetUpvalue(u: Ref, v: Value)                  // OP_SETUPVAL through an open upvalue
    | ApiSetUpvalue(f: Ref, u: Ref, v: Value)       // lua_setupvalue on a Lua closure
    | SetStack(t: Ref, gt: Value, st: seq<Value>)   // push, pop or assign stack slots or globals
    | CloseUpvals(level: nat)                       // OP_CLOSE, OP_RETURN
    | NewObject(x: Ref, b: Body)                    // allocation of anything but strings
    | NewString(x: Ref, hash: nat)
    | SameString(s: Ref)                            // luaS_newlstr finds an equal string
    | Fix(s: Ref)                                   // luaS_fix
    | FindUp(level: nat, x: Ref)                    // luaF_findupval
    | SetBasicMeta(i: nat, v: Value)                // lua_setmetatable on a basic type
    | Resume(t: Ref)

  ghost predicate ReachableValue(g: G, v: Value) {
    v.Gc? ==> g.Reachable(v.ref)
  }

  /** A new closure may also take the open upvalues just found for it. */
  ghost predicate Holdable(g: G, y: Ref) {
    g.Reachable(y) || (y in OpenList(g.body, g.running) && g.Alive(y))
  }

  /** The program works with what it can reach from its roots. */
  ghost predicate Allowed(g: G, e: Event) {
    match e
    case Collect => true
    case FullCollect => true
    case StoreAt(o, d) => o in g.body && g.Reachable(o) && Fits(g.body[o], d) && ReachableValue(g, d.Stored())
    case Relayout(t, a, ns) =>
      && t in g.body && g.Reachable(t) && g.body[t].Table?
      && forall y :: Holds(g.body[t := g.body[t].(arr := a, nodes := ns)], t, y) ==> Holds(g.body, t, y)
    case SetUpvalue(u, v) =>
      && u in g.body && g.Reachable(u) && g.body[u].OpenUpval? && ReachableValue(g, v)
    case ApiSetUpvalue(f, u, v) =>
      && IsUpvalOf(g, f, u) && g.Reachable(f) && ReachableValue(g, v) && !MissedBarrier(g, f, u, v)
    case SetStack(t, gt, st) =>
      && t in g.body && g.Reachable(t) && g.body[t].Thread?
      && (forall u :: u in g.body[t].openupval && u in g.body && g.body[u].OpenUpval? ==> g.body[u].slot < |st|)
      && ReachableValue(g, gt) && forall i :: 0 <= i < |st| ==> ReachableValue(g, st[i])
    case CloseUpvals(_) => true
    case NewObject(x, b) =>
      && x !in g.body && b.InRootList() && (b.Thread? ==> b.openupval == [])
      && forall y :: Holds(g.body[x := b], x, y) ==> Holdable(g, y)
    case NewString(x, _) => x !in g.body
    case SameString(s) => s in g.body && g.body[s].Str?
    case Fix(s) => g.Alive(s) && g.body[s].Str?
    case FindUp(level, x) =>
      x !in g.body && g.running in g.body && g.body[g.running].Thread? && level < |g.body[g.running].stack|
    case SetBasicMeta(i, v) => i < |g.mt| && ReachableValue(g, v)
    case Resume(t) => t in g.body && g.Reachable(t) && g.body[t].Thread?
  }

  /** luaS_fix: the string is never collected. */
  function FixString(g: G, s: Ref): G { g.(fixed := g.fixed + {s}) }

  function Push(g: G, v: Value): G
    requires g.running in g.body && g.body[g.running].Thread?
  {
    WithStack(g, g.running, g.body[g.running].gt, g.body[g.running].stack + [v])
  }

  function IndexOf(s: seq<Ref>, x: Ref): (i: nat)
    ensures i <= |s|
  {
    if s == [] || s[0] == x then 0 else 1 + IndexOf(s[1..], x)
  }

  /** Userdata are chained behind the main thread, everything else at the head. */
  function LinkPlace(g: G, b: Body): (k: nat)
    ensures k <= |g.rootgc|
  {
    var i := IndexOf(g.rootgc, g.mainthread);
    if b.Udata? && i < |g.rootgc| then i + 1 else 0
  }

  function WithObject(g: G, x: Ref, b: Body): G
    requires Inv(g) && x !in g.body
  {
    BornRunning(g, x, b);
    hide Inv;
    Push(Alloc(g, x, b, LinkPlace(g, b)), Gc(x))
  }

  function WithString(g: G, x: Ref, hash: nat): G
    requires Inv(g) && x !in g.body
  {
    BornRunning(g, x, Str(hash));
    hide Inv;
    Push(AllocString(g, x, hash), Gc(x))
  }

  function WithSame(g: G, s: Ref): G
    requires Inv(g) && s in g.body && g.body[s].Str?
  {
    RunningIsThread(g);
    hide Inv;
    Push(Revive(g, s), Gc(s))
  }

  /** OP_SETUPVAL */
  function WithUpvalue(g: G, u: Ref, v: Value): G
    requires Inv(g) && u in g.body && g.body[u].OpenUpval?
  {
    OpenIsUpval(g, u);
    hide Inv;
    Barrier(Assigned(g, u, v), u, v)
  }

  /** singlestep */
  function Stepped(g: G): G
    requires Inv(g)
  {
    InvParts(g);
    SingleStep(g)
  }

  function Apply(g: G, e: Event): G
    requires Inv(g) && Allowed(g, e)
  {
    hide Inv;
    match e
    case Collect => Stepped(g)
    case FullCollect => FullGc(g)
    case StoreAt(o, d) => Store(g, o, d)
    case Relayout(t, a, ns) => Write(g, t, g.body[t].(arr := a, nodes := ns))
    case SetUpvalue(u, v) => WithUpvalue(g, u, v)
    case ApiSetUpvalue(f, u, v) => SetUpvalueApi(g, f, u, v)
    case SetStack(t, gt, st) => WithStack(g, t, gt, st)
    case CloseUpvals(level) => Close(g, g.running, level)
    case NewObject(x, b) => WithObject(g, x, b)
    case NewString(x, hash) => WithString(g, x, hash)
    case SameString(s) => WithSame(g, s)
    case Fix(s) => FixString(g, s)
    case FindUp(level, x) => FindUpval(g, g.running, level, x).1
    case SetBasicMeta(i, v) => g.(mt := g.mt[i := v])
    case Resume(t) => g.(running := t)
  }

  lemma OpenIsUpval(g: G, u: Ref)
    requires Inv(g) && u in g.body && g.body[u].OpenUpval?
    ensures IsUpval(g, u)
  {
    assert u in g.body[g.body[u].thread].openupval;
    assert ThreadOk(g.body, g.body[u].thread);
  }

  lemma RunningIsThread(g: G)
    requires Inv(g)
    ensures g.running in g.body && g.body[g.running].Thread?
  {
  }

  lemma BornRunning(g: G, x: Ref, b: Body)
    requires Inv(g) && x !in g.body
    ensures g.running in g.body[x := b] && g.body[x := b][g.running].Thread? && |g.strt| > 0
  {
  }

  // ---- Every event keeps the invariant --------------------------------------------------

  lemma PushInv(g: G, v: Value)
    requires Inv(g) && (v.Gc? ==> g.Alive(v.ref))
    ensures g.running in g.body && g.body[g.running].Thread? && Inv(Push(g, v))
  {
    var t := g.running;
    assert ThreadOk(g.body, t);
    var st := g.body[t].stack;
    assert StackOk(g, t, g.body[t].gt, st + [v]) by {
      forall u | u in g.body[t].openupval ensures u in g.body && g.body[u].OpenUpval? && g.body[u].slot < |st + [v]| {
        var i :| 0 <= i < |g.body[t].openupval| && g.body[t].openupval[i] == u;
      }
    }
    hide Inv, StackOk;
    StackInv(g, t, g.body[t].gt, st + [v]);
  }

  lemma SetStackInv(g: G, t: Ref, gt: Value, st: seq<Value>)
    requires Inv(g) && Allowed(g, SetStack(t, gt, st))
    ensures Inv(WithStack(g, t, gt, st))
  {
    assert ThreadOk(g.body, t);
    SetStackOk(g, t, gt, st);
    hide Inv, StackOk;
    StackInv(g, t, gt, st);
  }

  lemma SetStackOk(g: G, t: Ref, gt: Value, st: seq<Value>)
    requires LiveOk(g) && Allowed(g, SetStack(t, gt, st)) && ThreadOk(g.body, t)
    ensures StackOk(g, t, gt, st)
  {
    forall u | u in g.body[t].openupval ensures u in g.body && g.body[u].OpenUpval? && g.body[u].slot < |st| {
      var i :| 0 <= i < |g.body[t].openupval| && g.body[t].openupval[i] == u;
    }
    forall y | Gc(y) in [gt] + st ensures g.Alive(y) {
      if Gc(y) in st { var i :| 0 <= i < |st| && st[i] == Gc(y); assert ReachableValue(g, st[i]); }
      ReachableAlive(g, y);
    }
    forall i | 0 <= i < |st| && st[i].Gc? ensures g.Alive(st[i].ref) {
      assert ReachableValue(g, st[i]);
      ReachableAlive(g, st[i].ref);
    }
  }

  lemma SetUpvalueInv(g: G, u: Ref, v: Value)
    requires Inv(g) && Allowed(g, SetUpvalue(u, v))
    ensures Inv(Apply(g, SetUpvalue(u, v)))
  {
    OpenIsUpval(g, u);
    if v.Gc? { ReachableAlive(g, v.ref); }
    hide Inv, Assigned;
    OpenAssignedInv(g, u, v);
    OpenAssignedColours(g, u, v);
    AnyBarrierInv(Assigned(g, u, v), u, v);
  }

  lemma ApiSetUpvalueInv(g: G, f: Ref, u: Ref, v: Value)
    requires Inv(g) && Allowed(g, ApiSetUpvalue(f, u, v))
    ensures Inv(Apply(g, ApiSetUpvalue(f, u, v)))
  {
    ReachableAlive(g, f);
    if v.Gc? { ReachableAlive(g, v.ref); }
    hide Inv, SetUpvalueApi;
    SetUpvalueApiInv(g, f, u, v);
  }

  lemma NewObjectInv(g: G, x: Ref, b: Body)
    requires Inv(g) && Allowed(g, NewObject(x, b))
    ensures Inv(Apply(g, NewObject(x, b)))
  {
    BornRunning(g, x, b);
    NewObjectOk(g, x, b);
    hide Inv, BornOk;
    AllocInv(g, x, b, LinkPlace(g, b));
    PushInv(Alloc(g, x, b, LinkPlace(g, b)), Gc(x));
  }

  lemma NewObjectOk(g: G, x: Ref, b: Body)
    requires LiveOk(g) && Allowed(g, NewObject(x, b))
    ensures BornOk(g, x, b)
  {
    forall y | Holds(g.body[x := b], x, y) ensures g.Alive(y) {
      assert Holdable(g, y);
      if g.Reachable(y) { ReachableAlive(g, y); }
    }
  }

  lemma NewStringInv(g: G, x: Ref, hash: nat)
    requires Inv(g) && Allowed(g, NewString(x, hash))
    ensures Inv(Apply(g, NewString(x, hash)))
  {
    BornRunning(g, x, Str(hash));
    NewStringIs(g, x, hash);
    hide *;
    AllocStringInv(g, x, hash);
    PushInv(AllocString(g, x, hash), Gc(x));
  }

  lemma NewStringIs(g: G, x: Ref, hash: nat)
    requires Inv(g) && Allowed(g, NewString(x, hash))
    ensures x !in g.body && |g.strt| > 0 && AllocString(g, x, hash).Alive(x)
    ensures AllocString(g, x, hash).running in AllocString(g, x, hash).body
    ensures AllocString(g, x, hash).body[AllocString(g, x, hash).running].Thread?
    ensures Apply(g, NewString(x, hash)) == Push(AllocString(g, x, hash), Gc(x))
  {
    BornRunning(g, x, Str(hash));
    hide Inv;
  }

  lemma SameStringInv(g: G, s: Ref)
    requires Inv(g) && Allowed(g, SameString(s))
    ensures Inv(Apply(g, SameString(s)))
  {
    ReviveInv(g, s);
    ReviveAlive(g, s);
    hide Inv;
    PushInv(Revive(g, s), Gc(s));
  }

  lemma ReviveAlive(g: G, s: Ref)
    requires Inv(g) && s in g.body
    ensures Revive(g, s).Alive(s)
  {
  }

  lemma FixInv(g: G, s: Ref)
    requires Inv(g) && Allowed(g, Fix(s))
    ensures Inv(FixString(g, s))
  {
    FixLists(g, s);
    FixLive(g, s);
    FixColours(g, s);
  }

  lemma FixLists(g: G, s: Ref)
    requires ListsOk(g) && s in g.body && g.body[s].Str?
    ensures ListsOk(FixString(g, s))
  {
  }

  lemma FixLive(g: G, s: Ref)
    requires LiveOk(g)
    ensures LiveOk(FixString(g, s))
  {
    var r := FixString(g, s);
    forall x | r.Alive(x) ensures HoldsAlive(r, x) { assert HoldsAlive(g, x); }
  }

  lemma SameFixed(g: G, s: Ref)
    ensures var r := FixString(g, s); r == g.(running := r.running, mt := r.mt, fixed := r.fixed)
  {
  }

  lemma FixColours(g: G, s: Ref)
    requires Inv(g) && ListsOk(FixString(g, s))
    ensures ColoursOk(FixString(g, s))
  {
    hide *;
    InvParts(g);
    SameFixed(g, s);
    RootsColours(g, FixString(g, s));
  }

  lemma StoreAtInv(g: G, o: Ref, d: Edit)
    requires Inv(g) && Allowed(g, StoreAt(o, d))
    ensures Inv(Store(g, o, d))
  {
    ReachableAlive(g, o);
    if d.Stored().Gc? { ReachableAlive(g, d.Stored().ref); }
    hide Inv;
    StoreInv(g, o, d);
  }

  lemma RelayoutInv(g: G, t: Ref, a: seq<Value>, ns: seq<Node>)
    requires Inv(g) && Allowed(g, Relayout(t, a, ns))
    ensures Inv(Apply(g, Relayout(t, a, ns)))
  {
    ReachableAlive(g, t);
    assert WriteOk(g, t, g.body[t].(arr := a, nodes := ns));
    hide Inv, WriteOk;
    WriteInv(g, t, g.body[t].(arr := a, nodes := ns));
  }

  lemma RootEventsInv(g: G, e: Event)
    requires Inv(g) && Allowed(g, e) && (e.SetBasicMeta? || e.Resume?)
    ensures Inv(Apply(g, e))
  {
    if e.Resume? {
      ReachableAlive(g, e.t);
      forall y | Gc(y) in g.mt ensures g.Alive(y) { assert Gc(y) in g.Roots(); }
      assert Apply(g, e) == g.(running := e.t, mt := g.mt);
      RootsInv(g, e.t, g.mt);
    } else {
      if e.v.Gc? { ReachableAlive(g, e.v.ref); }
      var mt := g.mt[e.i := e.v];
      forall y | Gc(y) in mt ensures g.Alive(y) {
        if Gc(y) in g.mt { assert Gc(y) in g.Roots(); }
      }
      assert Apply(g, e) == g.(running := g.running, mt := mt);
      RootsInv(g, g.running, mt);
    }
  }

  lemma FindUpInv(g: G, level: nat, x: Ref)
    requires Inv(g) && Allowed(g, FindUp(level, x))
    ensures Inv(Apply(g, FindUp(level, x)))
  {
    FindUpvalInv(g, g.running, level, x);
  }

  lemma ApplyInv(g: G, e: Event)
    requires Inv(g) && Allowed(g, e)
    ensures Inv(Apply(g, e))
  {
    hide Inv, Allowed;
    match e
    case Collect => StepInv(g);
    case FullCollect =>
    case StoreAt(o, d) => StoreAtInv(g, o, d);
    case Relayout(t, a, ns) => RelayoutInv(g, t, a, ns);
    case SetUpvalue(u, v) => SetUpvalueInv(g, u, v);
    case ApiSetUpvalue(f, u, v) => ApiSetUpvalueInv(g, f, u, v);
    case SetStack(t, gt, st) => SetStackInv(g, t, gt, st);
    case CloseUpvals(level) => CloseInv(g, g.running, level);
    case NewObject(x, b) => NewObjectInv(g, x, b);
    case NewString(x, hash) => NewStringInv(g, x, hash);
    case SameString(s) => SameStringInv(g, s);
    case Fix(s) => FixInv(g, s);
    case FindUp(level, x) => FindUpInv(g, level, x);
    case SetBasicMeta(i, v) => RootEventsInv(g, e);
    case Resume(t) => RootEventsInv(g, e);
  }
}
