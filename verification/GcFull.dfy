/** A complete collection (lgc.c:636-659): it ends, and it frees exactly the unreachable objects. */
module GcFull {
  import opened GcHeap
  import opened GcMark
  import opened GcState
  import opened GcPropagate
  import opened GcAtomic
  import opened GcBarrier
  import opened GcClose
  import opened GcSweep
  import opened GcKeeps
  import opened GcStep

  // ---- Every step brings the end of the cycle closer ------------------------------------

  function Rank(p: Phase): nat {
    match p
    case Propagate => 4
    case SweepString => 3
    case Sweep => 2
    case Finalize => 1
    case Pause => 0
  }

  /** The sweep visits what lies ahead in `rootgc'; closing the upvalues of a freed thread
      can put at most as many objects there as it takes open upvalues away. */
  function Ahead(g: G): int {
    |g.rootgc| - g.sweepgc + |g.uvhead|
  }

  function WhiteBound(g: G): set<Ref> {
    if g.phase == Propagate then Whites(g.colour) else {}
  }

  function Measure(g: G): nat {
    match g.phase
    case Propagate => |g.gray|
    case SweepString => if g.sweepstrgc <= |g.strt| then |g.strt| - g.sweepstrgc else 0
    case Sweep => if Ahead(g) >= 0 then Ahead(g) else 0
    case _ => 0
  }

  ghost predicate Descends(g: G, r: G) {
    || Rank(r.phase) < Rank(g.phase)
    || (r.phase == g.phase && WhiteBound(r) < WhiteBound(g))
    || (r.phase == g.phase && WhiteBound(r) == WhiteBound(g) && Measure(r) < Measure(g))
  }

  lemma {:induction false} RemoveLength(s: seq<Ref>, x: Ref)
    requires x in s
    ensures |Remove(s, x)| == |s| - 1
  {
    if s[0] != x { RemoveLength(s[1..], x); }
  }

  lemma DropUpvalAhead(g: G, t: Ref, i: nat)
    requires HasUpval(g, t, i)
    ensures Ahead(DropUpval(g, t, i)) < Ahead(g)
  {
    DropReady(g, t, i);
    RemoveLength(g.uvhead, g.body[t].openupval[i]);
  }

  lemma {:induction false} SweepOpenAhead(g: G, t: Ref, i: nat)
    requires UpvalsOk(g)
    ensures Ahead(SweepOpen(g, t, i)) <= Ahead(g)
    decreases |OpenList(g.body, t)| - i
  {
    if i < |OpenList(g.body, t)| {
      DropReady(g, t, i);
      if Survives(g, g.body[t].openupval[i]) {
        SweepOpenAhead(Whiten(g, g.body[t].openupval[i]), t, i + 1);
      } else {
        DropUpvalAhead(g, t, i);
        DroppedUpvals(g, t, i);
        DropRestLen(g, t, i);
        hide DropUpval, UpvalsOk;
        SweepOpenAhead(DropUpval(g, t, i), t, i);
      }
    }
  }

  lemma CloseOneAhead(g: G, t: Ref)
    requires UpvalsOk(g) && g.body.Keys == g.colour.Keys && Sweeping(g) && OpenList(g.body, t) != []
    ensures Ahead(CloseOne(g, t)) <= Ahead(g) && UpvalsOk(CloseOne(g, t))
    ensures CloseOne(g, t).body.Keys == CloseOne(g, t).colour.Keys && Sweeping(CloseOne(g, t))
  {
    DropReady(g, t, 0);
    if g.IsDead(g.body[t].openupval[0]) {
      CloseDead(g, t);
      DropUpvalAhead(g, t, 0);
      DroppedUpvals(g, t, 0);
      hide CloseOne, UpvalsOk;
      DropShape(g, t, 0);
    } else {
      ClosingReady(g, t);
      CloseOneIs(g, t);
      hide CloseOne, ThreadOk;
      CloseLiveAhead(g, t, CloseOne(g, t));
    }
  }

  lemma CloseLiveAhead(g: G, t: Ref, r: G)
    requires UpvalsOk(g) && g.body.Keys == g.colour.Keys && ClosingOk(g.body, t) && g.body[t].openupval[0] in g.uvhead
    requires r == Relinked(g, t).(colour := r.colour, gray := r.gray) && r.colour.Keys == g.colour.Keys
    ensures Ahead(r) <= Ahead(g) && UpvalsOk(r) && r.body.Keys == r.colour.Keys
  {
    hide UpvalsOk, ThreadOk;
    RemoveLength(g.uvhead, g.body[t].openupval[0]);
    ClosedUpvals(g, t, r);
  }

  lemma {:induction false} CloseAhead(g: G, t: Ref)
    requires UpvalsOk(g) && g.body.Keys == g.colour.Keys && Sweeping(g)
    ensures Ahead(Close(g, t, 0)) <= Ahead(g)
    decreases |OpenList(g.body, t)|
  {
    if MustClose(g.body, t, 0) {
      CloseShortens(g, t);
      CloseOneAhead(g, t);
      hide CloseOne, UpvalsOk;
      CloseAhead(CloseOne(g, t), t);
    }
  }

  lemma EraseAhead(g: G, x: Ref)
    requires Inv(g) && Sweeping(g) && x in g.rootgc && !Survives(g, x)
    ensures Ahead(Erase(g, x)) < Ahead(g)
  {
    CloseAhead(g, x);
    EraseHasRoot(g, x);
    RemoveLength(Close(g, x, 0).rootgc, x);
  }

  lemma EraseHasRoot(g: G, x: Ref)
    requires Inv(g) && Sweeping(g) && x in g.rootgc
    ensures x in Close(g, x, 0).rootgc && (x in Close(g, x, 0).body ==> !Close(g, x, 0).body[x].OpenUpval?)
  {
    if g.body[x].Thread? { CloseCloses(g, x); }
  }

  lemma SweepOneAhead(g: G)
    requires Inv(g) && g.phase == Sweep && g.sweepgc < |g.rootgc|
    ensures Ahead(SweepOne(g)) < Ahead(g)
  {
    var x := g.rootgc[g.sweepgc];
    SweepOpenAhead(g, x, 0);
    hide Inv, SweepOpen, Erase, SweepReady;
    MakeReady(g, x);
    if !Survives(SweepOpen(g, x, 0), x) {
      ReadyAhead(SweepOpen(g, x, 0), x);
    }
  }

  lemma ReadyAhead(g: G, x: Ref)
    requires SweepReady(g, x) && !Survives(g, x)
    ensures Ahead(Erase(g, x)) < Ahead(g)
  {
    assert x in g.rootgc;
    hide Inv;
    EraseAhead(g, x);
  }

  lemma {:induction false} SweepListAhead(g: G, count: nat)
    requires Inv(g) && g.phase == Sweep
    ensures Ahead(SweepList(g, count)) <= Ahead(g)
    ensures count > 0 && g.sweepgc < |g.rootgc| ==> Ahead(SweepList(g, count)) < Ahead(g)
    decreases count
  {
    hide Inv, SweepOne;
    if count > 0 && g.sweepgc < |g.rootgc| {
      SweepOneInv(g);
      SweepOneAhead(g);
      SweepListAhead(SweepOne(g), count - 1);
    }
  }

  lemma AheadNatural(g: G)
    requires Inv(g)
    ensures Ahead(g) >= 0
  {
  }

  lemma SweepDescends(g: G)
    requires Inv(g) && g.phase == Sweep
    ensures Descends(g, SweepStep(g))
  {
    hide Inv;
    SweepListInv(g, GCSWEEPMAX);
    SweepListAhead(g, GCSWEEPMAX);
    AheadNatural(g);
    AheadNatural(SweepList(g, GCSWEEPMAX));
  }

  lemma StepDescends(g: G)
    requires Inv(g) && g.phase != Pause
    ensures g.body.Keys == g.colour.Keys && Descends(g, SingleStep(g))
  {
    InvKeys(g);
    match g.phase
    case Propagate =>
      if g.gray != [] { PropagateProgress(g); PropagatePhase(g); }
    case SweepString =>
      SweepBucketReady(g);
    case Sweep =>
      hide Inv;
      SweepDescends(g);
    case Finalize =>
  }

  lemma PropagatePhase(g: G)
    requires |g.gray| > 0
    ensures PropagateMark(g).phase == g.phase
  {
  }

  /** The loops `while (g->gcstate != target) singlestep(L)'. */
  function RunUntil(g: G, target: Phase): (r: G)
    requires Inv(g) && (target == Pause || (target == Finalize && g.phase != Pause))
    ensures Inv(r) && r.phase == target
    decreases Rank(g.phase), WhiteBound(g), Measure(g)
  {
    hide Inv, SingleStep;
    if g.phase == target then g
    else
      StepInv(g);
      StepDescends(g);
      StepNotPause(g);
      RunUntil(SingleStep(g), target)
  }

  lemma StepNotPause(g: G)
    requires g.body.Keys == g.colour.Keys
    ensures g.phase != Finalize ==> SingleStep(g).phase != Pause
  {
    if g.phase == Propagate && g.gray != [] { PropagatePhase(g); }
    if g.phase == Sweep { SweepListPhase(g, GCSWEEPMAX); }
  }

  lemma {:induction false} SweepListPhase(g: G, count: nat)
    requires g.phase == Sweep
    ensures SweepList(g, count).phase == Sweep
    decreases count
  {
    if count > 0 && g.sweepgc < |g.rootgc| {
      SweepOnePhase(g);
      SweepListPhase(SweepOne(g), count - 1);
    }
  }

  lemma SweepOnePhase(g: G)
    requires g.phase == Sweep && g.sweepgc < |g.rootgc|
    ensures SweepOne(g).phase == Sweep
  {
    CloseFrame(SweepOpen(g, g.rootgc[g.sweepgc], 0), g.rootgc[g.sweepgc], 0);
  }

  // ---- Reachability through a collection ------------------------------------------------

  lemma {:induction false} PathAllAlive(g: G, p: seq<Ref>, i: nat)
    requires LiveOk(g) && Path(g.body, g.Roots(), p) && i < |p|
    ensures g.Alive(p[i])
  {
    var q := p[..i + 1];
    hide PointsTo;
    assert Path(g.body, g.Roots(), q) by {
      forall j | 0 <= j < |q| - 1 ensures PointsTo(g.body, q[j], q[j + 1]) {
        assert PointsTo(g.body, p[j], p[j + 1]);
      }
    }
    PathAlive(g, q);
  }

  lemma SamePoints(g: G, r: G, x: Ref, y: Ref)
    requires Keeps(g, r) && x in r.body && x in g.body
    ensures PointsTo(g.body, x, y) == PointsTo(r.body, x, y)
  {
    RefersExact(g.body, x, y);
    RefersExact(r.body, x, y);
    hide PointsTo, Refers, Shown;
    ShownRefers(g.body, r.body, x, y);
  }

  /** Steps that keep all live contents keep the set of reachable objects. */
  lemma SameReach(g: G, r: G, x: Ref)
    requires Keeps(g, r) && LiveOk(g) && LiveOk(r)
    ensures g.Reachable(x) <==> r.Reachable(x)
  {
    if g.Reachable(x) {
      var p :| Path(g.body, g.Roots(), p) && p[|p| - 1] == x;
      forall i | 0 <= i < |p| - 1 ensures PointsTo(r.body, p[i], p[i + 1]) {
        PathAllAlive(g, p, i);
        SamePoints(g, r, p[i], p[i + 1]);
      }
      assert Path(r.body, r.Roots(), p);
    }
    if r.Reachable(x) {
      var p :| Path(r.body, r.Roots(), p) && p[|p| - 1] == x;
      forall i | 0 <= i < |p| - 1 ensures PointsTo(g.body, p[i], p[i + 1]) {
        PathAllAlive(r, p, i);
        SamePoints(g, r, p[i], p[i + 1]);
      }
      assert Path(g.body, g.Roots(), p);
    }
  }

  // ---- From the flip to the end of the sweep --------------------------------------------

  lemma SweepingStepKeeps(g: G)
    requires Inv(g) && Sweeping(g)
    ensures g.body.Keys == g.colour.Keys && Keeps(g, SingleStep(g))
  {
    InvKeys(g);
    if g.phase == SweepString {
      hide Inv, Keeps;
      SweepBucketReady(g);
      SweepBucketKeeps(g, g.sweepstrgc, 0);
      KeepsSame(g, SweepBucket(g, g.sweepstrgc, 0), StringStep(g));
    } else {
      hide Inv, Keeps;
      SweepListKeeps(g, GCSWEEPMAX);
      KeepsSame(g, SweepList(g, GCSWEEPMAX), SweepStep(g));
    }
  }

  lemma KeepsSame(g: G, q: G, r: G)
    requires Keeps(g, q) && r == q.(phase := r.phase, sweepstrgc := r.sweepstrgc, sweepgc := r.sweepgc)
    ensures Keeps(g, r)
  {
    assert r.Roots() == q.Roots();
  }

  /** The sweep frees exactly what is dead and not fixed when it starts. */
  lemma {:induction false} SweepRunKeeps(g: G)
    requires Inv(g) && (Sweeping(g) || g.phase == Finalize)
    ensures Keeps(g, RunUntil(g, Finalize))
    decreases Rank(g.phase), WhiteBound(g), Measure(g)
  {
    hide RunUntil, Inv, Keeps, SingleStep, Rank, WhiteBound, Measure;
    if g.phase == Finalize {
      RunStop(g);
      KeepsRefl(g);
    } else {
      SweepingStepKeeps(g);
      StepDescends(g);
      SweepingStays(g);
      RunNext(g, Finalize);
      SweepRunKeeps(SingleStep(g));
      SweptTrans(g, SingleStep(g), RunUntil(SingleStep(g), Finalize));
    }
  }

  lemma SweepingStays(g: G)
    requires g.body.Keys == g.colour.Keys && Sweeping(g)
    ensures Sweeping(SingleStep(g)) || SingleStep(g).phase == Finalize
  {
    if g.phase == Sweep { SweepListPhase(g, GCSWEEPMAX); }
  }

  lemma FinalizeExact(g: G, r: G)
    requires Keeps(g, r) && ListsOk(r) && ColoursOk(r) && r.phase == Finalize
    ensures forall x :: x in r.body <==> x in g.body && (!g.IsDead(x) || x in g.fixed)
  {
  }

  // ---- Marking with the program stopped -------------------------------------------------

  /** Only reachable objects are marked. */
  ghost predicate OnlyReachable(g: G) {
    forall x :: x in g.body && x in g.colour && !g.colour[x].White? ==> g.Reachable(x)
  }

  /** The reachable objects, as a set closed under references. */
  ghost function ReachSet(g: G): set<Ref> {
    set x | x in g.body && g.Reachable(x)
  }

  lemma ReachSetClosed(g: G)
    requires LiveOk(g)
    ensures forall x, y :: x in ReachSet(g) && Refers(g.body, x, y) ==> y in ReachSet(g)
    ensures forall y :: Gc(y) in g.Roots() ==> y in ReachSet(g)
  {
    forall x, y | x in ReachSet(g) && Refers(g.body, x, y) ensures y in ReachSet(g) {
      ReachableStep(g.body, g.Roots(), x, y);
      ReachableAlive(g, y);
    }
    forall y | Gc(y) in g.Roots() ensures y in ReachSet(g) {
      ReachableRoot(g.body, g.Roots(), y);
    }
  }

  lemma MarkAllOnly(g: G, m: Marks, vs: seq<Value>)
    requires LiveOk(g) && g.body.Keys == m.colour.Keys
    requires forall y :: Gc(y) in vs ==> g.Reachable(y)
    requires forall x :: x in g.body && !m.colour[x].White? ==> g.Reachable(x)
    ensures forall x :: x in g.body && !MarkAll(g.body, m, vs).colour[x].White? ==> g.Reachable(x)
  {
    ReachSetClosed(g);
    forall y | Gc(y) in vs ensures y in ReachSet(g) { ReachableAlive(g, y); }
    MarkAllStaysIn(g.body, m, vs, ReachSet(g));
    var r := MarkAll(g.body, m, vs);
    forall x | x in g.body && !r.colour[x].White? ensures g.Reachable(x) {
      if r.colour[x] != m.colour[x] { assert x in ReachSet(g); }
    }
  }

  lemma ReachFromChildren(g: G, o: Ref)
    requires o in g.body && g.Reachable(o)
    ensures forall y :: Gc(y) in Children(g.body, o) ==> g.Reachable(y)
  {
    forall y | Gc(y) in Children(g.body, o) ensures g.Reachable(y) {
      ReachableStep(g.body, g.Roots(), o, y);
    }
  }

  lemma MarkRootOnly(g: G)
    requires LiveOk(g) && g.body.Keys == g.colour.Keys
    requires forall x :: x in g.body ==> g.colour[x].White?
    ensures OnlyReachable(MarkRoot(g))
  {
    forall y | Gc(y) in [Gc(g.mainthread), MainGlobals(g), g.registry] + g.mt ensures g.Reachable(y) {
      RootsReachable(g, y);
    }
    MarkAllOnly(g, Marks(g.colour, []), [Gc(g.mainthread), MainGlobals(g), g.registry] + g.mt);
    assert MarkRoot(g).Roots() == g.Roots();
  }

  lemma MainThread(g: G)
    requires LiveOk(g)
    ensures g.mainthread in g.body && g.body[g.mainthread].Thread? && Gc(g.mainthread) in g.Roots()
  {
    assert g.Roots()[0] == Gc(g.mainthread);
  }

  lemma OtherRoot(g: G, y: Ref)
    requires Gc(y) in [Gc(g.mainthread), MainGlobals(g), g.registry] + g.mt && Gc(y) !in g.Roots()
    ensures Gc(y) == MainGlobals(g)
  {
    var rs := g.Roots();
    assert rs[0] == Gc(g.mainthread) && rs[2] == g.registry && forall i :: 0 <= i < |g.mt| ==> rs[i + 3] == g.mt[i];
  }

  lemma GlobalsChild(g: G, y: Ref)
    requires g.mainthread in g.body && g.body[g.mainthread].Thread? && Gc(y) == MainGlobals(g)
    ensures Refers(g.body, g.mainthread, y)
  {
    assert Children(g.body, g.mainthread)[0] == Gc(y);
  }

  lemma RootsReachable(g: G, y: Ref)
    requires LiveOk(g) && Gc(y) in [Gc(g.mainthread), MainGlobals(g), g.registry] + g.mt
    ensures g.Reachable(y)
  {
    hide LiveOk, Reachable;
    MainThread(g);
    ReachableRoot(g.body, g.Roots(), g.mainthread);
    if Gc(y) in g.Roots() {
      ReachableRoot(g.body, g.Roots(), y);
    } else {
      OtherRoot(g, y);
      GlobalsChild(g, y);
      ReachableStep(g.body, g.Roots(), g.mainthread, y);
    }
  }

  /** Marking does not change what is reachable. */
  lemma MarkingReach(g: G, r: G, x: Ref)
    requires Marking(g, r)
    ensures g.Reachable(x) <==> r.Reachable(x)
  {
    assert g.Roots() == r.Roots();
    forall y, z ensures PointsTo(r.body, y, z) == PointsTo(g.body, y, z) {
      RefersExact(g.body, y, z);
      RefersExact(r.body, y, z);
      CleaningRefers(g.body, r.body, y, z);
    }
    hide PointsTo;
    if g.Reachable(x) {
      var p :| Path(g.body, g.Roots(), p) && p[|p| - 1] == x;
      assert Path(r.body, r.Roots(), p);
    }
    if r.Reachable(x) {
      var p :| Path(r.body, r.Roots(), p) && p[|p| - 1] == x;
      assert Path(g.body, g.Roots(), p);
    }
  }

  lemma OnlyAfter(g: G, r: G)
    requires Marking(g, r)
    requires forall x :: x in g.body && !r.colour[x].White? ==> g.Reachable(x)
    ensures OnlyReachable(r)
  {
    forall x | x in r.body && x in r.colour && !r.colour[x].White? ensures r.Reachable(x) {
      MarkingReach(g, r, x);
    }
  }

  lemma PropagateOnly(g: G)
    requires LiveOk(g) && g.body.Keys == g.colour.Keys && g.gray != [] && OnlyReachable(g)
    requires GrayListOk(g, g.gray)
    ensures OnlyReachable(PropagateMark(g))
  {
    var o := g.gray[0];
    assert o in g.gray;
    ReachFromChildren(g, o);
    var s := if g.body[o].Thread? then Marks(g.colour, g.gray[1..]) else Marks(g.colour[o := Black], g.gray[1..]);
    MarkAllOnly(g, s, Children(g.body, o));
    PropagateMarking(g);
    OnlyAfter(g, PropagateMark(g));
  }

  lemma {:induction false} PropagateAllOnly(g: G, uv: bool, th: bool)
    requires LiveOk(g) && NoDead(g) && TriColour(g, uv, th) && OnlyReachable(g)
    ensures OnlyReachable(PropagateAll(g)) && LiveOk(PropagateAll(g)) && NoDead(PropagateAll(g))
    ensures TriColour(PropagateAll(g), uv, th)
    decreases Whites(g.colour), |g.gray|
  {
    if g.gray != [] {
      PropagateProgress(g);
      PropagateOnly(g);
      PropagateMarking(g);
      MarkingLive(g, PropagateMark(g));
      PropagateTriColour(g, uv, th);
      PropagateKeys(g, uv, th);
      hide OnlyReachable, LiveOk, TriColour, NoDead, PropagateMark;
      PropagateAllOnly(PropagateMark(g), uv, th);
    }
  }

  lemma PropagateKeys(g: G, uv: bool, th: bool)
    requires TriColour(g, uv, th) && g.gray != []
    ensures PropagateMark(g).body.Keys == PropagateMark(g).colour.Keys && g.body.Keys == g.colour.Keys
  {
    PropagateTriColour(g, uv, th);
  }

  lemma {:induction false} RemarkUpvalsOnly(g: G, us: seq<Ref>)
    requires LiveOk(g) && NoDead(g) && TriColour(g, false, false) && OnlyReachable(g)
    ensures OnlyReachable(RemarkUpvals(g, us))
    decreases |us|
  {
    if us == [] {
    } else if us[0] in g.body && us[0] in g.colour && g.colour[us[0]] == Gray {
      var vs := Children(g.body, us[0]);
      var m := MarkAll(g.body, g.MarkState(), vs);
      MarkAllExtends(g.body, g.MarkState(), vs);
      ReachFromChildren(g, us[0]);
      MarkAllOnly(g, g.MarkState(), vs);
      ExtendMarking(g, m);
      OnlyAfter(g, g.WithMarks(m));
      MarkingLive(g, g.WithMarks(m));
      ExtendTriColour(g, m, false, false);
      hide OnlyReachable, LiveOk, TriColour, NoDead;
      RemarkUpvalsOnly(g.WithMarks(m), us[1..]);
    } else {
      RemarkUpvalsOnly(g, us[1..]);
    }
  }

  lemma RemarkRootsOnly(g: G)
    requires LiveOk(g) && g.body.Keys == g.colour.Keys && OnlyReachable(g)
    ensures OnlyReachable(RemarkRoots(g))
  {
    var vs := [Gc(g.running)] + g.mt;
    var m := MarkAll(g.body, g.MarkState(), vs);
    MarkAllExtends(g.body, g.MarkState(), vs);
    forall y | Gc(y) in vs ensures g.Reachable(y) {
      assert Gc(y) in g.Roots();
      ReachableRoot(g.body, g.Roots(), y);
    }
    MarkAllOnly(g, g.MarkState(), vs);
    ExtendMarking(g, m);
    OnlyAfter(g, g.WithMarks(m));
  }

  /** What the stages of `atomic' hand on to each other. */
  ghost predicate Stage(g: G, th: bool) {
    LiveOk(g) && NoDead(g) && OnlyReachable(g) && TriColour(g, true, th)
  }

  lemma StageUpvals(g: G)
    requires LiveOk(g) && NoDead(g) && OnlyReachable(g) && TriColour(g, false, false) && ListsOk(g)
    ensures Stage(RemarkUpvals(g, g.uvhead), false)
  {
    RemarkUpvalsOnly(g, g.uvhead);
    RemarkedUpvals(g);
    MarkingLive(g, RemarkUpvals(g, g.uvhead));
  }

  lemma StagePropagate(g: G, th: bool)
    requires Stage(g, th)
    ensures g.body.Keys == g.colour.Keys && Stage(PropagateAll(g), th)
  {
    PropagateAllOnly(g, true, th);
  }

  lemma StageRoots(g: G)
    requires Stage(g, false)
    ensures Stage(RemarkRoots(g), false)
  {
    RemarkRootsOnly(g);
    RemarkedRoots(g);
    MarkingLive(g, RemarkRoots(g));
  }

  lemma StageAgain(g: G)
    requires Stage(g, false) && g.gray == []
    ensures Stage(GrayAgain(g), true)
  {
    GrayAgainTriColour(g);
    MarkingLive(g, GrayAgain(g));
    OnlyAfter(g, GrayAgain(g));
  }

  lemma AtomicOnly(g: G)
    requires LiveOk(g) && NoDead(g) && OnlyReachable(g) && TriColour(g, false, false) && ListsOk(g)
    ensures OnlyReachable(AtomicMark(g))
  {
    StageUpvals(g);
    hide Stage;
    var g0 := RemarkUpvals(g, g.uvhead);
    StagePropagate(g0, false);
    var g1 := PropagateAll(g0);
    StageRoots(g1);
    StagePropagate(RemarkRoots(g1), false);
    var g2 := PropagateAll(RemarkRoots(g1));
    StageAgain(g2);
    StagePropagate(GrayAgain(g2), true);
    StageOnly(PropagateAll(GrayAgain(g2)));
  }

  lemma StageOnly(g: G)
    requires Stage(g, true)
    ensures OnlyReachable(g)
  {
  }

  /** When `atomic' flips the whites, the marked objects are exactly the reachable ones. */
  lemma AtomicExact(g: G, x: Ref)
    requires Inv(g) && g.phase == Propagate && OnlyReachable(g) && x in g.body
    ensures var q := AtomicMark(g);
      x in q.colour && (!q.colour[x].White? <==> g.Reachable(x))
  {
    var q := AtomicMark(g);
    AtomicMarked(g);
    AtomicOnly(g);
    AtomicMarkOk(g);
    MarkingReach(g, q, x);
    if q.Reachable(x) { MarkedReachable(q, x); }
  }

  lemma MarkedReachable(q: G, x: Ref)
    requires LiveOk(q) && TriColour(q, true, true) && q.gray == [] && q.Reachable(x)
    requires forall y :: Gc(y) in q.Roots() ==> !IsWhite(q.colour, y)
    ensures !IsWhite(q.colour, x)
  {
    var s := set y | y in q.body && !IsWhite(q.colour, y);
    forall y, z | y in s && Refers(q.body, y, z) ensures z in s {
      MarkedIsClosed(q, y, z);
      assert q.Alive(y) && HoldsAlive(q, y);
      assert Holds(q.body, y, z);
    }
    ReachableStaysIn(q.body, q.Roots(), x, s);
  }

  /** After the flip, dead means unreachable. */
  lemma FlipExact(g: G, x: Ref)
    requires Inv(g) && g.phase == Propagate && OnlyReachable(g) && x in g.body
    ensures x in Atomic(g).body && (Atomic(g).IsDead(x) <==> !g.Reachable(x))
  {
    AtomicExact(g, x);
    AtomicMarked(g);
    var q := AtomicMark(g);
    assert q.colour[x] != White(!q.cw);
  }

  // ---- The rest of the cycle, without the program ---------------------------------------

  /** What a run to the end of the sweep has freed: exactly the unreachable, unfixed objects. */
  ghost predicate Collected(g: G, r: G) {
    && (forall x :: x in r.body <==> x in g.body && (g.Reachable(x) || x in g.fixed))
    && (forall x :: x in r.body ==> Shown(r.body, x) == Shown(g.body, x))
  }

  lemma AtomicCollects(g: G)
    requires Inv(g) && g.phase == Propagate && OnlyReachable(g)
    ensures Inv(Atomic(g)) && Collected(g, RunUntil(Atomic(g), Finalize))
  {
    AtomicInv(g);
    var a := Atomic(g);
    SweepRunKeeps(a);
    var r := RunUntil(a, Finalize);
    FinalizeExact(a, r);
    AtomicShown(g);
    forall x | x in g.body ensures x in a.body && (a.IsDead(x) <==> !g.Reachable(x)) { FlipExact(g, x); }
  }

  lemma AtomicShown(g: G)
    requires Inv(g) && g.phase == Propagate
    ensures Atomic(g).body.Keys == g.body.Keys && Atomic(g).fixed == g.fixed
    ensures forall x :: x in g.body ==> x in Atomic(g).body && Shown(Atomic(g).body, x) == Shown(g.body, x)
  {
    AtomicMarkOk(g);
    MarkingKeepsAll(g, AtomicMark(g));
  }

  lemma {:induction false} MarkRunCollects(g: G)
    requires Inv(g) && g.phase == Propagate && OnlyReachable(g)
    ensures Collected(g, RunUntil(g, Finalize))
    decreases Rank(g.phase), WhiteBound(g), Measure(g)
  {
    StepInv(g);
    StepDescends(g);
    StepNotPause(g);
    if g.gray == [] {
      hide Inv, Collected, OnlyReachable;
      AtomicCollects(g);
    } else {
      PropagatePhase(g);
      PropagateStepOnly(g);
      hide Inv, Collected, OnlyReachable;
      MarkRunCollects(PropagateMark(g));
      PropagateCollects(g, RunUntil(PropagateMark(g), Finalize));
    }
  }

  lemma PropagateStepOnly(g: G)
    requires Inv(g) && g.phase == Propagate && OnlyReachable(g) && g.gray != []
    ensures OnlyReachable(PropagateMark(g))
  {
    PropagateOnly(g);
  }

  lemma PropagateCollects(g: G, r: G)
    requires Inv(g) && g.phase == Propagate && g.gray != [] && Collected(PropagateMark(g), r)
    ensures Collected(g, r)
  {
    PropagateMarking(g);
    var q := PropagateMark(g);
    MarkingKeepsAll(g, q);
    forall x ensures g.Reachable(x) <==> q.Reachable(x) { MarkingReach(g, q, x); }
  }

  /** luaC_fullgc: an unfinished mark phase is abandoned by sweeping everything back to
      white; then comes a whole cycle. */
  function Restarted(g: G): G {
    if g.phase == Pause || g.phase == Propagate then
      g.(sweepstrgc := 0, sweepgc := 0, gray := [], grayagain := [], phase := SweepString)
    else g
  }

  function FullGc(g: G): (r: G)
    requires Inv(g)
    ensures Inv(r) && r.phase == Pause
  {
    hide Inv, MarkRoot;
    RestartedInv(g);
    var g1 := RunUntil(Restarted(g), Finalize);
    MarkRootInv(g1);
    RunUntil(MarkRoot(g1), Pause)
  }

  lemma RestartedInv(g: G)
    requires Inv(g)
    ensures Inv(Restarted(g)) && Restarted(g).phase != Pause && Restarted(g).phase != Propagate
  {
    if g.phase == Pause || g.phase == Propagate {
      var r := Restarted(g);
      assert r.Roots() == g.Roots();
      AdvanceLists(g, g.(sweepstrgc := 0, sweepgc := 0, phase := SweepString));
      RecolourLists(g.(sweepstrgc := 0, sweepgc := 0, phase := SweepString), r);
      assert forall x :: r.Alive(x) <==> g.Alive(x);
      SameLive(g, r);
      RestartedColours(g);
    }
  }

  lemma RestartedColours(g: G)
    requires ListsOk(g) && ColoursOk(g) && (g.phase == Pause || g.phase == Propagate)
    ensures ColoursOk(Restarted(g))
  {
    var r := Restarted(g);
    forall x | x in r.body ensures KindOk(r, x) && !Swept(r, x) {
      if g.phase == Propagate { assert KindOk(g, x); }
    }
  }

  lemma RestartedKeeps(g: G)
    ensures Keeps(g, Restarted(g))
  {
    assert Restarted(g).Roots() == g.Roots();
  }

  lemma RunNext(g: G, target: Phase)
    requires Inv(g) && (target == Pause || (target == Finalize && g.phase != Pause)) && g.phase != target
    ensures Inv(SingleStep(g)) && (target == Finalize ==> SingleStep(g).phase != Pause)
    ensures RunUntil(g, target) == RunUntil(SingleStep(g), target)
  {
    StepInv(g);
    StepNotPause(g);
    hide Inv, SingleStep, Rank, WhiteBound, Measure;
  }

  lemma RunStop(g: G)
    requires Inv(g) && (g.phase == Pause || g.phase == Finalize)
    ensures RunUntil(g, g.phase) == g
  {
    hide Inv, SingleStep, Rank, WhiteBound, Measure;
  }

  lemma RunFinal(g: G)
    requires Inv(g) && g.phase == Finalize
    ensures RunUntil(g, Finalize) == g && RunUntil(g, Pause) == g.(phase := Pause)
  {
    RunStop(g);
    RunNext(g, Pause);
    hide RunUntil, Inv;
    RunStop(SingleStep(g));
  }

  lemma {:induction false} RunToPause(g: G)
    requires Inv(g) && g.phase != Pause
    ensures RunUntil(g, Pause) == RunUntil(g, Finalize).(phase := Pause)
    decreases Rank(g.phase), WhiteBound(g), Measure(g)
  {
    hide RunUntil, Inv, SingleStep, Rank, WhiteBound, Measure;
    if g.phase == Finalize {
      RunFinal(g);
    } else {
      StepDescends(g);
      RunNext(g, Pause);
      RunNext(g, Finalize);
      RunToPause(SingleStep(g));
    }
  }

  /** A full collection, from any state of the incremental collector: it terminates, keeps
      every invariant, keeps the contents of all objects it leaves, and leaves exactly the
      reachable objects and the fixed strings. */
  lemma FullGcExact(g: G)
    ensures Inv(g) ==>
      var r := FullGc(g);
      && Inv(FullGc(g)) && r.phase == Pause
      && (forall x :: x in r.body <==> x in g.body && (g.Reachable(x) || x in g.fixed))
      && (forall x :: x in r.body ==> Shown(r.body, x) == Shown(g.body, x))
  {
    if Inv(g) {
      FullGcCollects(g);
    }
  }

  lemma FullGcCollects(g: G)
    requires Inv(g)
    ensures Collected(g, FullGc(g))
  {
    hide Inv, Collected, Keeps, MarkRoot, Restarted, OnlyReachable;
    RestartedInv(g);
    RestartedKeeps(g);
    SweepRunKeeps(Restarted(g));
    var g1 := RunUntil(Restarted(g), Finalize);
    SweptTrans(g, Restarted(g), RunUntil(Restarted(g), Finalize));
    MarkRootInv(g1);
    AllWhite(g1);
    MarkRootOnly(g1);
    MarkRunCollects(MarkRoot(g1));
    RunToPause(MarkRoot(g1));
    FullTrans(g, RunUntil(Restarted(g), Finalize), RunUntil(MarkRoot(g1), Finalize));
  }

  lemma AllWhite(g: G)
    requires Inv(g) && g.phase == Finalize
    ensures LiveOk(g) && g.body.Keys == g.colour.Keys && forall x :: x in g.body ==> g.colour[x].White?
    ensures MarkRoot(g).phase == Propagate
  {
  }

  lemma SameBodies(q: G)
    ensures MarkRoot(q).body == q.body && MarkRoot(q).fixed == q.fixed && MarkRoot(q).Roots() == q.Roots()
  {
  }

  lemma SameReachAll(g: G, q: G)
    requires Inv(g) && Inv(q) && Keeps(g, q)
    ensures forall x :: g.Reachable(x) <==> q.Reachable(x)
  {
    InvParts(g);
    InvParts(q);
    hide Inv, Keeps, LiveOk, ListsOk, ColoursOk;
    forall x ensures g.Reachable(x) <==> q.Reachable(x) { SameReach(g, q, x); }
  }

  lemma CollectedAs(m: G, q: G, r: G)
    requires m.body == q.body && m.fixed == q.fixed && m.Roots() == q.Roots() && Collected(m, r)
    ensures Collected(q, r)
  {
    assert forall x :: m.Reachable(x) <==> q.Reachable(x);
    hide Shown, Reachable;
  }

  lemma CollectedBack(g: G, q: G, r: G)
    requires Keeps(g, q) && Collected(q, r) && forall x :: g.Reachable(x) <==> q.Reachable(x)
    requires forall x :: g.Reachable(x) ==> g.Alive(x)
    ensures Collected(g, r)
  {
    hide Shown, Reachable;
  }

  lemma CollectedPause(g: G, r: G)
    requires Collected(g, r)
    ensures Collected(g, r.(phase := Pause))
  {
    hide Shown, Reachable;
  }

  lemma FullTrans(g: G, q: G, r: G)
    requires Inv(g) && Inv(q) && q.phase == Finalize && Keeps(g, q)
    requires Collected(MarkRoot(q), r)
    ensures Collected(g, r.(phase := Pause))
  {
    SameBodies(q);
    SameReachAll(g, q);
    InvParts(g);
    forall x | g.Reachable(x) ensures g.Alive(x) { ReachableAlive(g, x); }
    hide *;
    CollectedAs(MarkRoot(q), q, r);
    CollectedBack(g, q, r);
    CollectedPause(g, r);
  }
}
