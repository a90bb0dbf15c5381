/** The collector as a step machine (lgc.c:563-611) and a whole collection (lgc.c:636-659). */
module GcStep {
  import opened GcHeap
  import opened GcMark
  import opened GcState
  import opened GcPropagate
  import opened GcAtomic
  import opened GcBarrier
  import opened GcClose
  import opened GcSweep
  import opened GcKeeps

  const GCSWEEPMAX: nat := 40

  function StringStep(g: G): G {
    if g.sweepstrgc < |g.strt| then
      var r := SweepBucket(g, g.sweepstrgc, 0);
      r.(sweepstrgc := g.sweepstrgc + 1, phase := if g.sweepstrgc + 1 >= |g.strt| then Sweep else SweepString)
    else g.(phase := Sweep)
  }

  function SweepStep(g: G): G {
    var r := SweepList(g, GCSWEEPMAX);
    if r.sweepgc >= |r.rootgc| then r.(phase := Finalize) else r
  }

  /** singlestep. */
  function SingleStep(g: G): G
    requires g.body.Keys == g.colour.Keys
  {
    match g.phase
    case Pause => MarkRoot(g)
    case Propagate => if g.gray != [] then PropagateMark(g) else Atomic(g)
    case SweepString => StringStep(g)
    case Sweep => SweepStep(g)
    case Finalize => g.(phase := Pause)
  }

  // ---- One step keeps the invariant -----------------------------------------------------

  lemma PropagateInv(g: G)
    requires Inv(g) && g.phase == Propagate && g.gray != []
    ensures Inv(PropagateMark(g))
  {
    PropagateTriColour(g, false, false);
    PropagateMarking(g);
    MarkingKeeps(g, PropagateMark(g));
  }

  /** The strings of a swept bucket are white, so the string sweep may move on. */
  lemma NextBucketInv(g: G)
    requires Inv(g) && g.phase == SweepString && BucketWhite(g, g.sweepstrgc, |g.strt[g.sweepstrgc]|)
    ensures Inv(g.(sweepstrgc := g.sweepstrgc + 1,
                   phase := if g.sweepstrgc + 1 >= |g.strt| then Sweep else SweepString))
  {
    var r := g.(sweepstrgc := g.sweepstrgc + 1,
                phase := if g.sweepstrgc + 1 >= |g.strt| then Sweep else SweepString);
    AdvanceLists(g, r);
    assert r.Roots() == g.Roots();
    SameLive(g, r);
    NextBucketColours(g, r);
  }

  lemma NextBucketColours(g: G, r: G)
    requires ListsOk(g) && ColoursOk(g) && g.phase == SweepString
    requires BucketWhite(g, g.sweepstrgc, |g.strt[g.sweepstrgc]|)
    requires r == g.(sweepstrgc := g.sweepstrgc + 1,
                     phase := if g.sweepstrgc + 1 >= |g.strt| then Sweep else SweepString)
    ensures ColoursOk(r)
  {
    forall y | y in r.body ensures KindOk(r, y) && (Swept(r, y) ==> r.colour[y] == White(r.cw)) {
      assert KindOk(g, y);
      if Swept(r, y) && !Swept(g, y) {
        var s := g.strt[g.sweepstrgc];
        assert g.body[y].Str? && y in s;
        var j :| 0 <= j < |s| && s[j] == y;
        assert IsCurrentWhite(g, s[j]);
      }
    }
  }

  lemma StringStepInv(g: G)
    requires Inv(g) && g.phase == SweepString
    ensures Inv(StringStep(g))
  {
    hide Inv, BucketWhite;
    SweepBucketReady(g);
    var b := g.sweepstrgc;
    BucketSwept(g, b);
    SweepBucketInv(g, b, 0);
    NextBucketInv(SweepBucket(g, b, 0));
  }

  lemma SweepBucketReady(g: G)
    requires Inv(g) && g.phase == SweepString
    ensures g.sweepstrgc < |g.strt|
  {
  }

  lemma BucketSwept(g: G, b: nat)
    requires Inv(g) && g.phase == SweepString && b == g.sweepstrgc < |g.strt|
    ensures BucketWhite(SweepBucket(g, b, 0), b, |SweepBucket(g, b, 0).strt[b]|)
  {
    hide LiveOk, ColoursOk, UpvalsOk, RootListOk, FixedOk, BucketWhite;
    assert BucketWhite(g, b, 0) by { EmptyBucketPrefix(g, b); }
    SweepBucketWhite(g, b, 0);
  }

  lemma EmptyBucketPrefix(g: G, b: nat)
    requires b < |g.strt|
    ensures BucketWhite(g, b, 0)
  {
  }

  /** When the sweep pointer reaches the end every object is white again. */
  lemma EndSweepInv(g: G)
    requires Inv(g) && g.phase == Sweep && g.sweepgc >= |g.rootgc|
    ensures Inv(g.(phase := Finalize))
  {
    var r := g.(phase := Finalize);
    AdvanceLists(g, r);
    assert r.Roots() == g.Roots();
    SameLive(g, r);
    assert g.rootgc[..g.sweepgc] == g.rootgc;
    forall x | x in r.body ensures r.colour[x] == White(r.cw) {
      EndSwept(g, x);
    }
  }

  lemma EndSwept(g: G, x: Ref)
    requires ListsOk(g) && x in g.body && g.sweepgc == |g.rootgc| && g.sweepstrgc == |g.strt|
    ensures Swept(g, x)
  {
    assert g.rootgc[..g.sweepgc] == g.rootgc;
    hide StringsOk;
    assert |g.strt| > 0 by { StrtNotEmpty(g); }
  }

  lemma StrtNotEmpty(g: G)
    requires StringsOk(g)
    ensures |g.strt| > 0
  {
  }

  lemma SweepStepInv(g: G)
    requires Inv(g) && g.phase == Sweep
    ensures Inv(SweepStep(g))
  {
    hide Inv;
    SweepListInv(g, GCSWEEPMAX);
    if SweepList(g, GCSWEEPMAX).sweepgc >= |SweepList(g, GCSWEEPMAX).rootgc| {
      EndSweepInv(SweepList(g, GCSWEEPMAX));
    }
  }

  lemma PauseInv(g: G)
    requires Inv(g) && g.phase == Finalize
    ensures Inv(g.(phase := Pause))
  {
    var r := g.(phase := Pause);
    AdvanceLists(g, r);
    assert r.Roots() == g.Roots();
    SameLive(g, r);
  }

  lemma InvKeys(g: G)
    requires Inv(g)
    ensures g.body.Keys == g.colour.Keys
  {
  }

  lemma StepInv(g: G)
    requires Inv(g)
    ensures g.body.Keys == g.colour.Keys && Inv(SingleStep(g))
  {
    InvKeys(g);
    hide Inv;
    match g.phase
    case Pause => MarkRootInv(g);
    case Propagate => if g.gray != [] { PropagateInv(g); } else { AtomicInv(g); }
    case SweepString => StringStepInv(g);
    case Sweep => SweepStepInv(g);
    case Finalize => PauseInv(g);
  }

  // ---- One step frees only dead objects -------------------------------------------------

  /** Nothing alive is freed or changed: what a step of any phase guarantees. */
  ghost predicate Spares(g: G, r: G) {
    forall x :: g.Alive(x) ==> x in r.body && Shown(r.body, x) == Shown(g.body, x)
  }

  lemma KeepsSpares(g: G, r: G)
    requires Keeps(g, r)
    ensures Spares(g, r)
  {
  }

  lemma AtomicSpares(g: G)
    requires Inv(g) && g.phase == Propagate
    ensures Spares(g, Atomic(g))
  {
    AtomicMarkOk(g);
    MarkingKeepsAll(g, AtomicMark(g));
  }

  lemma PropagateSpares(g: G)
    requires Inv(g) && g.phase == Propagate && g.gray != []
    ensures Spares(g, PropagateMark(g))
  {
    PropagateMarking(g);
    MarkingKeepsAll(g, PropagateMark(g));
  }

  lemma MarkRootSpares(g: G)
    ensures Spares(g, MarkRoot(g))
  {
  }

  lemma StepSpares(g: G)
    requires Inv(g)
    ensures g.body.Keys == g.colour.Keys && Spares(g, SingleStep(g))
  {
    InvKeys(g);
    hide Inv, Spares;
    match g.phase
    case Pause => MarkRootSpares(g);
    case Propagate => if g.gray != [] { PropagateSpares(g); } else { AtomicSpares(g); }
    case SweepString => StringSpares(g);
    case Sweep => SweepSpares(g);
    case Finalize =>
      KeepsRefl(g);
      KeepsSpares(g, g);
      SparesBody(g, g, g.(phase := Pause));
  }

  lemma StringSpares(g: G)
    requires Inv(g) && g.phase == SweepString
    ensures Spares(g, StringStep(g))
  {
    hide Inv, Spares;
    SweepBucketReady(g);
    SweepBucketKeeps(g, g.sweepstrgc, 0);
    KeepsSpares(g, SweepBucket(g, g.sweepstrgc, 0));
    SparesBody(g, SweepBucket(g, g.sweepstrgc, 0), StringStep(g));
  }

  lemma SweepSpares(g: G)
    requires Inv(g) && g.phase == Sweep
    ensures Spares(g, SweepStep(g))
  {
    hide Inv, Spares;
    SweepListKeeps(g, GCSWEEPMAX);
    KeepsSpares(g, SweepList(g, GCSWEEPMAX));
    SparesBody(g, SweepList(g, GCSWEEPMAX), SweepStep(g));
  }

  lemma SparesBody(g: G, q: G, r: G)
    requires Spares(g, q) && r.body == q.body
    ensures Spares(g, r)
  {
  }
}
