/** The collector's state (global_State in lstate.h) and its invariant. */
module GcState {
  import opened GcHeap
  import opened GcMark

  datatype Phase = Pause | Propagate | SweepString | Sweep | Finalize

  /** `sweepgc' points at the next link of the rootgc list to look at; here it is the number
      of objects before that link. `cw' is the current white. */
  datatype G = G(
    body: Heap, colour: Colours, fixed: set<Ref>,
    strt: seq<seq<Ref>>, rootgc: seq<Ref>, uvhead: seq<Ref>,
    gray: seq<Ref>, grayagain: seq<Ref>,
    cw: bool, phase: Phase, sweepstrgc: nat, sweepgc: nat,
    mainthread: Ref, running: Ref, registry: Value, mt: seq<Value>)
  {
    function MarkState(): Marks { Marks(colour, gray) }

    function WithMarks(m: Marks): G { this.(colour := m.colour, gray := m.gray) }

    /** What the collector starts from. */
    function Roots(): seq<Value> {
      [Gc(mainthread), Gc(running), registry] + mt
    }

    /** The main thread, the running one, the registry, or a metatable of a basic type. */
    predicate Rooted(x: Ref) {
      x == mainthread || x == running || registry == Gc(x) || exists i :: 0 <= i < |mt| && mt[i] == Gc(x)
    }

    /** isdead: the object carries the white of the previous cycle. */
    predicate IsDead(x: Ref) {
      x in colour && colour[x] == White(!cw)
    }

    predicate Alive(x: Ref) {
      x in body && x in colour && colour[x] != White(!cw)
    }

    ghost predicate Reachable(x: Ref) {
      GcHeap.Reachable(body, Roots(), x)
    }
  }

  // ---- Lists ----------------------------------------------------------------------------

  predicate StringsOk(g: G) {
    && |g.strt| > 0
    && (forall i :: 0 <= i < |g.strt| ==> NoDup(g.strt[i]))
    && (forall i, x :: 0 <= i < |g.strt| && x in g.strt[i] ==>
          x in g.body && g.body[x].Str? && g.body[x].hash % |g.strt| == i)
    && (forall x :: x in g.body && g.body[x].Str? ==> x in g.strt[g.body[x].hash % |g.strt|])
  }

  predicate RootListOk(g: G) {
    && NoDup(g.rootgc)
    && (forall x :: x in g.rootgc ==> x in g.body && g.body[x].InRootList())
    && (forall x :: x in g.body && g.body[x].InRootList() ==> x in g.rootgc)
  }

  /** The open upvalues of a thread, by strictly descending stack slot. */
  predicate ThreadOk(h: Heap, t: Ref)
    requires t in h && h[t].Thread?
  {
    && (forall i :: 0 <= i < |h[t].openupval| ==>
          var u := h[t].openupval[i];
          u in h && h[u].OpenUpval? && h[u].thread == t && h[u].slot < |h[t].stack|)
    && (forall i, j :: 0 <= i < j < |h[t].openupval| ==>
          h[h[t].openupval[i]].slot > h[h[t].openupval[j]].slot)
  }

  predicate UpvalsOk(g: G) {
    && (forall t :: t in g.body && g.body[t].Thread? ==> ThreadOk(g.body, t))
    && (forall u :: u in g.body && g.body[u].OpenUpval? ==>
          && g.body[u].thread in g.body && g.body[g.body[u].thread].Thread?
          && u in g.body[g.body[u].thread].openupval
          && u in g.uvhead)
    && NoDup(g.uvhead)
    && (forall u :: u in g.uvhead ==> u in g.body && g.body[u].OpenUpval?)
  }

  predicate ListsOk(g: G) {
    && g.body.Keys == g.colour.Keys
    && StringsOk(g) && RootListOk(g) && UpvalsOk(g) && FixedOk(g)
    && g.sweepstrgc <= |g.strt| && g.sweepgc <= |g.rootgc|
  }

  /** Only strings (luaS_fix) and the main thread carry the fixed bit. */
  predicate FixedOk(g: G) {
    forall x :: x in g.fixed ==> x in g.body && (g.body[x].Str? || x == g.mainthread)
  }

  // ---- Colours --------------------------------------------------------------------------

  /** Strings, threads and open upvalues never turn black; userdata and closed upvalues are
      never left gray. */
  predicate KindOk(g: G, x: Ref)
    requires x in g.body && x in g.colour
  {
    && (g.colour[x] == Black ==> !g.body[x].Str? && !g.body[x].Thread? && !g.body[x].OpenUpval?)
    && (g.colour[x] == Gray ==> !g.body[x].Udata? && !g.body[x].ClosedUpval?)
  }

  /** Why a gray object is not forgotten. With `uv', gray open upvalues have a marked value;
      with `th', `grayagain' holds only threads whose stacks are marked. */
  ghost predicate GrayOk(g: G, x: Ref, uv: bool, th: bool)
    requires x in g.body
  {
    match g.body[x]
    case Str(_) => true
    case OpenUpval(_, _) => uv ==> ChildrenMarked(g.body, g.colour, x)
    case _ => x in g.gray || (x in g.grayagain && (th ==> g.body[x].Thread? && ChildrenMarked(g.body, g.colour, x)))
  }

  ghost predicate BlackOk(g: G, x: Ref)
    requires x in g.body
  {
    forall y :: Holds(g.body, x, y) ==> !IsWhite(g.colour, y)
  }

  predicate GrayListOk(g: G, s: seq<Ref>) {
    forall x :: x in s ==> x in g.body && x in g.colour && g.body[x].Traversable() && g.colour[x] == Gray
  }

  /** The tri-colour invariant of the mark phase. */
  ghost predicate TriColour(g: G, uv: bool, th: bool) {
    && g.body.Keys == g.colour.Keys
    && (forall x :: x in g.body ==> KindOk(g, x))
    && (forall x :: x in g.body && g.colour[x] == Black ==> BlackOk(g, x))
    && (forall x :: x in g.body && g.colour[x] == Gray ==> GrayOk(g, x, uv, th))
    && GrayListOk(g, g.gray) && GrayListOk(g, g.grayagain)
    && NoDup(g.gray + g.grayagain)
  }

  /** Already visited by the running sweep. */
  predicate Swept(g: G, x: Ref)
    requires x in g.body && |g.strt| > 0 && g.sweepgc <= |g.rootgc|
  {
    match g.body[x]
    case Str(hash) => hash % |g.strt| < g.sweepstrgc
    case OpenUpval(t, _) => t in g.rootgc[..g.sweepgc]
    case _ => x in g.rootgc[..g.sweepgc]
  }

  ghost predicate ColoursOk(g: G)
    requires g.body.Keys == g.colour.Keys && |g.strt| > 0 && g.sweepgc <= |g.rootgc|
  {
    match g.phase
    case Pause => forall x :: x in g.body ==> g.colour[x] == White(g.cw)
    case Finalize => forall x :: x in g.body ==> g.colour[x] == White(g.cw)
    case Propagate =>
      && (forall x :: x in g.body ==> g.colour[x] != White(!g.cw))
      && TriColour(g, false, false)
      && !IsWhite(g.colour, g.mainthread)
      && (g.registry.Gc? ==> !IsWhite(g.colour, g.registry.ref))
    case _ =>
      && (forall x :: x in g.body ==> KindOk(g, x))
      && (forall x :: x in g.body && Swept(g, x) ==> g.colour[x] == White(g.cw))
      && (if g.phase == SweepString then g.sweepgc == 0 && g.sweepstrgc < |g.strt|
          else g.sweepstrgc == |g.strt|)
  }

  // ---- Liveness -------------------------------------------------------------------------

  ghost predicate HoldsAlive(g: G, x: Ref) {
    forall y :: Holds(g.body, x, y) ==> g.Alive(y)
  }

  /** No object that is not dead holds a dead or freed one, and neither does a root. */
  ghost predicate LiveOk(g: G) {
    && (forall x :: g.Alive(x) ==> HoldsAlive(g, x))
    && (forall y :: Gc(y) in g.Roots() ==> g.Alive(y))
    && g.Alive(g.mainthread) && g.body[g.mainthread].Thread?
    && g.Alive(g.running) && g.body[g.running].Thread?
  }

  ghost predicate Inv(g: G) {
    ListsOk(g) && LiveOk(g) && ColoursOk(g)
  }

  lemma InvParts(g: G)
    requires Inv(g)
    ensures ListsOk(g) && LiveOk(g) && UpvalsOk(g) && g.body.Keys == g.colour.Keys && ColoursOk(g)
  {
  }

  lemma RootsExact(g: G, x: Ref)
    ensures Gc(x) in g.Roots() <==> g.Rooted(x)
  {
    var rs := [Gc(g.mainthread), Gc(g.running), g.registry];
    assert Gc(x) in rs <==> rs[0] == Gc(x) || rs[1] == Gc(x) || rs[2] == Gc(x);
  }

  /** The heart of safety: everything reachable is allocated and not dead. */
  lemma {:induction false} PathAlive(g: G, p: seq<Ref>)
    requires LiveOk(g) && Path(g.body, g.Roots(), p)
    ensures g.Alive(p[|p| - 1])
  {
    if |p| == 1 {
    } else {
      var q := p[..|p| - 1];
      RefersExact(g.body, p[|p| - 2], p[|p| - 1]);
      hide PointsTo, Refers;
      assert Path(g.body, g.Roots(), q) by {
        forall i | 0 <= i < |q| - 1 ensures PointsTo(g.body, q[i], q[i + 1]) {
          assert PointsTo(g.body, p[i], p[i + 1]);
        }
      }
      PathAlive(g, q);
      assert PointsTo(g.body, p[|p| - 2], p[|p| - 1]);
      assert HoldsAlive(g, p[|p| - 2]);
      assert Holds(g.body, p[|p| - 2], p[|p| - 1]);
    }
  }

  lemma ReachableAlive(g: G, x: Ref)
    requires LiveOk(g) && g.Reachable(x)
    ensures g.Alive(x)
  {
    var p :| Path(g.body, g.Roots(), p) && p[|p| - 1] == x;
    PathAlive(g, p);
  }
}
