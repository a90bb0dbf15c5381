/** The write barriers (lgc.h:86-97, lgc.c:662-710) and the closing of upvalues (lfunc.c:97-117). */
module GcBarrier {
  import opened GcHeap
  import opened GcMark
  import opened GcState

  function Whiten(g: G, x: Ref): G {
    g.(colour := g.colour[x := White(g.cw)])
  }

  /** luaC_barrierf: mark the white object, or stop treating the owner as black. */
  function BarrierForward(g: G, o: Ref, x: Ref): G {
    if g.phase == Propagate then g.WithMarks(Mark(g.body, g.MarkState(), x))
    else Whiten(g, o)
  }

  /** luaC_barrierback: the table turns gray again and is traversed in `atomic'. */
  function BarrierBack(g: G, t: Ref): G {
    g.(colour := g.colour[t := Gray], grayagain := [t] + g.grayagain)
  }

  predicate IsBlack(g: G, o: Ref) {
    o in g.colour && g.colour[o] == Black
  }

  /** luaC_barrier and luaC_objbarrier. */
  function Barrier(g: G, o: Ref, v: Value): G {
    if v.Gc? && IsWhite(g.colour, v.ref) && IsBlack(g, o) then BarrierForward(g, o, v.ref) else g
  }

  /** luaC_barriert and luaC_objbarriert. */
  function TableBarrier(g: G, t: Ref, v: Value): G {
    if v.Gc? && IsWhite(g.colour, v.ref) && IsBlack(g, t) then BarrierBack(g, t) else g
  }

  /** freeobj; an open upvalue also leaves the list of all open upvalues. */
  function Free(g: G, x: Ref): G {
    g.(body := g.body - {x}, colour := g.colour - {x},
       uvhead := if x in g.body && g.body[x].OpenUpval? then Remove(g.uvhead, x) else g.uvhead)
  }

  /** Insertion at the head of `rootgc'. The sweep pointer keeps pointing at the same link,
      so unless it points at the head itself it has one more object behind it. */
  function LinkRoot(g: G, x: Ref): G {
    g.(rootgc := [x] + g.rootgc, sweepgc := if g.sweepgc > 0 then g.sweepgc + 1 else 0)
  }

  /** luaC_linkupval, for an upvalue that holds `v' itself from now on. */
  function LinkUpval(g: G, u: Ref, v: Value): G {
    var r := LinkRoot(g, u);
    if u in g.colour && g.colour[u] == Gray then
      if g.phase == Propagate then Barrier(r.(colour := r.colour[u := Black]), u, v) else Whiten(r, u)
    else r
  }

  function OpenList(h: Heap, t: Ref): seq<Ref> {
    if t in h && h[t].Thread? then h[t].openupval else []
  }

  function WithOpenList(g: G, t: Ref, us: seq<Ref>): G
    requires t in g.body && g.body[t].Thread?
  {
    g.(body := g.body[t := g.body[t].(openupval := us)])
  }

  /** Close the first upvalue of the thread's list. */
  function CloseOne(g: G, t: Ref): G
    requires OpenList(g.body, t) != []
  {
    var u := g.body[t].openupval[0];
    var g1 := WithOpenList(g, t, g.body[t].openupval[1..]);
    if g.IsDead(u) || u !in g1.body || !g1.body[u].OpenUpval? then Free(g1, u)
    else
      var v := StackValue(g.body, t, g1.body[u].slot);
      var g2 := g1.(uvhead := Remove(g1.uvhead, u), body := g1.body[u := ClosedUpval(v)]);
      LinkUpval(g2, u, v)
  }

  lemma BarrierBody(g: G, o: Ref, v: Value)
    ensures Barrier(g, o, v).body == g.body
  {
  }

  predicate MustClose(h: Heap, t: Ref, level: nat) {
    OpenList(h, t) != [] && h[t].openupval[0] in h && h[h[t].openupval[0]].OpenUpval? &&
    h[h[t].openupval[0]].slot >= level
  }

  lemma LinkUpvalBody(g: G, u: Ref, v: Value)
    ensures LinkUpval(g, u, v).body == g.body
  {
    hide Mark;
  }

  lemma CloseShortens(g: G, t: Ref)
    requires OpenList(g.body, t) != []
    ensures |OpenList(CloseOne(g, t).body, t)| < |OpenList(g.body, t)|
  {
    hide LinkUpval, Remove;
    var u := g.body[t].openupval[0];
    var g1 := WithOpenList(g, t, g.body[t].openupval[1..]);
    if !(g.IsDead(u) || u !in g1.body || !g1.body[u].OpenUpval?) {
      var v := StackValue(g.body, t, g1.body[u].slot);
      LinkUpvalBody(g1.(uvhead := Remove(g1.uvhead, u), body := g1.body[u := ClosedUpval(v)]), u, v);
    }
  }

  /** luaF_close. */
  function Close(g: G, t: Ref, level: nat): G
    decreases |OpenList(g.body, t)|
  {
    if MustClose(g.body, t, level) then CloseShortens(g, t); Close(CloseOne(g, t), t, level) else g
  }
}
