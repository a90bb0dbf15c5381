/** Open upvalues, exactly: which ones luaF_close closes and what they hold then, and which one
    luaF_findupval returns (lfunc.c:53-112). */
module GcUpvals {
  import opened GcHeap
  import opened GcMark
  import opened GcState
  import opened GcBarrier
  import opened GcClose
  import opened GcSweep
  import opened GcKeeps
  import opened GcAlloc

  // ---- Closing one ----------------------------------------------------------------------

  /** The first open upvalue of the thread is freed if it was dead, and otherwise holds the value
      of its stack slot; all else stays. */
  ghost predicate FirstClosed(g: G, r: G, t: Ref) {
    && t in g.body && g.body[t].Thread? && g.body[t].openupval != [] && t in r.body
    && var u := g.body[t].openupval[0];
    && u != t && u in g.body && g.body[u].OpenUpval? && g.body[u].slot < |g.body[t].stack|
    && r.body[t] == g.body[t].(openupval := g.body[t].openupval[1..])
    && (if g.IsDead(u) then u !in r.body
        else u in r.body && r.body[u] == ClosedUpval(g.body[t].stack[g.body[u].slot]))
    && Apart(g, r, t, u)
  }

  ghost predicate Apart(g: G, r: G, t: Ref, u: Ref) {
    && (forall x :: x != u ==> (x in r.body <==> x in g.body))
    && (forall x :: x in g.body && x in r.body && x != u && x != t ==> r.body[x] == g.body[x])
    && (forall x :: x in g.body && x != u ==> (r.IsDead(x) <==> g.IsDead(x)))
  }

  lemma CloseOneBody(g: G, t: Ref)
    requires Inv(g) && OpenList(g.body, t) != [] && !Sweeping(g)
    ensures ClosingOk(g.body, t) && CloseOne(g, t).body == ClosedBody(g.body, t)
  {
    InvParts(g);
    DropReady(g, t, 0);
    if g.IsDead(g.body[t].openupval[0]) { OnlyDeadWhileSweeping(g, g.body[t].openupval[0]); }
    ClosingReady(g, t);
    CloseOneIs(g, t);
    hide Inv, ListsOk, LiveOk, ColoursOk, UpvalsOk, CloseOne, ThreadOk;
    CloseBody(g, t);
  }

  lemma CloseBody(g: G, t: Ref)
    requires ClosingOk(g.body, t)
    ensures Relinked(g, t).body == ClosedBody(g.body, t)
    ensures forall u, v, c :: Barrier(Relinked(g, t).(colour := c), u, v).body == Relinked(g, t).body
  {
    hide ThreadOk;
    forall u, v, c ensures Barrier(Relinked(g, t).(colour := c), u, v).body == Relinked(g, t).body {
      BarrierBody(Relinked(g, t).(colour := c), u, v);
    }
  }

  lemma CloseOneExact(g: G, t: Ref)
    requires Inv(g) && OpenList(g.body, t) != []
    ensures FirstClosed(g, CloseOne(g, t), t)
  {
    InvParts(g);
    DropReady(g, t, 0);
    SlotInside(g, t);
    if g.IsDead(g.body[t].openupval[0]) {
      hide *;
      DeadFirst(g, t);
    } else {
      ClosingReady(g, t);
      AliveDeads(g, t);
      AliveBody(g, t);
      hide *;
      AliveFirst(g, CloseOne(g, t), t);
    }
  }

  lemma SlotInside(g: G, t: Ref)
    requires UpvalsOk(g) && OpenList(g.body, t) != []
    ensures t in g.body && g.body[t].Thread? && g.body[t].openupval != []
    ensures var u := g.body[t].openupval[0];
      u in g.body && g.body[u].OpenUpval? && g.body[u].slot < |g.body[t].stack| && HasUpval(g, t, 0)
  {
    assert ThreadOk(g.body, t);
  }

  lemma DeadFirst(g: G, t: Ref)
    requires HasUpval(g, t, 0) && OpenList(g.body, t) != [] && g.IsDead(g.body[t].openupval[0])
    requires var u := g.body[t].openupval[0]; u in g.body && g.body[u].OpenUpval? && g.body[u].slot < |g.body[t].stack|
    ensures FirstClosed(g, CloseOne(g, t), t)
  {
    CloseDead(g, t);
    DropPoints(g, t, 0);
    DropFirst(g, t);
    hide HasUpval, CloseOne, DropUpval;
  }

  lemma AliveFirst(g: G, r: G, t: Ref)
    requires ClosingOk(g.body, t) && r.body == ClosedBody(g.body, t) && !g.IsDead(g.body[t].openupval[0])
    requires g.body[g.body[t].openupval[0]].slot < |g.body[t].stack|
    requires forall x :: x in g.body && x != g.body[t].openupval[0] ==> (r.IsDead(x) <==> g.IsDead(x))
    ensures FirstClosed(g, r, t)
  {
    hide ThreadOk;
  }

  lemma DropFirst(g: G, t: Ref)
    requires HasUpval(g, t, 0)
    ensures Without(g.body[t].openupval, 0) == g.body[t].openupval[1..]
  {
  }

  lemma AliveBody(g: G, t: Ref)
    requires ClosingOk(g.body, t) && !g.IsDead(g.body[t].openupval[0]) && g.body.Keys == g.colour.Keys
    ensures CloseOne(g, t).body == ClosedBody(g.body, t)
  {
    CloseOneIs(g, t);
    CloseBody(g, t);
  }

  lemma AliveDeads(g: G, t: Ref)
    requires Inv(g) && ClosingOk(g.body, t) && !g.IsDead(g.body[t].openupval[0]) && g.body.Keys == g.colour.Keys
    ensures forall x :: x in g.body && x != g.body[t].openupval[0] ==> (CloseOne(g, t).IsDead(x) <==> g.IsDead(x))
  {
    if Sweeping(g) {
      hide Inv;
      SweepingDeads(g, t);
    } else {
      CloseOneInv(g, t);
      AliveBody(g, t);
      CloseOnePhase(g, t);
      hide *;
      NoneDead(g);
      NoneDead(CloseOne(g, t));
      ClosedKeys(g.body, t);
      SamePhase(g, CloseOne(g, t));
    }
  }

  lemma SamePhase(g: G, r: G)
    requires r.phase == g.phase
    ensures Sweeping(r) <==> Sweeping(g)
  {
  }

  lemma SweepingDeads(g: G, t: Ref)
    requires Sweeping(g) && ClosingOk(g.body, t) && !g.IsDead(g.body[t].openupval[0]) && g.body.Keys == g.colour.Keys
    ensures forall x :: x in g.body && x != g.body[t].openupval[0] ==> (CloseOne(g, t).IsDead(x) <==> g.IsDead(x))
  {
    CloseOneIs(g, t);
    ElsewhereState(g, t);
    hide CloseOne, Relinked, ClosingOk;
  }

  lemma ClosedKeys(h: Heap, t: Ref)
    requires ClosingOk(h, t)
    ensures ClosedBody(h, t).Keys == h.Keys
  {
  }

  lemma NoneDead(g: G)
    requires Inv(g) && !Sweeping(g)
    ensures forall x :: x in g.body ==> !g.IsDead(x)
  {
  }

  // ---- Closing down to a level ----------------------------------------------------------

  /** At the level or above it: freed if dead, and otherwise closed with the value of its slot. */
  predicate Fell(g: G, r: G, t: Ref, level: nat, u: Ref) {
    && t in g.body && g.body[t].Thread? && u in g.body && g.body[u].OpenUpval?
    && level <= g.body[u].slot < |g.body[t].stack|
    && if g.IsDead(u) then u !in r.body
       else u in r.body && r.body[u] == ClosedUpval(g.body[t].stack[g.body[u].slot])
  }

  /** Below the level: still open. */
  predicate Stayed(g: G, r: G, level: nat, u: Ref) {
    u in g.body && g.body[u].OpenUpval? && g.body[u].slot < level && u in r.body && r.body[u] == g.body[u]
  }

  /** The first `k' open upvalues of the thread fell, the others stayed in their order, and
      nothing else has changed. */
  ghost predicate CutAt(g: G, r: G, t: Ref, level: nat, k: nat) {
    var us := OpenList(g.body, t);
    && k <= |us| && OpenList(r.body, t) == us[k..]
    && (forall i :: 0 <= i < k ==> Fell(g, r, t, level, us[i]))
    && (forall i :: k <= i < |us| ==> Stayed(g, r, level, us[i]))
    && (t in g.body && g.body[t].Thread? ==> t in r.body && r.body[t] == g.body[t].(openupval := us[k..]))
    && forall x :: x !in us[..k] ==> Still(g, r, t, x)
  }

  predicate Still(g: G, r: G, t: Ref, x: Ref) {
    (x in r.body <==> x in g.body) && (x in g.body && x in r.body && x != t ==> r.body[x] == g.body[x])
  }

  ghost predicate ClosedDown(g: G, r: G, t: Ref, level: nat) {
    exists k: nat :: CutAt(g, r, t, level, k)
  }

  lemma CutNone(g: G, t: Ref, level: nat)
    requires UpvalsOk(g) && !MustClose(g.body, t, level)
    ensures CutAt(g, g, t, level, 0)
  {
    var us := OpenList(g.body, t);
    if us != [] {
      assert ThreadOk(g.body, t);
      forall i | 0 <= i < |us| ensures Stayed(g, g, level, us[i]) {
        if i > 0 { assert g.body[us[0]].slot > g.body[us[i]].slot; }
      }
    }
  }

  lemma FellOn(g: G, q: G, r: G, t: Ref, level: nat, u: Ref)
    requires FirstClosed(g, q, t) && u != g.body[t].openupval[0] && Fell(q, r, t, level, u)
    ensures Fell(g, r, t, level, u)
  {
  }

  lemma StayedOn(g: G, q: G, r: G, t: Ref, level: nat, u: Ref)
    requires FirstClosed(g, q, t) && u != g.body[t].openupval[0] && u != t && Stayed(q, r, level, u)
    ensures Stayed(g, r, level, u)
  {
  }

  lemma FirstFell(g: G, q: G, r: G, t: Ref, level: nat)
    requires FirstClosed(g, q, t) && level <= g.body[g.body[t].openupval[0]].slot
    requires Still(q, r, t, g.body[t].openupval[0])
    ensures Fell(g, r, t, level, g.body[t].openupval[0])
  {
  }

  lemma StillOn(g: G, q: G, r: G, t: Ref, x: Ref)
    requires FirstClosed(g, q, t) && x != g.body[t].openupval[0] && Still(q, r, t, x)
    ensures Still(g, r, t, x)
  {
  }

  lemma MoreFell(g: G, q: G, r: G, t: Ref, level: nat, k: nat)
    requires FirstClosed(g, q, t) && CutAt(q, r, t, level, k) && NoDup(g.body[t].openupval)
    requires Fell(g, r, t, level, g.body[t].openupval[0])
    ensures forall i :: 0 <= i < k + 1 ==> Fell(g, r, t, level, g.body[t].openupval[i])
  {
    var us := g.body[t].openupval;
    assert OpenList(q.body, t) == us[1..];
    forall i | 0 <= i < k + 1 ensures Fell(g, r, t, level, us[i]) {
      hide Fell, Stayed, Still;
      if i > 0 {
        assert us[i] == us[1..][i - 1];
        FellOn(g, q, r, t, level, us[i]);
      }
    }
  }

  lemma MoreStayed(g: G, q: G, r: G, t: Ref, level: nat, k: nat)
    requires UpvalsOk(g) && FirstClosed(g, q, t) && CutAt(q, r, t, level, k) && NoDup(g.body[t].openupval)
    ensures forall i :: k + 1 <= i < |g.body[t].openupval| ==> Stayed(g, r, level, g.body[t].openupval[i])
  {
    var us := g.body[t].openupval;
    assert OpenList(q.body, t) == us[1..];
    forall i | k + 1 <= i < |us| ensures Stayed(g, r, level, us[i]) {
      DropReady(g, t, i);
      hide UpvalsOk, Fell, Stayed, Still;
      assert us[i] == us[1..][i - 1];
      StayedOn(g, q, r, t, level, us[i]);
    }
  }

  lemma MoreStill(g: G, q: G, r: G, t: Ref, level: nat, k: nat)
    requires FirstClosed(g, q, t) && CutAt(q, r, t, level, k)
    ensures forall x :: x !in g.body[t].openupval[..k + 1] ==> Still(g, r, t, x)
  {
    var us := g.body[t].openupval;
    assert OpenList(q.body, t) == us[1..];
    assert us[..k + 1] == [us[0]] + us[1..][..k];
    forall x | x !in us[..k + 1] ensures Still(g, r, t, x) {
      hide Fell, Stayed, Still;
      StillOn(g, q, r, t, x);
    }
  }

  lemma CutMore(g: G, q: G, r: G, t: Ref, level: nat, k: nat)
    requires UpvalsOk(g) && FirstClosed(g, q, t) && level <= g.body[g.body[t].openupval[0]].slot
    requires CutAt(q, r, t, level, k)
    ensures CutAt(g, r, t, level, k + 1)
  {
    DropReady(g, t, 0);
    var us := g.body[t].openupval;
    FirstFellHere(g, q, r, t, level, k);
    MoreFell(g, q, r, t, level, k);
    MoreStayed(g, q, r, t, level, k);
    MoreStill(g, q, r, t, level, k);
    assert us[1..][k..] == us[k + 1..];
    hide UpvalsOk, FirstClosed, Fell, Stayed, Still;
  }

  lemma FirstFellHere(g: G, q: G, r: G, t: Ref, level: nat, k: nat)
    requires FirstClosed(g, q, t) && level <= g.body[g.body[t].openupval[0]].slot
    requires CutAt(q, r, t, level, k) && NoDup(g.body[t].openupval)
    ensures var us := g.body[t].openupval;
      && Fell(g, r, t, level, us[0]) && k <= |us| - 1 && OpenList(r.body, t) == us[1..][k..]
      && t in r.body && t in g.body && g.body[t].Thread? && r.body[t] == g.body[t].(openupval := us[1..][k..])
  {
    var us := g.body[t].openupval;
    assert OpenList(q.body, t) == us[1..];
    assert us[0] !in us[1..][..k];
    FirstFell(g, q, r, t, level);
  }

  /** After luaF_close, in any phase of the collector, exactly the open upvalues below the level
      are left, in their order; each other one that was not dead holds its slot's value. */
  lemma {:induction false} CloseExact(g: G, t: Ref, level: nat)
    requires Inv(g)
    ensures ClosedDown(g, Close(g, t, level), t, level)
    decreases |OpenList(g.body, t)|
  {
    InvUpvals(g);
    if MustClose(g.body, t, level) {
      CloseShortens(g, t);
      CloseOneInv(g, t);
      CloseOneExact(g, t);
      hide Inv, UpvalsOk, CloseOne, FirstClosed, CutAt;
      CloseExact(CloseOne(g, t), t, level);
      var k: nat :| CutAt(CloseOne(g, t), Close(g, t, level), t, level, k);
      CutMore(g, CloseOne(g, t), Close(g, t, level), t, level, k);
    } else {
      CutNone(g, t, level);
    }
  }

  // ---- Finding one ----------------------------------------------------------------------

  /** `u' is the one open upvalue of the thread for the slot: the one there was, or `x', put
      behind the upvalues of higher slots and in front of those of lower ones. */
  ghost predicate FoundFor(g: G, r: G, t: Ref, level: nat, x: Ref, u: Ref) {
    && u in r.body && r.body[u] == OpenUpval(t, level) && r.Alive(u) && u in OpenList(r.body, t)
    && (forall w :: w in OpenList(g.body, t) && w in g.body && g.body[w].OpenUpval? && g.body[w].slot == level ==> w == u)
    && if u in OpenList(g.body, t) then r.body == g.body else u == x && exists n: nat :: InsertedAt(g, r, t, level, x, n)
  }

  ghost predicate InsertedAt(g: G, r: G, t: Ref, level: nat, x: Ref, n: nat) {
    var us := OpenList(g.body, t);
    && t in g.body && g.body[t].Thread? && t in r.body && n <= |us|
    && r.body[t] == g.body[t].(openupval := us[..n] + [x] + us[n..])
    && (forall i :: 0 <= i < |us| ==> us[i] in g.body && g.body[us[i]].OpenUpval? && (g.body[us[i]].slot > level <==> i < n))
    && r.body.Keys == g.body.Keys + {x}
    && forall w :: w in g.body && w != t && w in r.body ==> r.body[w] == g.body[w]
  }

  lemma FindUpvalExact(g: G, t: Ref, level: nat, x: Ref)
    requires UpvalsOk(g) && g.body.Keys == g.colour.Keys && t in g.body && g.body[t].Thread? && x !in g.body
    ensures FoundFor(g, FindUpval(g, t, level, x).1, t, level, x, FindUpval(g, t, level, x).0)
  {
    var us := g.body[t].openupval;
    var n := FindFrom(g.body, us, level);
    assert ThreadOk(g.body, t);
    FindSplits(g.body, us, level);
    if HasSlot(g.body, t, level) {
      ReusedFor(g, t, level, x, n);
    } else {
      hide UpvalsOk;
      NewFor(g, t, level, x, n);
    }
  }

  lemma NewFor(g: G, t: Ref, level: nat, x: Ref, n: nat)
    requires t in g.body && g.body[t].Thread? && ThreadOk(g.body, t) && x !in g.body
    requires !HasSlot(g.body, t, level) && n == FindFrom(g.body, g.body[t].openupval, level)
    ensures FoundFor(g, FindUpval(g, t, level, x).1, t, level, x, FindUpval(g, t, level, x).0)
  {
    var us := g.body[t].openupval;
    InsertPoints(g, t, level, x);
    FindSplits(g.body, us, level);
    NewAlive(g, t, level, x);
    hide FindFrom, InsertUpval;
    assert (us[..n] + [x] + us[n..])[n] == x;
    assert InsertedAt(g, InsertUpval(g, t, level, x), t, level, x, n);
  }

  lemma NewAlive(g: G, t: Ref, level: nat, x: Ref)
    requires t in g.body && g.body[t].Thread? && x !in g.body
    ensures InsertUpval(g, t, level, x).Alive(x)
  {
  }

  lemma ReusedFor(g: G, t: Ref, level: nat, x: Ref, n: nat)
    requires g.body.Keys == g.colour.Keys && t in g.body && g.body[t].Thread? && ThreadOk(g.body, t)
    requires HasSlot(g.body, t, level) && n == FindFrom(g.body, g.body[t].openupval, level)
    ensures FoundFor(g, FindUpval(g, t, level, x).1, t, level, x, FindUpval(g, t, level, x).0)
  {
    hide FindFrom;
  }
}
