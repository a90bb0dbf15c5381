/** Stack writes, allocation, and the reuse of strings and open upvalues. */
module GcAlloc {
  import opened GcHeap
  import opened GcMark
  import opened GcState
  import opened GcThreads
  import opened GcPropagate
  import opened GcAtomic
  import opened GcBarrier
  import opened GcClose
  import opened GcSweep
  import opened GcStep
  import opened GcMutator

  // ---- Stacks ---------------------------------------------------------------------------

  function WithStack(g: G, t: Ref, gt: Value, st: seq<Value>): G
    requires t in g.body && g.body[t].Thread?
  {
    g.(body := g.body[t := g.body[t].(gt := gt, stack := st)])
  }

  /** Stack slots change without any barrier. Slots with open upvalues must stay. */
  ghost predicate StackOk(g: G, t: Ref, gt: Value, st: seq<Value>) {
    && t in g.body && g.body[t].Thread?
    && (forall u :: u in g.body[t].openupval ==> u in g.body && g.body[u].OpenUpval? && g.body[u].slot < |st|)
    && (forall y :: Gc(y) in [gt] + st && Gc(y) !in [g.body[t].gt] + g.body[t].stack ==> g.Alive(y))
    && (forall i :: 0 <= i < |st| && i < |g.body[t].stack| && st[i] != g.body[t].stack[i] && st[i].Gc? ==> g.Alive(st[i].ref))
  }

  lemma StackHolds(g: G, t: Ref, gt: Value, st: seq<Value>, x: Ref, y: Ref)
    requires UpvalsOk(g) && StackOk(g, t, gt, st)
    requires Holds(WithStack(g, t, gt, st).body, x, y)
    ensures Holds(g.body, x, y) || g.Alive(y)
  {
    var h, h' := g.body, WithStack(g, t, gt, st).body;
    if x == t {
      assert Refers(h', t, y);
    } else if x in h && h[x].OpenUpval? {
      assert h[x].thread in h && x in h[h[x].thread].openupval;
      if h[x].thread == t {
        assert StackValue(h', t, h[x].slot) == st[h[x].slot];
        assert ThreadOk(h, t);
      } else {
        assert StackValue(h', h[x].thread, h[x].slot) == StackValue(h, h[x].thread, h[x].slot);
      }
    }
  }

  lemma StackLists(g: G, t: Ref, gt: Value, st: seq<Value>)
    requires ListsOk(g) && StackOk(g, t, gt, st)
    ensures ListsOk(WithStack(g, t, gt, st))
  {
    var r := WithStack(g, t, gt, st);
    assert StringsOk(r);
    assert RootListOk(r);
    StackUpvals(g, t, gt, st);
    assert FixedOk(r);
  }

  lemma StackUpvals(g: G, t: Ref, gt: Value, st: seq<Value>)
    requires UpvalsOk(g) && StackOk(g, t, gt, st)
    ensures UpvalsOk(WithStack(g, t, gt, st))
  {
    var r := WithStack(g, t, gt, st);
    forall s | s in r.body && r.body[s].Thread? ensures ThreadOk(r.body, s) {
      assert ThreadOk(g.body, s);
    }
  }

  lemma StackLive(g: G, t: Ref, gt: Value, st: seq<Value>)
    requires UpvalsOk(g) && LiveOk(g) && StackOk(g, t, gt, st)
    ensures LiveOk(WithStack(g, t, gt, st))
  {
    var r := WithStack(g, t, gt, st);
    assert r.Roots() == g.Roots();
    assert forall x :: r.Alive(x) <==> g.Alive(x);
    forall x | r.Alive(x) ensures HoldsAlive(r, x) {
      assert HoldsAlive(g, x);
      forall y | Holds(r.body, x, y) ensures r.Alive(y) { StackHolds(g, t, gt, st, x, y); }
    }
  }

  /** No colour constraint depends on a stack: threads and open upvalues are never black. */
  lemma StackTriColour(g: G, t: Ref, gt: Value, st: seq<Value>)
    requires TriColour(g, false, false) && StackOk(g, t, gt, st)
    ensures TriColour(WithStack(g, t, gt, st), false, false)
  {
    var r := WithStack(g, t, gt, st);
    forall x | x in r.body
      ensures KindOk(r, x)
      ensures r.colour[x] == Black ==> BlackOk(r, x)
      ensures r.colour[x] == Gray ==> GrayOk(r, x, false, false)
    {
      assert KindOk(g, x);
      if r.colour[x] == Black { assert BlackOk(g, x); }
      if r.colour[x] == Gray { assert GrayOk(g, x, false, false); }
    }
  }

  lemma StackColours(g: G, t: Ref, gt: Value, st: seq<Value>)
    requires ListsOk(g) && ColoursOk(g) && g.phase != Propagate && StackOk(g, t, gt, st)
    ensures ColoursOk(WithStack(g, t, gt, st))
  {
    var r := WithStack(g, t, gt, st);
    if Sweeping(g) {
      forall x | x in r.body ensures KindOk(r, x) && (Swept(r, x) ==> r.colour[x] == White(r.cw)) {
        assert KindOk(g, x) && (Swept(r, x) ==> Swept(g, x));
      }
    }
  }

  lemma StackInv(g: G, t: Ref, gt: Value, st: seq<Value>)
    requires Inv(g) && StackOk(g, t, gt, st)
    ensures Inv(WithStack(g, t, gt, st))
  {
    StackLists(g, t, gt, st);
    StackLive(g, t, gt, st);
    if g.phase == Propagate { StackTriColour(g, t, gt, st); } else { StackColours(g, t, gt, st); }
  }

  // ---- New objects ----------------------------------------------------------------------

  /** Insertion into `rootgc' behind its first `k' objects: 0 for luaC_link, behind the main
      thread for userdata (lstring.c:108-109). */
  function LinkAt(g: G, x: Ref, k: nat): G
    requires k <= |g.rootgc|
  {
    g.(rootgc := g.rootgc[..k] + [x] + g.rootgc[k..], sweepgc := if k < g.sweepgc then g.sweepgc + 1 else g.sweepgc)
  }

  function Born(g: G, x: Ref, b: Body): G {
    g.(body := g.body[x := b], colour := g.colour[x := White(g.cw)])
  }

  function Alloc(g: G, x: Ref, b: Body, k: nat): G
    requires k <= |g.rootgc|
  {
    LinkAt(Born(g, x, b), x, k)
  }

  /** A new object holds live objects only and is no upvalue's thread yet. */
  ghost predicate BornOk(g: G, x: Ref, b: Body) {
    && x !in g.body && (b.Thread? ==> b.openupval == [])
    && forall y :: Holds(g.body[x := b], x, y) ==> g.Alive(y)
  }

  lemma BornOthers(g: G, x: Ref, b: Body, y: Ref, z: Ref)
    requires UpvalsOk(g) && x !in g.body && y != x
    ensures Holds(g.body[x := b], y, z) == Holds(g.body, y, z) && Refers(g.body[x := b], y, z) == Refers(g.body, y, z)
  {
    if y in g.body && g.body[y].OpenUpval? {
      assert g.body[y].thread in g.body;
      assert StackValue(g.body[x := b], g.body[y].thread, g.body[y].slot) == StackValue(g.body, g.body[y].thread, g.body[y].slot);
    }
  }

  lemma BornLive(g: G, r: G, x: Ref, b: Body)
    requires UpvalsOk(g) && g.body.Keys == g.colour.Keys && LiveOk(g) && BornOk(g, x, b) && BornFrom(g, r, x, b)
    ensures LiveOk(r)
  {
    assert forall y :: g.Alive(y) ==> r.Alive(y);
    forall y | r.Alive(y) ensures HoldsAlive(r, y) {
      if y != x {
        assert g.Alive(y) && HoldsAlive(g, y);
        forall z | Holds(r.body, y, z) ensures r.Alive(z) { BornOthers(g, x, b, y, z); }
      }
    }
  }

  lemma BornTriColour(g: G, r: G, x: Ref, b: Body)
    requires UpvalsOk(g) && LiveOk(g) && TriColour(g, false, false) && NoDead(g) && x !in g.body && BornFrom(g, r, x, b)
    ensures TriColour(r, false, false)
  {
    forall y | y in r.body
      ensures KindOk(r, y)
      ensures r.colour[y] == Black ==> BlackOk(r, y)
      ensures r.colour[y] == Gray ==> GrayOk(r, y, false, false)
    {
      if y != x {
        assert KindOk(g, y);
        if r.colour[y] == Black {
          assert BlackOk(g, y) && g.Alive(y) && HoldsAlive(g, y);
          forall z | Holds(r.body, y, z) ensures !IsWhite(r.colour, z) { BornOthers(g, x, b, y, z); }
        }
        if r.colour[y] == Gray { assert GrayOk(g, y, false, false); }
      }
    }
  }

  lemma LinkedRoots(g: G, x: Ref, b: Body, k: nat)
    requires RootListOk(g) && x !in g.body && b.InRootList() && k <= |g.rootgc|
    ensures RootListOk(Alloc(g, x, b, k))
  {
    assert x !in g.rootgc;
    NoDupInsert(g.rootgc, x, k);
  }

  lemma AllocStrings(g: G, r: G, x: Ref, b: Body)
    requires StringsOk(g) && x !in g.body && !b.Str? && r.body == g.body[x := b] && r.strt == g.strt
    ensures StringsOk(r)
  {
    forall i, y | 0 <= i < |r.strt| && y in r.strt[i]
      ensures y in r.body && r.body[y].Str? && r.body[y].hash % |r.strt| == i
    {
      assert y in g.strt[i];
    }
  }

  lemma AllocUpvals(g: G, r: G, x: Ref, b: Body)
    requires UpvalsOk(g) && x !in g.body && !b.OpenUpval? && (b.Thread? ==> b.openupval == [])
    requires r.body == g.body[x := b] && r.uvhead == g.uvhead
    ensures UpvalsOk(r)
  {
    forall t | t in r.body && r.body[t].Thread? ensures ThreadOk(r.body, t) {
      if t != x { assert ThreadOk(g.body, t); }
    }
  }

  lemma AllocLists(g: G, x: Ref, b: Body, k: nat)
    requires ListsOk(g) && BornOk(g, x, b) && b.InRootList() && k <= |g.rootgc|
    ensures ListsOk(Alloc(g, x, b, k))
  {
    var r := Alloc(g, x, b, k);
    LinkedRoots(g, x, b, k);
    AllocStrings(g, r, x, b);
    AllocUpvals(g, r, x, b);
    assert FixedOk(r);
  }

  /** At most the new object joins the swept part of the list. */
  lemma AllocPrefix(g: G, x: Ref, b: Body, k: nat, y: Ref)
    requires g.sweepgc <= |g.rootgc| && k <= |g.rootgc| && x !in g.rootgc
    ensures var r := Alloc(g, x, b, k);
      r.sweepgc <= |r.rootgc| && (y in r.rootgc[..r.sweepgc] ==> y == x || y in g.rootgc[..g.sweepgc])
  {
    var r := Alloc(g, x, b, k);
    var s := g.rootgc[..g.sweepgc];
    if k < g.sweepgc {
      assert r.rootgc[..r.sweepgc] == s[..k] + [x] + s[k..];
    } else {
      assert r.rootgc[..r.sweepgc] == s;
    }
  }

  lemma AllocColours(g: G, x: Ref, b: Body, k: nat)
    requires ListsOk(g) && ColoursOk(g) && g.phase != Propagate && BornOk(g, x, b) && b.InRootList() && k <= |g.rootgc|
    ensures Alloc(g, x, b, k).sweepgc <= |Alloc(g, x, b, k).rootgc| && ColoursOk(Alloc(g, x, b, k))
  {
    var r := Alloc(g, x, b, k);
    assert x !in g.rootgc;
    AllocPrefix(g, x, b, k, x);
    if Sweeping(g) {
      forall y | y in r.body ensures KindOk(r, y) && (Swept(r, y) ==> r.colour[y] == White(r.cw)) {
        if y != x {
          assert KindOk(g, y);
          AllocSwept(g, x, b, k, y);
        }
      }
    }
  }

  lemma AllocSwept(g: G, x: Ref, b: Body, k: nat, y: Ref)
    requires |g.strt| > 0 && RootListOk(g) && UpvalsOk(g) && g.sweepgc <= |g.rootgc| && k <= |g.rootgc|
    requires y in g.body && x !in g.body
    ensures var r := Alloc(g, x, b, k); r.sweepgc <= |r.rootgc| && (Swept(r, y) ==> Swept(g, y))
  {
    assert x !in g.rootgc;
    AllocPrefix(g, x, b, k, y);
    if g.body[y].OpenUpval? {
      assert g.body[g.body[y].thread].Thread?;
      AllocPrefix(g, x, b, k, g.body[y].thread);
    }
  }

  lemma AllocInv(g: G, x: Ref, b: Body, k: nat)
    requires Inv(g) && BornOk(g, x, b) && b.InRootList() && k <= |g.rootgc|
    ensures Inv(Alloc(g, x, b, k))
  {
    InvParts(g);
    BornNew(g, x, b);
    hide *;
    AllocLists(g, x, b, k);
    AllocIs(g, x, b, k);
    BornLive(g, Alloc(g, x, b, k), x, b);
    if g.phase == Propagate {
      BornPropagate(g, Alloc(g, x, b, k), x, b);
    } else {
      AllocColours(g, x, b, k);
    }
    InvNow(Alloc(g, x, b, k));
  }

  lemma InvNow(g: G)
    requires ListsOk(g) && LiveOk(g) && ColoursOk(g)
    ensures Inv(g)
  {
  }

  lemma BornNew(g: G, x: Ref, b: Body)
    requires BornOk(g, x, b)
    ensures x !in g.body
  {
  }

  lemma AllocIs(g: G, x: Ref, b: Body, k: nat)
    requires k <= |g.rootgc|
    ensures BornFrom(g, Alloc(g, x, b, k), x, b)
  {
    assert Alloc(g, x, b, k).Roots() == g.Roots();
  }

  ghost predicate BornFrom(g: G, r: G, x: Ref, b: Body) {
    && r.body == g.body[x := b] && r.colour == g.colour[x := White(g.cw)] && r.cw == g.cw
    && r.Roots() == g.Roots() && r.mainthread == g.mainthread && r.running == g.running && r.registry == g.registry
    && r.gray == g.gray && r.grayagain == g.grayagain && r.phase == g.phase
  }

  /** Birth in the mark phase. */
  lemma BornPropagate(g: G, r: G, x: Ref, b: Body)
    requires ListsOk(g) && LiveOk(g) && ColoursOk(g) && g.phase == Propagate && x !in g.body && ListsOk(r) && BornFrom(g, r, x, b)
    ensures ColoursOk(r)
  {
    hide ListsOk, LiveOk, UpvalsOk, TriColour, StringsOk, RootListOk, FixedOk;
    ListsBounds(g);
    ListsBounds(r);
    RootFacts(g);
    BornTriColour(g, r, x, b);
  }

  lemma ListsBounds(g: G)
    requires ListsOk(g)
    ensures UpvalsOk(g) && g.body.Keys == g.colour.Keys && |g.strt| > 0 && g.sweepgc <= |g.rootgc|
  {
  }

  lemma RootFacts(g: G)
    requires LiveOk(g)
    ensures g.Alive(g.mainthread) && (g.registry.Gc? ==> g.Alive(g.registry.ref))
  {
    assert g.Roots()[2] == g.registry;
  }

  // ---- Strings --------------------------------------------------------------------------

  /** newlstr: a new string goes to the head of its bucket. */
  function AllocString(g: G, x: Ref, hash: nat): G
    requires |g.strt| > 0
  {
    var b := hash % |g.strt|;
    Born(g, x, Str(hash)).(strt := g.strt[b := [x] + g.strt[b]])
  }

  lemma AllocStringLists(g: G, x: Ref, hash: nat)
    requires ListsOk(g) && x !in g.body
    ensures ListsOk(AllocString(g, x, hash))
  {
    var r := AllocString(g, x, hash);
    NewBucket(g, x, hash);
    assert RootListOk(r);
    AllocUpvals(g, r, x, Str(hash));
    assert FixedOk(r);
  }

  lemma NewBucket(g: G, x: Ref, hash: nat)
    requires StringsOk(g) && x !in g.body
    ensures StringsOk(AllocString(g, x, hash))
  {
    var r := AllocString(g, x, hash);
    var b := hash % |g.strt|;
    assert x !in g.strt[b];
    NoDupConcat([x], g.strt[b]);
    forall i, y | 0 <= i < |r.strt| && y in r.strt[i]
      ensures y in r.body && r.body[y].Str? && r.body[y].hash % |r.strt| == i
    {
      assert y != x ==> y in g.strt[i];
    }
  }

  lemma AllocStringColours(g: G, x: Ref, hash: nat)
    requires ListsOk(g) && ColoursOk(g) && g.phase != Propagate && x !in g.body
    ensures ColoursOk(AllocString(g, x, hash))
  {
    var r := AllocString(g, x, hash);
    if Sweeping(g) {
      forall y | y in r.body ensures KindOk(r, y) && (Swept(r, y) ==> r.colour[y] == White(r.cw)) {
        if y != x { assert KindOk(g, y) && (Swept(r, y) ==> Swept(g, y)); }
      }
    }
  }

  lemma AllocStringInv(g: G, x: Ref, hash: nat)
    requires Inv(g) && x !in g.body
    ensures |g.strt| > 0 && Inv(AllocString(g, x, hash))
  {
    InvParts(g);
    InvStrings(g);
    AllocStringIs(g, x, hash);
    hide *;
    AllocStringLists(g, x, hash);
    BornLive(g, AllocString(g, x, hash), x, Str(hash));
    if g.phase == Propagate {
      BornPropagate(g, AllocString(g, x, hash), x, Str(hash));
    } else {
      AllocStringColours(g, x, hash);
    }
    InvNow(AllocString(g, x, hash));
  }

  lemma AllocStringIs(g: G, x: Ref, hash: nat)
    requires StringsOk(g) && x !in g.body
    ensures |g.strt| > 0 && BornFrom(g, AllocString(g, x, hash), x, Str(hash)) && BornOk(g, x, Str(hash))
  {
    assert AllocString(g, x, hash).Roots() == g.Roots();
  }

  /** changewhite on a dead object: how luaS_newlstr and luaF_findupval bring one back. */
  function Revive(g: G, x: Ref): G {
    if g.IsDead(x) then Whiten(g, x) else g
  }

  lemma ReviveInv(g: G, x: Ref)
    requires Inv(g) && x in g.body
    requires forall y :: Holds(g.body, x, y) ==> g.Alive(y)
    ensures Inv(Revive(g, x))
  {
    if g.IsDead(x) {
      OnlyDeadWhileSweeping(g, x);
      RecolourLists(g, Whiten(g, x));
      WhitenColours(g, x);
      ReviveLive(g, x);
    }
  }

  lemma ReviveLive(g: G, x: Ref)
    requires g.body.Keys == g.colour.Keys && LiveOk(g) && x in g.body
    requires forall y :: Holds(g.body, x, y) ==> g.Alive(y)
    ensures LiveOk(Whiten(g, x))
  {
    var r := Whiten(g, x);
    assert r.Roots() == g.Roots();
    assert forall y :: g.Alive(y) ==> r.Alive(y);
    forall y | r.Alive(y) ensures HoldsAlive(r, y) {
      if g.Alive(y) { assert HoldsAlive(g, y); }
    }
  }

  // ---- luaF_findupval -------------------------------------------------------------------

  /** How many open upvalues of the list lie above the level. */
  function FindFrom(h: Heap, us: seq<Ref>, level: nat): (n: nat)
    ensures n <= |us|
  {
    if us == [] || us[0] !in h || !h[us[0]].OpenUpval? || h[us[0]].slot <= level then 0
    else 1 + FindFrom(h, us[1..], level)
  }

  function InsertUpval(g: G, t: Ref, level: nat, x: Ref): G
    requires t in g.body && g.body[t].Thread?
  {
    var us := g.body[t].openupval;
    var n := FindFrom(g.body, us, level);
    var g1 := WithOpenList(g, t, us[..n] + [x] + us[n..]);
    Born(g1, x, OpenUpval(t, level)).(uvhead := [x] + g.uvhead)
  }

  predicate HasSlot(h: Heap, t: Ref, level: nat) {
    var us := OpenList(h, t);
    var n := FindFrom(h, us, level);
    n < |us| && us[n] in h && h[us[n]].OpenUpval? && h[us[n]].slot == level
  }

  /** The upvalue for a stack slot, and the new state: an existing one is reused, even if it
      is dead; otherwise `x' becomes a new one. */
  function FindUpval(g: G, t: Ref, level: nat, x: Ref): (Ref, G)
    requires t in g.body && g.body[t].Thread?
  {
    if HasSlot(g.body, t, level) then
      var u := g.body[t].openupval[FindFrom(g.body, g.body[t].openupval, level)];
      (u, Revive(g, u))
    else (x, InsertUpval(g, t, level, x))
  }

  /** The list is strictly descending, so the walk stops at the right place. */
  lemma {:induction false} FindSplits(h: Heap, us: seq<Ref>, level: nat)
    requires forall i :: 0 <= i < |us| ==> us[i] in h && h[us[i]].OpenUpval?
    requires forall i, j :: 0 <= i < j < |us| ==> h[us[i]].slot > h[us[j]].slot
    ensures var n := FindFrom(h, us, level);
      && (forall i :: 0 <= i < n ==> h[us[i]].slot > level)
      && (forall i :: n <= i < |us| ==> h[us[i]].slot <= level)
      && (forall i :: n < i < |us| ==> h[us[i]].slot < level)
  {
    if us != [] && h[us[0]].slot > level {
      FindSplits(h, us[1..], level);
      var n := FindFrom(h, us, level);
      assert forall i :: 1 <= i < |us| ==> us[i] == us[1..][i - 1];
    } else if us != [] {
      assert forall i :: 0 < i < |us| ==> h[us[i]].slot < h[us[0]].slot;
    }
  }

  /** The new state, object by object. */
  lemma InsertPoints(g: G, t: Ref, level: nat, x: Ref)
    requires t in g.body && g.body[t].Thread? && x !in g.body
    ensures var r := InsertUpval(g, t, level, x); var us := g.body[t].openupval; var n := FindFrom(g.body, us, level);
      && n <= |us| && r.body.Keys == g.body.Keys + {x} && r.body[x] == OpenUpval(t, level)
      && r.body[t] == g.body[t].(openupval := us[..n] + [x] + us[n..])
      && (forall w :: w in g.body && w != t ==> r.body[w] == g.body[w])
      && r.uvhead == [x] + g.uvhead
  {
  }

  lemma InsertedThread(g: G, t: Ref, level: nat, x: Ref)
    requires UpvalsOk(g) && t in g.body && g.body[t].Thread? && level < |g.body[t].stack| && x !in g.body
    requires !HasSlot(g.body, t, level)
    ensures ThreadOk(InsertUpval(g, t, level, x).body, t)
  {
    assert ThreadOk(g.body, t);
    InsertSplits(g.body, t, level);
    InsertPoints(g, t, level, x);
    hide UpvalsOk, InsertUpval, FindFrom, SplitsAt, HasSlot;
    forall w | w in g.body[t].openupval ensures w in g.body && w != t && w != x { MemberOwned(g.body, t, w); }
    ThreadInserted(g.body, InsertUpval(g, t, level, x).body, t, FindFrom(g.body, g.body[t].openupval, level), x, level);
  }

  lemma InsertSplits(h: Heap, t: Ref, level: nat)
    requires t in h && h[t].Thread? && ThreadOk(h, t) && !HasSlot(h, t, level)
    ensures SplitsAt(h, h[t].openupval, FindFrom(h, h[t].openupval, level), level)
  {
    FindSplits(h, h[t].openupval, level);
    hide FindFrom;
  }

  lemma InsertedUpvals(g: G, t: Ref, level: nat, x: Ref)
    requires UpvalsOk(g) && t in g.body && g.body[t].Thread? && level < |g.body[t].stack| && x !in g.body
    requires !HasSlot(g.body, t, level)
    ensures UpvalsOk(InsertUpval(g, t, level, x))
  {
    InsertedThread(g, t, level, x);
    InsertedOthers(g, t, level, x);
    assert x !in g.uvhead;
    NoDupConcat([x], g.uvhead);
    forall u | u in InsertUpval(g, t, level, x).body && InsertUpval(g, t, level, x).body[u].OpenUpval?
      ensures UpvalListed(InsertUpval(g, t, level, x), u)
    {
      InsertedListed(g, t, level, x, u);
    }
  }

  predicate UpvalListed(g: G, u: Ref)
    requires u in g.body && g.body[u].OpenUpval?
  {
    && g.body[u].thread in g.body && g.body[g.body[u].thread].Thread?
    && u in g.body[g.body[u].thread].openupval && u in g.uvhead
  }

  lemma InsertedListed(g: G, t: Ref, level: nat, x: Ref, u: Ref)
    requires UpvalsOk(g) && t in g.body && g.body[t].Thread? && x !in g.body
    requires u in InsertUpval(g, t, level, x).body && InsertUpval(g, t, level, x).body[u].OpenUpval?
    ensures UpvalListed(InsertUpval(g, t, level, x), u)
  {
    InsertPoints(g, t, level, x);
    hide InsertUpval, FindFrom, ThreadOk;
    if u == x {
      hide UpvalsOk;
    } else {
      assert u in g.body[g.body[u].thread].openupval && u in g.uvhead && g.body[g.body[u].thread].Thread?;
      hide UpvalsOk, NoDup;
      InsertKeeps(g.body[t].openupval, FindFrom(g.body, g.body[t].openupval, level), x, u);
    }
  }

  lemma InsertKeeps(us: seq<Ref>, n: nat, x: Ref, u: Ref)
    requires n <= |us|
    ensures u in us ==> u in us[..n] + [x] + us[n..]
  {
    assert us == us[..n] + us[n..];
  }

  lemma InsertedOthers(g: G, t: Ref, level: nat, x: Ref)
    requires UpvalsOk(g) && t in g.body && g.body[t].Thread? && x !in g.body
    ensures var r := InsertUpval(g, t, level, x);
      forall s :: s in r.body && r.body[s].Thread? && s != t ==> ThreadOk(r.body, s)
  {
    var r := InsertUpval(g, t, level, x);
    forall s | s in r.body && r.body[s].Thread? && s != t ensures ThreadOk(r.body, s) {
      assert ThreadOk(g.body, s);
    }
  }

  lemma InsertOthers(g: G, t: Ref, level: nat, x: Ref, y: Ref, z: Ref)
    requires UpvalsOk(g) && t in g.body && g.body[t].Thread? && x !in g.body && y != x
    ensures Holds(InsertUpval(g, t, level, x).body, y, z) == Holds(g.body, y, z)
  {
    var us := g.body[t].openupval;
    var n := FindFrom(g.body, us, level);
    var vs := us[..n] + [x] + us[n..];
    var q := WithOpenList(g, t, vs);
    RelistRefers(g.body, t, vs, y, z);
    var h := q.body;
    if y in h && h[y].OpenUpval? {
      assert g.body[y].thread in g.body;
      assert StackValue(h[x := OpenUpval(t, level)], h[y].thread, h[y].slot) == StackValue(h, h[y].thread, h[y].slot);
    }
  }

  lemma InsertLive(g: G, t: Ref, level: nat, x: Ref)
    requires UpvalsOk(g) && g.body.Keys == g.colour.Keys && LiveOk(g) && g.Alive(t) && g.body[t].Thread?
    requires x !in g.body && level < |g.body[t].stack|
    ensures LiveOk(InsertUpval(g, t, level, x))
  {
    var r := InsertUpval(g, t, level, x);
    assert r.Roots() == g.Roots();
    assert forall y :: g.Alive(y) ==> r.Alive(y);
    assert HoldsAlive(g, t);
    forall y | r.Alive(y) ensures HoldsAlive(r, y) {
      if y != x {
        assert g.Alive(y) && HoldsAlive(g, y);
        forall z | Holds(r.body, y, z) ensures r.Alive(z) { InsertOthers(g, t, level, x, y, z); }
      } else {
        var v := g.body[t].stack[level];
        assert Children(r.body, x) == [v];
        assert v in Children(g.body, t);
        if v.Gc? { assert Holds(g.body, t, v.ref); }
      }
    }
  }

  lemma InsertTriColour(g: G, t: Ref, level: nat, x: Ref)
    requires UpvalsOk(g) && LiveOk(g) && TriColour(g, false, false) && NoDead(g)
    requires t in g.body && g.body[t].Thread? && x !in g.body
    ensures TriColour(InsertUpval(g, t, level, x), false, false)
  {
    var r := InsertUpval(g, t, level, x);
    forall y | y in r.body
      ensures KindOk(r, y)
      ensures r.colour[y] == Black ==> BlackOk(r, y)
      ensures r.colour[y] == Gray ==> GrayOk(r, y, false, false)
    {
      if y != x {
        assert KindOk(g, y);
        if r.colour[y] == Black {
          assert BlackOk(g, y) && g.Alive(y) && HoldsAlive(g, y);
          forall z | Holds(r.body, y, z) ensures !IsWhite(r.colour, z) { InsertOthers(g, t, level, x, y, z); }
        }
        if r.colour[y] == Gray { assert GrayOk(g, y, false, false); }
      }
    }
  }

  lemma InsertColours(g: G, t: Ref, level: nat, x: Ref)
    requires ListsOk(g) && ColoursOk(g) && g.phase != Propagate
    requires t in g.body && g.body[t].Thread? && x !in g.body
    ensures ColoursOk(InsertUpval(g, t, level, x))
  {
    var r := InsertUpval(g, t, level, x);
    if Sweeping(g) {
      forall y | y in r.body ensures KindOk(r, y) && (Swept(r, y) ==> r.colour[y] == White(r.cw)) {
        if y != x { assert KindOk(g, y) && (Swept(r, y) ==> Swept(g, y)); }
      }
    }
  }

  lemma InsertLists(g: G, t: Ref, level: nat, x: Ref)
    requires ListsOk(g) && t in g.body && g.body[t].Thread? && level < |g.body[t].stack| && x !in g.body
    requires !HasSlot(g.body, t, level)
    ensures ListsOk(InsertUpval(g, t, level, x))
  {
    InsertedUpvals(g, t, level, x);
    InsertStrings(g, t, level, x);
    InsertRest(g, t, level, x);
  }

  lemma InsertRest(g: G, t: Ref, level: nat, x: Ref)
    requires RootListOk(g) && FixedOk(g) && t in g.body && g.body[t].Thread? && x !in g.body
    ensures RootListOk(InsertUpval(g, t, level, x)) && FixedOk(InsertUpval(g, t, level, x))
  {
    assert RootListOk(InsertUpval(g, t, level, x));
  }

  lemma InsertStrings(g: G, t: Ref, level: nat, x: Ref)
    requires StringsOk(g) && t in g.body && g.body[t].Thread? && x !in g.body
    ensures StringsOk(InsertUpval(g, t, level, x))
  {
    var r := InsertUpval(g, t, level, x);
    forall i, y | 0 <= i < |r.strt| && y in r.strt[i]
      ensures y in r.body && r.body[y].Str? && r.body[y].hash % |r.strt| == i
    {
      assert y in g.strt[i];
    }
  }

  lemma FindUpvalInv(g: G, t: Ref, level: nat, x: Ref)
    requires Inv(g) && g.Alive(t) && g.body[t].Thread? && level < |g.body[t].stack| && x !in g.body
    ensures Inv(FindUpval(g, t, level, x).1)
  {
    if HasSlot(g.body, t, level) {
      hide ListsOk, LiveOk, ColoursOk;
      InvUpvals(g);
      FoundHolds(g, t, level);
      ReviveInv(g, g.body[t].openupval[FindFrom(g.body, g.body[t].openupval, level)]);
    } else {
      InsertInv(g, t, level, x);
    }
  }

  lemma InsertInv(g: G, t: Ref, level: nat, x: Ref)
    requires Inv(g) && g.Alive(t) && g.body[t].Thread? && level < |g.body[t].stack| && x !in g.body
    requires !HasSlot(g.body, t, level)
    ensures Inv(InsertUpval(g, t, level, x))
  {
    InvUpvals(g);
    ListsKeys(g);
    hide ListsOk, LiveOk, UpvalsOk;
    InsertLists(g, t, level, x);
    InsertLive(g, t, level, x);
    if g.phase == Propagate {
      InsertPropagate(g, t, level, x);
    } else {
      InsertColours(g, t, level, x);
    }
  }

  lemma InsertPropagate(g: G, t: Ref, level: nat, x: Ref)
    requires UpvalsOk(g) && LiveOk(g) && g.body.Keys == g.colour.Keys && g.phase == Propagate
    requires |g.strt| > 0 && g.sweepgc <= |g.rootgc| && ColoursOk(g)
    requires t in g.body && g.body[t].Thread? && x !in g.body && ListsOk(InsertUpval(g, t, level, x))
    requires g.mainthread in g.body && (g.registry.Gc? ==> g.registry.ref in g.body)
    ensures ColoursOk(InsertUpval(g, t, level, x))
  {
    hide LiveOk, UpvalsOk, TriColour;
    InsertTriColour(g, t, level, x);
  }

  lemma FoundHolds(g: G, t: Ref, level: nat)
    requires UpvalsOk(g) && LiveOk(g) && g.Alive(t) && g.body[t].Thread? && HasSlot(g.body, t, level)
    ensures var u := g.body[t].openupval[FindFrom(g.body, g.body[t].openupval, level)];
      forall y :: Holds(g.body, u, y) ==> g.Alive(y)
  {
    var u := g.body[t].openupval[FindFrom(g.body, g.body[t].openupval, level)];
    assert ThreadOk(g.body, t) && HoldsAlive(g, t);
    var v := g.body[t].stack[level];
    assert Children(g.body, u) == [v];
    assert v in Children(g.body, t);
    if v.Gc? { assert Holds(g.body, t, v.ref); }
  }

  // ---- Roots ----------------------------------------------------------------------------

  lemma RootsInv(g: G, th: Ref, mt: seq<Value>)
    requires Inv(g) && g.Alive(th) && g.body[th].Thread?
    requires forall y :: Gc(y) in mt ==> g.Alive(y)
    ensures Inv(g.(running := th, mt := mt))
  {
    var r := g.(running := th, mt := mt);
    RootsLists(g, r);
    assert forall x :: r.Alive(x) <==> g.Alive(x);
    forall x | r.Alive(x) ensures HoldsAlive(r, x) { assert HoldsAlive(g, x); }
    forall y | Gc(y) in r.Roots() ensures r.Alive(y) {
      if Gc(y) !in mt && y != th { assert Gc(y) in g.Roots(); }
    }
    RootsColours(g, r);
  }

  lemma RootsLists(g: G, r: G)
    requires ListsOk(g) && r == g.(running := r.running, mt := r.mt)
    ensures ListsOk(r)
  {
    assert StringsOk(r);
    assert RootListOk(r);
    assert UpvalsOk(r);
    assert FixedOk(r);
  }

  lemma RootsColours(g: G, r: G)
    requires ListsOk(g) && ColoursOk(g) && r == g.(running := r.running, mt := r.mt, fixed := r.fixed)
    ensures ColoursOk(r)
  {
    if g.phase == Propagate { RootsTriColour(g, r); }
    if Sweeping(g) {
      forall y | y in r.body ensures KindOk(r, y) && (Swept(r, y) ==> r.colour[y] == White(r.cw)) {
        assert KindOk(g, y) && (Swept(r, y) ==> Swept(g, y));
      }
    }
  }

  lemma RootsTriColour(g: G, r: G)
    requires TriColour(g, false, false) && r == g.(running := r.running, mt := r.mt, fixed := r.fixed)
    ensures TriColour(r, false, false)
  {
    forall x | x in r.body
      ensures KindOk(r, x)
      ensures r.colour[x] == Black ==> BlackOk(r, x)
      ensures r.colour[x] == Gray ==> GrayOk(r, x, false, false)
    {
      assert KindOk(g, x);
      if r.colour[x] == Black { assert BlackOk(g, x); }
      if r.colour[x] == Gray { assert GrayOk(g, x, false, false); }
    }
  }
}
