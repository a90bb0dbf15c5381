/** The sweep phases (lgc.c:393-428, 589-607) and the freeing of threads (lstate.c:139-145). */
module GcSweep {
  import opened GcHeap
  import opened GcMark
  import opened GcState
  import opened GcThreads
  import opened GcBarrier
  import opened GcClose

  /** Not dead, or fixed: `(marked ^ WHITEBITS) & deadmask' with the fixed bit in the mask. */
  predicate Survives(g: G, x: Ref) {
    !g.IsDead(x) || x in g.fixed
  }

  function Without<T>(s: seq<T>, i: nat): (r: seq<T>)
    requires i < |s|
    ensures |r| == |s| - 1
  {
    s[..i] + s[i + 1..]
  }

  function FreeString(g: G, b: nat, i: nat): G
    requires b < |g.strt| && i < |g.strt[b]|
  {
    Free(g, g.strt[b][i]).(strt := g.strt[b := Without(g.strt[b], i)])
  }

  /** sweepwholelist on one bucket of the string table, from its i-th string on. */
  function SweepBucket(g: G, b: nat, i: nat): (r: G)
    requires b < |g.strt|
    ensures |r.strt| == |g.strt|
    ensures r == g.(body := r.body, colour := r.colour, strt := r.strt, uvhead := r.uvhead)
    decreases |g.strt[b]| - i
  {
    if i >= |g.strt[b]| then g
    else if Survives(g, g.strt[b][i]) then SweepBucket(Whiten(g, g.strt[b][i]), b, i + 1)
    else SweepBucket(FreeString(g, b, i), b, i)
  }

  /** Unlink and free one open upvalue of a thread. */
  function DropUpval(g: G, t: Ref, i: nat): G
    requires i < |OpenList(g.body, t)|
  {
    Free(WithOpenList(g, t, Without(g.body[t].openupval, i)), g.body[t].openupval[i])
  }

  /** sweepwholelist on the open upvalues of a thread. */
  function SweepOpen(g: G, t: Ref, i: nat): (r: G)
    ensures r == g.(body := r.body, colour := r.colour, uvhead := r.uvhead)
    decreases |OpenList(g.body, t)| - i
  {
    if i >= |OpenList(g.body, t)| then g
    else if Survives(g, g.body[t].openupval[i]) then SweepOpen(Whiten(g, g.body[t].openupval[i]), t, i + 1)
    else SweepOpen(DropUpval(g, t, i), t, i)
  }

  /** Erase the object at the sweep pointer; a thread closes its upvalues on the way. */
  function Erase(g: G, x: Ref): G {
    var g1 := Close(g, x, 0);
    Free(g1, x).(rootgc := Remove(g1.rootgc, x))
  }

  /** One round of sweeplist on `rootgc'. */
  function SweepOne(g: G): G
    requires g.sweepgc < |g.rootgc|
  {
    var x := g.rootgc[g.sweepgc];
    var g1 := SweepOpen(g, x, 0);
    if Survives(g1, x) then Whiten(g1, x).(sweepgc := g1.sweepgc + 1)
    else Erase(g1, x)
  }

  /** sweeplist with a bound on the number of objects visited. */
  function SweepList(g: G, count: nat): G
    decreases count
  {
    if count == 0 || g.sweepgc >= |g.rootgc| then g
    else SweepList(SweepOne(g), count - 1)
  }

  predicate Sweeping(g: G) {
    g.phase == SweepString || g.phase == Sweep
  }

  predicate IsCurrentWhite(g: G, x: Ref) {
    x in g.colour && g.colour[x] == White(g.cw)
  }

  // ---- Freeing a dead object ------------------------------------------------------------

  /** Nothing that is alive holds a dead object, so freeing one takes nothing from the living. */
  lemma FreeLive(g: G, r: G, x: Ref)
    requires g.body.Keys == g.colour.Keys && LiveOk(g) && g.IsDead(x) && x in g.body
    requires forall y :: y in g.body && g.body[y].OpenUpval? ==> g.body[y].thread != x
    requires r.body == g.body - {x} && r.colour == g.colour - {x} && r.cw == g.cw
    requires r.Roots() == g.Roots() && r.mainthread == g.mainthread && r.running == g.running
    ensures LiveOk(r)
  {
    assert forall y :: r.Alive(y) <==> g.Alive(y);
    forall y, z | g.Alive(y) && Holds(r.body, y, z) ensures Holds(g.body, y, z) {
      FreeRefers(g.body, x, y, z);
    }
    SameLive(g, r);
  }

  lemma FreeRefers(h: Heap, x: Ref, y: Ref, z: Ref)
    requires forall y :: y in h && h[y].OpenUpval? ==> h[y].thread != x
    requires y != x
    ensures Refers(h - {x}, y, z) == Refers(h, y, z) && Holds(h - {x}, y, z) == Holds(h, y, z)
  {
    if y in h && h[y].OpenUpval? {
      assert StackValue(h - {x}, h[y].thread, h[y].slot) == StackValue(h, h[y].thread, h[y].slot);
    }
  }

  lemma FreeColours(g: G, r: G, x: Ref)
    requires ListsOk(g) && ColoursOk(g) && Sweeping(g)
    requires r.body == g.body - {x} && r.colour == g.colour - {x}
    requires r.cw == g.cw && r.phase == g.phase && r.sweepstrgc == g.sweepstrgc && r.sweepgc == g.sweepgc
    requires |r.strt| == |g.strt| && r.sweepgc <= |r.rootgc| && r.rootgc[..r.sweepgc] == g.rootgc[..g.sweepgc]
    ensures ColoursOk(r)
  {
    forall y | y in r.body ensures KindOk(r, y) && (Swept(r, y) ==> r.colour[y] == White(r.cw)) {
      assert KindOk(g, y) && (Swept(r, y) ==> Swept(g, y));
    }
  }

  lemma WithoutNoDup<T>(s: seq<T>, i: nat)
    requires NoDup(s) && i < |s|
    ensures NoDup(Without(s, i)) && s[i] !in Without(s, i)
    ensures forall y :: y in Without(s, i) <==> y in s && y != s[i]
  {
    RemoveAt(s, i);
    RemoveNoDup(s, s[i]);
  }

  // ---- Strings --------------------------------------------------------------------------

  lemma FreeStringLists(g: G, b: nat, i: nat)
    requires ListsOk(g) && b < |g.strt| && i < |g.strt[b]| && g.strt[b][i] !in g.fixed
    ensures ListsOk(FreeString(g, b, i))
  {
    var x := g.strt[b][i];
    var r := FreeString(g, b, i);
    assert g.body[x].Str? by { assert x in g.strt[b]; }
    WithoutNoDup(g.strt[b], i);
    FreedStrings(g, b, i);
    FreedUpvals(g, r, x);
    assert RootListOk(r);
    assert FixedOk(r);
  }

  lemma FreedStrings(g: G, b: nat, i: nat)
    requires StringsOk(g) && b < |g.strt| && i < |g.strt[b]|
    ensures StringsOk(FreeString(g, b, i))
  {
    var x := g.strt[b][i];
    var r := FreeString(g, b, i);
    WithoutNoDup(g.strt[b], i);
    assert g.body[x].hash % |g.strt| == b by { assert x in g.strt[b]; }
    forall j, y | 0 <= j < |r.strt| && y in r.strt[j]
      ensures y in r.body && r.body[y].Str? && r.body[y].hash % |r.strt| == j
    {
      assert y in g.strt[j];
    }
  }

  /** Freeing something that is no thread and no open upvalue. */
  lemma FreedUpvals(g: G, r: G, x: Ref)
    requires UpvalsOk(g) && x in g.body && !g.body[x].Thread? && !g.body[x].OpenUpval?
    requires r.body == g.body - {x} && r.uvhead == g.uvhead
    ensures UpvalsOk(r)
  {
    forall t | t in r.body && r.body[t].Thread? ensures ThreadOk(r.body, t) {
      assert ThreadOk(g.body, t);
    }
  }

  lemma FreeStringInv(g: G, b: nat, i: nat)
    requires Inv(g) && Sweeping(g) && b < |g.strt| && i < |g.strt[b]| && !Survives(g, g.strt[b][i])
    ensures Inv(FreeString(g, b, i))
  {
    var x, r := g.strt[b][i], FreeString(g, b, i);
    assert g.body[x].Str? by { assert x in g.strt[b]; }
    FreeStringLists(g, b, i);
    FreeStringLive(g, r, x);
    FreeColours(g, r, x);
  }

  lemma FreeStringLive(g: G, r: G, x: Ref)
    requires g.body.Keys == g.colour.Keys && LiveOk(g) && UpvalsOk(g) && g.IsDead(x) && x in g.body && !g.body[x].Thread?
    requires r == g.(body := g.body - {x}, colour := g.colour - {x}, strt := r.strt, rootgc := r.rootgc, uvhead := r.uvhead)
    ensures LiveOk(r)
  {
    assert r.Roots() == g.Roots();
    FreeLive(g, r, x);
  }

  /** A survivor becomes white again. A fixed string may have been dead until then. */
  lemma WhitenInv(g: G, x: Ref)
    requires Inv(g) && Sweeping(g) && x in g.body && Survives(g, x)
    ensures Inv(Whiten(g, x))
  {
    var r := Whiten(g, x);
    RecolourLists(g, r);
    WhitenLive(g, x);
    WhitenColours(g, x);
  }

  lemma WhitenLive(g: G, x: Ref)
    requires g.body.Keys == g.colour.Keys && LiveOk(g) && FixedOk(g) && x in g.body && Survives(g, x)
    ensures LiveOk(Whiten(g, x))
  {
    var r := Whiten(g, x);
    assert r.Roots() == g.Roots();
    assert forall y :: g.Alive(y) ==> r.Alive(y);
    forall y | r.Alive(y) ensures HoldsAlive(r, y) {
      if g.Alive(y) {
        assert HoldsAlive(g, y);
      } else {
        assert y == x && g.body[x].Str?;
      }
    }
  }

  lemma WhitenColours(g: G, x: Ref)
    requires g.body.Keys == g.colour.Keys && |g.strt| > 0 && g.sweepgc <= |g.rootgc| && ColoursOk(g) && Sweeping(g)
    requires x in g.body
    ensures Whiten(g, x).colour.Keys == g.colour.Keys && ColoursOk(Whiten(g, x))
  {
    var r := Whiten(g, x);
    forall y | y in r.body ensures KindOk(r, y) && (Swept(r, y) ==> r.colour[y] == White(r.cw)) {
      assert KindOk(g, y) && (Swept(r, y) ==> Swept(g, y));
    }
  }

  lemma {:induction false} SweepBucketInv(g: G, b: nat, i: nat)
    requires Inv(g) && Sweeping(g) && b < |g.strt|
    ensures Inv(SweepBucket(g, b, i))
    decreases |g.strt[b]| - i
  {
    hide Inv, StringsOk;
    if i < |g.strt[b]| {
      InvStrings(g);
      BucketMember(g, b, i);
      if Survives(g, g.strt[b][i]) {
        WhitenInv(g, g.strt[b][i]);
        SweepBucketInv(Whiten(g, g.strt[b][i]), b, i + 1);
      } else {
        FreeStringInv(g, b, i);
        SweepBucketInv(FreeString(g, b, i), b, i);
      }
    }
  }

  lemma BucketMember(g: G, b: nat, i: nat)
    requires StringsOk(g) && b < |g.strt| && i < |g.strt[b]|
    ensures g.strt[b][i] in g.body
  {
    var x := g.strt[b][i];
    assert x in g.strt[b];
  }

  lemma InvStrings(g: G)
    requires Inv(g)
    ensures StringsOk(g)
  {
  }

  /** The first `i' strings of bucket `b' carry the current white. */
  predicate BucketWhite(g: G, b: nat, i: nat) {
    b < |g.strt| && i <= |g.strt[b]| && forall j :: 0 <= j < i ==> IsCurrentWhite(g, g.strt[b][j])
  }

  /** After a bucket is swept, the strings left in it carry the current white. */
  lemma {:induction false} SweepBucketWhite(g: G, b: nat, i: nat)
    requires StringsOk(g) && g.body.Keys == g.colour.Keys && BucketWhite(g, b, i)
    ensures BucketWhite(SweepBucket(g, b, i), b, |SweepBucket(g, b, i).strt[b]|)
    decreases |g.strt[b]| - i
  {
    if i < |g.strt[b]| {
      if Survives(g, g.strt[b][i]) {
        WhitenBucket(g, b, i);
        SweepBucketWhite(Whiten(g, g.strt[b][i]), b, i + 1);
      } else {
        FreedStrings(g, b, i);
        FreeStringRest(g, b, i);
        SweepBucketWhite(FreeString(g, b, i), b, i);
      }
    }
  }

  lemma WhitenBucket(g: G, b: nat, i: nat)
    requires StringsOk(g) && g.body.Keys == g.colour.Keys && BucketWhite(g, b, i) && i < |g.strt[b]|
    ensures var r := Whiten(g, g.strt[b][i]);
      StringsOk(r) && r.body.Keys == r.colour.Keys && BucketWhite(r, b, i + 1)
  {
    assert g.strt[b][i] in g.strt[b];
  }

  lemma FreeStringRest(g: G, b: nat, i: nat)
    requires StringsOk(g) && g.body.Keys == g.colour.Keys && BucketWhite(g, b, i) && i < |g.strt[b]|
    ensures BucketWhite(FreeString(g, b, i), b, i)
  {
    var r := FreeString(g, b, i);
    assert forall j :: 0 <= j < i ==> r.strt[b][j] == g.strt[b][j];
    assert forall j :: 0 <= j < i ==> g.strt[b][j] != g.strt[b][i];
  }

  // ---- Open upvalues --------------------------------------------------------------------

  predicate HasUpval(g: G, t: Ref, i: nat) {
    i < |OpenList(g.body, t)| && UpvalsOk(g)
  }

  lemma DropReady(g: G, t: Ref, i: nat)
    requires HasUpval(g, t, i)
    ensures var u := g.body[t].openupval[i];
      u in g.body && g.body[u].OpenUpval? && g.body[u].thread == t && u != t
    ensures NoDup(g.body[t].openupval)
  {
    assert ThreadOk(g.body, t);
    var us := g.body[t].openupval;
    forall j, k | 0 <= j < k < |us| ensures us[j] != us[k] {
      assert g.body[us[j]].slot > g.body[us[k]].slot;
    }
  }

  lemma DroppedUpvals(g: G, t: Ref, i: nat)
    requires HasUpval(g, t, i)
    ensures UpvalsOk(DropUpval(g, t, i))
  {
    hide ThreadOk, DropUpval;
    DropShape(g, t, i);
    DroppedHeads(g, t, i);
    forall s | s in DropUpval(g, t, i).body && DropUpval(g, t, i).body[s].Thread? ensures ThreadOk(DropUpval(g, t, i).body, s) {
      DroppedThread(g, t, i, s);
    }
    forall w | w in DropUpval(g, t, i).body && DropUpval(g, t, i).body[w].OpenUpval?
      ensures DropUpval(g, t, i).body[w].thread in DropUpval(g, t, i).body
      ensures DropUpval(g, t, i).body[DropUpval(g, t, i).body[w].thread].Thread?
      ensures w in DropUpval(g, t, i).body[DropUpval(g, t, i).body[w].thread].openupval && w in DropUpval(g, t, i).uvhead
    {
      DroppedOther(g, t, i, w);
    }
  }

  lemma DroppedHeads(g: G, t: Ref, i: nat)
    requires HasUpval(g, t, i)
    ensures NoDup(DropUpval(g, t, i).uvhead)
    ensures forall u :: u in DropUpval(g, t, i).uvhead ==> u in DropUpval(g, t, i).body && DropUpval(g, t, i).body[u].OpenUpval?
  {
    DropReady(g, t, i);
    hide ThreadOk;
    RemoveNoDup(g.uvhead, g.body[t].openupval[i]);
  }

  lemma DroppedOther(g: G, t: Ref, i: nat, w: Ref)
    requires HasUpval(g, t, i)
    requires w in DropUpval(g, t, i).body && DropUpval(g, t, i).body[w].OpenUpval?
    ensures var r := DropUpval(g, t, i);
      && r.body[w].thread in r.body && r.body[r.body[w].thread].Thread?
      && w in r.body[r.body[w].thread].openupval && w in r.uvhead
  {
    DropReady(g, t, i);
    hide ThreadOk;
    WithoutNoDup(g.body[t].openupval, i);
    RemoveNoDup(g.uvhead, g.body[t].openupval[i]);
    assert w in g.body[g.body[w].thread].openupval;
  }

  lemma DroppedThread(g: G, t: Ref, i: nat, s: Ref)
    requires HasUpval(g, t, i) && s in DropUpval(g, t, i).body && g.body[s].Thread?
    ensures ThreadOk(DropUpval(g, t, i).body, s)
  {
    OldThread(g, t, i, s);
    DropShape(g, t, i);
    DroppedMembers(g, t, i, s);
    DroppedList(g, t, i);
    DropReady(g, t, i);
    hide UpvalsOk, HasUpval, ThreadOk, DropUpval, NoDup;
    DescendingOf(g.body, s);
    if s == t {
      OrderWithout(g.body, g.body[t].openupval, i);
    } else {
      assert DropUpval(g, t, i).body[s] == g.body[s];
    }
    hide *;
    ThreadAgain(g.body, DropUpval(g, t, i).body, s, DropUpval(g, t, i).body[s].openupval);
  }

  lemma OldThread(g: G, t: Ref, i: nat, s: Ref)
    requires HasUpval(g, t, i) && s in g.body && g.body[s].Thread?
    ensures ThreadOk(g.body, s)
  {
  }

  lemma DroppedList(g: G, t: Ref, i: nat)
    requires i < |OpenList(g.body, t)|
    ensures OpenList(DropUpval(g, t, i).body, t) == Without(g.body[t].openupval, i) || g.body[t].openupval[i] == t
    ensures forall s :: s in DropUpval(g, t, i).body && s != t ==> s in g.body && DropUpval(g, t, i).body[s] == g.body[s]
  {
  }

  lemma DroppedMembers(g: G, t: Ref, i: nat, s: Ref)
    requires HasUpval(g, t, i) && s in DropUpval(g, t, i).body && g.body[s].Thread?
    ensures var r := DropUpval(g, t, i);
      r.body[s].Thread? && r.body[s].stack == g.body[s].stack && Unchanged(g.body, r.body, s, r.body[s].openupval)
  {
    DropShape(g, t, i);
    DropReady(g, t, i);
    DroppedList(g, t, i);
    hide UpvalsOk, HasUpval, NoDup, ThreadOk, DropUpval;
    forall j | 0 <= j < |DropUpval(g, t, i).body[s].openupval|
      ensures var w := DropUpval(g, t, i).body[s].openupval[j];
        w in g.body[s].openupval && w in g.body && w in DropUpval(g, t, i).body && DropUpval(g, t, i).body[w] == g.body[w]
    {
      hide *;
      assert DropUpval(g, t, i).body[s].openupval[j] in DropUpval(g, t, i).body[s].openupval;
      DroppedMember(g, t, i, s, DropUpval(g, t, i).body[s].openupval[j]);
    }
  }

  lemma DroppedMember(g: G, t: Ref, i: nat, s: Ref, w: Ref)
    requires HasUpval(g, t, i) && s in g.body && g.body[s].Thread?
    requires s in DropUpval(g, t, i).body && DropUpval(g, t, i).body[s].Thread? && w in DropUpval(g, t, i).body[s].openupval
    ensures w in g.body[s].openupval && w in g.body && w in DropUpval(g, t, i).body && DropUpval(g, t, i).body[w] == g.body[w]
  {
    DropReady(g, t, i);
    DropShape(g, t, i);
    DroppedList(g, t, i);
    OldThread(g, t, i, s);
    if s == t {
      WithoutNoDup(g.body[t].openupval, i);
      hide *;
      MemberOwned(g.body, s, w);
    } else {
      hide *;
      MemberOwned(g.body, s, w);
    }
  }

  lemma DropShape(g: G, t: Ref, i: nat)
    requires HasUpval(g, t, i)
    ensures var u, r := g.body[t].openupval[i], DropUpval(g, t, i);
      && u in g.body && g.body[u].OpenUpval?
      && t in r.body && r.body[t].Thread? && r.body == (g.body - {u})[t := r.body[t]]
      && r == g.(body := r.body, colour := g.colour - {u}, uvhead := r.uvhead)
  {
    DropReady(g, t, i);
  }

  /** The same, object by object. */
  lemma DropPoints(g: G, t: Ref, i: nat)
    requires HasUpval(g, t, i)
    ensures var u, r := g.body[t].openupval[i], DropUpval(g, t, i);
      && u in g.body && g.body[u].OpenUpval? && t in g.body && g.body[t].Thread? && u != t
      && r.body.Keys == g.body.Keys - {u} && r.colour == g.colour - {u}
      && r.body[t] == g.body[t].(openupval := Without(g.body[t].openupval, i))
      && (forall x :: x in r.body && x != t ==> r.body[x] == g.body[x])
      && r.Roots() == g.Roots() && r.cw == g.cw && r.fixed == g.fixed
  {
    DropReady(g, t, i);
    hide UpvalsOk, NoDup;
  }

  lemma DropLists(g: G, t: Ref, i: nat)
    requires ListsOk(g) && HasUpval(g, t, i) && (g.mainthread in g.body ==> g.body[g.mainthread].Thread?)
    ensures ListsOk(DropUpval(g, t, i))
  {
    DroppedUpvals(g, t, i);
    DropShape(g, t, i);
    var u, r := g.body[t].openupval[i], DropUpval(g, t, i);
    DropStrings(g, t, u, r);
    DropRootList(g, t, u, r);
    DropFixed(g, t, u, r);
  }

  lemma DropFixed(g: G, t: Ref, u: Ref, r: G)
    requires FixedOk(g) && g.body.Keys == g.colour.Keys && t in g.body && g.body[t].Thread?
    requires u in g.body && g.body[u].OpenUpval? && (g.mainthread in g.body ==> g.body[g.mainthread].Thread?)
    requires t in r.body && r.body[t].Thread? && r.body == (g.body - {u})[t := r.body[t]]
    requires r.colour == g.colour - {u} && r.fixed == g.fixed && r.mainthread == g.mainthread
    ensures FixedOk(r) && r.body.Keys == r.colour.Keys
  {
    assert r.body.Keys == g.body.Keys - {u};
    assert u !in g.fixed;
  }

  lemma DropStrings(g: G, t: Ref, u: Ref, r: G)
    requires StringsOk(g) && t in g.body && g.body[t].Thread? && u in g.body && g.body[u].OpenUpval?
    requires t in r.body && r.body[t].Thread? && r.body == (g.body - {u})[t := r.body[t]] && r.strt == g.strt
    ensures StringsOk(r)
  {
    forall i, x | 0 <= i < |r.strt| && x in r.strt[i]
      ensures x in r.body && r.body[x].Str? && r.body[x].hash % |r.strt| == i
    {
      assert x in g.strt[i];
    }
  }

  lemma DropRootList(g: G, t: Ref, u: Ref, r: G)
    requires RootListOk(g) && t in g.body && g.body[t].Thread? && u in g.body && g.body[u].OpenUpval?
    requires t in r.body && r.body[t].Thread? && r.body == (g.body - {u})[t := r.body[t]] && r.rootgc == g.rootgc
    ensures RootListOk(r)
  {
  }

  lemma DropLive(g: G, t: Ref, i: nat)
    requires g.body.Keys == g.colour.Keys && LiveOk(g) && HasUpval(g, t, i) && g.IsDead(g.body[t].openupval[i])
    ensures LiveOk(DropUpval(g, t, i))
  {
    DropReady(g, t, i);
    var u, r := g.body[t].openupval[i], DropUpval(g, t, i);
    var q := WithOpenList(g, t, Without(g.body[t].openupval, i));
    assert forall x :: r.Alive(x) <==> g.Alive(x);
    forall x, y | g.Alive(x) && Holds(r.body, x, y) ensures Holds(g.body, x, y) {
      RelistRefers(g.body, t, Without(g.body[t].openupval, i), x, y);
      FreeRefers(q.body, u, x, y);
    }
    assert r.Roots() == g.Roots();
    SameLive(g, r);
  }

  lemma RelistRefers(h: Heap, t: Ref, us: seq<Ref>, x: Ref, y: Ref)
    requires t in h && h[t].Thread?
    ensures Refers(h[t := h[t].(openupval := us)], x, y) == Refers(h, x, y)
    ensures Holds(h[t := h[t].(openupval := us)], x, y) == Holds(h, x, y)
  {
    var h' := h[t := h[t].(openupval := us)];
    if x in h && h[x].OpenUpval? {
      assert StackValue(h', h[x].thread, h[x].slot) == StackValue(h, h[x].thread, h[x].slot);
    }
  }

  lemma DropColours(g: G, t: Ref, i: nat)
    requires ListsOk(g) && ColoursOk(g) && Sweeping(g) && HasUpval(g, t, i)
    ensures DropUpval(g, t, i).body.Keys == DropUpval(g, t, i).colour.Keys && ColoursOk(DropUpval(g, t, i))
  {
    DropReady(g, t, i);
    var r := DropUpval(g, t, i);
    forall y | y in r.body ensures KindOk(r, y) && (Swept(r, y) ==> r.colour[y] == White(r.cw)) {
      assert KindOk(g, y) && (Swept(r, y) ==> Swept(g, y));
    }
  }

  lemma DropUpvalInv(g: G, t: Ref, i: nat)
    requires Inv(g) && Sweeping(g) && i < |OpenList(g.body, t)| && g.IsDead(g.body[t].openupval[i])
    ensures Inv(DropUpval(g, t, i))
  {
    DropLists(g, t, i);
    DropLive(g, t, i);
    DropColours(g, t, i);
  }

  lemma {:induction false} SweepOpenInv(g: G, t: Ref, i: nat)
    requires Inv(g) && Sweeping(g)
    ensures Inv(SweepOpen(g, t, i))
    decreases |OpenList(g.body, t)| - i
  {
    hide Inv;
    if i < |OpenList(g.body, t)| {
      InvUpvals(g);
      DropReady(g, t, i);
      hide UpvalsOk;
      if Survives(g, g.body[t].openupval[i]) {
        WhitenInv(g, g.body[t].openupval[i]);
        SweepOpenInv(Whiten(g, g.body[t].openupval[i]), t, i + 1);
      } else {
        DropUpvalInv(g, t, i);
        DropShortens(g, t, i);
        hide DropUpval;
        SweepOpenInv(DropUpval(g, t, i), t, i);
      }
    }
  }

  lemma InvUpvals(g: G)
    requires Inv(g)
    ensures UpvalsOk(g)
  {
  }

  lemma DropShortens(g: G, t: Ref, i: nat)
    requires UpvalsOk(g) && i < |OpenList(g.body, t)|
    ensures |OpenList(DropUpval(g, t, i).body, t)| < |OpenList(g.body, t)|
    ensures DropUpval(g, t, i).phase == g.phase
  {
    DropReady(g, t, i);
  }

  /** The first `i' open upvalues of thread `t' carry the current white. */
  predicate UpvalsWhite(g: G, t: Ref, i: nat) {
    i <= |OpenList(g.body, t)| && forall j :: 0 <= j < i ==> IsCurrentWhite(g, OpenList(g.body, t)[j])
  }

  lemma {:induction false} SweepOpenWhite(g: G, t: Ref, i: nat)
    requires UpvalsOk(g) && g.body.Keys == g.colour.Keys && UpvalsWhite(g, t, i)
    ensures UpvalsWhite(SweepOpen(g, t, i), t, |OpenList(SweepOpen(g, t, i).body, t)|)
    decreases |OpenList(g.body, t)| - i
  {
    hide UpvalsOk, UpvalsWhite, DropUpval;
    if i < |OpenList(g.body, t)| {
      if Survives(g, g.body[t].openupval[i]) {
        WhitenUpval(g, t, i);
        hide Whiten;
        SweepOpenWhite(Whiten(g, g.body[t].openupval[i]), t, i + 1);
      } else {
        DroppedUpvals(g, t, i);
        DropRest(g, t, i);
        SweepOpenWhite(DropUpval(g, t, i), t, i);
      }
    } else {
      WhiteThrough(g, t, i);
    }
  }

  lemma WhiteThrough(g: G, t: Ref, i: nat)
    requires UpvalsWhite(g, t, i) && i >= |OpenList(g.body, t)|
    ensures i == |OpenList(g.body, t)|
  {
  }

  lemma WhitenUpval(g: G, t: Ref, i: nat)
    requires UpvalsOk(g) && g.body.Keys == g.colour.Keys && UpvalsWhite(g, t, i) && i < |OpenList(g.body, t)|
    ensures var r := Whiten(g, g.body[t].openupval[i]);
      UpvalsOk(r) && r.body.Keys == r.colour.Keys && UpvalsWhite(r, t, i + 1) && OpenList(r.body, t) == OpenList(g.body, t)
  {
    DropReady(g, t, i);
  }

  lemma DropRest(g: G, t: Ref, i: nat)
    requires UpvalsOk(g) && g.body.Keys == g.colour.Keys && UpvalsWhite(g, t, i) && i < |OpenList(g.body, t)|
    ensures var r := DropUpval(g, t, i);
      r.body.Keys == r.colour.Keys && UpvalsWhite(r, t, i) && |OpenList(r.body, t)| < |OpenList(g.body, t)|
  {
    DropReady(g, t, i);
    var us, r := g.body[t].openupval, DropUpval(g, t, i);
    assert OpenList(r.body, t) == Without(us, i);
    assert forall j :: 0 <= j < i ==> Without(us, i)[j] == us[j] && us[j] != us[i];
  }

  // ---- luaF_close -----------------------------------------------------------------------

  lemma OnlyDeadWhileSweeping(g: G, x: Ref)
    requires Inv(g) && x in g.body && g.IsDead(x)
    ensures Sweeping(g)
  {
  }

  lemma CloseOneInv(g: G, t: Ref)
    requires Inv(g) && OpenList(g.body, t) != []
    ensures Inv(CloseOne(g, t))
  {
    DropReady(g, t, 0);
    if g.IsDead(g.body[t].openupval[0]) {
      OnlyDeadWhileSweeping(g, g.body[t].openupval[0]);
      CloseDead(g, t);
      DropUpvalInv(g, t, 0);
    } else {
      CloseAliveInv(g, t);
    }
  }

  lemma CloseDead(g: G, t: Ref)
    requires OpenList(g.body, t) != [] && g.IsDead(g.body[t].openupval[0])
    ensures CloseOne(g, t) == DropUpval(g, t, 0)
  {
    var us := g.body[t].openupval;
    assert Without(us, 0) == us[1..];
  }

  /** Closing the upvalues of a thread, from any level, keeps the invariant. */
  lemma {:induction false} CloseInv(g: G, t: Ref, level: nat)
    requires Inv(g)
    ensures Inv(Close(g, t, level))
    decreases |OpenList(g.body, t)|
  {
    if MustClose(g.body, t, level) {
      CloseShortens(g, t);
      hide CloseOne, Inv;
      CloseOneInv(g, t);
      CloseInv(CloseOne(g, t), t, level);
    }
  }

  /** What closing leaves alone while sweeping: the thread itself apart from its list,
      its colour, and its place in `rootgc'. */
  ghost predicate Closing(g: G, r: G, t: Ref) {
    && r == g.(body := r.body, colour := r.colour, uvhead := r.uvhead, rootgc := r.rootgc, sweepgc := r.sweepgc)
    && t in r.body && t in g.body && g.body[t].Thread? && r.body[t] == g.body[t].(openupval := OpenList(r.body, t))
    && t in r.colour && t in g.colour && r.colour[t] == g.colour[t]
    && (t in g.rootgc ==> t in r.rootgc)
  }

  lemma CloseOneCloses(g: G, t: Ref)
    requires UpvalsOk(g) && g.body.Keys == g.colour.Keys && Sweeping(g) && OpenList(g.body, t) != []
    ensures Closing(g, CloseOne(g, t), t)
    ensures |OpenList(CloseOne(g, t).body, t)| == |OpenList(g.body, t)| - 1
  {
    if g.IsDead(g.body[t].openupval[0]) {
      CloseDead(g, t);
      hide CloseOne;
      DropCloses(g, t);
    } else {
      ClosingReady(g, t);
      CloseOneIs(g, t);
      hide UpvalsOk, CloseOne;
      LiveCloses(g, t, CloseOne(g, t));
    }
  }

  lemma DropCloses(g: G, t: Ref)
    requires HasUpval(g, t, 0) && g.body.Keys == g.colour.Keys
    ensures Closing(g, DropUpval(g, t, 0), t)
    ensures |OpenList(DropUpval(g, t, 0).body, t)| == |OpenList(g.body, t)| - 1
  {
    DropPoints(g, t, 0);
    DropShape(g, t, 0);
    hide HasUpval, UpvalsOk;
  }

  lemma LiveCloses(g: G, t: Ref, r: G)
    requires ClosingOk(g.body, t) && t in g.colour && g.body[t].openupval[0] in g.colour
    requires r == Relinked(g, t) || r == Whiten(Relinked(g, t), g.body[t].openupval[0])
    ensures Closing(g, r, t) && |OpenList(r.body, t)| == |OpenList(g.body, t)| - 1
  {
    hide ThreadOk;
  }

  lemma ClosingTrans(g: G, q: G, r: G, t: Ref)
    requires Closing(g, q, t) && Closing(q, r, t)
    ensures Closing(g, r, t)
  {
  }

  lemma ClosingRefl(g: G, t: Ref)
    requires t in g.body && g.body[t].Thread? && g.body.Keys == g.colour.Keys
    ensures Closing(g, g, t)
  {
  }

  lemma CloseNow(g: G, t: Ref)
    requires Inv(g) && Sweeping(g) && t in g.body && g.body[t].Thread? && OpenList(g.body, t) != []
    ensures Inv(CloseOne(g, t)) && Sweeping(CloseOne(g, t))
    ensures t in CloseOne(g, t).body && CloseOne(g, t).body[t].Thread?
    ensures Closing(g, CloseOne(g, t), t) && |OpenList(CloseOne(g, t).body, t)| < |OpenList(g.body, t)|
    ensures Close(g, t, 0) == Close(CloseOne(g, t), t, 0)
  {
    InvParts(g);
    DropReady(g, t, 0);
    CloseOneInv(g, t);
    CloseOneCloses(g, t);
    hide Inv, ListsOk, LiveOk, ColoursOk, CloseOne;
  }

  lemma {:induction false} CloseCloses(g: G, t: Ref)
    requires Inv(g) && Sweeping(g) && t in g.body && g.body[t].Thread?
    ensures Closing(g, Close(g, t, 0), t) && OpenList(Close(g, t, 0).body, t) == []
    decreases |OpenList(g.body, t)|
  {
    InvParts(g);
    if OpenList(g.body, t) == [] {
      hide Inv;
      ClosingRefl(g, t);
    } else {
      CloseNow(g, t);
      hide Inv, CloseOne, Closing;
      CloseCloses(CloseOne(g, t), t);
      ClosingTrans(g, CloseOne(g, t), Close(CloseOne(g, t), t, 0), t);
    }
  }

  // ---- sweeplist on rootgc --------------------------------------------------------------

  /** Freeing a dead object of the root list that owns no open upvalues. */
  lemma FreeRootInv(g: G, x: Ref)
    requires Inv(g) && Sweeping(g) && x in g.rootgc && !Survives(g, x) && OpenList(g.body, x) == []
    ensures Inv(Free(g, x).(rootgc := Remove(g.rootgc, x)))
  {
    var r := Free(g, x).(rootgc := Remove(g.rootgc, x));
    NoUpvalsOf(g, x);
    FreeRootLists(g, x);
    assert r.Roots() == g.Roots();
    FreeLive(g, r, x);
    RemovedPrefix(g, x);
    FreeColours(g, r, x);
  }

  lemma NoUpvalsOf(g: G, x: Ref)
    requires UpvalsOk(g) && OpenList(g.body, x) == []
    ensures forall y :: y in g.body && g.body[y].OpenUpval? ==> g.body[y].thread != x
  {
  }

  lemma RemovedPrefix(g: G, x: Ref)
    requires ListsOk(g) && ColoursOk(g) && Sweeping(g) && x in g.rootgc && g.IsDead(x)
    ensures var s := Remove(g.rootgc, x);
      g.sweepgc <= |s| && s[..g.sweepgc] == g.rootgc[..g.sweepgc]
  {
    var k :| 0 <= k < |g.rootgc| && g.rootgc[k] == x;
    RemoveAt(g.rootgc, k);
    assert !Swept(g, x);
    assert forall j :: 0 <= j < g.sweepgc ==> g.rootgc[j] in g.rootgc[..g.sweepgc];
  }

  lemma FreeRootLists(g: G, x: Ref)
    requires ListsOk(g) && ColoursOk(g) && Sweeping(g) && x in g.rootgc && !Survives(g, x)
    requires OpenList(g.body, x) == []
    ensures ListsOk(Free(g, x).(rootgc := Remove(g.rootgc, x)))
  {
    var r := Free(g, x).(rootgc := Remove(g.rootgc, x));
    RemovedPrefix(g, x);
    RemoveNoDup(g.rootgc, x);
    assert RootListOk(r);
    FreeRootStrings(g, r, x);
    FreeRootUpvals(g, r, x);
    assert FixedOk(r);
  }

  lemma FreeRootStrings(g: G, r: G, x: Ref)
    requires StringsOk(g) && x in g.body && !g.body[x].Str? && r.body == g.body - {x} && r.strt == g.strt
    ensures StringsOk(r)
  {
    forall i, y | 0 <= i < |r.strt| && y in r.strt[i]
      ensures y in r.body && r.body[y].Str? && r.body[y].hash % |r.strt| == i
    {
      assert y in g.strt[i];
    }
  }

  lemma FreeRootUpvals(g: G, r: G, x: Ref)
    requires UpvalsOk(g) && x in g.body && !g.body[x].OpenUpval? && OpenList(g.body, x) == []
    requires r.body == g.body - {x} && r.uvhead == g.uvhead
    ensures UpvalsOk(r)
  {
    NoUpvalsOf(g, x);
    forall t | t in r.body && r.body[t].Thread? ensures ThreadOk(r.body, t) {
      assert ThreadOk(g.body, t);
    }
  }

  lemma EraseInv(g: G, x: Ref)
    requires Inv(g) && Sweeping(g) && x in g.rootgc && !Survives(g, x)
    ensures Inv(Erase(g, x))
  {
    CloseInv(g, x, 0);
    if g.body[x].Thread? { CloseCloses(g, x); }
    FreeRootInv(Close(g, x, 0), x);
  }

  /** The sweep pointer may pass a white object whose open upvalues are white. */
  lemma AdvanceInv(g: G)
    requires Inv(g) && g.phase == Sweep && g.sweepgc < |g.rootgc|
    requires IsCurrentWhite(g, g.rootgc[g.sweepgc])
    requires UpvalsWhite(g, g.rootgc[g.sweepgc], |OpenList(g.body, g.rootgc[g.sweepgc])|)
    ensures Inv(g.(sweepgc := g.sweepgc + 1))
  {
    var r := g.(sweepgc := g.sweepgc + 1);
    AdvanceLists(g, r);
    assert r.Roots() == g.Roots();
    SameLive(g, r);
    AdvanceColours(g, r);
  }

  lemma AdvanceLists(g: G, r: G)
    requires ListsOk(g) && r == g.(sweepgc := r.sweepgc, sweepstrgc := r.sweepstrgc, phase := r.phase)
    requires r.sweepgc <= |g.rootgc| && r.sweepstrgc <= |g.strt|
    ensures ListsOk(r)
  {
    assert StringsOk(r);
    assert RootListOk(r);
    assert UpvalsOk(r);
    assert FixedOk(r);
  }

  lemma AdvanceColours(g: G, r: G)
    requires ListsOk(g) && ColoursOk(g) && g.phase == Sweep && g.sweepgc < |g.rootgc|
    requires IsCurrentWhite(g, g.rootgc[g.sweepgc])
    requires UpvalsWhite(g, g.rootgc[g.sweepgc], |OpenList(g.body, g.rootgc[g.sweepgc])|)
    requires r == g.(sweepgc := g.sweepgc + 1)
    ensures ColoursOk(r)
  {
    var x := g.rootgc[g.sweepgc];
    assert r.rootgc[..r.sweepgc] == g.rootgc[..g.sweepgc] + [x];
    forall y | y in r.body ensures KindOk(r, y) && (Swept(r, y) ==> r.colour[y] == White(r.cw)) {
      assert KindOk(g, y);
      if Swept(r, y) && !Swept(g, y) && y != x {
        assert g.body[y].OpenUpval? && g.body[y].thread == x;
        assert y in OpenList(g.body, x);
      }
    }
  }

  lemma RootListed(g: G, x: Ref)
    requires Inv(g) && x in g.rootgc
    ensures x in g.body && x in g.colour
  {
    hide LiveOk, ColoursOk, StringsOk, UpvalsOk;
  }

  /** The sweep is about to decide on `x', whose open upvalues are swept already. */
  ghost predicate SweepReady(g: G, x: Ref) {
    && Inv(g) && g.phase == Sweep
    && g.sweepgc < |g.rootgc| && x == g.rootgc[g.sweepgc]
    && UpvalsWhite(g, x, |OpenList(g.body, x)|)
  }

  lemma SweepOneInv(g: G)
    requires Inv(g) && g.phase == Sweep && g.sweepgc < |g.rootgc|
    ensures Inv(SweepOne(g)) && SweepOne(g).phase == Sweep
  {
    hide Inv, SweepOpen, Erase, Whiten, SweepReady;
    var x := g.rootgc[g.sweepgc];
    MakeReady(g, x);
    if Survives(SweepOpen(g, x, 0), x) { KeepOne(SweepOpen(g, x, 0), x); } else { DropOne(SweepOpen(g, x, 0), x); }
  }

  lemma MakeReady(g: G, x: Ref)
    requires Inv(g) && g.phase == Sweep && g.sweepgc < |g.rootgc| && x == g.rootgc[g.sweepgc]
    ensures SweepReady(SweepOpen(g, x, 0), x)
  {
    SweepOpenWhite(g, x, 0);
    hide Inv;
    SweepOpenInv(g, x, 0);
  }

  lemma KeepOne(g: G, x: Ref)
    requires SweepReady(g, x) && Survives(g, x)
    ensures Inv(Whiten(g, x).(sweepgc := g.sweepgc + 1)) && Whiten(g, x).phase == Sweep
  {
    hide Inv;
    RootListed(g, x);
    WhitenInv(g, x);
    var w := Whiten(g, x);
    assert UpvalsWhite(w, x, |OpenList(w.body, x)|);
    AdvanceInv(w);
  }

  lemma DropOne(g: G, x: Ref)
    requires SweepReady(g, x) && !Survives(g, x)
    ensures Inv(Erase(g, x)) && Erase(g, x).phase == Sweep
  {
    EraseInv(g, x);
    CloseFrame(g, x, 0);
  }

  lemma {:induction false} CloseFrame(g: G, t: Ref, level: nat)
    requires Sweeping(g)
    ensures var r := Close(g, t, level);
      r == g.(body := r.body, colour := r.colour, uvhead := r.uvhead, rootgc := r.rootgc, sweepgc := r.sweepgc)
    decreases |OpenList(g.body, t)|
  {
    if MustClose(g.body, t, level) {
      CloseFrame(CloseOne(g, t), t, level);
    }
  }

  lemma {:induction false} SweepListInv(g: G, count: nat)
    requires Inv(g) && g.phase == Sweep
    ensures Inv(SweepList(g, count)) && SweepList(g, count).phase == Sweep
    decreases count
  {
    hide SweepOne, Inv;
    if count != 0 && g.sweepgc < |g.rootgc| {
      SweepOneInv(g);
      SweepListInv(SweepOne(g), count - 1);
    }
  }
}
