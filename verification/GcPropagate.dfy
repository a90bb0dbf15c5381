/** The mark phase: markroot, propagatemark, remarkupvals and atomic (lgc.c:159-320, 501-560). */
module GcPropagate {
  import opened GcHeap
  import opened GcMark
  import opened GcState

  /** removeentry, for an empty entry. */
  function RemoveEntry(n: Node): Node {
    if n.val == Nil && n.key.Live? && n.key.v.Gc? then Node(Dead(n.key.v.ref), Nil) else n
  }

  function RemoveEntries(ns: seq<Node>): (r: seq<Node>)
    ensures |r| == |ns|
    ensures forall i :: 0 <= i < |ns| ==> r[i] == RemoveEntry(ns[i])
  {
    seq(|ns|, i requires 0 <= i < |ns| => RemoveEntry(ns[i]))
  }

  function Cleaned(b: Body): Body {
    if b.Table? then b.(nodes := RemoveEntries(b.nodes)) else b
  }

  /** propagatemark: traverse the first gray object. A thread stays gray and moves to the
      list of objects traversed again in `atomic'; everything else turns black. */
  function PropagateMark(g: G): (r: G)
    requires |g.gray| > 0
    ensures r.body.Keys == g.body.Keys && Whites(r.colour) <= Whites(g.colour)
  {
    var o := g.gray[0];
    if o !in g.body || !g.body[o].Traversable() || IsWhite(g.colour, o) then g.(gray := g.gray[1..])
    else if g.body[o].Thread? then
      var m := MarkAll(g.body, Marks(g.colour, g.gray[1..]), Children(g.body, o));
      g.WithMarks(m).(grayagain := [o] + g.grayagain)
    else
      var m := MarkAll(g.body, Marks(g.colour[o := Black], g.gray[1..]), Children(g.body, o));
      g.WithMarks(m).(body := g.body[o := Cleaned(g.body[o])])
  }

  // ---- What one traversal keeps ---------------------------------------------------------

  lemma CleanedChildren(h: Heap, o: Ref, x: Ref)
    requires o in h && x in h
    ensures Children(h[o := Cleaned(h[o])], x) == Children(h, x)
  {
    var h' := h[o := Cleaned(h[o])];
    if x == o && h[o].Table? { CleanedNodes(h[o].nodes); }
  }

  lemma {:induction false} CleanedNodes(ns: seq<Node>)
    ensures NodeValues(RemoveEntries(ns)) == NodeValues(ns)
  {
    if ns != [] {
      var k := |ns| - 1;
      var r := RemoveEntries(ns);
      assert r[..k] == RemoveEntries(ns[..k]);
      CleanedNodes(ns[..k]);
      assert EntryValues(r[k]) == EntryValues(ns[k]);
    }
  }

  lemma CleanedRefers(h: Heap, o: Ref, x: Ref, y: Ref)
    requires o in h
    ensures Refers(h[o := Cleaned(h[o])], x, y) == Refers(h, x, y)
  {
    if x in h { CleanedChildren(h, o, x); }
  }

  lemma LiveKeyMarked(ns: seq<Node>, n: Node, y: Ref)
    requires n in RemoveEntries(ns) && n.key == Live(Gc(y))
    ensures Gc(y) in NodeValues(ns)
  {
    var r := RemoveEntries(ns);
    var i :| 0 <= i < |r| && r[i] == n;
    assert n == RemoveEntry(ns[i]);
    assert ns[i] in ns && Gc(y) in EntryValues(ns[i]);
    NodeValuesMember(ns, Gc(y));
  }

  /** After its empty entries are removed a table holds exactly what a traversal marks. */
  lemma CleanedHolds(h: Heap, o: Ref, y: Ref)
    requires o in h && Holds(h[o := Cleaned(h[o])], o, y)
    ensures Refers(h, o, y)
  {
    var h' := h[o := Cleaned(h[o])];
    CleanedRefers(h, o, o, y);
    if !Refers(h', o, y) {
      var n :| n in h'[o].nodes && n.key == Live(Gc(y));
      EmptyKeyGone(h, o, n, y);
    }
  }

  lemma EmptyKeyGone(h: Heap, o: Ref, n: Node, y: Ref)
    requires o in h && h[o].Table? && n in RemoveEntries(h[o].nodes) && n.key == Live(Gc(y))
    ensures Refers(h, o, y)
  {
    LiveKeyMarked(h[o].nodes, n, y);
    var vs := OptRef(h[o].tmeta) + Reverse(h[o].arr);
    assert Children(h, o) == vs + NodeValues(h[o].nodes);
  }

  lemma OthersHold(h: Heap, o: Ref, x: Ref, y: Ref)
    requires o in h && x != o && Holds(h[o := Cleaned(h[o])], x, y)
    ensures Holds(h, x, y)
  {
    CleanedRefers(h, o, x, y);
  }

  /** Marking alone keeps the tri-colour invariant. */
  lemma ExtendTriColour(g: G, m: Marks, uv: bool, th: bool)
    requires TriColour(g, uv, th) && Extends(g.body, g.MarkState(), m)
    ensures TriColour(g.WithMarks(m), uv, th)
  {
    var r := g.WithMarks(m);
    var s := g.MarkState();
    assert forall y :: IsWhite(r.colour, y) ==> IsWhite(g.colour, y);
    forall x | x in r.body
      ensures KindOk(r, x)
      ensures r.colour[x] == Black ==> BlackOk(r, x)
      ensures r.colour[x] == Gray ==> GrayOk(r, x, uv, th)
    {
      assert KindOk(g, x);
      if r.colour[x] != s.colour[x] { assert Settled(g.body, m, x); }
      if g.colour[x] == Gray {
        assert GrayOk(g, x, uv, th);
        if x in g.gray { assert x in m.gray[|m.gray| - |s.gray|..]; }
      }
    }
    ExtendLists(g, m);
  }

  lemma ExtendLists(g: G, m: Marks)
    requires g.body.Keys == g.colour.Keys
    requires GrayListOk(g, g.gray) && GrayListOk(g, g.grayagain) && NoDup(g.gray + g.grayagain)
    requires Extends(g.body, g.MarkState(), m)
    ensures GrayListOk(g.WithMarks(m), m.gray) && GrayListOk(g.WithMarks(m), g.grayagain)
    ensures NoDup(m.gray + g.grayagain)
  {
    var k := |m.gray| - |g.gray|;
    assert m.gray == m.gray[..k] + g.gray;
    forall x | x in m.gray ensures x in g.body && g.body[x].Traversable() && m.colour[x] == Gray {
      var i :| 0 <= i < |m.gray| && m.gray[i] == x;
      if i >= k { assert x == g.gray[i - k]; }
    }
    assert m.gray + g.grayagain == m.gray[..k] + (g.gray + g.grayagain);
    forall x | x in m.gray[..k] ensures x !in g.gray + g.grayagain {
      assert IsWhite(g.colour, x);
    }
    NoDupConcat(m.gray[..k], g.gray + g.grayagain);
  }

  lemma PropagateTriColour(g: G, uv: bool, th: bool)
    requires TriColour(g, uv, th) && |g.gray| > 0
    ensures TriColour(PropagateMark(g), uv, th)
  {
    var o := g.gray[0];
    assert o in g.gray;
    assert g.gray == [o] + g.gray[1..];
    assert g.gray + g.grayagain == [o] + (g.gray[1..] + g.grayagain);
    if g.body[o].Thread? { ThreadTriColour(g, uv, th); } else { OtherTriColour(g, uv, th); }
  }

  /** The state seen by the marking of the children of the traversed object. */
  function Taken(g: G, o: Ref): G
    requires |g.gray| > 0 && o in g.body
  {
    if g.body[o].Thread? then g.(gray := g.gray[1..], grayagain := [o] + g.grayagain)
    else g.(gray := g.gray[1..], colour := g.colour[o := Black])
  }

  lemma TakenLists(g: G, o: Ref)
    requires |g.gray| > 0 && o == g.gray[0] && o in g.body && g.body.Keys == g.colour.Keys
    requires GrayListOk(g, g.gray) && GrayListOk(g, g.grayagain) && NoDup(g.gray + g.grayagain)
    ensures var t := Taken(g, o); GrayListOk(t, t.gray) && GrayListOk(t, t.grayagain) && NoDup(t.gray + t.grayagain)
  {
    var t := Taken(g, o);
    var a, b := g.gray + g.grayagain, t.gray + t.grayagain;
    assert a[0] == o;
    assert forall i :: 1 <= i < |a| ==> a[i] != o;
    if g.body[o].Thread? {
      var k := |t.gray|;
      assert forall i :: 0 <= i < k ==> b[i] == a[i + 1];
      assert forall i :: k < i < |b| ==> b[i] == a[i];
    } else {
      assert forall i :: 0 <= i < |b| ==> b[i] == a[i + 1];
      assert forall x :: x in t.gray + t.grayagain ==> x != o;
      assert forall x :: x in t.gray || x in t.grayagain ==> x in t.gray + t.grayagain;
    }
  }

  lemma ThreadTriColour(g: G, uv: bool, th: bool)
    requires TriColour(g, uv, th) && |g.gray| > 0 && g.gray[0] in g.body && g.body[g.gray[0]].Thread?
    ensures TriColour(PropagateMark(g), uv, th)
  {
    assert g.colour[g.gray[0]] == Gray by { assert g.gray[0] in g.gray; }
    hide PropagateMark, GrayOk, KindOk, BlackOk;
    var m := MarkAll(g.body, Taken(g, g.gray[0]).MarkState(), Children(g.body, g.gray[0]));
    WalkedNow(g, m);
    WalkedLists(g, PropagateMark(g), m);
    forall x | x in g.body
      ensures KindOk(PropagateMark(g), x)
      ensures PropagateMark(g).colour[x] == Black ==> BlackOk(PropagateMark(g), x)
      ensures PropagateMark(g).colour[x] == Gray ==> GrayOk(PropagateMark(g), x, uv, th)
    {
      WalkedKind(g, PropagateMark(g), m, x);
      WalkedBlack(g, PropagateMark(g), m, x);
      WalkedGray(g, PropagateMark(g), m, x, uv, th);
    }
  }

  /** What the traversal of a thread does: it stays gray, on the other list. */
  ghost predicate Walked(g: G, r: G, m: Marks) {
    && |g.gray| > 0 && g.gray[0] in g.body && g.body[g.gray[0]].Thread?
    && g.body.Keys == g.colour.Keys && g.colour[g.gray[0]] == Gray
    && r == g.(colour := m.colour, gray := m.gray, grayagain := [g.gray[0]] + g.grayagain)
    && Extends(g.body, Taken(g, g.gray[0]).MarkState(), m)
    && ChildrenMarked(g.body, m.colour, g.gray[0])
    && (forall y :: IsWhite(m.colour, y) ==> IsWhite(g.colour, y))
  }

  lemma WalkedNow(g: G, m: Marks)
    requires |g.gray| > 0 && g.gray[0] in g.body && g.body[g.gray[0]].Thread?
    requires g.colour.Keys == g.body.Keys && g.colour[g.gray[0]] == Gray
    requires m == MarkAll(g.body, Taken(g, g.gray[0]).MarkState(), Children(g.body, g.gray[0]))
    ensures Walked(g, PropagateMark(g), m)
  {
    var o := g.gray[0];
    var t := Taken(g, o);
    MarkAllExtends(g.body, t.MarkState(), Children(g.body, o));
    assert forall y :: IsWhite(m.colour, y) ==> y in Whites(m.colour) && y in Whites(t.colour);
  }

  lemma WalkedLists(g: G, r: G, m: Marks)
    requires Walked(g, r, m) && GrayListOk(g, g.gray) && GrayListOk(g, g.grayagain) && NoDup(g.gray + g.grayagain)
    ensures r.body.Keys == r.colour.Keys == g.body.Keys
    ensures GrayListOk(r, r.gray) && GrayListOk(r, r.grayagain) && NoDup(r.gray + r.grayagain)
  {
    TakenLists(g, g.gray[0]);
    ExtendLists(Taken(g, g.gray[0]), m);
    hide NoDup;
  }

  lemma WalkedKind(g: G, r: G, m: Marks, x: Ref)
    requires Walked(g, r, m) && x in g.body && KindOk(g, x)
    ensures r.body.Keys == r.colour.Keys == g.body.Keys && KindOk(r, x)
  {
    if m.colour[x] != g.colour[x] { assert Settled(g.body, m, x); }
  }

  lemma WalkedBlack(g: G, r: G, m: Marks, x: Ref)
    requires Walked(g, r, m) && x in g.body && (g.colour[x] == Black ==> BlackOk(g, x))
    ensures r.body.Keys == r.colour.Keys == g.body.Keys && (r.colour[x] == Black ==> BlackOk(r, x))
  {
    if r.colour[x] == Black && g.colour[x] != Black {
      forall y | Holds(r.body, x, y) ensures !IsWhite(r.colour, y) {
        SettledBlack(g.body, Taken(g, g.gray[0]).MarkState(), m, x, y);
      }
    }
  }

  lemma WalkedGray(g: G, r: G, m: Marks, x: Ref, uv: bool, th: bool)
    requires Walked(g, r, m) && x in g.body && (g.colour[x] == Gray ==> GrayOk(g, x, uv, th))
    ensures r.body.Keys == r.colour.Keys == g.body.Keys && (r.colour[x] == Gray ==> GrayOk(r, x, uv, th))
  {
    var t := Taken(g, g.gray[0]);
    if m.colour[x] != g.colour[x] {
      assert Settled(g.body, m, x);
    } else if r.colour[x] == Gray {
      assert g.gray == [g.gray[0]] + t.gray;
      if x in t.gray { assert x in m.gray[|m.gray| - |t.gray|..]; }
    }
  }

  /** What a traversal of anything but a thread does, in terms of the marks it leaves. */
  ghost predicate Traversed(g: G, r: G, m: Marks) {
    && |g.gray| > 0 && g.gray[0] in g.body && !g.body[g.gray[0]].Thread? && g.body[g.gray[0]].Traversable()
    && g.body.Keys == g.colour.Keys && g.colour[g.gray[0]] == Gray
    && r == g.(body := g.body[g.gray[0] := Cleaned(g.body[g.gray[0]])], colour := m.colour, gray := m.gray)
    && Extends(g.body, Taken(g, g.gray[0]).MarkState(), m)
    && ChildrenMarked(g.body, m.colour, g.gray[0])
    && (forall y :: IsWhite(m.colour, y) ==> IsWhite(g.colour, y))
  }

  lemma TraversedNow(g: G, m: Marks)
    requires |g.gray| > 0 && g.gray[0] in g.body && !g.body[g.gray[0]].Thread? && g.body[g.gray[0]].Traversable()
    requires g.colour.Keys == g.body.Keys && g.colour[g.gray[0]] == Gray
    requires m == MarkAll(g.body, Taken(g, g.gray[0]).MarkState(), Children(g.body, g.gray[0]))
    ensures Traversed(g, PropagateMark(g), m)
  {
    var o := g.gray[0];
    var t := Taken(g, o);
    MarkAllExtends(g.body, t.MarkState(), Children(g.body, o));
    assert forall y :: IsWhite(m.colour, y) ==> y in Whites(m.colour) && y in Whites(t.colour);
  }

  lemma OtherTriColour(g: G, uv: bool, th: bool)
    requires TriColour(g, uv, th) && |g.gray| > 0 && g.gray[0] in g.body && !g.body[g.gray[0]].Thread?
    ensures TriColour(PropagateMark(g), uv, th)
  {
    assert g.body[g.gray[0]].Traversable() && g.colour[g.gray[0]] == Gray by { assert g.gray[0] in g.gray; }
    hide PropagateMark, GrayOk, KindOk, BlackOk;
    var m := MarkAll(g.body, Taken(g, g.gray[0]).MarkState(), Children(g.body, g.gray[0]));
    TraversedNow(g, m);
    TraversedLists(g, PropagateMark(g), m);
    forall x | x in g.body
      ensures KindOk(PropagateMark(g), x)
      ensures PropagateMark(g).colour[x] == Black ==> BlackOk(PropagateMark(g), x)
      ensures PropagateMark(g).colour[x] == Gray ==> GrayOk(PropagateMark(g), x, uv, th)
    {
      OtherKind(g, PropagateMark(g), m, x);
      OtherBlack(g, PropagateMark(g), m, x);
      OtherGray(g, PropagateMark(g), m, x, uv, th);
    }
  }

  lemma TraversedLists(g: G, r: G, m: Marks)
    requires Traversed(g, r, m) && GrayListOk(g, g.gray) && GrayListOk(g, g.grayagain) && NoDup(g.gray + g.grayagain)
    ensures r.body.Keys == r.colour.Keys == g.body.Keys
    ensures GrayListOk(r, r.gray) && GrayListOk(r, r.grayagain) && NoDup(r.gray + r.grayagain)
  {
    TakenLists(g, g.gray[0]);
    ExtendLists(Taken(g, g.gray[0]), m);
    hide NoDup;
  }

  lemma OtherKind(g: G, r: G, m: Marks, x: Ref)
    requires Traversed(g, r, m) && x in g.body && KindOk(g, x)
    ensures r.body.Keys == r.colour.Keys == g.body.Keys && KindOk(r, x)
  {
    var t := Taken(g, g.gray[0]);
    if m.colour[x] != t.colour[x] { assert Settled(g.body, m, x); }
  }

  lemma OtherBlack(g: G, r: G, m: Marks, x: Ref)
    requires Traversed(g, r, m) && x in g.body && (g.colour[x] == Black ==> BlackOk(g, x))
    ensures r.body.Keys == r.colour.Keys == g.body.Keys && (r.colour[x] == Black ==> BlackOk(r, x))
  {
    var o := g.gray[0];
    var t := Taken(g, o);
    if r.colour[x] == Black {
      forall y | Holds(r.body, x, y) ensures !IsWhite(r.colour, y) {
        if x == o {
          CleanedHolds(g.body, o, y);
        } else {
          OthersHold(g.body, o, x, y);
          if t.colour[x] != Black { SettledBlack(g.body, t.MarkState(), m, x, y); }
        }
      }
    }
  }

  lemma SettledBlack(h: Heap, s: Marks, m: Marks, x: Ref, y: Ref)
    requires Extends(h, s, m) && x in h && m.colour[x] == Black && s.colour[x] != Black && Holds(h, x, y)
    ensures !IsWhite(m.colour, y)
  {
    assert Settled(h, m, x);
  }

  lemma OtherGray(g: G, r: G, m: Marks, x: Ref, uv: bool, th: bool)
    requires Traversed(g, r, m) && x in g.body && (g.colour[x] == Gray ==> GrayOk(g, x, uv, th))
    ensures r.body.Keys == r.colour.Keys == g.body.Keys && (r.colour[x] == Gray ==> GrayOk(r, x, uv, th))
  {
    var o := g.gray[0];
    var t := Taken(g, o);
    CleanedChildren(g.body, o, x);
    if m.colour[x] != t.colour[x] {
      assert Settled(g.body, m, x);
    } else if r.colour[x] == Gray {
      assert x != o && g.gray == [o] + t.gray;
      if x in t.gray { assert x in m.gray[|m.gray| - |t.gray|..]; }
    }
  }

  // ---- propagateall ---------------------------------------------------------------------

  /** Either some white object was marked, or the gray list got shorter. */
  lemma PropagateProgress(g: G)
    requires |g.gray| > 0 && g.body.Keys == g.colour.Keys
    ensures Whites(PropagateMark(g).colour) < Whites(g.colour)
         || (Whites(PropagateMark(g).colour) == Whites(g.colour) && |PropagateMark(g).gray| < |g.gray|)
  {
    var o := g.gray[0];
    if o in g.body && g.body[o].Traversable() && !IsWhite(g.colour, o) {
      var s := if g.body[o].Thread? then Marks(g.colour, g.gray[1..]) else Marks(g.colour[o := Black], g.gray[1..]);
      assert Whites(s.colour) == Whites(g.colour);
      ProgressMarks(g.body, s, Children(g.body, o));
      hide MarkAll, Children, Whites, Mark;
    }
  }

  /** What is put in the gray list was white. */
  lemma ExtendsBy(h: Heap, s: Marks, m: Marks)
    requires Extends(h, s, m) && |m.gray| > |s.gray|
    ensures exists x :: x in Whites(s.colour) && x !in Whites(m.colour)
  {
    assert IsWhite(s.colour, m.gray[0]) && m.colour[m.gray[0]] == Gray;
    assert m.gray[0] in Whites(s.colour) && m.gray[0] !in Whites(m.colour);
  }

  lemma ProgressMarks(h: Heap, s: Marks, vs: seq<Value>)
    requires h.Keys == s.colour.Keys
    ensures var m := MarkAll(h, s, vs);
      Whites(m.colour) < Whites(s.colour) || (Whites(m.colour) == Whites(s.colour) && |m.gray| <= |s.gray|)
  {
    MarkAllExtends(h, s, vs);
    hide MarkAll, Mark;
    if |MarkAll(h, s, vs).gray| > |s.gray| { ExtendsBy(h, s, MarkAll(h, s, vs)); }
  }

  function PropagateAll(g: G): (r: G)
    requires g.body.Keys == g.colour.Keys
    ensures r.body.Keys == g.body.Keys == r.colour.Keys && r.gray == []
    decreases Whites(g.colour), |g.gray|
  {
    if g.gray == [] then g
    else
      PropagateProgress(g);
      PropagateAll(PropagateMark(g))
  }

  lemma {:induction false} PropagateAllTriColour(g: G, uv: bool, th: bool)
    requires TriColour(g, uv, th)
    ensures TriColour(PropagateAll(g), uv, th)
    decreases Whites(g.colour), |g.gray|
  {
    if g.gray != [] {
      PropagateProgress(g);
      PropagateTriColour(g, uv, th);
      PropagateAllTriColour(PropagateMark(g), uv, th);
    }
  }
}
