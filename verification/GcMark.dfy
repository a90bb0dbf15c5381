/** Marking: the macros markvalue and markobject over reallymarkobject (lgc.c:41-45, 69-112). */
module GcMark {
  import opened GcHeap

  datatype Marks = Marks(colour: Colours, gray: seq<Ref>)

  predicate IsWhite(c: Colours, x: Ref) {
    x in c && c[x].White?
  }

  function Whites(c: Colours): set<Ref> {
    set x | x in c && c[x].White?
  }

  /** markobject: nothing happens to an object that is not white. */
  function Mark(h: Heap, m: Marks, x: Ref): (r: Marks)
    ensures r.colour.Keys == m.colour.Keys
    ensures Whites(r.colour) <= Whites(m.colour)
    decreases Whites(m.colour), 0, 0
  {
    if x !in h || !IsWhite(m.colour, x) then m
    else
      assert x in Whites(m.colour);
      assert x !in Whites(m.colour[x := Gray]) && x !in Whites(m.colour[x := Black]);
      match h[x]
      case Str(_) => m.(colour := m.colour[x := Gray])
      case Udata(_, _) => MarkAll(h, m.(colour := m.colour[x := Black]), Children(h, x))
      case OpenUpval(_, _) => MarkAll(h, m.(colour := m.colour[x := Gray]), Children(h, x))
      case ClosedUpval(_) =>
        var r := MarkAll(h, m.(colour := m.colour[x := Gray]), Children(h, x));
        r.(colour := r.colour[x := Black])
      case _ => Marks(m.colour[x := Gray], [x] + m.gray)
  }

  function MarkValue(h: Heap, m: Marks, v: Value): (r: Marks)
    ensures r.colour.Keys == m.colour.Keys
    ensures Whites(r.colour) <= Whites(m.colour)
    decreases Whites(m.colour), 0, 1
  {
    if v.Gc? then Mark(h, m, v.ref) else m
  }

  function MarkAll(h: Heap, m: Marks, vs: seq<Value>): (r: Marks)
    ensures r.colour.Keys == m.colour.Keys
    ensures Whites(r.colour) <= Whites(m.colour)
    decreases Whites(m.colour), |vs|
  {
    if vs == [] then m
    else MarkAll(h, MarkValue(h, m, vs[0]), vs[1..])
  }

  ghost predicate ChildrenMarked(h: Heap, c: Colours, x: Ref)
    requires x in h
  {
    forall y :: Gc(y) in Children(h, x) ==> !IsWhite(c, y)
  }

  /** What a newly marked object looks like: it is black with marked children, or gray and
      waiting in the gray list. Strings and open upvalues stay gray outside of any list. */
  ghost predicate Settled(h: Heap, m: Marks, x: Ref)
    requires x in h && x in m.colour
  {
    match h[x]
    case Str(_) => m.colour[x] == Gray
    case Udata(_, _) => m.colour[x] == Black && ChildrenMarked(h, m.colour, x)
    case OpenUpval(_, _) => m.colour[x] == Gray && ChildrenMarked(h, m.colour, x)
    case ClosedUpval(_) => m.colour[x] == Black && ChildrenMarked(h, m.colour, x)
    case _ => m.colour[x] == Gray && x in m.gray
  }

  /** The effect of marking: only white objects change, each into a settled one, and the
      gray list only grows at its head, by distinct objects that were white. */
  ghost predicate Extends(h: Heap, m: Marks, r: Marks) {
    && h.Keys == m.colour.Keys == r.colour.Keys
    && |m.gray| <= |r.gray| && r.gray[|r.gray| - |m.gray|..] == m.gray
    && (forall x :: x in h && r.colour[x] != m.colour[x] ==> IsWhite(m.colour, x) && Settled(h, r, x))
    && (forall i :: 0 <= i < |r.gray| - |m.gray| ==>
          IsWhite(m.colour, r.gray[i]) && h[r.gray[i]].Traversable() && r.colour[r.gray[i]] == Gray)
    && NoDup(r.gray[..|r.gray| - |m.gray|])
  }

  lemma ExtendsRefl(h: Heap, m: Marks)
    requires h.Keys == m.colour.Keys
    ensures Extends(h, m, m)
  {
  }

  lemma ExtendsWhite(h: Heap, m: Marks, r: Marks)
    requires Extends(h, m, r)
    ensures forall x :: x in h && r.colour[x].White? ==> r.colour[x] == m.colour[x]
  {
    assert forall x :: x in h && r.colour[x] != m.colour[x] ==> Settled(h, r, x);
  }

  lemma HeadOfTwo(r: seq<Ref>, n: seq<Ref>, a: nat, b: nat)
    requires b <= |r| && r[b..] == n && a <= |n|
    ensures r[..a + b] == r[..b] + n[..a] && r[a + b..] == n[a..]
  {
  }

  lemma ExtendsLists(h: Heap, m: Marks, r: Marks)
    requires Extends(h, m, r)
    ensures |m.gray| <= |r.gray| && r.gray[|r.gray| - |m.gray|..] == m.gray && h.Keys == r.colour.Keys == m.colour.Keys
  {
  }

  lemma NewGray(h: Heap, m: Marks, n: Marks, r: Marks, i: nat)
    requires Extends(h, m, n) && Extends(h, n, r) && i < |r.gray| - |m.gray|
    ensures IsWhite(m.colour, r.gray[i]) && r.gray[i] in h && r.gray[i] in r.colour
    ensures h[r.gray[i]].Traversable() && r.colour[r.gray[i]] == Gray
  {
    hide Settled, NoDup;
    var b := |r.gray| - |n.gray|;
    if i >= b { assert r.gray[i] == r.gray[b..][i - b] == n.gray[i - b]; }
  }

  lemma NewApart(h: Heap, m: Marks, n: Marks, r: Marks)
    requires Extends(h, m, n) && Extends(h, n, r)
    ensures var a, b := |n.gray| - |m.gray|, |r.gray| - |n.gray|;
      NoDup(r.gray[..b]) && NoDup(n.gray[..a]) && forall x :: x in r.gray[..b] ==> x !in n.gray[..a]
  {
    hide Settled, NoDup;
    var a, b := |n.gray| - |m.gray|, |r.gray| - |n.gray|;
    forall x | x in r.gray[..b] ensures x !in n.gray[..a] {
      var i :| 0 <= i < b && r.gray[i] == x;
      assert IsWhite(n.colour, x);
    }
  }

  /** What is put in front of the gray list, in two goes. */
  lemma ExtendsGray(h: Heap, m: Marks, n: Marks, r: Marks)
    requires Extends(h, m, n) && Extends(h, n, r)
    ensures |m.gray| <= |r.gray| && r.gray[|r.gray| - |m.gray|..] == m.gray
    ensures forall i :: 0 <= i < |r.gray| - |m.gray| ==>
      IsWhite(m.colour, r.gray[i]) && h[r.gray[i]].Traversable() && r.colour[r.gray[i]] == Gray
    ensures NoDup(r.gray[..|r.gray| - |m.gray|])
  {
    var a, b := |n.gray| - |m.gray|, |r.gray| - |n.gray|;
    ExtendsLists(h, m, n);
    ExtendsLists(h, n, r);
    NewApart(h, m, n, r);
    hide Extends, Settled, NoDup;
    HeadOfTwo(r.gray, n.gray, a, b);
    NoDupConcat(r.gray[..b], n.gray[..a]);
    forall i | 0 <= i < a + b
      ensures IsWhite(m.colour, r.gray[i]) && h[r.gray[i]].Traversable() && r.colour[r.gray[i]] == Gray
    {
      NewGray(h, m, n, r, i);
    }
  }

  lemma ExtendsTrans(h: Heap, m: Marks, n: Marks, r: Marks)
    requires Extends(h, m, n) && Extends(h, n, r)
    ensures Extends(h, m, r)
  {
    ExtendsGray(h, m, n, r);
    forall x | x in h && r.colour[x] != m.colour[x]
      ensures IsWhite(m.colour, x) && Settled(h, r, x)
    {
      if r.colour[x] == n.colour[x] { SettledStays(h, n, r, x); }
    }
    hide Settled, NoDup;
  }

  lemma SettledStays(h: Heap, n: Marks, r: Marks, x: Ref)
    requires Extends(h, n, r)
    requires x in h && r.colour[x] == n.colour[x] && Settled(h, n, x)
    ensures Settled(h, r, x)
  {
    assert forall y :: IsWhite(r.colour, y) ==> IsWhite(n.colour, y);
    if x in n.gray {
      assert x in r.gray[|r.gray| - |n.gray|..];
    }
  }

  lemma {:induction false} MarkExtends(h: Heap, m: Marks, x: Ref)
    requires h.Keys == m.colour.Keys
    ensures Extends(h, m, Mark(h, m, x)) && !IsWhite(Mark(h, m, x).colour, x)
    decreases Whites(m.colour), 0
  {
    hide Extends, Settled;
    if x in h && IsWhite(m.colour, x) {
      assert x in Whites(m.colour);
      assert x !in Whites(m.colour[x := Gray]) && x !in Whites(m.colour[x := Black]);
      match h[x]
      case Str(_) =>
        MarkedLeaf(h, m, x);
      case Udata(_, _) =>
        MarkAllExtends(h, m.(colour := m.colour[x := Black]), Children(h, x));
        MarkedThrough(h, m, m.(colour := m.colour[x := Black]), Mark(h, m, x), x);
      case OpenUpval(_, _) =>
        MarkAllExtends(h, m.(colour := m.colour[x := Gray]), Children(h, x));
        MarkedThrough(h, m, m.(colour := m.colour[x := Gray]), Mark(h, m, x), x);
      case ClosedUpval(_) =>
        MarkAllExtends(h, m.(colour := m.colour[x := Gray]), Children(h, x));
        MarkedClosed(h, m, m.(colour := m.colour[x := Gray]), MarkAll(h, m.(colour := m.colour[x := Gray]), Children(h, x)), Mark(h, m, x), x);
      case _ =>
        MarkedLeaf(h, m, x);
    } else {
      ExtendsRefl(h, m);
    }
  }

  /** Objects that are marked without looking at their children now. */
  lemma MarkedLeaf(h: Heap, m: Marks, x: Ref)
    requires x in h && h.Keys == m.colour.Keys && IsWhite(m.colour, x) && (h[x].Str? || h[x].Traversable())
    ensures var r := Mark(h, m, x); Extends(h, m, r) && r.colour[x] == Gray
  {
    var r := Mark(h, m, x);
    if h[x].Str? { assert r.gray == m.gray; } else { assert r.gray[1..] == m.gray; }
  }

  lemma MarkedThrough(h: Heap, m: Marks, n: Marks, r: Marks, x: Ref)
    requires x in h && h.Keys == m.colour.Keys && IsWhite(m.colour, x)
    requires if h[x].Udata? then n == m.(colour := m.colour[x := Black]) else h[x].OpenUpval? && n == m.(colour := m.colour[x := Gray])
    requires Extends(h, n, r) && ChildrenMarked(h, r.colour, x)
    ensures Extends(h, m, r) && !IsWhite(r.colour, x)
  {
    MarkedOne(h, m, n, r, x);
  }

  /** Marking `x' itself and then its children is one extension. */
  lemma MarkedOne(h: Heap, m: Marks, n: Marks, r: Marks, x: Ref)
    requires x in h && h.Keys == m.colour.Keys && IsWhite(m.colour, x)
    requires n.gray == m.gray && (n.colour == m.colour[x := Gray] || n.colour == m.colour[x := Black])
    requires Extends(h, n, r) && r.colour[x] == n.colour[x] && Settled(h, r, x)
    ensures Extends(h, m, r)
  {
    forall y | y in h && r.colour[y] != m.colour[y] ensures IsWhite(m.colour, y) && Settled(h, r, y) {
      if y != x { assert n.colour[y] == m.colour[y]; }
    }
  }

  /** A closed upvalue is gray while its value is marked and black afterwards. */
  lemma MarkedClosed(h: Heap, m: Marks, n: Marks, q: Marks, r: Marks, x: Ref)
    requires x in h && h[x].ClosedUpval? && h.Keys == m.colour.Keys && IsWhite(m.colour, x)
    requires n == m.(colour := m.colour[x := Gray]) && Extends(h, n, q)
    requires ChildrenMarked(h, q.colour, x)
    requires r == q.(colour := q.colour[x := Black])
    ensures Extends(h, m, r)
  {
    forall y | y in h && r.colour[y] != m.colour[y] ensures IsWhite(m.colour, y) && Settled(h, r, y) {
      if y != x {
        assert n.colour[y] == m.colour[y];
        assert Settled(h, q, y);
      }
    }
    assert q.colour[x] == Gray;
    forall i | 0 <= i < |r.gray| - |m.gray|
      ensures IsWhite(m.colour, r.gray[i]) && h[r.gray[i]].Traversable() && r.colour[r.gray[i]] == Gray
    {
      assert q.gray[i] != x;
    }
  }

  lemma {:induction false} MarkAllExtends(h: Heap, m: Marks, vs: seq<Value>)
    requires h.Keys == m.colour.Keys
    ensures Extends(h, m, MarkAll(h, m, vs))
    ensures forall y :: Gc(y) in vs ==> !IsWhite(MarkAll(h, m, vs).colour, y)
    decreases Whites(m.colour), |vs|
  {
    if vs == [] {
      ExtendsRefl(h, m);
    } else {
      var n := MarkValue(h, m, vs[0]);
      if vs[0].Gc? { MarkExtends(h, m, vs[0].ref); } else { ExtendsRefl(h, m); }
      MarkAllExtends(h, n, vs[1..]);
      var r := MarkAll(h, n, vs[1..]);
      ExtendsTrans(h, m, n, r);
      forall y | Gc(y) in vs ensures !IsWhite(r.colour, y) {
        if Gc(y) in vs[1..] {} else { assert vs[0] == Gc(y); }
      }
    }
  }

  /** Marking only reaches objects inside any set closed under references. */
  lemma {:induction false} MarkStaysIn(h: Heap, m: Marks, x: Ref, s: set<Ref>)
    requires h.Keys == m.colour.Keys && x in s
    requires forall x, y :: x in s && Refers(h, x, y) ==> y in s
    ensures forall y :: y in h && Mark(h, m, x).colour[y] != m.colour[y] ==> y in s
    decreases Whites(m.colour), 0
  {
    if x in h && IsWhite(m.colour, x) {
      assert x in Whites(m.colour);
      assert x !in Whites(m.colour[x := Gray]) && x !in Whites(m.colour[x := Black]);
      forall y | Gc(y) in Children(h, x) ensures y in s { assert Refers(h, x, y); }
      if h[x].Udata? {
        MarkAllStaysIn(h, m.(colour := m.colour[x := Black]), Children(h, x), s);
      } else if h[x].OpenUpval? || h[x].ClosedUpval? {
        MarkAllStaysIn(h, m.(colour := m.colour[x := Gray]), Children(h, x), s);
      }
    }
  }

  lemma {:induction false} MarkAllStaysIn(h: Heap, m: Marks, vs: seq<Value>, s: set<Ref>)
    requires h.Keys == m.colour.Keys
    requires forall y :: Gc(y) in vs ==> y in s
    requires forall x, y :: x in s && Refers(h, x, y) ==> y in s
    ensures forall y :: y in h && MarkAll(h, m, vs).colour[y] != m.colour[y] ==> y in s
    decreases Whites(m.colour), |vs|
  {
    if vs != [] {
      if vs[0].Gc? { MarkStaysIn(h, m, vs[0].ref, s); }
      MarkAllStaysIn(h, MarkValue(h, m, vs[0]), vs[1..], s);
    }
  }

  /** Marking looks inside userdata and upvalues only, so it does not see table contents. */
  lemma {:induction false} MarkIgnoresTables(h: Heap, h': Heap, m: Marks, x: Ref)
    requires h.Keys == h'.Keys
    requires forall y :: y in h && !(h[y].Table? && h'[y].Table?) ==> h'[y] == h[y]
    ensures Mark(h, m, x) == Mark(h', m, x)
    decreases Whites(m.colour), 0
  {
    if x in h && IsWhite(m.colour, x) {
      assert x in Whites(m.colour);
      assert x !in Whites(m.colour[x := Gray]) && x !in Whites(m.colour[x := Black]);
      if h[x].Udata? {
        MarkAllIgnoresTables(h, h', m.(colour := m.colour[x := Black]), Children(h, x));
      } else if h[x].OpenUpval? || h[x].ClosedUpval? {
        assert Children(h, x) == Children(h', x);
        MarkAllIgnoresTables(h, h', m.(colour := m.colour[x := Gray]), Children(h, x));
      }
    }
  }

  lemma {:induction false} MarkAllIgnoresTables(h: Heap, h': Heap, m: Marks, vs: seq<Value>)
    requires h.Keys == h'.Keys
    requires forall y :: y in h && !(h[y].Table? && h'[y].Table?) ==> h'[y] == h[y]
    ensures MarkAll(h, m, vs) == MarkAll(h', m, vs)
    decreases Whites(m.colour), |vs|
  {
    if vs != [] {
      if vs[0].Gc? { MarkIgnoresTables(h, h', m, vs[0].ref); }
      MarkAllIgnoresTables(h, h', MarkValue(h, m, vs[0]), vs[1..]);
    }
  }
}
