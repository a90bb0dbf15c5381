/** What the running program does to the heap between collector steps: stores through the
    write barriers, unbarriered stack writes, allocation, and the reuse of dead strings and
    open upvalues (lapi.c, lvm.c, ltable.c:426, lstring.c, lfunc.c, lgc.c:685-710). */
module GcMutator {
  import opened Wrappers
  import opened GcHeap
  import opened GcMark
  import opened GcState
  import opened GcPropagate
  import opened GcAtomic
  import opened GcBarrier
  import opened GcClose
  import opened GcSweep
  import opened GcStep

  // ---- Stores into an object ------------------------------------------------------------

  /** The places of an object the program can store a reference into. */
  datatype Edit =
    | ArraySlot(i: nat, v: Value)         // luaV_settable on the array part
    | NodeVal(i: nat, v: Value)           // luaV_settable on an existing key
    | NodeKey(i: nat, v: Value)           // newkey, into an empty node
    | Metatable(m: Option<Ref>)           // lua_setmetatable
    | Environment(e: Ref)                 // lua_setfenv, lua_replace
    | CUpvalue(i: nat, v: Value)          // lua_replace, lua_setupvalue on a C closure
    | UpvalueValue(v: Value)              // OP_SETUPVAL on a closed upvalue
    | Constant(v: Value)                  // addk
    | NestedProto(r: Ref)                 // pushclosure
    | UpvalueName(r: Ref)                 // indexupvalue
    | LocalName(r: Ref)                   // registerlocalvar
  {
    /** The stored reference, which the barrier looks at. */
    function Stored(): Value {
      match this
      case Metatable(m) => if m.Some? then Gc(m.value) else Nil
      case Environment(e) => Gc(e)
      case NestedProto(r) => Gc(r)
      case UpvalueName(r) => Gc(r)
      case LocalName(r) => Gc(r)
      case _ => v
    }
  }

  /** Whether the place exists in the object. A key goes into a node without a value; a
      value goes to a node with a key that is not dead. */
  predicate Fits(b: Body, e: Edit) {
    match e
    case ArraySlot(i, _) => b.Table? && i < |b.arr|
    case NodeVal(i, _) => b.Table? && i < |b.nodes| && b.nodes[i].key.Live?
    case NodeKey(i, _) => b.Table? && i < |b.nodes| && b.nodes[i].val == Nil
    case Metatable(_) => b.Table? || b.Udata?
    case Environment(_) => b.CClosure? || b.LClosure? || b.Udata?
    case CUpvalue(i, _) => b.CClosure? && i < |b.cups|
    case UpvalueValue(_) => b.ClosedUpval?
    case Constant(_) => b.Proto?
    case NestedProto(_) => b.Proto?
    case UpvalueName(_) => b.Proto?
    case LocalName(_) => b.Proto?
  }

  function Edited(b: Body, e: Edit): Body
    requires Fits(b, e)
  {
    match e
    case ArraySlot(i, v) => b.(arr := b.arr[i := v])
    case NodeVal(i, v) => b.(nodes := b.nodes[i := Node(b.nodes[i].key, v)])
    case NodeKey(i, v) => b.(nodes := b.nodes[i := Node(Live(v), Nil)])
    case Metatable(m) => if b.Table? then b.(tmeta := m) else b.(umeta := m)
    case Environment(r) => if b.CClosure? then b.(cenv := r) else if b.LClosure? then b.(lenv := r) else b.(uenv := r)
    case CUpvalue(i, v) => b.(cups := b.cups[i := v])
    case UpvalueValue(v) => ClosedUpval(v)
    case Constant(v) => b.(k := b.k + [v])
    case NestedProto(r) => b.(p := b.p + [r])
    case UpvalueName(r) => b.(upnames := b.upnames + [r])
    case LocalName(r) => b.(locnames := b.locnames + [r])
  }

  /** All but place `i' stay. */
  predicate OnlyAt<T(==)>(s: seq<T>, s2: seq<T>, i: nat) {
    |s2| == |s| && forall j :: 0 <= j < |s| && j != i ==> s2[j] == s[j]
  }

  /** One element more, at the end. */
  predicate Appended<T(==)>(s: seq<T>, s2: seq<T>, v: T) {
    |s2| == |s| + 1 && s2[|s|] == v && forall j :: 0 <= j < |s| ==> s2[j] == s[j]
  }

  /** The place the store is for holds the stored value, and every other place of the object
      what it held before. */
  predicate Holding(b: Body, e: Edit, c: Body) {
    match e
    case ArraySlot(i, v) =>
      b.Table? && c.Table? && OnlyAt(b.arr, c.arr, i) && i < |c.arr| && c.arr[i] == v && c.tmeta == b.tmeta && c.nodes == b.nodes
    case NodeVal(i, v) =>
      && b.Table? && c.Table? && OnlyAt(b.nodes, c.nodes, i) && i < |c.nodes| == |b.nodes|
      && c.nodes[i].val == v && c.nodes[i].key == b.nodes[i].key && c.tmeta == b.tmeta && c.arr == b.arr
    case NodeKey(i, v) =>
      && b.Table? && c.Table? && OnlyAt(b.nodes, c.nodes, i) && i < |c.nodes|
      && c.nodes[i].key == Live(v) && c.nodes[i].val == Nil && c.tmeta == b.tmeta && c.arr == b.arr
    case Metatable(m) =>
      || (b.Table? && c.Table? && c.tmeta == m && c.arr == b.arr && c.nodes == b.nodes)
      || (b.Udata? && c.Udata? && c.umeta == m && c.uenv == b.uenv)
    case Environment(r) =>
      || (b.CClosure? && c.CClosure? && c.cenv == r && c.cups == b.cups)
      || (b.LClosure? && c.LClosure? && c.lenv == r && c.proto == b.proto && c.lups == b.lups)
      || (b.Udata? && c.Udata? && c.uenv == r && c.umeta == b.umeta)
    case CUpvalue(i, v) =>
      b.CClosure? && c.CClosure? && OnlyAt(b.cups, c.cups, i) && i < |c.cups| && c.cups[i] == v && c.cenv == b.cenv
    case UpvalueValue(v) => b.ClosedUpval? && c.ClosedUpval? && c.value == v
    case Constant(v) =>
      && b.Proto? && c.Proto? && Appended(b.k, c.k, v)
      && c.source == b.source && c.upnames == b.upnames && c.p == b.p && c.locnames == b.locnames
    case NestedProto(r) =>
      && b.Proto? && c.Proto? && Appended(b.p, c.p, r)
      && c.source == b.source && c.k == b.k && c.upnames == b.upnames && c.locnames == b.locnames
    case UpvalueName(r) =>
      && b.Proto? && c.Proto? && Appended(b.upnames, c.upnames, r)
      && c.source == b.source && c.k == b.k && c.p == b.p && c.locnames == b.locnames
    case LocalName(r) =>
      && b.Proto? && c.Proto? && Appended(b.locnames, c.locnames, r)
      && c.source == b.source && c.k == b.k && c.upnames == b.upnames && c.p == b.p
  }

  /** The store changes the one object, in the one place. */
  predicate StoredIn(g: G, r: G, o: Ref, e: Edit) {
    && r.body.Keys == g.body.Keys && o in g.body && Holding(g.body[o], e, r.body[o])
    && forall x :: x in g.body && x != o ==> r.body[x] == g.body[x]
  }

  lemma StoreExact(g: G, o: Ref, e: Edit)
    requires o in g.body && Fits(g.body[o], e)
    ensures StoredIn(g, Store(g, o, e), o, e)
  {
    EditedHolds(g.body[o], e);
    hide Edited, Holding, Barrier, TableBarrier, Fits;
    var g1 := Write(g, o, Edited(g.body[o], e));
    BarrierBody(g1, o, e.Stored());
    TableBarrierBody(g1, o, e.Stored());
  }

  lemma TableBarrierBody(g: G, t: Ref, v: Value)
    ensures TableBarrier(g, t, v).body == g.body
  {
  }

  lemma EditedHolds(b: Body, e: Edit)
    requires Fits(b, e)
    ensures Holding(b, e, Edited(b, e))
  {
  }

  function Write(g: G, o: Ref, b: Body): G {
    g.(body := g.body[o := b])
  }

  /** Store, then barrier: backward for tables, forward for everything else. */
  function Store(g: G, o: Ref, e: Edit): G
    requires o in g.body && Fits(g.body[o], e)
  {
    var g1 := Write(g, o, Edited(g.body[o], e));
    if g.body[o].Table? then TableBarrier(g1, o, e.Stored()) else Barrier(g1, o, e.Stored())
  }

  /** The same barrier applied before the store. */
  function BarrierFirst(g: G, o: Ref, e: Edit): G
    requires o in g.body
  {
    if g.body[o].Table? then TableBarrier(g, o, e.Stored()) else Barrier(g, o, e.Stored())
  }

  lemma NodesMember(ns: seq<Node>, i: nat, n: Node, v: Value)
    requires i < |ns| && v in NodeValues(ns[i := n])
    ensures v in NodeValues(ns) || v in EntryValues(n)
  {
    NodeValuesMember(ns[i := n], v);
    NodeValuesMember(ns, v);
    var m :| m in ns[i := n] && v in EntryValues(m);
    var j :| 0 <= j < |ns| && ns[i := n][j] == m;
    if j != i { assert ns[j] in ns; }
  }

  /** A store adds at most the stored reference to what an object holds. */
  lemma EditAdds(h: Heap, o: Ref, e: Edit, y: Ref)
    requires o in h && Fits(h[o], e)
    requires Holds(h[o := Edited(h[o], e)], o, y)
    ensures Holds(h, o, y) || e.Stored() == Gc(y)
  {
    var h' := h[o := Edited(h[o], e)];
    if h[o].Table? {
      EditTable(h, o, e, y);
    } else {
      assert Refers(h', o, y);
      if h[o].Proto? { EditProto(h, o, e, y); }
    }
  }

  lemma EditProto(h: Heap, o: Ref, e: Edit, y: Ref)
    requires o in h && h[o].Proto? && Fits(h[o], e) && Refers(h[o := Edited(h[o], e)], o, y)
    ensures Refers(h, o, y) || e.Stored() == Gc(y)
  {
    var b, c := h[o], Edited(h[o], e);
    RefsMember(b.upnames, Gc(y));
    RefsMember(c.upnames, Gc(y));
    RefsMember(b.p, Gc(y));
    RefsMember(c.p, Gc(y));
    RefsMember(b.locnames, Gc(y));
    RefsMember(c.locnames, Gc(y));
  }

  lemma TableHolds(h: Heap, o: Ref, y: Ref)
    requires o in h && h[o].Table?
    ensures Holds(h, o, y) <==>
      Gc(y) in OptRef(h[o].tmeta) || Gc(y) in h[o].arr || Gc(y) in NodeValues(h[o].nodes)
      || exists n :: n in h[o].nodes && n.key == Live(Gc(y))
  {
    ReverseMember(h[o].arr, Gc(y));
  }

  lemma EditTable(h: Heap, o: Ref, e: Edit, y: Ref)
    requires o in h && h[o].Table? && Fits(h[o], e) && Holds(h[o := Edited(h[o], e)], o, y)
    ensures Holds(h, o, y) || e.Stored() == Gc(y)
  {
    TableHolds(h, o, y);
    TableHolds(h[o := Edited(h[o], e)], o, y);
    var ns' := Edited(h[o], e).nodes;
    hide Holds, NodeValues;
    if exists n :: n in ns' && n.key == Live(Gc(y)) {
      EditKeys(h[o], e, y);
    } else if Gc(y) in NodeValues(ns') && (e.NodeVal? || e.NodeKey?) {
      EditNodes(h[o], e, y);
    }
  }

  lemma EditKeys(b: Body, e: Edit, y: Ref)
    requires b.Table? && Fits(b, e) && exists n :: n in Edited(b, e).nodes && n.key == Live(Gc(y))
    ensures (exists n :: n in b.nodes && n.key == Live(Gc(y))) || e.Stored() == Gc(y)
  {
    var ns' := Edited(b, e).nodes;
    var n :| n in ns' && n.key == Live(Gc(y));
    var j :| 0 <= j < |ns'| && ns'[j] == n;
    assert b.nodes[j] in b.nodes;
  }

  lemma EditNodes(b: Body, e: Edit, y: Ref)
    requires b.Table? && Fits(b, e) && (e.NodeVal? || e.NodeKey?) && Gc(y) in NodeValues(Edited(b, e).nodes)
    ensures Gc(y) in NodeValues(b.nodes) || e.Stored() == Gc(y) || exists n :: n in Edited(b, e).nodes && n.key == Live(Gc(y))
  {
    hide NodeValues;
    if e.NodeVal? {
      NodesMember(b.nodes, e.i, Node(b.nodes[e.i].key, e.v), Gc(y));
      assert Edited(b, e).nodes[e.i] in Edited(b, e).nodes;
    } else {
      NodesMember(b.nodes, e.i, Node(Live(e.v), Nil), Gc(y));
    }
  }

  /** Objects other than the edited one hold what they held; no open upvalue points into it. */
  lemma WriteOthers(h: Heap, o: Ref, b: Body, x: Ref, y: Ref)
    requires o in h && !h[o].Thread? && !b.Thread? && x != o
    ensures Holds(h[o := b], x, y) == Holds(h, x, y) && Refers(h[o := b], x, y) == Refers(h, x, y)
  {
    if x in h && h[x].OpenUpval? {
      assert StackValue(h[o := b], h[x].thread, h[x].slot) == StackValue(h, h[x].thread, h[x].slot);
    }
  }

  /** Marking does not look inside an object that is marked already. */
  lemma {:induction false} MarkIgnoresMarked(h: Heap, m: Marks, x: Ref, o: Ref, b: Body)
    requires o in h && !h[o].Thread? && !b.Thread? && !IsWhite(m.colour, o)
    ensures Mark(h[o := b], m, x) == Mark(h, m, x) && !IsWhite(Mark(h, m, x).colour, o)
    decreases Whites(m.colour), 0
  {
    var h' := h[o := b];
    if x in h && IsWhite(m.colour, x) {
      assert x != o;
      assert x in Whites(m.colour);
      assert x !in Whites(m.colour[x := Gray]) && x !in Whites(m.colour[x := Black]);
      assert Children(h', x) == Children(h, x) by {
        if h[x].OpenUpval? {
          assert StackValue(h', h[x].thread, h[x].slot) == StackValue(h, h[x].thread, h[x].slot);
        }
      }
      if h[x].Udata? {
        MarkAllIgnoresMarked(h, m.(colour := m.colour[x := Black]), Children(h, x), o, b);
      } else if h[x].OpenUpval? || h[x].ClosedUpval? {
        MarkAllIgnoresMarked(h, m.(colour := m.colour[x := Gray]), Children(h, x), o, b);
      }
    }
  }

  lemma {:induction false} MarkAllIgnoresMarked(h: Heap, m: Marks, vs: seq<Value>, o: Ref, b: Body)
    requires o in h && !h[o].Thread? && !b.Thread? && !IsWhite(m.colour, o)
    ensures MarkAll(h[o := b], m, vs) == MarkAll(h, m, vs) && !IsWhite(MarkAll(h, m, vs).colour, o)
    decreases Whites(m.colour), |vs|
  {
    if vs != [] {
      if vs[0].Gc? { MarkIgnoresMarked(h, m, vs[0].ref, o, b); }
      MarkAllIgnoresMarked(h, MarkValue(h, m, vs[0]), vs[1..], o, b);
    }
  }

  lemma StoreIsBarrierFirst(g: G, o: Ref, e: Edit)
    requires o in g.body && Fits(g.body[o], e)
    ensures Store(g, o, e) == Write(BarrierFirst(g, o, e), o, Edited(g.body[o], e))
  {
    var v := e.Stored();
    if !g.body[o].Table? && v.Gc? && IsWhite(g.colour, v.ref) && IsBlack(g, o) && g.phase == Propagate {
      MarkIgnoresMarked(g.body, g.MarkState(), v.ref, o, Edited(g.body[o], e));
    }
  }

  // ---- The barriers keep the invariant, and make room for the store ---------------------

  lemma MarkMore(g: G, x: Ref)
    requires Inv(g) && g.phase == Propagate
    ensures Inv(g.WithMarks(Mark(g.body, g.MarkState(), x)))
  {
    var m := Mark(g.body, g.MarkState(), x);
    MarkExtends(g.body, g.MarkState(), x);
    ExtendTriColour(g, m, false, false);
    ExtendMarking(g, m);
    MarkingKeeps(g, g.WithMarks(m));
  }

  lemma BackInv(g: G, t: Ref)
    requires Inv(g) && IsBlack(g, t) && t in g.body && g.body[t].Table?
    ensures Inv(BarrierBack(g, t))
  {
    var r := BarrierBack(g, t);
    BackLists(g, t);
    if g.phase == Propagate { BackTriColour(g, t); } else { BackColours(g, t); }
  }

  lemma BackLists(g: G, t: Ref)
    requires ListsOk(g) && LiveOk(g) && IsBlack(g, t)
    ensures ListsOk(BarrierBack(g, t)) && LiveOk(BarrierBack(g, t))
  {
    var r := BarrierBack(g, t);
    RecolourLists(g, r);
    assert forall x :: r.Alive(x) <==> g.Alive(x);
    RecolourLive(g, r);
  }

  lemma BackTriColour(g: G, t: Ref)
    requires TriColour(g, false, false) && IsBlack(g, t) && t in g.body && g.body[t].Table?
    ensures TriColour(BarrierBack(g, t), false, false)
  {
    var r := BarrierBack(g, t);
    assert forall y :: IsWhite(r.colour, y) <==> IsWhite(g.colour, y);
    forall x | x in r.body
      ensures KindOk(r, x)
      ensures r.colour[x] == Black ==> BlackOk(r, x)
      ensures r.colour[x] == Gray ==> GrayOk(r, x, false, false)
    {
      assert KindOk(g, x);
      if r.colour[x] == Black { assert BlackOk(g, x); }
      if r.colour[x] == Gray && x != t { assert GrayOk(g, x, false, false); }
    }
    assert t !in g.gray && t !in g.grayagain;
    var a, b := g.gray + g.grayagain, r.gray + r.grayagain;
    var k := |g.gray|;
    forall i, j | 0 <= i < j < |b| ensures b[i] != b[j] {
      if i != k && j != k {
        assert b[i] == a[if i < k then i else i - 1] && b[j] == a[if j < k then j else j - 1];
      } else {
        var l := if i == k then j else i;
        assert b[k] == t && b[l] == a[if l < k then l else l - 1];
        assert b[l] in g.gray || b[l] in g.grayagain;
      }
    }
  }

  lemma BackColours(g: G, t: Ref)
    requires ListsOk(g) && ColoursOk(g) && g.phase != Propagate && IsBlack(g, t) && t in g.body && g.body[t].Table?
    ensures ColoursOk(BarrierBack(g, t))
  {
    var r := BarrierBack(g, t);
    assert Sweeping(g);
    forall x | x in r.body ensures KindOk(r, x) && (Swept(r, x) ==> r.colour[x] == White(r.cw)) {
      assert KindOk(g, x) && (Swept(r, x) ==> Swept(g, x));
    }
  }

  /** The store itself is harmless when a black owner gets no white reference. */
  ghost predicate WriteOk(g: G, o: Ref, b: Body) {
    && g.Alive(o) && g.body[o].InRootList() && b.InRootList() && !g.body[o].Thread? && !b.Thread?
    && (g.body[o].ClosedUpval? <==> b.ClosedUpval?) && (g.body[o].Udata? <==> b.Udata?)
    && (g.body[o].Traversable() <==> b.Traversable())
    && forall y :: Holds(g.body[o := b], o, y) && !Holds(g.body, o, y) ==>
         g.Alive(y) && (g.phase == Propagate && g.colour[o] == Black ==> !IsWhite(g.colour, y))
  }

  lemma WriteInv(g: G, o: Ref, b: Body)
    requires Inv(g) && WriteOk(g, o, b)
    ensures Inv(Write(g, o, b))
  {
    WriteLists(g, o, b);
    WriteLive(g, o, b);
    if g.phase == Propagate { WriteTriColour(g, o, b); } else { WriteColours(g, o, b); }
  }

  lemma WriteLists(g: G, o: Ref, b: Body)
    requires ListsOk(g) && LiveOk(g) && WriteOk(g, o, b)
    ensures ListsOk(Write(g, o, b))
  {
    var r := Write(g, o, b);
    assert StringsOk(r);
    assert RootListOk(r);
    WriteUpvals(g, o, b);
    assert FixedOk(r);
  }

  lemma WriteUpvals(g: G, o: Ref, b: Body)
    requires UpvalsOk(g) && WriteOk(g, o, b)
    ensures UpvalsOk(Write(g, o, b))
  {
    forall t | t in Write(g, o, b).body && Write(g, o, b).body[t].Thread? ensures ThreadOk(Write(g, o, b).body, t) {
      assert ThreadOk(g.body, t);
    }
  }

  lemma WriteLive(g: G, o: Ref, b: Body)
    requires LiveOk(g) && WriteOk(g, o, b)
    ensures LiveOk(Write(g, o, b))
  {
    var r := Write(g, o, b);
    assert r.Roots() == g.Roots();
    assert forall x :: r.Alive(x) <==> g.Alive(x);
    forall x | r.Alive(x) ensures HoldsAlive(r, x) {
      assert HoldsAlive(g, x);
      if x != o {
        forall y | Holds(r.body, x, y) ensures r.Alive(y) { WriteOthers(g.body, o, b, x, y); }
      }
    }
  }

  lemma WriteTriColour(g: G, o: Ref, b: Body)
    requires TriColour(g, false, false) && g.phase == Propagate && WriteOk(g, o, b)
    ensures TriColour(Write(g, o, b), false, false)
  {
    var r := Write(g, o, b);
    forall x | x in r.body
      ensures KindOk(r, x)
      ensures r.colour[x] == Black ==> BlackOk(r, x)
      ensures r.colour[x] == Gray ==> GrayOk(r, x, false, false)
    {
      assert KindOk(g, x);
      if r.colour[x] == Black {
        assert BlackOk(g, x);
        forall y | Holds(r.body, x, y) ensures !IsWhite(r.colour, y) {
          if x != o { WriteOthers(g.body, o, b, x, y); }
        }
      }
      if r.colour[x] == Gray { assert GrayOk(g, x, false, false); }
    }
  }

  lemma WriteColours(g: G, o: Ref, b: Body)
    requires ListsOk(g) && ColoursOk(g) && g.phase != Propagate && WriteOk(g, o, b)
    ensures ColoursOk(Write(g, o, b))
  {
    var r := Write(g, o, b);
    if Sweeping(g) {
      forall x | x in r.body ensures KindOk(r, x) && (Swept(r, x) ==> r.colour[x] == White(r.cw)) {
        assert KindOk(g, x) && (Swept(r, x) ==> Swept(g, x));
      }
    }
  }

  lemma BarrierFirstInv(g: G, o: Ref, e: Edit)
    requires Inv(g) && g.Alive(o)
    ensures Inv(BarrierFirst(g, o, e))
  {
    var v := e.Stored();
    if v.Gc? && IsWhite(g.colour, v.ref) && IsBlack(g, o) {
      BlackPhase(g, o);
      hide Inv;
      if g.body[o].Table? {
        BackInv(g, o);
      } else if g.phase == Propagate {
        MarkMore(g, v.ref);
      } else {
        WhitenInv(g, o);
      }
    }
  }

  lemma BlackPhase(g: G, o: Ref)
    requires Inv(g) && IsBlack(g, o)
    ensures o in g.body && (g.phase == Propagate || Sweeping(g)) && Survives(g, o)
  {
  }

  /** After the barrier, storing the reference is harmless. */
  lemma BarrierFirstReady(g: G, o: Ref, e: Edit)
    requires Inv(g) && g.Alive(o) && Fits(g.body[o], e) && (e.Stored().Gc? ==> g.Alive(e.Stored().ref))
    ensures BarrierFirst(g, o, e).body == g.body
    ensures WriteOk(BarrierFirst(g, o, e), o, Edited(g.body[o], e))
  {
    var v, r, b := e.Stored(), BarrierFirst(g, o, e), Edited(g.body[o], e);
    BarrierFirstSame(g, o, e);
    forall y | Holds(g.body[o := b], o, y) && !Holds(g.body, o, y)
      ensures r.Alive(y) && (r.phase == Propagate && r.colour[o] == Black ==> !IsWhite(r.colour, y))
    {
      EditAdds(g.body, o, e, y);
    }
  }

  /** Marking makes nothing dead, and the marked object is no longer white. */
  lemma MarkSpares(g: G, x: Ref)
    requires g.body.Keys == g.colour.Keys && x in g.body && NoDead(g)
    ensures var m := Mark(g.body, g.MarkState(), x);
      && !IsWhite(m.colour, x)
      && (forall y :: y in g.body ==> g.WithMarks(m).Alive(y))
  {
    var m := Mark(g.body, g.MarkState(), x);
    MarkExtends(g.body, g.MarkState(), x);
    ExtendsWhite(g.body, g.MarkState(), m);
    assert m.colour.Keys == g.body.Keys;
    hide Mark, Extends;
    forall y | y in g.body ensures g.WithMarks(m).Alive(y) {
      assert m.colour[y].White? ==> m.colour[y] == g.colour[y];
    }
  }

  lemma PropagateNoDead(g: G)
    requires Inv(g) && g.phase == Propagate
    ensures NoDead(g)
  {
  }

  predicate MarksValue(g: G, o: Ref, e: Edit)
    requires o in g.body
  {
    e.Stored().Gc? && IsWhite(g.colour, e.Stored().ref) && IsBlack(g, o) && !g.body[o].Table? && g.phase == Propagate
  }

  lemma BarrierMarks(g: G, o: Ref, e: Edit)
    requires o in g.body && MarksValue(g, o, e)
    ensures e.Stored().Gc? && e.Stored().ref in g.colour && g.phase == Propagate
    ensures BarrierFirst(g, o, e) == g.WithMarks(Mark(g.body, g.MarkState(), e.Stored().ref))
  {
    hide Mark;
  }

  lemma BarrierElse(g: G, o: Ref, e: Edit)
    requires g.body.Keys == g.colour.Keys && o in g.body && !MarksValue(g, o, e)
    ensures var r := BarrierFirst(g, o, e);
      && r.body == g.body && r.phase == g.phase && o in r.colour
      && (forall x :: g.Alive(x) ==> r.Alive(x))
      && (e.Stored().Gc? && r.phase == Propagate && r.colour[o] == Black ==> !IsWhite(r.colour, e.Stored().ref))
  {
    hide Mark;
  }

  lemma BarrierFirstSame(g: G, o: Ref, e: Edit)
    requires Inv(g) && g.Alive(o)
    ensures var r := BarrierFirst(g, o, e);
      && r.body == g.body && r.phase == g.phase && o in r.colour
      && (forall x :: g.Alive(x) ==> r.Alive(x))
      && (e.Stored().Gc? && r.phase == Propagate && r.colour[o] == Black ==> !IsWhite(r.colour, e.Stored().ref))
  {
    InvParts(g);
    if MarksValue(g, o, e) {
      PropagateNoDead(g);
      hide Inv, ListsOk, LiveOk, ColoursOk, Mark, NoDead, BarrierFirst;
      BarrierMarks(g, o, e);
      MarkSpares(g, e.Stored().ref);
    } else {
      hide *;
      BarrierElse(g, o, e);
    }
  }

  /** Every barriered store keeps the invariant, in every phase. */
  lemma StoreInv(g: G, o: Ref, e: Edit)
    requires Inv(g) && g.Alive(o) && Fits(g.body[o], e) && (e.Stored().Gc? ==> g.Alive(e.Stored().ref))
    ensures Inv(Store(g, o, e))
  {
    hide Inv, WriteOk, Write, BarrierFirst;
    StoreIsBarrierFirst(g, o, e);
    BarrierFirstInv(g, o, e);
    BarrierFirstReady(g, o, e);
    WriteInv(BarrierFirst(g, o, e), o, Edited(g.body[o], e));
  }
}
