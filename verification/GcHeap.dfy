/** The heap of collectable objects (lobject.h, lstate.h, the colour bits of lgc.h), the
    references between objects, and reachability from the collector's roots. */
module GcHeap {
  import opened Wrappers

  /** The address of a GCObject. */
  type Ref = int

  /** A TValue: nil, a value the collector ignores, or a collectable object. */
  datatype Value = Nil | Scalar(n: int) | Gc(ref: Ref)

  /** The key of a hash node; removing an empty entry turns a collectable key into LUA_TDEADKEY. */
  datatype Key = Live(v: Value) | Dead(ref: Ref)

  datatype Node = Node(key: Key, val: Value)

  datatype Body =
    | Str(hash: nat)
    | Udata(umeta: Option<Ref>, uenv: Ref)
    | OpenUpval(thread: Ref, slot: nat)        // `v' points into a thread's stack
    | ClosedUpval(value: Value)                // `v' points to `u.value'
    | CClosure(cenv: Ref, cups: seq<Value>)
    | LClosure(lenv: Ref, proto: Ref, lups: seq<Ref>)
    | Table(tmeta: Option<Ref>, arr: seq<Value>, nodes: seq<Node>)
    | Thread(gt: Value, stack: seq<Value>, openupval: seq<Ref>)
    | Proto(source: Option<Ref>, k: seq<Value>, upnames: seq<Ref>, p: seq<Ref>, locnames: seq<Ref>)
  {
    /** Kinds that reallymarkobject links into the gray list. */
    predicate Traversable() {
      CClosure? || LClosure? || Table? || Thread? || Proto?
    }

    /** Kinds kept in the `rootgc' list; strings live in the string table and open
        upvalues in the list of their thread. */
    predicate InRootList() {
      !Str? && !OpenUpval?
    }
  }

  type Heap = map<Ref, Body>

  /** The colour bits of `marked': one of the two whites, gray (no bit) or black. */
  datatype Colour = White(bit: bool) | Gray | Black

  type Colours = map<Ref, Colour>

  function Refs(rs: seq<Ref>): seq<Value> {
    seq(|rs|, i requires 0 <= i < |rs| => Gc(rs[i]))
  }

  lemma RefsMember(rs: seq<Ref>, v: Value)
    ensures v in Refs(rs) <==> v.Gc? && v.ref in rs
  {
    var vs := Refs(rs);
    if v in vs {
      var i :| 0 <= i < |vs| && vs[i] == v;
      assert v == Gc(rs[i]);
    }
    if v.Gc? && v.ref in rs {
      var i :| 0 <= i < |rs| && rs[i] == v.ref;
      assert vs[i] == v;
    }
  }

  function OptRef(o: Option<Ref>): seq<Value> {
    if o.Some? then [Gc(o.value)] else []
  }

  /** The entries a traversal of the node vector marks, from the last node down. */
  function NodeValues(nodes: seq<Node>): seq<Value> {
    if nodes == [] then []
    else EntryValues(nodes[|nodes| - 1]) + NodeValues(nodes[..|nodes| - 1])
  }

  function EntryValues(n: Node): seq<Value> {
    if n.val == Nil then []
    else if n.key.Live? then [n.key.v, n.val]
    else [n.val]
  }

  lemma {:induction false} NodeValuesMember(nodes: seq<Node>, v: Value)
    ensures v in NodeValues(nodes) <==> exists n :: n in nodes && v in EntryValues(n)
  {
    if nodes != [] {
      var last, init := nodes[|nodes| - 1], nodes[..|nodes| - 1];
      assert nodes == init + [last];
      NodeValuesMember(init, v);
      assert last in nodes;
    }
  }

  function Reverse(vs: seq<Value>): seq<Value> {
    if vs == [] then [] else [vs[|vs| - 1]] + Reverse(vs[..|vs| - 1])
  }

  lemma {:induction false} ReverseMember(vs: seq<Value>, v: Value)
    ensures v in Reverse(vs) <==> v in vs
  {
    if vs != [] {
      assert vs == vs[..|vs| - 1] + [vs[|vs| - 1]];
      ReverseMember(vs[..|vs| - 1], v);
    }
  }

  /** The value an open upvalue points to. */
  function StackValue(h: Heap, th: Ref, i: nat): Value {
    if th in h && h[th].Thread? && i < |h[th].stack| then h[th].stack[i] else Nil
  }

  /** What marking or traversing object `x' marks, in the order the collector does. */
  function Children(h: Heap, x: Ref): seq<Value>
    requires x in h
  {
    match h[x]
    case Str(_) => []
    case Udata(m, e) => OptRef(m) + [Gc(e)]
    case OpenUpval(th, i) => [StackValue(h, th, i)]
    case ClosedUpval(v) => [v]
    case CClosure(e, us) => [Gc(e)] + us
    case LClosure(e, p, us) => [Gc(e), Gc(p)] + Refs(us)
    case Table(m, a, ns) => OptRef(m) + Reverse(a) + NodeValues(ns)
    case Thread(gt, st, _) => [gt] + st
    case Proto(s, k, us, p, ls) => OptRef(s) + k + Refs(us) + Refs(p) + Refs(ls)
  }

  /** An edge of the object graph. */
  predicate Refers(h: Heap, x: Ref, y: Ref) {
    x in h && Gc(y) in Children(h, x)
  }

  predicate Among(y: Ref, vs: seq<Value>) { exists i :: 0 <= i < |vs| && vs[i] == Gc(y) }

  predicate Listed(y: Ref, rs: seq<Ref>) { exists i :: 0 <= i < |rs| && rs[i] == y }

  /** What an object refers to, field by field (lobject.h); a node of a table counts if it has a
      value, and an open upvalue stands for its stack slot. */
  predicate PointsTo(h: Heap, x: Ref, y: Ref) {
    x in h && match h[x]
    case Str(_) => false
    case Udata(meta, env) => meta == Some(y) || env == y
    case OpenUpval(t, i) => t in h && h[t].Thread? && i < |h[t].stack| && h[t].stack[i] == Gc(y)
    case ClosedUpval(v) => v == Gc(y)
    case CClosure(env, ups) => env == y || Among(y, ups)
    case LClosure(env, proto, ups) => env == y || proto == y || Listed(y, ups)
    case Table(meta, arr, nodes) =>
      meta == Some(y) || Among(y, arr) ||
      exists i :: 0 <= i < |nodes| && nodes[i].val != Nil && (nodes[i].val == Gc(y) || nodes[i].key == Live(Gc(y)))
    case Thread(gt, stack, _) => gt == Gc(y) || Among(y, stack)
    case Proto(source, k, upnames, p, locnames) =>
      source == Some(y) || Among(y, k) || Listed(y, upnames) || Listed(y, p) || Listed(y, locnames)
  }

  /** What the collector marks through an object is what the object's fields refer to. */
  lemma RefersExact(h: Heap, x: Ref, y: Ref)
    ensures Refers(h, x, y) <==> PointsTo(h, x, y)
  {
    if x in h {
      match h[x]
      case LClosure(_, _, us) => RefsMember(us, Gc(y));
      case Table(m, a, ns) =>
        ReverseMember(a, Gc(y));
        NodesExact(ns, y);
      case Proto(s, k, us, p, ls) =>
        RefsMember(us, Gc(y));
        RefsMember(p, Gc(y));
        RefsMember(ls, Gc(y));
      case _ =>
    }
  }

  lemma NodesExact(ns: seq<Node>, y: Ref)
    ensures Gc(y) in NodeValues(ns) <==>
      exists i :: 0 <= i < |ns| && ns[i].val != Nil && (ns[i].val == Gc(y) || ns[i].key == Live(Gc(y)))
  {
    NodeValuesMember(ns, Gc(y));
    hide NodeValues;
    if i :| 0 <= i < |ns| && ns[i].val != Nil && (ns[i].val == Gc(y) || ns[i].key == Live(Gc(y))) {
      assert ns[i] in ns && Gc(y) in EntryValues(ns[i]);
    }
  }

  /** Every address an object still holds: its children, and for a table also the keys of
      empty entries that no traversal has turned into dead keys yet. */
  predicate Holds(h: Heap, x: Ref, y: Ref) {
    Refers(h, x, y) ||
    (x in h && h[x].Table? && exists n :: n in h[x].nodes && n.key == Live(Gc(y)))
  }

  ghost predicate Path(h: Heap, roots: seq<Value>, p: seq<Ref>) {
    && |p| > 0
    && Gc(p[0]) in roots
    && forall i :: 0 <= i < |p| - 1 ==> PointsTo(h, p[i], p[i + 1])
  }

  /** `x' can be reached from the roots by following references. */
  ghost predicate Reachable(h: Heap, roots: seq<Value>, x: Ref) {
    exists p :: Path(h, roots, p) && p[|p| - 1] == x
  }

  lemma ReachableRoot(h: Heap, roots: seq<Value>, x: Ref)
    requires Gc(x) in roots
    ensures Reachable(h, roots, x)
  {
    var p := [x];
    assert Path(h, roots, p) && p[|p| - 1] == x;
  }

  lemma ReachableStep(h: Heap, roots: seq<Value>, x: Ref, y: Ref)
    requires Reachable(h, roots, x) && Refers(h, x, y)
    ensures Reachable(h, roots, y)
  {
    var p :| Path(h, roots, p) && p[|p| - 1] == x;
    var q := p + [y];
    RefersExact(h, x, y);
    hide PointsTo, Refers;
    assert Path(h, roots, q) by {
      forall i | 0 <= i < |q| - 1 ensures PointsTo(h, q[i], q[i + 1]) {
        if i < |p| - 1 { assert q[i] == p[i] && q[i + 1] == p[i + 1]; }
      }
    }
    assert q[|q| - 1] == y;
  }

  /** Reachability is the least set that has the roots and is closed under references:
      a property of the roots kept by every edge holds of all reachable objects. */
  lemma {:induction false} PathStaysIn(h: Heap, roots: seq<Value>, p: seq<Ref>, s: set<Ref>)
    requires Path(h, roots, p)
    requires forall r :: Gc(r) in roots ==> r in s
    requires forall x, y :: x in s && Refers(h, x, y) ==> y in s
    ensures p[|p| - 1] in s
  {
    if |p| > 1 {
      var q := p[..|p| - 1];
      RefersExact(h, p[|p| - 2], p[|p| - 1]);
      hide PointsTo, Refers;
      assert Path(h, roots, q) by {
        forall i | 0 <= i < |q| - 1 ensures PointsTo(h, q[i], q[i + 1]) {
          assert PointsTo(h, p[i], p[i + 1]);
        }
      }
      PathStaysIn(h, roots, q, s);
      assert PointsTo(h, p[|p| - 2], p[|p| - 1]);
    }
  }

  lemma ReachableStaysIn(h: Heap, roots: seq<Value>, x: Ref, s: set<Ref>)
    requires Reachable(h, roots, x)
    requires forall r :: Gc(r) in roots ==> r in s
    requires forall x, y :: x in s && Refers(h, x, y) ==> y in s
    ensures x in s
  {
    var p :| Path(h, roots, p) && p[|p| - 1] == x;
    PathStaysIn(h, roots, p, s);
  }

  /** Distinct elements; the collector's lists are linked through one field of each object. */
  predicate NoDup<T(==)>(s: seq<T>) {
    forall i, j :: 0 <= i < j < |s| ==> s[i] != s[j]
  }

  lemma NoDupConcat<T>(s: seq<T>, t: seq<T>)
    requires NoDup(s) && NoDup(t)
    requires forall x :: x in s ==> x !in t
    ensures NoDup(s + t)
  {
    var all := s + t;
    forall i, j | 0 <= i < j < |all| ensures all[i] != all[j] {
      if i < |s| <= j {
        assert all[i] in s && all[j] in t;
      }
    }
  }

  function Remove<T(==)>(s: seq<T>, x: T): (r: seq<T>)
    ensures forall y :: y in r ==> y in s
    ensures forall y :: y in s && y != x ==> y in r
    ensures x !in s ==> r == s
  {
    if s == [] then []
    else if s[0] == x then s[1..]
    else [s[0]] + Remove(s[1..], x)
  }

  lemma {:induction false} RemoveAt<T>(s: seq<T>, k: nat)
    requires NoDup(s) && k < |s|
    ensures Remove(s, s[k]) == s[..k] + s[k + 1..]
  {
    hide NoDup;
    TailNoDup(s);
    if k > 0 {
      assert s[1..][k - 1] == s[k];
      RemoveAt(s[1..], k - 1);
      WithoutLater(s, k);
    } else {
      assert s[..0] + s[1..] == s[1..];
    }
  }

  lemma WithoutLater<T>(s: seq<T>, k: nat)
    requires 0 < k < |s|
    ensures [s[0]] + (s[1..][..k - 1] + s[1..][k..]) == s[..k] + s[k + 1..]
  {
  }

  lemma TailNoDup<T>(s: seq<T>)
    requires NoDup(s) && s != []
    ensures NoDup(s[1..]) && s[0] !in s[1..]
  {
  }

  lemma ConsNoDup<T>(x: T, s: seq<T>)
    requires NoDup(s) && x !in s
    ensures NoDup([x] + s)
  {
  }

  lemma {:induction false} RemoveNoDup<T>(s: seq<T>, x: T)
    requires NoDup(s)
    ensures NoDup(Remove(s, x)) && x !in Remove(s, x)
  {
    if s != [] {
      TailNoDup(s);
      hide NoDup;
      if s[0] != x {
        RemoveNoDup(s[1..], x);
        ConsNoDup(s[0], Remove(s[1..], x));
      }
    }
  }

  lemma InsertedApart<T>(s: seq<T>, x: T, k: nat, i: nat, j: nat)
    requires NoDup(s) && x !in s && k <= |s| && i < j <= |s|
    ensures (s[..k] + [x] + s[k..])[i] != (s[..k] + [x] + s[k..])[j]
  {
    if i == k {
      assert s[j - 1] in s;
    } else if j == k {
      assert s[i] in s;
    } else {
      var a, b := if i < k then i else i - 1, if j < k then j else j - 1;
      assert s[a] != s[b];
    }
  }

  lemma NoDupInsert<T>(s: seq<T>, x: T, k: nat)
    requires NoDup(s) && x !in s && k <= |s|
    ensures NoDup(s[..k] + [x] + s[k..])
    ensures forall y :: y in s[..k] + [x] + s[k..] <==> y in s || y == x
  {
    var t := s[..k] + [x] + s[k..];
    assert s == s[..k] + s[k..];
    forall i, j | 0 <= i < j < |t| ensures t[i] != t[j] { InsertedApart(s, x, k, i, j); }
  }
}
