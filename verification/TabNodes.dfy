/** The hash part of a Lua table (ltable.c): a chained scatter table in one vector of nodes,
    with Brent's variation. */
module TabNodes {

  /** A key: an integer number, or any other value, known by its identity. Nil and the
      number that differs from itself are never stored. */
  datatype Key = NilKey | NaN | Int(n: int) | Other(id: int, collectable: bool)

  datatype Value = Nil | Val(n: int)

  /** What a node's key field holds. A cleared entry keeps its key until the collector turns it
      into a dead key, or a new key takes the node. */
  datatype NodeKey = NoKey | Live(k: Key) | Dead(k: Key)

  datatype Node = Node(key: NodeKey, val: Value, next: int)

  type Nodes = seq<Node>

  const NIL: int := -1

  /** Any hash function of the key and the number of nodes. */
  type Hasher = (Key, nat) -> nat

  /** mainposition */
  function Main(h: Hasher, k: Key, size: nat): (p: nat)
    ensures size > 0 ==> p < size
  {
    if h(k, size) < size then h(k, size) else 0
  }

  // ---- The invariant -------------------------------------------------------------------------

  /** The chain leads from `b' to `i' in `s' links, past no dead key `k'. */
  predicate Leads(node: Nodes, b: int, i: int, s: nat, k: Key)
    decreases s
  {
    if s == 0 then b == i
    else 0 <= b < |node| && node[b].key != Dead(k) && Leads(node, node[b].next, i, s - 1, k)
  }

  /** The chain from `b' ends after `s' links. */
  predicate Ends(node: Nodes, b: int, s: nat)
    decreases s
  {
    if s == 0 then b == NIL
    else 0 <= b < |node| && Ends(node, node[b].next, s - 1)
  }

  ghost predicate Finite(node: Nodes, b: int) {
    exists s: nat :: Ends(node, b, s)
  }

  ghost predicate Found(node: Nodes, b: int, i: int, k: Key) {
    exists s: nat :: Leads(node, b, i, s, k)
  }

  /** Links lead to nodes with keys. */
  predicate Links(node: Nodes) {
    forall i :: 0 <= i < |node| ==>
      node[i].next == NIL || (0 <= node[i].next < |node| && node[node[i].next].key != NoKey)
  }

  /** No two links lead to the same node. */
  predicate Apart(node: Nodes) {
    forall i, j :: 0 <= i < j < |node| && node[i].next != NIL ==> node[i].next != node[j].next
  }

  predicate Blank(node: Nodes) {
    forall i :: 0 <= i < |node| ==> BlankAt(node[i])
  }

  predicate BlankAt(n: Node) {
    && (n.key == NoKey ==> n.val == Nil && n.next == NIL)
    && (n.key.Dead? ==> n.val == Nil)
  }

  ghost predicate AllEnd(node: Nodes) {
    forall i :: 0 <= i < |node| ==> Finite(node, i)
  }

  /** Every key can be reached from its main position, before any dead key of the same object. */
  ghost predicate Reached(h: Hasher, node: Nodes) {
    forall i :: 0 <= i < |node| && node[i].key.Live? ==> Found(node, Main(h, node[i].key.k, |node|), i, node[i].key.k)
  }

  predicate Distinct(node: Nodes) {
    forall i, j :: 0 <= i < |node| && 0 <= j < |node| && node[i].key.Live? && node[i].key == node[j].key ==> i == j
  }

  /** The node at `q' has no key that belongs elsewhere. */
  predicate Home(h: Hasher, node: Nodes, q: int) {
    0 <= q < |node| && node[q].key != NoKey && (node[q].key.Live? ==> Main(h, node[q].key.k, |node|) == q)
  }

  /** A key outside its main position has been kept out by one that is at home there. */
  predicate Brent(h: Hasher, node: Nodes) {
    forall i :: 0 <= i < |node| && node[i].key.Live? && Main(h, node[i].key.k, |node|) != i ==>
      Home(h, node, Main(h, node[i].key.k, |node|))
  }

  ghost predicate HashOk(h: Hasher, node: Nodes) {
    && Links(node) && Apart(node) && Blank(node) && AllEnd(node)
    && Reached(h, node) && Distinct(node) && Brent(h, node)
  }

  /** Everything from `lastfree' on is taken. */
  predicate Taken(node: Nodes, lastfree: int) {
    lastfree <= |node| && forall i :: 0 <= i < |node| && lastfree <= i ==> node[i].key != NoKey
  }

  // ---- What the nodes hold ----------------------------------------------------------------------

  predicate Has(node: Nodes, k: Key) {
    exists i :: 0 <= i < |node| && node[i].key == Live(k)
  }

  /** The value stored for a key. */
  ghost function Stored(node: Nodes, k: Key): Value {
    if i :| 0 <= i < |node| && node[i].key == Live(k) then node[i].val else Nil
  }

  lemma StoredIs(node: Nodes, i: int)
    requires Distinct(node) && 0 <= i < |node| && node[i].key.Live?
    ensures Stored(node, node[i].key.k) == node[i].val
  {
  }

  lemma StoredNone(node: Nodes, k: Key)
    requires !Has(node, k)
    ensures Stored(node, k) == Nil
  {
  }
}
