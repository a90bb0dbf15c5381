/** What pass 1 leaves in the section buffers: for every dasm_put one cell per action, with
    its place in the action list and in the buffer, and the offset estimates (dasm_x86.h:144-255). */
module DasmLayout {
  import opened DasmActions

  const BIAS: int := 0x0100_0000

  /** DASM_POS2SEC */
  function PosSection(pos: int): int { pos / BIAS }

  /** `Begin' is the start index a dasm_put stores; `Act' is an action with the index `p' of
      its code, its buffer position, and its argument. */
  datatype Cell =
    | Begin(pos: int, start: nat)
    | Act(a: Action, p: nat, pos: int, arg: int)
  {
    /** Buffer slots the cell takes. */
    function Fields(): nat {
      match this
      case Begin(_, _) => 1
      case Act(a, _, _, _) =>
        match a
        case RelPC(_) => 2
        case Emit(_) => 0
        case Section(_) => 0
        case Stop => 0
        case _ => 1
    }

    function End(): int { pos + Fields() }

    /** The most bytes the cell can take: what pass 1 adds to the offset. */
    function Room(): nat {
      match this
      case Begin(_, _) => 0
      case Act(a, _, _, arg) =>
        match a
        case Emit(_) => 1
        case ImmD => 4
        case Space(_) => if arg >= 0 then arg else 0
        case RelPC(_) => 4
        case ImmPC => 4
        case Align(mask) => mask
        case _ => 0
    }

    predicate IsRef() { Act? && (a.RelPC? || a.ImmPC?) }
    predicate IsLabel() { Act? && a.LabelPC? }
    predicate IsLast() { Act? && (a.Stop? || a.Section?) }
  }

  /** The pass-1 offset in front of cell `k' of a section. */
  function Est(cs: seq<Cell>, k: nat): nat
    requires k <= |cs|
  {
    if k == 0 then 0 else Est(cs, k - 1) + cs[k - 1].Room()
  }

  type Memory = map<int, int>

  function Get(m: Memory, q: int): int {
    if q in m then m[q] else 0
  }

  /** The slots of a cell and what pass 1 stored there. */
  predicate FieldsOk(m: Memory, cs: seq<Cell>, k: nat)
    requires k < |cs|
  {
    match cs[k]
    case Begin(pos, start) => pos in m && m[pos] == start
    case Act(a, _, pos, arg) =>
      match a
      case ImmD => pos in m && m[pos] == arg
      case Space(_) => pos in m && m[pos] == arg && arg >= 0
      case RelPC(_) => pos in m && pos + 1 in m && m[pos + 1] == Est(cs, k + 1)
      case ImmPC => pos in m
      case LabelPC => pos in m && m[pos] == Est(cs, k)
      case Align(mask) => pos in m && m[pos] == Est(cs, k + 1) && IsMask(mask)
      case _ => true
  }

  /** One cell follows another: in the buffer, and in the action list. */
  predicate Follows(al: seq<Byte>, c: Cell, d: Cell) {
    && d.pos == c.End()
    && match c
       case Begin(_, start) => d.Act? && d.p == start
       case Act(a, p, _, _) =>
         if c.IsLast() then d.Begin?
         else d.Act? && Decode(al, p).Read? && d.p == Decode(al, p).next
  }

  predicate DecodesTo(al: seq<Byte>, c: Cell) {
    c.Act? ==> Decode(al, c.p).Read? && Decode(al, c.p).a == c.a
  }

  predicate WalkOk(al: seq<Byte>, cs: seq<Cell>, base: int) {
    && (cs != [] ==> cs[0].Begin? && cs[0].pos == base)
    && (forall k :: 0 <= k < |cs| ==> DecodesTo(al, cs[k]))
    && (forall k :: 0 <= k < |cs| - 1 ==> Follows(al, cs[k], cs[k + 1]))
  }

  function EndPos(cs: seq<Cell>, base: int): int {
    if cs == [] then base else cs[|cs| - 1].End()
  }

  /** A cell of the program: section and index. */
  datatype Loc = Loc(s: nat, k: nat)

  /** A linked-up program: all sections after pass 1, their total estimates, the buffers, and
      where each label position lies. */
  datatype Prog = Prog(walks: seq<seq<Cell>>, est: seq<int>, mem: Memory, defs: map<int, Loc>)

  predicate Valid(pr: Prog, l: Loc) {
    l.s < |pr.walks| && l.k < |pr.walks[l.s]|
  }

  predicate PositionsOk(cs: seq<Cell>, s: nat) {
    && (forall k :: 0 <= k < |cs| ==> s * BIAS <= cs[k].pos && cs[k].End() <= (s + 1) * BIAS)
    && (forall i, j :: 0 <= i < j < |cs| ==> cs[i].End() <= cs[j].pos)
  }

  ghost predicate ProgOk(pr: Prog) {
    && |pr.est| == |pr.walks|
    && (forall s :: 0 <= s < |pr.walks| ==> pr.est[s] == Est(pr.walks[s], |pr.walks[s]|))
    && (forall s :: 0 <= s < |pr.walks| ==> PositionsOk(pr.walks[s], s))
    && (forall s, k :: 0 <= s < |pr.walks| && 0 <= k < |pr.walks[s]| ==> FieldsOk(pr.mem, pr.walks[s], k))
    && (forall s, k :: 0 <= s < |pr.walks| && 0 <= k < |pr.walks[s]| && pr.walks[s][k].IsRef() ==>
          Get(pr.mem, pr.walks[s][k].pos) in pr.defs)
    && (forall q :: q in pr.defs ==>
          Valid(pr, pr.defs[q]) && pr.walks[pr.defs[q].s][pr.defs[q].k].IsLabel()
          && pr.walks[pr.defs[q].s][pr.defs[q].k].pos == q)
  }

  lemma {:induction false} EstPrefix(cs: seq<Cell>, ds: seq<Cell>, k: nat)
    requires k <= |cs|
    ensures Est(cs + ds, k) == Est(cs, k)
  {
    if k > 0 {
      EstPrefix(cs, ds, k - 1);
      assert (cs + ds)[k - 1] == cs[k - 1];
    }
  }
}
