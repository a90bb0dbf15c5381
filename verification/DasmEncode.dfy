/** Pass 3 (dasm_x86.h:366-437): the bytes, and what the processor makes of them. */
module DasmEncode {
  import opened DasmActions
  import opened DasmLayout
  import opened DasmLink

  type Code = seq<Byte>

  function Low(n: int): Byte { n % 256 }

  /** A 32 bit value, lowest byte first. */
  function Le32(n: int): Code {
    [Low(n), Low(n / 0x100), Low(n / 0x1_0000), Low(n / 0x100_0000)]
  }

  function Fill(n: nat, b: Byte): Code { seq(n, _ => b) }

  function Chop(out: Code, n: nat): Code {
    if n <= |out| then out[..|out| - n] else []
  }

  /** Nops up to the next multiple of mask + 1. */
  function Padding(n: nat, mask: nat): nat { (0 - n) % (mask + 1) }

  /** The displacement that a branch ends in; a short form replaces the opcode in front. */
  function EmitBranch(out: Code, op: Byte, shrink: int, target: int): Code {
    var n := target - (|out| + 4 - shrink);
    if shrink == 0 then out + Le32(n)
    else if shrink == 4 then Chop(out, 2) + [Low(op - 0x10), Low(n)]
    else Chop(out, 1) + [0xeb, Low(n)]
  }

  function EmitCell(m: Memory, base: int, c: Cell, out: Code): Code {
    if !c.Act? then out
    else match c.a
      case Emit(b) => out + [b]
      case ImmD => out + Le32(Get(m, c.pos))
      case Space(fill) => out + Fill(if Get(m, c.pos) >= 0 then Get(m, c.pos) else 0, fill)
      case RelPC(op) => EmitBranch(out, op, Get(m, c.pos + 1), Get(m, Get(m, c.pos)))
      case ImmPC => out + Le32(Get(m, Get(m, c.pos)) + base)
      case Align(mask) => out + Fill(Padding(|out|, mask), 0x90)
      case _ => out
  }

  /** The code in front of cell `k' of section `s'. */
  function OutAt(pr: Prog, base: int, s: nat, k: nat): Code
    requires |pr.est| == |pr.walks| && s <= |pr.walks| && (if s < |pr.walks| then k <= |pr.walks[s]| else k == 0)
    decreases s, k
  {
    if k > 0 then EmitCell(Linked(pr), base, pr.walks[s][k - 1], OutAt(pr, base, s, k - 1))
    else if s > 0 then OutAt(pr, base, s - 1, |pr.walks[s - 1]|)
    else []
  }

  function Output(pr: Prog, base: int): Code
    requires |pr.est| == |pr.walks|
  {
    OutAt(pr, base, |pr.walks|, 0)
  }

  predicate EmitAt(cs: seq<Cell>, k: int) {
    0 <= k < |cs| && cs[k].Act? && cs[k].a.Emit?
  }

  /** A branch that can be shrunk follows its opcode: e9, or a byte (0f) and 8x. */
  predicate BranchOk(cs: seq<Cell>, k: nat)
    requires k < |cs|
  {
    cs[k].Act? && cs[k].a.RelPC? ==>
      && (Saving(cs[k].a.op) >= 3 ==> EmitAt(cs, k - 1) && cs[k - 1].a.b == cs[k].a.op)
      && (Saving(cs[k].a.op) == 4 ==> EmitAt(cs, k - 2))
  }

  ghost predicate BranchesOk(pr: Prog) {
    forall s, k :: 0 <= s < |pr.walks| && 0 <= k < |pr.walks[s]| ==> BranchOk(pr.walks[s], k)
  }

  /** The label a branch or an absolute reference is bound to. */
  function Target(pr: Prog, c: Cell): Loc
    requires Get(pr.mem, c.pos) in pr.defs
  {
    pr.defs[Get(pr.mem, c.pos)]
  }

  predicate IsBranch(pr: Prog, s: nat, k: nat) {
    Place(pr, s, k) && k < |pr.walks[s]| && pr.walks[s][k].Act? && pr.walks[s][k].a.RelPC?
  }

  lemma TargetIs(pr: Prog, s: nat, k: nat)
    requires ProgOk(pr) && Place(pr, s, k) && k < |pr.walks[s]| && pr.walks[s][k].IsRef()
    ensures Get(pr.mem, pr.walks[s][k].pos) in pr.defs
    ensures var l := Target(pr, pr.walks[s][k]);
      Valid(pr, l) && pr.walks[l.s][l.k].IsLabel() && pr.walks[l.s][l.k].pos == Get(pr.mem, pr.walks[s][k].pos)
      && Get(Linked(pr), pr.walks[l.s][l.k].pos) == Real(pr, l.s, l.k)
  {
    hide Linked;
    hide Swept;
    var l := Target(pr, pr.walks[s][k]);
    LabelLinked(pr, l.s, l.k);
  }

  // ---- No phase error ---------------------------------------------------------------------

  lemma PaddingSize(n: nat, mask: nat)
    ensures Padding(n, mask) == mask - (n + mask) % (mask + 1)
    ensures (n + Padding(n, mask)) % (mask + 1) == 0
  {
    var d := mask + 1;
    var q := (n + mask) / d;
    var r := mask - (n + mask) % d;
    assert n + mask == d * q + (n + mask) % d;
    Distribute(d, 0, q);
    RemainderUnique(0 - n, d, 0 - q, r);
    RemainderUnique(n + r, d, q, 0);
  }

  /** A cell gets as many bytes as pass 2 has left it. */
  lemma CellGrows(pr: Prog, base: int, s: nat, k: nat, out: Code)
    requires ProgOk(pr) && Place(pr, s, k) && k < |pr.walks[s]| && |out| == Real(pr, s, k)
    requires IsBranch(pr, s, k) && Size(pr, s, k) == 1 ==> |out| >= 1
    requires IsBranch(pr, s, k) && Size(pr, s, k) == 0 ==> |out| >= 2
    ensures |EmitCell(Linked(pr), base, pr.walks[s][k], out)| == |out| + Size(pr, s, k)
  {
    if IsBranch(pr, s, k) {
      BranchLinked(pr, s, k);
      SizeShort(pr, s, k);
      hide ProgOk, Linked, Swept, Real;
    } else {
      CellSlots(pr, s, k);
      hide ProgOk, Linked, Swept, Real, Est;
      PlainGrows(Linked(pr), base, pr.walks[s][k], out, Size(pr, s, k));
    }
  }

  lemma PlainGrows(m: Memory, base: int, c: Cell, out: Code, size: int)
    requires !(c.Act? && c.a.RelPC?)
    requires c.Act? && c.a.Space? ==> Get(m, c.pos) == c.arg >= 0
    requires size == if c.Act? && c.a.Align? then c.a.mask - (|out| + c.a.mask) % (c.a.mask + 1) else c.Room()
    ensures |EmitCell(m, base, c, out)| == |out| + size
  {
    if c.Act? && c.a.Align? { PaddingSize(|out|, c.a.mask); }
  }

  lemma SizeShort(pr: Prog, s: nat, k: nat)
    requires ProgOk(pr) && IsBranch(pr, s, k)
    ensures Size(pr, s, k) == 4 || (Size(pr, s, k) == 4 - Saving(pr.walks[s][k].a.op) && Saving(pr.walks[s][k].a.op) >= 3)
  {
    SizeIs(pr, s, k);
  }

  /** What a cell that is no branch has in its slot, and its size. */
  lemma CellSlots(pr: Prog, s: nat, k: nat)
    requires ProgOk(pr) && Place(pr, s, k) && k < |pr.walks[s]| && !IsBranch(pr, s, k)
    ensures var c := pr.walks[s][k];
      && Size(pr, s, k) == SizeOf(pr, s, k)
      && (c.Act? && (c.a.ImmD? || c.a.Space?) ==> Get(Linked(pr), c.pos) == c.arg)
      && (c.Act? && c.a.Space? ==> c.arg >= 0)
      && (c.Act? && c.a.ImmPC? ==> Get(Linked(pr), c.pos) == Get(pr.mem, c.pos))
  {
    SizeIs(pr, s, k);
    assert FieldsOk(pr.mem, pr.walks[s], k);
    hide ProgOk, Linked, Swept, Real;
    if !pr.walks[s][k].IsLabel() { PlainLinked(pr, s, k); }
  }

  /** Bytes in front of a branch that its short form replaces. */
  function Taken(pr: Prog, s: nat, k: nat): nat
    requires Place(pr, s, k) && k < |pr.walks[s]|
  {
    if !IsBranch(pr, s, k) then 0 else if Size(pr, s, k) == 1 then 1 else if Size(pr, s, k) == 0 then 2 else 0
  }

  lemma BranchSize(pr: Prog, s: nat, k: nat)
    requires ProgOk(pr) && Place(pr, s, k) && k < |pr.walks[s]|
    ensures IsBranch(pr, s, k) && Size(pr, s, k) != 4 ==>
      Saving(pr.walks[s][k].a.op) >= 3 && Size(pr, s, k) == 4 - Saving(pr.walks[s][k].a.op)
  {
    hide ProgOk, Swept, Real, Size;
    SizeIs(pr, s, k);
  }

  lemma BranchBytesBefore(pr: Prog, s: nat, k: nat)
    requires BranchesOk(pr) && IsBranch(pr, s, k)
    ensures var h := Saving(pr.walks[s][k].a.op);
      && (h == 0 || h == 3 || h == 4) && h <= k + 2
      && (h >= 3 ==> k >= 1 && EmitAt(pr.walks[s], k - 1)) && (h == 4 ==> k >= 2 && EmitAt(pr.walks[s], k - 2))
  {
    assert BranchOk(pr.walks[s], k);
  }

  lemma TakenBounds(pr: Prog, s: nat, k: nat)
    requires ProgOk(pr) && BranchesOk(pr) && Place(pr, s, k) && k < |pr.walks[s]|
    ensures Taken(pr, s, k) <= 2 && Taken(pr, s, k) <= k
    ensures IsBranch(pr, s, k) && Size(pr, s, k) != 4 ==> Size(pr, s, k) == 2 - Taken(pr, s, k) && Taken(pr, s, k) > 0
    ensures Taken(pr, s, k) > 0 ==> Size(pr, s, k) == 2 - Taken(pr, s, k)
    ensures forall i :: k - Taken(pr, s, k) <= i < k ==> EmitAt(pr.walks[s], i)
  {
    hide ProgOk, BranchesOk, Size, Saving, EmitAt, BranchOk;
    BranchSize(pr, s, k);
    if IsBranch(pr, s, k) { BranchBytesBefore(pr, s, k); }
  }

  lemma {:induction false} EmitsBefore(pr: Prog, s: nat, k: nat, n: nat)
    requires ProgOk(pr) && Place(pr, s, k) && n <= k
    requires forall i :: k - n <= i < k ==> EmitAt(pr.walks[s], i)
    ensures Real(pr, s, k) == Real(pr, s, k - n) + n
  {
    if n > 0 {
      EmitsBefore(pr, s, k - 1, n - 1);
      assert EmitAt(pr.walks[s], k - 1);
      SizeIs(pr, s, k - 1);
    }
  }

  /** Before every cell, as many bytes are out as pass 2 has counted. */
  lemma {:induction false} OutLength(pr: Prog, base: int, s: nat, k: nat)
    requires ProgOk(pr) && BranchesOk(pr) && Place(pr, s, k)
    ensures |OutAt(pr, base, s, k)| == Real(pr, s, k)
    decreases s, k
  {
    hide ProgOk, BranchesOk, EmitCell, Linked, Swept;
    if k > 0 {
      OutLength(pr, base, s, k - 1);
      TakenBounds(pr, s, k - 1);
      EmitsBefore(pr, s, k - 1, Taken(pr, s, k - 1));
      RealNonnegative(pr, s, k - 1 - Taken(pr, s, k - 1));
      SizeBranch(pr, s, k - 1);
      CellGrows(pr, base, s, k - 1, OutAt(pr, base, s, k - 1));
    } else if s > 0 {
      OutLength(pr, base, s - 1, |pr.walks[s - 1]|);
      SectionsMeet(pr, s - 1);
    } else {
      StartsAtZero(pr);
    }
  }

  lemma StartsAtZero(pr: Prog)
    requires |pr.est| == |pr.walks| > 0
    ensures Real(pr, 0, 0) == 0
  {
  }

  lemma SizeBranch(pr: Prog, s: nat, k: nat)
    requires ProgOk(pr) && Place(pr, s, k) && k < |pr.walks[s]|
    ensures IsBranch(pr, s, k) && Size(pr, s, k) != 4 ==> Taken(pr, s, k) >= 1 && Size(pr, s, k) == 2 - Taken(pr, s, k)
  {
    SizeIs(pr, s, k);
  }

  /** The phase check at the end of pass 3 never fails. */
  lemma NoPhaseError(pr: Prog, base: int)
    ensures ProgOk(pr) && BranchesOk(pr) ==> |Output(pr, base)| == CodeSize(pr)
  {
    hide ProgOk, BranchesOk, EmitCell, Linked;
    if ProgOk(pr) && BranchesOk(pr) {
      Lengths(pr);
      if |pr.walks| > 0 {
        OutLength(pr, base, |pr.walks| - 1, |pr.walks[|pr.walks| - 1]|);
        SectionsMeet(pr, |pr.walks| - 1);
      }
    }
  }

  lemma Lengths(pr: Prog)
    requires ProgOk(pr)
    ensures |pr.est| == |pr.walks|
  {
  }
}
