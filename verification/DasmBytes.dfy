/** The finished code, byte by byte: what every action has become, and where the branches go. */
module DasmBytes {
  import opened DasmActions
  import opened DasmLayout
  import opened DasmLink
  import opened DasmEncode

  // ---- Later cells leave earlier bytes alone ----------------------------------------------

  lemma OutOnce(pr: Prog, base: int, s: nat, k: nat)
    requires Place(pr, s, k) && k < |pr.walks[s]|
    ensures OutAt(pr, base, s, k + 1) == EmitCell(Linked(pr), base, pr.walks[s][k], OutAt(pr, base, s, k))
    ensures pr.walks[s][k].Begin? ==> OutAt(pr, base, s, k + 1) == OutAt(pr, base, s, k)
  {
    hide Linked;
  }

  lemma CellKeeps(pr: Prog, base: int, t: nat, j: nat)
    requires ProgOk(pr) && BranchesOk(pr) && Place(pr, t, j) && j < |pr.walks[t]|
    ensures 0 <= Real(pr, t, j) - Taken(pr, t, j) <= Real(pr, t, j + 1)
    ensures |OutAt(pr, base, t, j)| == Real(pr, t, j) && |OutAt(pr, base, t, j + 1)| == Real(pr, t, j + 1)
    ensures var n := Real(pr, t, j) - Taken(pr, t, j);
      OutAt(pr, base, t, j + 1)[..n] == OutAt(pr, base, t, j)[..n]
  {
    hide ProgOk, BranchesOk, Linked, Swept, Real, OutAt;
    TakenBounds(pr, t, j);
    OutLength(pr, base, t, j);
    OutLength(pr, base, t, j + 1);
    EmitsBefore(pr, t, j, Taken(pr, t, j));
    RealNonnegative(pr, t, j - Taken(pr, t, j));
    RealMonotone(pr, t, j, t, j + 1);
    SizeBranch(pr, t, j);
    OutOnce(pr, base, t, j);
    if IsBranch(pr, t, j) { BranchLinked(pr, t, j); }
  }

  /** No later branch reaches back over the first `q' bytes. */
  ghost predicate Free(pr: Prog, s: nat, k: nat, q: int) {
    forall t, j :: 0 <= t && 0 <= j && Place(pr, t, j) && j < |pr.walks[t]| && Before(s, k, t, j) ==>
      q <= Real(pr, t, j) - Taken(pr, t, j)
  }

  lemma {:induction false} Kept(pr: Prog, base: int, s: nat, k: nat, t: nat, j: nat, q: nat)
    requires ProgOk(pr) && BranchesOk(pr) && Place(pr, s, k) && t <= |pr.walks|
    requires (if t < |pr.walks| then j <= |pr.walks[t]| else j == 0) && Before(s, k, t, j)
    requires q <= Real(pr, s, k) && Free(pr, s, k, q)
    ensures |OutAt(pr, base, s, k)| == Real(pr, s, k) && q <= |OutAt(pr, base, t, j)|
    ensures OutAt(pr, base, t, j)[..q] == OutAt(pr, base, s, k)[..q]
    decreases t, j
  {
    hide ProgOk, BranchesOk, EmitCell, Linked, Swept, Real;
    Lengths(pr);
    OutLength(pr, base, s, k);
    if s == t && k == j {
    } else if j > 0 {
      Kept(pr, base, s, k, t, j - 1, q);
      CellKeeps(pr, base, t, j - 1);
      assert Place(pr, t, j - 1);
      PrefixOf(OutAt(pr, base, t, j), OutAt(pr, base, t, j - 1), Real(pr, t, j - 1) - Taken(pr, t, j - 1), q);
    } else {
      Kept(pr, base, s, k, t - 1, |pr.walks[t - 1]|, q);
    }
  }

  lemma PrefixOf(a: Code, b: Code, n: nat, q: nat)
    requires q <= n <= |a| && n <= |b| && a[..n] == b[..n]
    ensures a[..q] == b[..q]
  {
    assert a[..q] == a[..n][..q];
    assert b[..q] == b[..n][..q];
  }

  /** Cell (s, k) is an opcode byte that a short branch has replaced. */
  predicate Replaced(pr: Prog, s: nat, k: nat)
    requires Place(pr, s, k)
  {
    || (k + 1 < |pr.walks[s]| && Taken(pr, s, k + 1) >= 1)
    || (k + 2 < |pr.walks[s]| && Taken(pr, s, k + 2) >= 2)
  }

  lemma FreeBehind(pr: Prog, s: nat, k: nat)
    requires ProgOk(pr) && BranchesOk(pr) && Place(pr, s, k) && k < |pr.walks[s]| && !Replaced(pr, s, k)
    ensures Free(pr, s, k + 1, Real(pr, s, k + 1))
  {
    hide ProgOk, BranchesOk, Swept, Real;
    forall t, j | 0 <= t && 0 <= j && Place(pr, t, j) && j < |pr.walks[t]| && Before(s, k + 1, t, j)
      ensures Real(pr, s, k + 1) <= Real(pr, t, j) - Taken(pr, t, j)
    {
      TakenBounds(pr, t, j);
      EmitsBefore(pr, t, j, Taken(pr, t, j));
      RealMonotone(pr, s, k + 1, t, j - Taken(pr, t, j));
    }
  }

  lemma OnlyEmitsReplaced(pr: Prog, s: nat, k: nat)
    requires ProgOk(pr) && BranchesOk(pr) && Place(pr, s, k) && k < |pr.walks[s]| && Replaced(pr, s, k)
    ensures EmitAt(pr.walks[s], k)
  {
    hide ProgOk, BranchesOk, Swept, Real;
    if k + 1 < |pr.walks[s]| { TakenBounds(pr, s, k + 1); }
    if k + 2 < |pr.walks[s]| { TakenBounds(pr, s, k + 2); }
  }

  /** What pass 3 writes for a cell stays. */
  lemma WrittenStays(pr: Prog, base: int, s: nat, k: nat)
    requires ProgOk(pr) && BranchesOk(pr) && Place(pr, s, k) && k < |pr.walks[s]| && !Replaced(pr, s, k)
    ensures var q := Real(pr, s, k + 1);
      0 <= q == |OutAt(pr, base, s, k + 1)| && q <= |Output(pr, base)|
      && Output(pr, base)[..q] == OutAt(pr, base, s, k + 1)
  {
    hide ProgOk, BranchesOk, Swept, Real, EmitCell, Linked;
    Lengths(pr);
    FreeBehind(pr, s, k);
    RealNonnegative(pr, s, k + 1);
    Kept(pr, base, s, k + 1, |pr.walks|, 0, Real(pr, s, k + 1));
  }

  // ---- What every cell becomes --------------------------------------------------------------

  /** The bytes of a cell that is no branch. */
  function Plain(pr: Prog, base: int, s: nat, k: nat): Code
    requires Place(pr, s, k) && k < |pr.walks[s]|
  {
    var c := pr.walks[s][k];
    if !c.Act? then []
    else match c.a
      case Emit(b) => [b]
      case ImmD => Le32(c.arg)
      case Space(fill) => Fill(c.Room(), fill)
      case ImmPC =>
        if Get(pr.mem, c.pos) in pr.defs && Valid(pr, Target(pr, c)) then
          Le32(Real(pr, Target(pr, c).s, Target(pr, c).k) + base)
        else []
      case Align(mask) => if Size(pr, s, k) >= 0 then Fill(Size(pr, s, k), 0x90) else []
      case _ => []
  }

  lemma PlainWritten(pr: Prog, base: int, s: nat, k: nat)
    requires ProgOk(pr) && BranchesOk(pr) && Place(pr, s, k) && k < |pr.walks[s]| && !IsBranch(pr, s, k)
    ensures OutAt(pr, base, s, k + 1) == OutAt(pr, base, s, k) + Plain(pr, base, s, k)
  {
    hide ProgOk, BranchesOk, Linked, Swept, Real, Est;
    OutLength(pr, base, s, k);
    CellSlots(pr, s, k);
    var c := pr.walks[s][k];
    if c.IsRef() { TargetIs(pr, s, k); }
    if c.Act? && c.a.Align? { PaddingSize(Real(pr, s, k), c.a.mask); }
  }

  lemma PlainAt(pr: Prog, base: int, s: nat, k: nat)
    requires ProgOk(pr) && BranchesOk(pr)
    requires Place(pr, s, k) && k < |pr.walks[s]| && !IsBranch(pr, s, k) && !Replaced(pr, s, k)
    ensures 0 <= Real(pr, s, k) <= Real(pr, s, k + 1) <= |Output(pr, base)|
    ensures Output(pr, base)[Real(pr, s, k)..Real(pr, s, k + 1)] == Plain(pr, base, s, k)
  {
    SizeRoom(pr, s, k);
    hide ProgOk, BranchesOk, Linked, EmitCell, Real, Plain, Swept, SizeOf;
    RealNonnegative(pr, s, k);
    OutLength(pr, base, s, k);
    PlainWritten(pr, base, s, k);
    WrittenStays(pr, base, s, k);
    var out := Output(pr, base);
    assert out[Real(pr, s, k)..Real(pr, s, k + 1)] == out[..Real(pr, s, k + 1)][Real(pr, s, k)..];
  }

  lemma SizeRoom(pr: Prog, s: nat, k: nat)
    requires ProgOk(pr) && Place(pr, s, k) && k < |pr.walks[s]|
    ensures Real(pr, s, k) <= Real(pr, s, k + 1)
  {
    hide ProgOk, Real, SizeOf;
    SizeIs(pr, s, k);
  }

  lemma AlignSize(pr: Prog, s: nat, k: nat)
    requires ProgOk(pr) && Place(pr, s, k) && k < |pr.walks[s]| && pr.walks[s][k].Act? && pr.walks[s][k].a.Align?
    ensures var mask := pr.walks[s][k].a.mask;
      && Real(pr, s, k) >= 0 && Size(pr, s, k) == mask - (Real(pr, s, k) + mask) % (mask + 1)
      && Real(pr, s, k + 1) == Real(pr, s, k) + Size(pr, s, k)
  {
    SizeIs(pr, s, k);
    RealNonnegative(pr, s, k);
    hide ProgOk, Real;
  }

  lemma PaddingEnds(n: nat, mask: nat)
    ensures var size := mask - (n + mask) % (mask + 1);
      (n + size) % (mask + 1) == 0 && 0 <= size <= mask
  {
    PaddingSize(n, mask);
    hide Padding;
  }

  lemma AlignPads(pr: Prog, s: nat, k: nat)
    requires ProgOk(pr) && Place(pr, s, k) && k < |pr.walks[s]| && pr.walks[s][k].Act? && pr.walks[s][k].a.Align?
    ensures Real(pr, s, k + 1) % (pr.walks[s][k].a.mask + 1) == 0 && Size(pr, s, k) <= pr.walks[s][k].a.mask
  {
    AlignSize(pr, s, k);
    hide *;
    PaddingEnds(Real(pr, s, k), pr.walks[s][k].a.mask);
  }

  /** Every cell but a branch and its replaced opcode stands in the code as its own bytes, at
      the place pass 2 has given it; alignments end on a multiple. */
  lemma PlainBytes(pr: Prog, base: int, s: nat, k: nat)
    requires ProgOk(pr) && BranchesOk(pr)
    requires Place(pr, s, k) && k < |pr.walks[s]| && !IsBranch(pr, s, k) && !Replaced(pr, s, k)
    ensures 0 <= Real(pr, s, k) <= Real(pr, s, k + 1) <= |Output(pr, base)|
    ensures Output(pr, base)[Real(pr, s, k)..Real(pr, s, k + 1)] == Plain(pr, base, s, k)
    ensures pr.walks[s][k].Act? && pr.walks[s][k].a.Align? ==>
      Real(pr, s, k + 1) % (pr.walks[s][k].a.mask + 1) == 0 && Size(pr, s, k) <= pr.walks[s][k].a.mask
  {
    hide ProgOk, BranchesOk, Linked, EmitCell, Real, Output, Plain, Swept, Size, SizeOf, Replaced;
    PlainAt(pr, base, s, k);
    if pr.walks[s][k].Act? && pr.walks[s][k].a.Align? { AlignPads(pr, s, k); }
  }

  // ---- Branches, as the processor reads them ------------------------------------------------

  function Signed8(b: Byte): int { if b < 0x80 then b else b - 0x100 }

  /** A 32 bit number in memory. */
  function Word(bs: Code): int
    requires |bs| == 4
  {
    bs[0] as int + 0x100 * (bs[1] as int) + 0x1_0000 * (bs[2] as int) + 0x100_0000 * (bs[3] as int)
  }

  function Signed32(bs: Code): int
    requires |bs| == 4
  {
    if Word(bs) < 0x8000_0000 then Word(bs) else Word(bs) - 0x1_0000_0000
  }

  lemma Div16(n: int)
    ensures n / 0x1_0000 == n / 0x100 / 0x100
  {
  }

  lemma Div24(n: int)
    ensures n / 0x100_0000 == n / 0x100 / 0x100 / 0x100
  {
    Div16(n / 0x100);
  }

  /** A number is its four lowest bytes and the rest. */
  lemma Bytes(n: int)
    ensures |Le32(n)| == 4 && 0 <= Word(Le32(n)) < 0x1_0000_0000
    ensures n == Word(Le32(n)) + 0x1_0000_0000 * (n / 0x100 / 0x100 / 0x100 / 0x100)
  {
    Div16(n);
    Div24(n);
    var a := n / 0x100;
    var b := a / 0x100;
    var c := b / 0x100;
    assert Le32(n) == [Low(n), Low(a), Low(b), Low(c)];
  }

  lemma WordLe32(n: int)
    ensures |Le32(n)| == 4 && Word(Le32(n)) == n % 0x1_0000_0000
  {
    Bytes(n);
    var q := n / 0x100 / 0x100 / 0x100 / 0x100;
    RemainderUnique(n, 0x1_0000_0000, q, n - 0x1_0000_0000 * q);
  }

  lemma Signed8Low(n: int)
    requires -128 <= n <= 127
    ensures Signed8(Low(n)) == n
  {
  }

  lemma Signed32Le(n: int)
    requires -0x8000_0000 <= n < 0x8000_0000
    ensures Signed32(Le32(n)) == n
  {
    WordLe32(n);
    hide Word, Le32;
  }

  lemma BranchNotReplaced(pr: Prog, s: nat, k: nat)
    requires ProgOk(pr) && BranchesOk(pr) && IsBranch(pr, s, k)
    ensures !Replaced(pr, s, k)
  {
    hide ProgOk, BranchesOk, Swept, Real;
    if Replaced(pr, s, k) { OnlyEmitsReplaced(pr, s, k); }
  }

  lemma BranchWritten(pr: Prog, base: int, s: nat, k: nat)
    requires ProgOk(pr) && BranchesOk(pr) && IsBranch(pr, s, k)
    ensures Get(pr.mem, pr.walks[s][k].pos) in pr.defs && Valid(pr, Target(pr, pr.walks[s][k]))
    ensures var l := Target(pr, pr.walks[s][k]);
      OutAt(pr, base, s, k + 1) ==
        EmitBranch(OutAt(pr, base, s, k), pr.walks[s][k].a.op, 4 - Size(pr, s, k), Real(pr, l.s, l.k))
  {
    hide ProgOk, BranchesOk, Swept, Linked, Real;
    TargetIs(pr, s, k);
    BranchLinked(pr, s, k);
  }

  /** A branch whose instruction ends at `e': a displacement of four bytes behind whatever
      opcode; or e9 turned into eb, or 0f 8x into 7x, and a displacement of one byte. */
  predicate LandsAt(code: Code, op: Byte, size: int, e: int, target: int) {
    if size == 4 then 4 <= e <= |code| && e + Signed32(code[e - 4..e]) == target
    else
      && 2 <= e <= |code| && e + Signed8(code[e - 1]) == target
      && if size == 1 then op == 0xe9 && code[e - 2] == 0xeb
         else size == 0 && 0x80 <= op <= 0x8f && code[e - 2] == op - 0x10
  }

  /** Every branch displacement, counted from the end of the instruction, lands on the
      byte where its label was emitted; a short one carries its short opcode. */
  lemma BranchLands(pr: Prog, base: int, s: nat, k: nat)
    requires ProgOk(pr) && BranchesOk(pr) && IsBranch(pr, s, k)
    requires CodeSize(pr) < 0x8000_0000
    ensures Get(pr.mem, pr.walks[s][k].pos) in pr.defs && Valid(pr, Target(pr, pr.walks[s][k]))
    ensures var c := pr.walks[s][k]; var l := Target(pr, c);
      LandsAt(Output(pr, base), c.a.op, Size(pr, s, k), Real(pr, s, k + 1), Real(pr, l.s, l.k))
  {
    hide ProgOk, BranchesOk, Swept, Linked, EmitCell, EmitBranch, LandsAt, Real, Output, OutAt, CodeSize, Taken, Replaced;
    BranchNotReplaced(pr, s, k);
    WrittenStays(pr, base, s, k);
    BranchWritten(pr, base, s, k);
    CellKeeps(pr, base, s, k);
    TargetIs(pr, s, k);
    var c := pr.walks[s][k];
    var l := Target(pr, c);
    ShortBranchFits(pr, s, k, l.s, l.k);
    SizeBranch(pr, s, k);
    RealInside(pr, base, l.s, l.k);
    RealInside(pr, base, s, k + 1);
    Landing(OutAt(pr, base, s, k), Output(pr, base), c.a.op, Size(pr, s, k), Real(pr, l.s, l.k));
  }

  lemma RealInside(pr: Prog, base: int, s: nat, k: nat)
    requires ProgOk(pr) && BranchesOk(pr) && Place(pr, s, k)
    ensures 0 <= Real(pr, s, k) <= CodeSize(pr)
  {
    hide ProgOk, BranchesOk, Linked;
    Lengths(pr);
    RealNonnegative(pr, s, k);
    var t := |pr.walks| - 1;
    RealMonotone(pr, s, k, t, |pr.walks[t]|);
    SectionsMeet(pr, t);
  }

  lemma Landing(out: Code, code: Code, op: Byte, size: int, target: int)
    requires size == 4 || (Saving(op) == 4 - size && Saving(op) >= 3 && |out| >= 2 - size)
    requires var o := EmitBranch(out, op, 4 - size, target); |o| == |out| + size && |o| <= |code| && code[..|o|] == o
    requires size != 4 ==> -128 <= target - (|out| + size) <= 127
    requires 0 <= target < 0x8000_0000 && |out| + size < 0x8000_0000
    requires |out| + size >= 2
    ensures LandsAt(code, op, size, |out| + size, target)
  {
    var o := EmitBranch(out, op, 4 - size, target);
    var n := target - (|out| + size);
    var e := |o|;
    if size == 4 {
      assert code[e - 4..e] == o[e - 4..] == Le32(n);
      Signed32Le(n);
    } else {
      assert code[e - 1] == o[e - 1] && code[e - 2] == o[e - 2];
      Signed8Low(n);
    }
  }

  // ---- The three passes together ------------------------------------------------------------

  ghost predicate LabelsPlaced(pr: Prog)
    requires |pr.est| == |pr.walks|
  {
    forall s, k :: 0 <= s && 0 <= k && Place(pr, s, k) && k < |pr.walks[s]| && pr.walks[s][k].IsLabel() ==>
      Get(Linked(pr), pr.walks[s][k].pos) == Real(pr, s, k)
  }

  ghost predicate BranchesLand(pr: Prog, code: Code)
    requires |pr.est| == |pr.walks|
  {
    forall s, k :: 0 <= s && 0 <= k && IsBranch(pr, s, k) ==>
      && Get(pr.mem, pr.walks[s][k].pos) in pr.defs && Valid(pr, Target(pr, pr.walks[s][k]))
      && LandsAt(code, pr.walks[s][k].a.op, Size(pr, s, k), Real(pr, s, k + 1),
                 Real(pr, Target(pr, pr.walks[s][k]).s, Target(pr, pr.walks[s][k]).k))
      && (Size(pr, s, k) == 4 && EmitAt(pr.walks[s], k - 1) ==> StandsAt(code, pr.walks[s][k - 1].a.b, Real(pr, s, k + 1) - 5))
  }

  predicate StandsAt(code: Code, b: Byte, i: int) { 0 <= i < |code| && code[i] == b }

  predicate All(bs: Code, b: Byte) { forall i :: 0 <= i < |bs| ==> bs[i] == b }

  /** What the bytes of a cell that is no branch say, up to offset `to' of the code. */
  predicate Says(pr: Prog, base: int, c: Cell, bs: Code, to: int) {
    if !c.Act? then bs == []
    else match c.a
      case Emit(b) => |bs| == 1 && bs[0] == b
      case ImmD => |bs| == 4 && Word(bs) == c.arg % 0x1_0000_0000
      case Space(fill) => |bs| == c.arg && All(bs, fill)
      case ImmPC =>
        && |bs| == 4 && Get(pr.mem, c.pos) in pr.defs && Valid(pr, Target(pr, c)) && |pr.est| == |pr.walks|
        && Word(bs) == (Real(pr, Target(pr, c).s, Target(pr, c).k) + base) % 0x1_0000_0000
      case Align(mask) => |bs| <= mask && All(bs, 0x90) && to % (mask + 1) == 0
      case _ => bs == []
  }

  lemma CellSays(pr: Prog, base: int, s: nat, k: nat)
    requires ProgOk(pr) && BranchesOk(pr)
    requires Place(pr, s, k) && k < |pr.walks[s]| && !IsBranch(pr, s, k) && !Replaced(pr, s, k)
    ensures Says(pr, base, pr.walks[s][k], Plain(pr, base, s, k), Real(pr, s, k + 1))
  {
    hide ProgOk, BranchesOk, Linked, Swept, Real, Est, Output, Replaced, Word, Le32;
    SizeRoom(pr, s, k);
    CellSlots(pr, s, k);
    var c := pr.walks[s][k];
    if c.IsRef() {
      TargetIs(pr, s, k);
      WordLe32(Real(pr, Target(pr, c).s, Target(pr, c).k) + base);
    }
    if c.Act? && c.a.ImmD? { WordLe32(c.arg); }
    if c.Act? && c.a.Align? { AlignPads(pr, s, k); }
  }

  ghost predicate BytesStand(pr: Prog, base: int, code: Code)
    requires |pr.est| == |pr.walks|
  {
    forall s, k :: 0 <= s && 0 <= k && Place(pr, s, k) && k < |pr.walks[s]| && !IsBranch(pr, s, k) && !Replaced(pr, s, k) ==>
      && 0 <= Real(pr, s, k) <= Real(pr, s, k + 1) <= |code|
      && Says(pr, base, pr.walks[s][k], code[Real(pr, s, k)..Real(pr, s, k + 1)], Real(pr, s, k + 1))
  }

  /** The three passes agree: no phase error, labels linked to the places they are emitted at,
      branches that land on them, and everything else in its place. */
  lemma PassesAgree(pr: Prog, base: int)
    ensures ProgOk(pr) && BranchesOk(pr) ==>
      && |Output(pr, base)| == CodeSize(pr)
      && LabelsPlaced(pr)
      && BytesStand(pr, base, Output(pr, base))
      && (CodeSize(pr) < 0x8000_0000 ==> BranchesLand(pr, Output(pr, base)))
  {
    hide ProgOk, BranchesOk, EmitCell, Linked, Swept, Real, LandsAt, Says, Plain;
    if ProgOk(pr) && BranchesOk(pr) {
      Lengths(pr);
      NoPhaseError(pr, base);
      forall s, k | 0 <= s && 0 <= k && Place(pr, s, k) && k < |pr.walks[s]| && pr.walks[s][k].IsLabel()
        ensures Get(Linked(pr), pr.walks[s][k].pos) == Real(pr, s, k)
      {
        LabelLinked(pr, s, k);
      }
      forall s, k | 0 <= s && 0 <= k && Place(pr, s, k) && k < |pr.walks[s]| && !IsBranch(pr, s, k) && !Replaced(pr, s, k)
        ensures 0 <= Real(pr, s, k) <= Real(pr, s, k + 1) <= |Output(pr, base)|
        ensures Says(pr, base, pr.walks[s][k], Output(pr, base)[Real(pr, s, k)..Real(pr, s, k + 1)], Real(pr, s, k + 1))
      {
        PlainBytes(pr, base, s, k);
        CellSays(pr, base, s, k);
      }
      if CodeSize(pr) < 0x8000_0000 { AllBranchesLand(pr, base); }
    }
  }

  lemma AllBranchesLand(pr: Prog, base: int)
    requires ProgOk(pr) && BranchesOk(pr) && CodeSize(pr) < 0x8000_0000
    ensures BranchesLand(pr, Output(pr, base))
  {
    hide ProgOk, BranchesOk, EmitCell, Linked, Swept, Real, LandsAt;
    Lengths(pr);
    forall s, k | 0 <= s && 0 <= k && IsBranch(pr, s, k)
      ensures Get(pr.mem, pr.walks[s][k].pos) in pr.defs && Valid(pr, Target(pr, pr.walks[s][k]))
      ensures LandsAt(Output(pr, base), pr.walks[s][k].a.op, Size(pr, s, k), Real(pr, s, k + 1),
                Real(pr, Target(pr, pr.walks[s][k]).s, Target(pr, pr.walks[s][k]).k))
    {
      BranchLands(pr, base, s, k);
    }
    forall s, k | 0 <= s && 0 <= k && IsBranch(pr, s, k) && Size(pr, s, k) == 4 && EmitAt(pr.walks[s], k - 1)
      ensures StandsAt(Output(pr, base), pr.walks[s][k - 1].a.b, Real(pr, s, k + 1) - 5)
    {
      OpcodeStands(pr, base, s, k);
    }
  }

  /** A long branch leaves the opcode byte in front of its displacement. */
  lemma OpcodeStands(pr: Prog, base: int, s: nat, k: nat)
    requires ProgOk(pr) && BranchesOk(pr) && IsBranch(pr, s, k) && Size(pr, s, k) == 4 && EmitAt(pr.walks[s], k - 1)
    ensures StandsAt(Output(pr, base), pr.walks[s][k - 1].a.b, Real(pr, s, k + 1) - 5)
  {
    hide ProgOk, BranchesOk, EmitCell, Linked, Swept, Real, Output;
    if k + 1 < |pr.walks[s]| {
      TakenBounds(pr, s, k + 1);
      assert Taken(pr, s, k + 1) >= 2 ==> EmitAt(pr.walks[s], k);
    }
    PlainAt(pr, base, s, k - 1);
    EmitsBefore(pr, s, k, 1);
    assert Plain(pr, base, s, k - 1) == [pr.walks[s][k - 1].a.b];
    var out := Output(pr, base);
    assert out[Real(pr, s, k - 1)..Real(pr, s, k)][0] == out[Real(pr, s, k - 1)];
  }
}
