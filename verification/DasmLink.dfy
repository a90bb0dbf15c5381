/** Pass 2 (dasm_x86.h:257-350): one sweep that shrinks branches and alignments and turns the
    estimates of labels into offsets. */
module DasmLink {
  import opened DasmActions
  import opened DasmLayout

  /** Bytes saved by the short form of a branch opcode: jmp, jcc, anything else. */
  function Saving(op: Byte): nat {
    if op == 0xe9 then 3 else if op / 16 == 8 then 4 else 0
  }

  /** Sum of the estimated sizes of sections `s' to `t - 1'. */
  function Span(est: seq<int>, s: nat, t: int): int
    decreases t - s
  {
    if s >= t || s >= |est| then 0 else est[s] + Span(est, s + 1, t)
  }

  /** The decision for a branch, given the correction `ofs' accumulated so far. */
  function Shrink(m: Memory, est: seq<int>, s: nat, c: Cell, ofs: int): nat
    requires c.Act? && c.a.RelPC?
  {
    var sh := Saving(c.a.op);
    if sh == 0 then 0
    else
      var lpos := Get(m, c.pos);
      var lofs := if lpos > c.pos then Get(m, lpos) + Span(est, s, PosSection(lpos)) else Get(m, lpos) - ofs;
      var d := lofs - Get(m, c.pos + 1);
      if -128 - sh <= d <= 127 then sh else 0
  }

  datatype LinkState = LinkState(mem: Memory, ofs: int)

  function LinkCell(st: LinkState, est: seq<int>, s: nat, c: Cell): LinkState {
    if !c.Act? then st
    else match c.a
      case RelPC(_) =>
        var sh := Shrink(st.mem, est, s, c, st.ofs);
        LinkState(st.mem[c.pos + 1 := sh], st.ofs - sh)
      case LabelPC => LinkState(st.mem[c.pos := Get(st.mem, c.pos) + st.ofs], st.ofs)
      case Align(mask) => LinkState(st.mem, st.ofs - And(Get(st.mem, c.pos) + st.ofs, mask))
      case _ => st
  }

  /** The state of the sweep in front of cell `k' of section `s'. */
  function Swept(pr: Prog, s: nat, k: nat): LinkState
    requires |pr.est| == |pr.walks| && s <= |pr.walks| && (if s < |pr.walks| then k <= |pr.walks[s]| else k == 0)
    decreases s, k
  {
    if k > 0 then LinkCell(Swept(pr, s, k - 1), pr.est, s, pr.walks[s][k - 1])
    else if s > 0 then
      var st := Swept(pr, s - 1, |pr.walks[s - 1]|);
      LinkState(st.mem, st.ofs + pr.est[s - 1])
    else LinkState(pr.mem, 0)
  }

  predicate Place(pr: Prog, s: nat, k: nat) {
    |pr.est| == |pr.walks| && s < |pr.walks| && k <= |pr.walks[s]|
  }

  /** Where cell `k' of section `s' really starts in the code. */
  function Real(pr: Prog, s: nat, k: nat): int
    requires Place(pr, s, k)
  {
    Est(pr.walks[s], k) + Swept(pr, s, k).ofs
  }

  /** The buffers when the sweep is over. */
  function Linked(pr: Prog): Memory
    requires |pr.est| == |pr.walks|
  {
    Swept(pr, |pr.walks|, 0).mem
  }

  function CodeSize(pr: Prog): int
    requires |pr.est| == |pr.walks|
  {
    Swept(pr, |pr.walks|, 0).ofs
  }

  // ---- Which slots a sweep has touched --------------------------------------------------

  lemma CellTouches(st: LinkState, est: seq<int>, s: nat, c: Cell, q: int)
    requires !(c.pos <= q < c.End())
    ensures Get(LinkCell(st, est, s, c).mem, q) == Get(st.mem, q)
  {
  }

  /** Slots at or behind a cell are untouched when the sweep gets there. */
  lemma {:induction false} Untouched(pr: Prog, s: nat, k: nat, q: int)
    requires ProgOk(pr) && Place(pr, s, k)
    requires k < |pr.walks[s]| ==> q >= pr.walks[s][k].pos
    requires k == |pr.walks[s]| ==> q >= (s + 1) * BIAS
    ensures Get(Swept(pr, s, k).mem, q) == Get(pr.mem, q)
    decreases s, k
  {
    if k > 0 {
      var c := pr.walks[s][k - 1];
      assert PositionsOk(pr.walks[s], s);
      Untouched(pr, s, k - 1, q);
      CellTouches(Swept(pr, s, k - 1), pr.est, s, c, q);
    } else if s > 0 {
      if k < |pr.walks[s]| { assert PositionsOk(pr.walks[s], s); }
      Untouched(pr, s - 1, |pr.walks[s - 1]|, q);
    }
  }

  /** Slots in front of a cell keep their contents from there on. */
  lemma {:induction false} Settled(pr: Prog, s: nat, k: nat, t: nat, j: nat, q: int)
    requires ProgOk(pr) && Place(pr, s, k) && t <= |pr.walks| && (if t < |pr.walks| then j <= |pr.walks[t]| else j == 0)
    requires s < t || (s == t && k <= j)
    requires k > 0 && q < pr.walks[s][k - 1].End()
    ensures Get(Swept(pr, t, j).mem, q) == Get(Swept(pr, s, k).mem, q)
    decreases t, j
  {
    hide ProgOk, Swept;
    if s == t && k == j {
    } else if j > 0 {
      BehindStarts(pr, s, k, t, j - 1);
      Settled(pr, s, k, t, j - 1, q);
      CellTouches(Swept(pr, t, j - 1), pr.est, t, pr.walks[t][j - 1], q);
      SweptCell(pr, t, j);
    } else {
      Settled(pr, s, k, t - 1, |pr.walks[t - 1]|, q);
      SweptSection(pr, t);
    }
  }

  lemma SweptCell(pr: Prog, s: nat, k: nat)
    requires Place(pr, s, k) && k > 0
    ensures Swept(pr, s, k) == LinkCell(Swept(pr, s, k - 1), pr.est, s, pr.walks[s][k - 1])
  {
  }

  lemma SweptSection(pr: Prog, s: nat)
    requires |pr.est| == |pr.walks| && 0 < s <= |pr.walks|
    ensures Swept(pr, s, 0).mem == Swept(pr, s - 1, |pr.walks[s - 1]|).mem
  {
  }

  lemma BehindStarts(pr: Prog, s: nat, k: nat, t: nat, j: nat)
    requires ProgOk(pr) && Place(pr, s, k) && k > 0 && t < |pr.walks| && j < |pr.walks[t]|
    requires s < t || (s == t && k <= j)
    ensures pr.walks[s][k - 1].End() <= pr.walks[t][j].pos
  {
    assert PositionsOk(pr.walks[s], s) && PositionsOk(pr.walks[t], t);
  }

  // ---- The real offsets -----------------------------------------------------------------

  /** What a cell finds in its own slots when the sweep reaches it: the estimates of pass 1. */
  lemma OwnSlots(pr: Prog, s: nat, k: nat)
    requires ProgOk(pr) && Place(pr, s, k) && k < |pr.walks[s]|
    ensures forall q :: pr.walks[s][k].pos <= q ==> Get(Swept(pr, s, k).mem, q) == Get(pr.mem, q)
  {
    forall q | pr.walks[s][k].pos <= q ensures Get(Swept(pr, s, k).mem, q) == Get(pr.mem, q) {
      Untouched(pr, s, k, q);
    }
  }

  /** A section starts where the previous one ends. */
  lemma SectionsMeet(pr: Prog, s: nat)
    requires ProgOk(pr) && s < |pr.walks|
    ensures Real(pr, s, |pr.walks[s]|) == Swept(pr, s + 1, 0).ofs
    ensures s + 1 < |pr.walks| ==> Real(pr, s, |pr.walks[s]|) == Real(pr, s + 1, 0)
  {
  }

  /** The size a cell really has. */
  function Size(pr: Prog, s: nat, k: nat): int
    requires Place(pr, s, k) && k < |pr.walks[s]|
  {
    Real(pr, s, k + 1) - Real(pr, s, k)
  }

  /** The linked size of a cell: a shrunk branch loses its saving, an alignment is padded
      to the next multiple, everything else has its full size. */
  lemma SizeIs(pr: Prog, s: nat, k: nat)
    requires ProgOk(pr) && Place(pr, s, k) && k < |pr.walks[s]|
    ensures Size(pr, s, k) == SizeOf(pr, s, k)
    ensures 0 <= Size(pr, s, k) <= pr.walks[s][k].Room()
  {
    OwnSlots(pr, s, k);
    assert FieldsOk(pr.mem, pr.walks[s], k);
    hide ProgOk;
    var c := pr.walks[s][k];
    if c.Act? && c.a.Align? {
      MaskIsRemainder(Real(pr, s, k) + c.a.mask, c.a.mask);
    }
  }

  function SizeOf(pr: Prog, s: nat, k: nat): int
    requires Place(pr, s, k) && k < |pr.walks[s]|
  {
    var c := pr.walks[s][k];
    var st := Swept(pr, s, k);
    if c.Act? && c.a.RelPC? then 4 - Shrink(st.mem, pr.est, s, c, st.ofs)
    else if c.Act? && c.a.Align? then c.a.mask - (Real(pr, s, k) + c.a.mask) % (c.a.mask + 1)
    else c.Room()
  }

  // ---- Order of the real offsets ---------------------------------------------------------

  /** Location (s, k) comes no later than (t, j). */
  predicate Before(s: nat, k: nat, t: nat, j: nat) {
    s < t || (s == t && k <= j)
  }

  lemma {:induction false} RealMonotone(pr: Prog, s: nat, k: nat, t: nat, j: nat)
    requires ProgOk(pr) && Place(pr, s, k) && Place(pr, t, j) && Before(s, k, t, j)
    ensures Real(pr, s, k) <= Real(pr, t, j)
    decreases t, j
  {
    if s == t && k == j {
    } else if j > 0 {
      RealMonotone(pr, s, k, t, j - 1);
      SizeIs(pr, t, j - 1);
    } else {
      RealMonotone(pr, s, k, t - 1, |pr.walks[t - 1]|);
      SectionsMeet(pr, t - 1);
    }
  }

  lemma RealNonnegative(pr: Prog, s: nat, k: nat)
    requires ProgOk(pr) && Place(pr, s, k)
    ensures 0 <= Real(pr, s, k)
  {
    RealMonotone(pr, 0, 0, s, k);
  }

  lemma RealStep(pr: Prog, s: nat, k: nat)
    requires ProgOk(pr) && Place(pr, s, k) && k < |pr.walks[s]|
    ensures Real(pr, s, k + 1) - Real(pr, s, k) <= Est(pr.walks[s], k + 1) - Est(pr.walks[s], k)
  {
    hide ProgOk, Swept, SizeOf;
    SizeIs(pr, s, k);
  }

  lemma RealNext(pr: Prog, s: nat)
    requires ProgOk(pr) && s + 1 < |pr.walks|
    ensures Place(pr, s + 1, 0) && Real(pr, s + 1, 0) == Real(pr, s, |pr.walks[s]|)
    ensures Est(pr.walks[s + 1], 0) == 0 && Est(pr.walks[s], |pr.walks[s]|) == pr.est[s]
  {
    SectionsMeet(pr, s);
    hide Real, Swept;
  }

  /** Shrinking only brings code closer: between two places the estimates bound the real
      distance, over section borders too. */
  lemma {:induction false} DistanceBound(pr: Prog, s: nat, k: nat, t: nat, j: nat)
    requires ProgOk(pr) && Place(pr, s, k) && Place(pr, t, j) && Before(s, k, t, j)
    ensures Real(pr, t, j) - Real(pr, s, k) <= Est(pr.walks[t], j) + Span(pr.est, s, t) - Est(pr.walks[s], k)
    decreases t, j
  {
    hide ProgOk, Swept, Real, Est;
    if s == t && k == j {
    } else if j > 0 {
      DistanceBound(pr, s, k, t, j - 1);
      RealStep(pr, t, j - 1);
    } else {
      DistanceBound(pr, s, k, t - 1, |pr.walks[t - 1]|);
      RealNext(pr, t - 1);
      SpanSplit(pr.est, s, t - 1);
    }
  }

  lemma {:induction false} SpanSplit(est: seq<int>, s: nat, t: nat)
    requires s <= t < |est|
    ensures Span(est, s, t + 1) == Span(est, s, t) + est[t]
    decreases t - s
  {
    if s < t { SpanSplit(est, s + 1, t); }
  }

  // ---- What the buffers hold after the sweep ----------------------------------------------

  lemma FinalSlot(pr: Prog, s: nat, k: nat, q: int)
    requires ProgOk(pr) && Place(pr, s, k) && k < |pr.walks[s]|
    requires pr.walks[s][k].pos <= q < pr.walks[s][k].End()
    ensures Get(Linked(pr), q) == Get(LinkCell(Swept(pr, s, k), pr.est, s, pr.walks[s][k]).mem, q)
  {
    Settled(pr, s, k + 1, |pr.walks|, 0, q);
  }

  /** A label's linked slot is the place of the label in the code. */
  lemma LabelLinked(pr: Prog, s: nat, k: nat)
    requires ProgOk(pr) && Place(pr, s, k) && k < |pr.walks[s]| && pr.walks[s][k].IsLabel()
    ensures Get(Linked(pr), pr.walks[s][k].pos) == Real(pr, s, k)
  {
    FinalSlot(pr, s, k, pr.walks[s][k].pos);
    OwnSlots(pr, s, k);
    assert FieldsOk(pr.mem, pr.walks[s], k);
  }

  /** A branch keeps its reference and learns what it saved. */
  lemma BranchLinked(pr: Prog, s: nat, k: nat)
    requires ProgOk(pr) && Place(pr, s, k) && k < |pr.walks[s]|
    requires pr.walks[s][k].Act? && pr.walks[s][k].a.RelPC?
    ensures var c := pr.walks[s][k];
      && Get(Linked(pr), c.pos) == Get(pr.mem, c.pos)
      && Get(Linked(pr), c.pos + 1) == 4 - Size(pr, s, k)
  {
    hide ProgOk, Linked, Swept;
    FinalSlot(pr, s, k, pr.walks[s][k].pos);
    FinalSlot(pr, s, k, pr.walks[s][k].pos + 1);
    OwnSlots(pr, s, k);
    SizeIs(pr, s, k);
  }

  /** Cells the sweep only skips. */
  lemma PlainLinked(pr: Prog, s: nat, k: nat)
    requires ProgOk(pr) && Place(pr, s, k) && k < |pr.walks[s]|
    requires !(pr.walks[s][k].Act? && (pr.walks[s][k].a.RelPC? || pr.walks[s][k].a.LabelPC?))
    ensures var c := pr.walks[s][k]; c.Fields() > 0 ==> Get(Linked(pr), c.pos) == Get(pr.mem, c.pos)
  {
    if pr.walks[s][k].Fields() > 0 {
      FinalSlot(pr, s, k, pr.walks[s][k].pos);
      OwnSlots(pr, s, k);
    }
  }

  // ---- The safety of one greedy sweep ------------------------------------------------------

  /** What a branch finds at its target: the final offset of a label behind it, the estimate
      of a label ahead. */
  lemma TargetSlot(pr: Prog, s: nat, k: nat, t: nat, j: nat)
    requires ProgOk(pr) && Place(pr, s, k) && k < |pr.walks[s]| && Place(pr, t, j) && j < |pr.walks[t]|
    requires pr.walks[s][k].Act? && pr.walks[s][k].a.RelPC? && pr.walks[t][j].IsLabel()
    ensures var lpos := pr.walks[t][j].pos;
      Get(Swept(pr, s, k).mem, lpos) == if lpos > pr.walks[s][k].pos then Est(pr.walks[t], j) else Real(pr, t, j)
    ensures pr.walks[t][j].pos > pr.walks[s][k].pos <==> Before(s, k, t, j)
    ensures PosSection(pr.walks[t][j].pos) == t
  {
    TargetOrder(pr, s, k, t, j);
    hide *;
    if pr.walks[t][j].pos > pr.walks[s][k].pos {
      LabelStored(pr, t, j);
      AheadSlot(pr, s, k, pr.walks[t][j].pos);
    } else {
      BehindSlot(pr, s, k, t, j);
    }
  }

  lemma AheadSlot(pr: Prog, s: nat, k: nat, q: int)
    requires ProgOk(pr) && Place(pr, s, k) && k < |pr.walks[s]| && q >= pr.walks[s][k].pos
    ensures Get(Swept(pr, s, k).mem, q) == Get(pr.mem, q)
  {
    hide ProgOk, Swept;
    Untouched(pr, s, k, q);
  }

  lemma BehindSlot(pr: Prog, s: nat, k: nat, t: nat, j: nat)
    requires ProgOk(pr) && Place(pr, s, k) && k < |pr.walks[s]| && Place(pr, t, j) && j < |pr.walks[t]|
    requires pr.walks[t][j].IsLabel() && pr.walks[s][k].Act? && pr.walks[s][k].a.RelPC? && !Before(s, k, t, j)
    ensures Get(Swept(pr, s, k).mem, pr.walks[t][j].pos) == Real(pr, t, j)
  {
    BehindOrder(pr.walks[s][k], pr.walks[t][j], s, k, t, j);
    BehindPlace(pr, s, k, t, j);
    hide *;
    LabelNow(pr, t, j);
    Settled(pr, t, j + 1, s, k, pr.walks[t][j].pos);
  }

  lemma BehindOrder(c: Cell, d: Cell, s: nat, k: nat, t: nat, j: nat)
    requires d.IsLabel() && c.Act? && c.a.RelPC? && !Before(s, k, t, j)
    ensures t < s || (t == s && j + 1 <= k)
    ensures d.pos < d.End()
  {
  }

  lemma BehindPlace(pr: Prog, s: nat, k: nat, t: nat, j: nat)
    requires Place(pr, s, k) && k < |pr.walks[s]| && Place(pr, t, j) && j < |pr.walks[t]|
    ensures Place(pr, t, j + 1) && s < |pr.walks| && k <= |pr.walks[s]| && |pr.est| == |pr.walks|
  {
  }

  lemma LabelNow(pr: Prog, t: nat, j: nat)
    requires ProgOk(pr) && Place(pr, t, j) && j < |pr.walks[t]| && pr.walks[t][j].IsLabel()
    ensures Get(Swept(pr, t, j + 1).mem, pr.walks[t][j].pos) == Real(pr, t, j)
  {
    LabelStored(pr, t, j);
    SweptCell(pr, t, j + 1);
    hide ProgOk, Swept, Est;
    OwnSlots(pr, t, j);
  }

  lemma TargetOrder(pr: Prog, s: nat, k: nat, t: nat, j: nat)
    requires ProgOk(pr) && Place(pr, s, k) && k < |pr.walks[s]| && Place(pr, t, j) && j < |pr.walks[t]|
    requires pr.walks[s][k].Act? && pr.walks[s][k].a.RelPC? && pr.walks[t][j].IsLabel()
    ensures pr.walks[t][j].pos > pr.walks[s][k].pos <==> Before(s, k, t, j)
    ensures pr.walks[t][j].pos >= pr.walks[s][k].pos <==> Before(s, k, t, j)
    ensures PosSection(pr.walks[t][j].pos) == t
  {
    assert PositionsOk(pr.walks[s], s) && PositionsOk(pr.walks[t], t);
    hide ProgOk;
  }

  lemma LabelStored(pr: Prog, t: nat, j: nat)
    requires ProgOk(pr) && Place(pr, t, j) && j < |pr.walks[t]| && pr.walks[t][j].IsLabel()
    ensures Get(pr.mem, pr.walks[t][j].pos) == Est(pr.walks[t], j)
  {
    assert FieldsOk(pr.mem, pr.walks[t], j);
  }

  /** How far a branch seems to reach when the sweep comes to it: what lies ahead is counted by
      its estimates, what lies behind by its final offsets. */
  function Distance(pr: Prog, s: nat, k: nat, t: nat, j: nat): int
    requires Place(pr, s, k) && k < |pr.walks[s]| && Place(pr, t, j)
  {
    if Before(s, k, t, j) then Est(pr.walks[t], j) + Span(pr.est, s, t) - Est(pr.walks[s], k + 1)
    else Real(pr, t, j) - (Real(pr, s, k) + 4)
  }

  lemma DistanceIs(pr: Prog, s: nat, k: nat, t: nat, j: nat)
    requires Place(pr, s, k) && k < |pr.walks[s]| && Place(pr, t, j)
    ensures Distance(pr, s, k, t, j) ==
      if Before(s, k, t, j) then Est(pr.walks[t], j) + Span(pr.est, s, t) - Est(pr.walks[s], k + 1)
      else Real(pr, t, j) - (Real(pr, s, k) + 4)
  {
  }

  lemma ShrinkIs(m: Memory, est: seq<int>, s: nat, c: Cell, ofs: int, lpos: int, lofs: int, e: int, t: nat, d: int)
    requires c.Act? && c.a.RelPC? && Get(m, c.pos) == lpos && Get(m, lpos) == lofs && Get(m, c.pos + 1) == e
    requires PosSection(lpos) == t && d == if lpos > c.pos then lofs + Span(est, s, t) - e else lofs - ofs - e
    ensures Shrink(m, est, s, c, ofs) == if Saving(c.a.op) != 0 && -128 - Saving(c.a.op) <= d <= 127 then Saving(c.a.op) else 0
  {
    hide Saving, Span, PosSection, Get;
  }

  lemma BranchFrom(pr: Prog, s: nat, k: nat)
    requires Place(pr, s, k) && k < |pr.walks[s]| && pr.walks[s][k].Act? && pr.walks[s][k].a.RelPC?
    ensures Real(pr, s, k) + 4 == Est(pr.walks[s], k + 1) + Swept(pr, s, k).ofs
  {
    hide Swept;
  }

  lemma ShrinkChosen(pr: Prog, s: nat, k: nat, t: nat, j: nat)
    requires ProgOk(pr) && Place(pr, s, k) && k < |pr.walks[s]| && Place(pr, t, j) && j < |pr.walks[t]|
    requires pr.walks[s][k].Act? && pr.walks[s][k].a.RelPC? && pr.walks[t][j].IsLabel()
    requires Get(pr.mem, pr.walks[s][k].pos) == pr.walks[t][j].pos
    ensures Shrink(Swept(pr, s, k).mem, pr.est, s, pr.walks[s][k], Swept(pr, s, k).ofs) ==
      if Saving(pr.walks[s][k].a.op) != 0 && -128 - Saving(pr.walks[s][k].a.op) <= Distance(pr, s, k, t, j) <= 127
      then Saving(pr.walks[s][k].a.op) else 0
  {
    hide ProgOk, Swept, Real, Est, Span, Saving, Shrink, Distance, Get, PosSection, Before;
    var st, lpos := Swept(pr, s, k), pr.walks[t][j].pos;
    TargetSlot(pr, s, k, t, j);
    BranchSlots(pr, s, k);
    BranchFrom(pr, s, k);
    DistanceIs(pr, s, k, t, j);
    ShrinkIs(st.mem, pr.est, s, pr.walks[s][k], st.ofs, lpos, Get(st.mem, lpos), Est(pr.walks[s], k + 1), t, Distance(pr, s, k, t, j));
  }

  /** A jump (e9) shrinks to one byte more than its short opcode, a conditional jump (0f 8x) to
      none, and both exactly if the label seems near enough; no other branch shrinks. */
  lemma SizeExactly(pr: Prog, s: nat, k: nat, t: nat, j: nat)
    requires ProgOk(pr) && Place(pr, s, k) && k < |pr.walks[s]| && Place(pr, t, j) && j < |pr.walks[t]|
    requires pr.walks[s][k].Act? && pr.walks[s][k].a.RelPC? && pr.walks[t][j].IsLabel()
    requires Get(pr.mem, pr.walks[s][k].pos) == pr.walks[t][j].pos
    ensures var op := pr.walks[s][k].a.op; var d := Distance(pr, s, k, t, j);
      Size(pr, s, k) ==
        if op == 0xe9 && -131 <= d <= 127 then 1
        else if 0x80 <= op <= 0x8f && -132 <= d <= 127 then 0
        else 4
  {
    hide ProgOk, Swept, Span, Distance, Shrink, Real, Size;
    ShrinkChosen(pr, s, k, t, j);
    SizeIs(pr, s, k);
  }

  /** Every branch that was shrunk reaches its label with a signed byte, whatever lies in
      between: alignments, other branches, other sections. */
  lemma ShortBranchFits(pr: Prog, s: nat, k: nat, t: nat, j: nat)
    requires ProgOk(pr) && Place(pr, s, k) && k < |pr.walks[s]| && Place(pr, t, j) && j < |pr.walks[t]|
    requires pr.walks[s][k].Act? && pr.walks[s][k].a.RelPC? && pr.walks[t][j].IsLabel()
    requires Get(pr.mem, pr.walks[s][k].pos) == pr.walks[t][j].pos
    ensures Size(pr, s, k) != 4 ==>
      Size(pr, s, k) == 4 - Saving(pr.walks[s][k].a.op) && -128 <= Real(pr, t, j) - Real(pr, s, k + 1) <= 127
  {
    hide ProgOk, Swept, Span;
    TargetSlot(pr, s, k, t, j);
    BranchSlots(pr, s, k);
    SizeIs(pr, s, k);
    if Before(s, k, t, j) {
      RealMonotone(pr, s, k + 1, t, j);
      DistanceBound(pr, s, k + 1, t, j);
    } else {
      RealMonotone(pr, t, j, s, k);
    }
  }

  lemma BranchSlots(pr: Prog, s: nat, k: nat)
    requires ProgOk(pr) && Place(pr, s, k) && k < |pr.walks[s]|
    requires pr.walks[s][k].Act? && pr.walks[s][k].a.RelPC?
    ensures var c := pr.walks[s][k]; var st := Swept(pr, s, k);
      && Get(st.mem, c.pos) == Get(pr.mem, c.pos)
      && Get(st.mem, c.pos + 1) == Est(pr.walks[s], k + 1)
  {
    OwnSlots(pr, s, k);
    assert FieldsOk(pr.mem, pr.walks[s], k);
  }
}
