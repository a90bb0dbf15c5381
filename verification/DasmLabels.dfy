/** What dasm_put keeps: the buffers hold the actions put so far, and every PC label is either
    defined or anchors the chain of its references (dasm_x86.h:211-255). */
module DasmLabels {
  import opened DasmActions
  import opened DasmLayout
  import opened DasmEncode

  type Walks = seq<seq<Cell>>

  /** The section buffers and the label array; for the proofs also the cells, where reference
      and label slots lie, and the chain of every label, newest reference first. */
  datatype Asm = Asm(ws: Walks, buf: Memory, labels: seq<int>,
                     refs: map<int, Loc>, defs: map<int, Loc>, chains: seq<seq<int>>)

  predicate Has(ws: Walks, l: Loc) {
    l.s < |ws| && l.k < |ws[l.s]|
  }

  function At(ws: Walks, l: Loc): Cell
    requires Has(ws, l)
  {
    ws[l.s][l.k]
  }

  ghost predicate WalksOk(al: seq<Byte>, ws: Walks) {
    forall s :: 0 <= s < |ws| ==> SectionOk(al, ws[s], s)
  }

  ghost predicate SectionOk(al: seq<Byte>, cs: seq<Cell>, s: nat) {
    && WalkOk(al, cs, s * BIAS)
    && PositionsOk(cs, s)
    && (forall k :: 0 <= k < |cs| ==> BranchOk(cs, k))
  }

  ghost predicate SlotsOk(ws: Walks, buf: Memory) {
    forall s, k :: 0 <= s < |ws| && 0 <= k < |ws[s]| ==> FieldsOk(buf, ws[s], k)
  }

  /** `refs' are exactly the slots of references, `defs' those of labels. */
  ghost predicate IndexOk(ws: Walks, refs: map<int, Loc>, defs: map<int, Loc>) {
    Indexes(ws, refs, true) && Indexes(ws, defs, false)
  }

  predicate Kin(c: Cell, ref: bool) { if ref then c.IsRef() else c.IsLabel() }

  ghost predicate Indexes(ws: Walks, where: map<int, Loc>, ref: bool) {
    && (forall q :: q in where ==> q > 0 && Has(ws, where[q]) && Kin(At(ws, where[q]), ref) && At(ws, where[q]).pos == q)
    && (forall s, k :: 0 <= s < |ws| && 0 <= k < |ws[s]| && Kin(ws[s][k], ref) ==>
          ws[s][k].pos in where && where[ws[s][k].pos] == Loc(s, k))
  }

  /** The slot at `q' is one of `where', and its label is `l'. */
  predicate Of(ws: Walks, where: map<int, Loc>, q: int, l: int) {
    q in where && Has(ws, where[q]) && At(ws, where[q]).Act? && At(ws, where[q]).arg == l
  }

  function Next(ch: seq<int>, i: nat): int {
    if i < |ch| then ch[i] else 0
  }

  /** Following the buffer from `n' visits the slots of `ch', in order, and ends. */
  predicate ChainOk(buf: Memory, n: int, ch: seq<int>) {
    && n == Next(ch, 0)
    && (forall i :: 0 <= i < |ch| ==> ch[i] > 0 && ch[i] in buf && buf[ch[i]] == Next(ch, i + 1))
    && (forall i, j :: 0 <= i < j < |ch| ==> ch[i] != ch[j])
  }

  /** The anchored chain of an undefined label visits exactly its references. */
  ghost predicate Pending(a: Asm, l: nat)
    requires l < |a.labels| && |a.chains| == |a.labels|
  {
    && ChainOk(a.buf, a.labels[l], a.chains[l])
    && (forall q :: q in a.chains[l] <==> Of(a.ws, a.refs, q, l))
    && (forall q :: !Of(a.ws, a.defs, q, l))
  }

  /** All references to a defined label hold a position of the label. */
  ghost predicate Defined(a: Asm, l: nat)
    requires l < |a.labels| && |a.chains| == |a.labels|
  {
    && a.chains[l] == []
    && Of(a.ws, a.defs, -a.labels[l], l)
    && (forall q :: Of(a.ws, a.refs, q, l) ==> Of(a.ws, a.defs, Get(a.buf, q), l))
  }

  ghost predicate LabelOk(a: Asm, l: nat)
    requires l < |a.labels| && |a.chains| == |a.labels|
  {
    if a.labels[l] < 0 then Defined(a, l) else Pending(a, l)
  }

  ghost predicate LabelsOk(a: Asm) {
    && |a.chains| == |a.labels|
    && (forall l :: 0 <= l < |a.labels| ==> LabelOk(a, l))
    && (forall q :: q in a.refs && Has(a.ws, a.refs[q]) && At(a.ws, a.refs[q]).Act? ==>
          0 <= At(a.ws, a.refs[q]).arg < |a.labels|)
  }

  ghost predicate AsmOk(al: seq<Byte>, a: Asm) {
    WalksOk(al, a.ws) && SlotsOk(a.ws, a.buf) && IndexOk(a.ws, a.refs, a.defs) && LabelsOk(a)
  }

  // ---- One more cell --------------------------------------------------------------------

  function Append(ws: Walks, s: nat, c: Cell): Walks
    requires s < |ws|
  {
    ws[s := ws[s] + [c]]
  }

  ghost predicate Fits(al: seq<Byte>, ws: Walks, s: nat, c: Cell) {
    && s < |ws|
    && c.pos == EndPos(ws[s], s * BIAS) && s * BIAS <= c.pos && c.End() <= (s + 1) * BIAS
    && DecodesTo(al, c)
    && (if ws[s] == [] then c.Begin? else Follows(al, ws[s][|ws[s]| - 1], c))
    && BranchOk(ws[s] + [c], |ws[s]|)
  }

  lemma AppendWalk(al: seq<Byte>, ws: Walks, s: nat, c: Cell)
    requires WalksOk(al, ws) && Fits(al, ws, s, c)
    ensures WalksOk(al, Append(ws, s, c))
  {
    var cs := ws[s];
    var ds := cs + [c];
    assert SectionOk(al, cs, s);
    forall i, j | 0 <= i < j < |ds| ensures ds[i].End() <= ds[j].pos {
      if j == |cs| { EndsBefore(cs, s, i); }
    }
    forall k | 0 <= k < |ds| ensures BranchOk(ds, k) {
      if k < |cs| { assert BranchOk(cs, k); }
    }
    assert SectionOk(al, ds, s);
    forall t | 0 <= t < |ws| ensures SectionOk(al, Append(ws, s, c)[t], t) {
      if t != s { assert SectionOk(al, ws[t], t); }
    }
  }

  lemma EndsBefore(cs: seq<Cell>, s: nat, i: nat)
    requires PositionsOk(cs, s) && i < |cs|
    ensures cs[i].End() <= EndPos(cs, s * BIAS)
  {
    if i < |cs| - 1 { assert cs[i].End() <= cs[|cs| - 1].pos; }
  }

  /** No old cell has a slot at or behind the end of its section. */
  lemma FreshSlot(al: seq<Byte>, ws: Walks, s: nat, q: int, t: nat, k: nat)
    requires WalksOk(al, ws) && s < |ws| && t < |ws| && k < |ws[t]|
    requires EndPos(ws[s], s * BIAS) <= q < (s + 1) * BIAS && s * BIAS <= q
    ensures !(ws[t][k].pos <= q < ws[t][k].End())
  {
    assert SectionOk(al, ws[t], t);
    if t == s { EndsBefore(ws[s], s, k); }
  }

  /** The buffers change only in new slots and in reference slots. */
  ghost predicate Grows(a: Asm, s: nat, c: Cell, buf: Memory) {
    && (forall q :: q in a.buf ==> q in buf)
    && (forall q :: q in a.buf && buf[q] != a.buf[q] ==> q in a.refs || c.pos <= q < c.End())
  }

  lemma AppendSlots(al: seq<Byte>, a: Asm, s: nat, c: Cell, buf: Memory)
    requires WalksOk(al, a.ws) && SlotsOk(a.ws, a.buf) && IndexOk(a.ws, a.refs, a.defs)
    requires Fits(al, a.ws, s, c) && Grows(a, s, c, buf)
    requires FieldsOk(buf, a.ws[s] + [c], |a.ws[s]|)
    ensures SlotsOk(Append(a.ws, s, c), buf)
  {
    var ws := Append(a.ws, s, c);
    forall t, k | 0 <= t < |ws| && 0 <= k < |ws[t]| ensures FieldsOk(buf, ws[t], k) {
      if k < |a.ws[t]| {
        OldSlots(al, a, s, c, buf, t, k);
        if t == s { MoreCells(buf, a.ws[s], c, k); }
      }
    }
  }

  lemma MoreCells(buf: Memory, cs: seq<Cell>, c: Cell, k: nat)
    requires k < |cs| && FieldsOk(buf, cs, k)
    ensures FieldsOk(buf, cs + [c], k)
  {
    EstPrefix(cs, [c], k);
    EstPrefix(cs, [c], k + 1);
  }

  lemma OldSlot(al: seq<Byte>, a: Asm, s: nat, c: Cell, buf: Memory, t: nat, k: nat, q: int)
    requires WalksOk(al, a.ws) && IndexOk(a.ws, a.refs, a.defs)
    requires Fits(al, a.ws, s, c) && Grows(a, s, c, buf)
    requires t < |a.ws| && k < |a.ws[t]|
    requires a.ws[t][k].pos <= q < a.ws[t][k].End() && q in a.buf && !(a.ws[t][k].IsRef() && q == a.ws[t][k].pos)
    ensures q in buf && buf[q] == a.buf[q]
  {
    hide WalksOk, Est;
    if buf[q] != a.buf[q] {
      if q in a.refs {
        OneOwner(al, a.ws, t, k, a.refs[q].s, a.refs[q].k, q);
      } else {
        FreshSlot(al, a.ws, s, q, t, k);
      }
    }
  }

  lemma OldSlots(al: seq<Byte>, a: Asm, s: nat, c: Cell, buf: Memory, t: nat, k: nat)
    requires WalksOk(al, a.ws) && SlotsOk(a.ws, a.buf) && IndexOk(a.ws, a.refs, a.defs)
    requires Fits(al, a.ws, s, c) && Grows(a, s, c, buf)
    requires t < |a.ws| && k < |a.ws[t]|
    ensures FieldsOk(buf, a.ws[t], k)
  {
    var d := a.ws[t][k];
    assert FieldsOk(a.buf, a.ws[t], k);
    assert forall q :: q in a.buf ==> q in buf;
    forall q | d.pos <= q < d.End() && q in a.buf && !(d.IsRef() && q == d.pos)
      ensures buf[q] == a.buf[q]
    {
      OldSlot(al, a, s, c, buf, t, k, q);
    }
    hide SlotsOk, WalksOk, Fits, Est, IndexOk, Grows;
  }

  /** A slot belongs to one cell. */
  lemma OneOwner(al: seq<Byte>, ws: Walks, s: nat, k: nat, t: nat, j: nat, q: int)
    requires WalksOk(al, ws) && s < |ws| && k < |ws[s]| && t < |ws| && j < |ws[t]|
    requires ws[s][k].pos <= q < ws[s][k].End() && ws[t][j].pos <= q < ws[t][j].End()
    ensures s == t && k == j
  {
    assert SectionOk(al, ws[s], s) && SectionOk(al, ws[t], t);
  }

  function Indexed(where: map<int, Loc>, yes: bool, c: Cell, l: Loc): map<int, Loc> {
    if yes then where[c.pos := l] else where
  }

  lemma FreshIndex(al: seq<Byte>, a: Asm, s: nat, c: Cell)
    requires WalksOk(al, a.ws) && IndexOk(a.ws, a.refs, a.defs) && Fits(al, a.ws, s, c) && c.Fields() > 0
    ensures c.pos !in a.refs && c.pos !in a.defs
  {
    hide WalksOk;
    if c.pos in a.refs { FreshSlot(al, a.ws, s, c.pos, a.refs[c.pos].s, a.refs[c.pos].k); }
    if c.pos in a.defs { FreshSlot(al, a.ws, s, c.pos, a.defs[c.pos].s, a.defs[c.pos].k); }
  }

  lemma AppendIndex(a: Asm, s: nat, c: Cell)
    requires IndexOk(a.ws, a.refs, a.defs) && s < |a.ws|
    requires c.IsRef() || c.IsLabel() ==> c.pos > 0 && c.pos !in a.refs && c.pos !in a.defs
    ensures IndexOk(Append(a.ws, s, c), Indexed(a.refs, c.IsRef(), c, Loc(s, |a.ws[s]|)),
                    Indexed(a.defs, c.IsLabel(), c, Loc(s, |a.ws[s]|)))
  {
    AppendIndexes(a.ws, a.refs, true, s, c);
    AppendIndexes(a.ws, a.defs, false, s, c);
  }

  lemma AppendIndexes(ws0: Walks, where: map<int, Loc>, ref: bool, s: nat, c: Cell)
    requires Indexes(ws0, where, ref) && s < |ws0|
    requires Kin(c, ref) ==> c.pos > 0 && c.pos !in where
    ensures Indexes(Append(ws0, s, c), Indexed(where, Kin(c, ref), c, Loc(s, |ws0[s]|)), ref)
  {
    var ws := Append(ws0, s, c);
    assert forall t, k :: 0 <= t < |ws0| && 0 <= k < |ws0[t]| ==> k < |ws[t]| && ws[t][k] == ws0[t][k];
    assert forall t, k :: 0 <= t < |ws| && 0 <= k < |ws[t]| ==>
      (t < |ws0| && k < |ws0[t]|) || (t == s && k == |ws0[s]| && ws[t][k] == c);
  }

  /** Old locations still name the same cells. */
  lemma SameCells(a: Asm, s: nat, c: Cell, q: int, l: int)
    requires IndexOk(a.ws, a.refs, a.defs) && s < |a.ws|
    requires c.IsRef() || c.IsLabel() ==> c.pos !in a.refs && c.pos !in a.defs
    ensures var loc := Loc(s, |a.ws[s]|); var ws := Append(a.ws, s, c);
      && (Of(ws, Indexed(a.refs, c.IsRef(), c, loc), q, l) <==> Of(a.ws, a.refs, q, l) || (c.IsRef() && q == c.pos && l == c.arg))
      && (Of(ws, Indexed(a.defs, c.IsLabel(), c, loc), q, l) <==> Of(a.ws, a.defs, q, l) || (c.IsLabel() && q == c.pos && l == c.arg))
  {
  }

  // ---- The three kinds of actions ---------------------------------------------------------

  /** The state after appending a cell. */
  function After(a: Asm, s: nat, c: Cell, buf: Memory, labels: seq<int>, chains: seq<seq<int>>): Asm
    requires s < |a.ws|
  {
    var loc := Loc(s, |a.ws[s]|);
    Asm(Append(a.ws, s, c), buf, labels, Indexed(a.refs, c.IsRef(), c, loc), Indexed(a.defs, c.IsLabel(), c, loc), chains)
  }

  lemma AppendFrame(al: seq<Byte>, a: Asm, s: nat, c: Cell, buf: Memory, labels: seq<int>, chains: seq<seq<int>>)
    requires AsmOk(al, a) && Fits(al, a.ws, s, c) && Grows(a, s, c, buf)
    requires c.IsRef() || c.IsLabel() ==> c.pos > 0
    requires FieldsOk(buf, a.ws[s] + [c], |a.ws[s]|)
    requires LabelsOk(After(a, s, c, buf, labels, chains))
    ensures AsmOk(al, After(a, s, c, buf, labels, chains))
  {
    hide WalksOk, IndexOk, SlotsOk, Fits, Grows, LabelsOk;
    AppendWalk(al, a.ws, s, c);
    AppendSlots(al, a, s, c, buf);
    if c.Fields() > 0 { FreshIndex(al, a, s, c); }
    FitsSection(al, a.ws, s, c);
    AppendIndex(a, s, c);
  }

  lemma FitsSection(al: seq<Byte>, ws: Walks, s: nat, c: Cell)
    requires Fits(al, ws, s, c)
    ensures s < |ws|
  {
  }

  /** The label `l' is used in `b' exactly as in `a'. */
  ghost predicate SameUse(a: Asm, b: Asm, l: int) {
    && (forall q :: Of(b.ws, b.refs, q, l) <==> Of(a.ws, a.refs, q, l))
    && (forall q :: Of(b.ws, b.defs, q, l) <==> Of(a.ws, a.defs, q, l))
    && (forall q :: Of(a.ws, a.refs, q, l) ==> Get(b.buf, q) == Get(a.buf, q) && (q in a.buf ==> q in b.buf))
  }

  lemma LabelStays(a: Asm, b: Asm, l: nat)
    requires |a.chains| == |a.labels| == |b.labels| == |b.chains| && l < |a.labels|
    requires LabelOk(a, l) && SameUse(a, b, l)
    requires a.labels[l] == b.labels[l] && a.chains[l] == b.chains[l]
    ensures LabelOk(b, l)
  {
    if a.labels[l] >= 0 {
      var ch := a.chains[l];
      forall i | 0 <= i < |ch| ensures ch[i] in b.buf && b.buf[ch[i]] == Next(ch, i + 1) {
        assert ch[i] in ch;
        assert Of(a.ws, a.refs, ch[i], l);
      }
    }
  }

  lemma ArgsStay(a: Asm, s: nat, c: Cell, buf: Memory, labels: seq<int>, chains: seq<seq<int>>)
    requires IndexOk(a.ws, a.refs, a.defs) && LabelsOk(a) && s < |a.ws| && |labels| == |a.labels|
    requires c.IsRef() ==> 0 <= c.arg < |labels|
    ensures var b := After(a, s, c, buf, labels, chains);
      forall q :: q in b.refs && Has(b.ws, b.refs[q]) && At(b.ws, b.refs[q]).Act? ==> 0 <= At(b.ws, b.refs[q]).arg < |labels|
  {
  }

  /** Any action that neither refers to a label nor defines one. */
  lemma PutPlain(al: seq<Byte>, a: Asm, s: nat, c: Cell, buf: Memory)
    requires AsmOk(al, a) && Fits(al, a.ws, s, c) && !c.IsRef() && !c.IsLabel()
    requires buf == a.buf || (c.Fields() == 1 && c.pos in buf && buf == a.buf[c.pos := buf[c.pos]])
    requires FieldsOk(buf, a.ws[s] + [c], |a.ws[s]|)
    ensures AsmOk(al, After(a, s, c, buf, a.labels, a.chains))
  {
    hide WalksOk, IndexOk, SlotsOk, Fits, LabelOk;
    FitsSection(al, a.ws, s, c);
    var b := After(a, s, c, buf, a.labels, a.chains);
    if c.Fields() > 0 { FreshIndex(al, a, s, c); }
    forall l | 0 <= l < |b.labels| ensures LabelOk(b, l) {
      forall q ensures Of(b.ws, b.refs, q, l) <==> Of(a.ws, a.refs, q, l)
               ensures Of(b.ws, b.defs, q, l) <==> Of(a.ws, a.defs, q, l) {
        SameCells(a, s, c, q, l);
      }
      LabelStays(a, b, l);
    }
    ArgsStay(a, s, c, buf, a.labels, a.chains);
    AppendFrame(al, a, s, c, buf, a.labels, a.chains);
  }

  // ---- A reference ---------------------------------------------------------------------

  /** The state after a reference has been put: bound to the label, or linked to its chain. */
  function Referred(a: Asm, s: nat, c: Cell, buf: Memory): Asm
    requires s < |a.ws| && c.Act? && 0 <= c.arg < |a.labels| && |a.chains| == |a.labels|
  {
    if a.labels[c.arg] < 0 then After(a, s, c, buf, a.labels, a.chains)
    else After(a, s, c, buf, a.labels[c.arg := c.pos], a.chains[c.arg := [c.pos] + a.chains[c.arg]])
  }

  function RefValue(a: Asm, l: int): int
    requires 0 <= l < |a.labels|
  {
    if a.labels[l] < 0 then -a.labels[l] else a.labels[l]
  }

  lemma PutRef(al: seq<Byte>, a: Asm, s: nat, c: Cell, buf: Memory)
    requires AsmOk(al, a) && Fits(al, a.ws, s, c) && c.IsRef() && 0 <= c.arg < |a.labels| && c.pos > 0
    requires forall q :: q in a.buf ==> q in buf
    requires forall q :: q in a.buf && buf[q] != a.buf[q] ==> c.pos <= q < c.End()
    requires c.pos in buf && buf[c.pos] == RefValue(a, c.arg)
    requires FieldsOk(buf, a.ws[s] + [c], |a.ws[s]|)
    ensures AsmOk(al, Referred(a, s, c, buf))
  {
    hide WalksOk, IndexOk, SlotsOk, Fits, LabelOk;
    FitsSection(al, a.ws, s, c);
    FreshIndex(al, a, s, c);
    var b := Referred(a, s, c, buf);
    forall l | 0 <= l < |b.labels| && l != c.arg ensures LabelOk(b, l) {
      OthersUse(al, a, s, c, b, l);
      LabelStays(a, b, l);
    }
    RefLabel(al, a, s, c, buf);
    ArgsStay(a, s, c, buf, b.labels, b.chains);
    AppendFrame(al, a, s, c, buf, b.labels, b.chains);
  }

  /** The other labels do not notice. */
  lemma OthersUse(al: seq<Byte>, a: Asm, s: nat, c: Cell, b: Asm, l: nat)
    requires WalksOk(al, a.ws) && IndexOk(a.ws, a.refs, a.defs) && Fits(al, a.ws, s, c) && c.Act? && l != c.arg
    requires c.IsRef() || c.IsLabel()
    requires b == After(a, s, c, b.buf, b.labels, b.chains)
    requires forall q :: q in a.buf ==> q in b.buf
    requires forall q :: q in a.buf && b.buf[q] != a.buf[q] ==> Of(a.ws, a.refs, q, c.arg) || c.pos <= q < c.End()
    requires SlotsOk(a.ws, a.buf)
    ensures SameUse(a, b, l)
  {
    hide WalksOk, Fits;
    FitsSection(al, a.ws, s, c);
    FreshIndex(al, a, s, c);
    forall q ensures Of(b.ws, b.refs, q, l) <==> Of(a.ws, a.refs, q, l)
             ensures Of(b.ws, b.defs, q, l) <==> Of(a.ws, a.defs, q, l) {
      SameCells(a, s, c, q, l);
    }
    forall q | Of(a.ws, a.refs, q, l) ensures Get(b.buf, q) == Get(a.buf, q) {
      assert FieldsOk(a.buf, a.ws[a.refs[q].s], a.refs[q].k);
      if b.buf[q] != a.buf[q] {
        InSection(al, a.ws, s, c, q);
        FreshSlot(al, a.ws, s, q, a.refs[q].s, a.refs[q].k);
      }
    }
  }

  lemma InSection(al: seq<Byte>, ws: Walks, s: nat, c: Cell, q: int)
    requires Fits(al, ws, s, c) && c.pos <= q < c.End()
    ensures s < |ws| && EndPos(ws[s], s * BIAS) <= q < (s + 1) * BIAS && s * BIAS <= q
  {
  }

  lemma RefLabel(al: seq<Byte>, a: Asm, s: nat, c: Cell, buf: Memory)
    requires AsmOk(al, a) && Fits(al, a.ws, s, c) && c.IsRef() && 0 <= c.arg < |a.labels| && c.pos > 0
    requires forall q :: q in a.buf ==> q in buf
    requires forall q :: q in a.buf && buf[q] != a.buf[q] ==> c.pos <= q < c.End()
    requires c.pos in buf && buf[c.pos] == RefValue(a, c.arg)
    ensures LabelOk(Referred(a, s, c, buf), c.arg)
  {
    hide WalksOk, IndexOk, SlotsOk, Fits;
    FitsSection(al, a.ws, s, c);
    FreshIndex(al, a, s, c);
    var b := Referred(a, s, c, buf);
    var l := c.arg;
    assert LabelOk(a, l);
    forall q ensures Of(b.ws, b.refs, q, l) <==> Of(a.ws, a.refs, q, l) || q == c.pos
             ensures Of(b.ws, b.defs, q, l) <==> Of(a.ws, a.defs, q, l) {
      SameCells(a, s, c, q, l);
    }
    forall q | Of(a.ws, a.refs, q, l) ensures Get(buf, q) == Get(a.buf, q) && q in a.buf && q in buf {
      OldRef(al, a, s, c, q, l);
    }
    if a.labels[l] >= 0 {
      var ch := a.chains[l];
      forall q | q in ch ensures q != c.pos && q in a.buf && q in buf && buf[q] == a.buf[q] {
        assert Of(a.ws, a.refs, q, l);
      }
      ChainGrows(a.buf, buf, a.labels[l], ch, c.pos);
    }
  }

  lemma ChainGrows(buf: Memory, buf2: Memory, n: int, ch: seq<int>, pos: int)
    requires ChainOk(buf, n, ch) && pos > 0 && pos in buf2 && buf2[pos] == n
    requires forall q :: q in ch ==> q != pos && q in buf && q in buf2 && buf2[q] == buf[q]
    ensures ChainOk(buf2, pos, [pos] + ch)
    ensures forall q :: q in [pos] + ch <==> q in ch || q == pos
  {
    var dh := [pos] + ch;
    forall i | 0 <= i < |dh| ensures dh[i] > 0 && dh[i] in buf2 && buf2[dh[i]] == Next(dh, i + 1) {
      if i > 0 { assert dh[i] == ch[i - 1]; }
    }
  }

  /** A reference slot is in its buffer and is not one of the new slots. */
  lemma OldRef(al: seq<Byte>, a: Asm, s: nat, c: Cell, q: int, l: int)
    requires AsmOk(al, a) && Fits(al, a.ws, s, c) && Of(a.ws, a.refs, q, l)
    ensures q in a.buf && !(c.pos <= q < c.End())
  {
    hide WalksOk;
    assert FieldsOk(a.buf, a.ws[a.refs[q].s], a.refs[q].k);
    if c.pos <= q < c.End() { FreshSlot(al, a.ws, s, q, a.refs[q].s, a.refs[q].k); }
  }

  // ---- A label -------------------------------------------------------------------------

  /** `buf2' is `buf' with the position `pos' in every slot of the chain. */
  ghost predicate Collapsed(buf: Memory, ch: seq<int>, pos: int, buf2: Memory) {
    && buf2.Keys == buf.Keys
    && (forall q :: q in buf ==> buf2[q] == if q in ch then pos else buf[q])
  }

  function Labelled(a: Asm, s: nat, c: Cell, buf: Memory): Asm
    requires s < |a.ws| && c.Act? && 0 <= c.arg < |a.labels| && |a.chains| == |a.labels|
  {
    After(a, s, c, buf, a.labels[c.arg := -c.pos], a.chains[c.arg := []])
  }

  lemma PutLabel(al: seq<Byte>, a: Asm, s: nat, c: Cell, buf: Memory, est: int)
    requires AsmOk(al, a) && Fits(al, a.ws, s, c) && c.IsLabel() && 0 <= c.arg < |a.labels| && c.pos > 0
    requires Collapsed(a.buf, a.chains[c.arg], c.pos, buf) && est == Est(a.ws[s], |a.ws[s]|)
    ensures AsmOk(al, Labelled(a, s, c, buf[c.pos := est]))
  {
    hide WalksOk, IndexOk, SlotsOk, Fits, LabelOk;
    FitsSection(al, a.ws, s, c);
    FreshIndex(al, a, s, c);
    var buf2 := buf[c.pos := est];
    var b := Labelled(a, s, c, buf2);
    forall q | q in a.buf && buf2[q] != a.buf[q] ensures Of(a.ws, a.refs, q, c.arg) || q == c.pos {
      if q in a.chains[c.arg] { ChainIsRefs(a, c.arg, q); }
    }
    forall l | 0 <= l < |b.labels| && l != c.arg ensures LabelOk(b, l) {
      OthersUse(al, a, s, c, b, l);
      LabelStays(a, b, l);
    }
    DefinedNow(al, a, s, c, buf, est);
    ArgsStay(a, s, c, buf2, b.labels, b.chains);
    EstPrefix(a.ws[s], [c], |a.ws[s]|);
    AppendFrame(al, a, s, c, buf2, b.labels, b.chains);
  }

  lemma ChainIsRefs(a: Asm, l: nat, q: int)
    requires LabelsOk(a) && l < |a.labels| && q in a.chains[l]
    ensures Of(a.ws, a.refs, q, l)
  {
    assert LabelOk(a, l);
  }

  lemma DefinedNow(al: seq<Byte>, a: Asm, s: nat, c: Cell, buf: Memory, est: int)
    requires AsmOk(al, a) && Fits(al, a.ws, s, c) && c.IsLabel() && 0 <= c.arg < |a.labels| && c.pos > 0
    requires Collapsed(a.buf, a.chains[c.arg], c.pos, buf)
    ensures s < |a.ws| && LabelOk(Labelled(a, s, c, buf[c.pos := est]), c.arg)
  {
    hide WalksOk, IndexOk, SlotsOk, Fits;
    FitsSection(al, a.ws, s, c);
    FreshIndex(al, a, s, c);
    var l := c.arg;
    var b := Labelled(a, s, c, buf[c.pos := est]);
    assert LabelOk(a, l);
    forall q ensures Of(b.ws, b.refs, q, l) <==> Of(a.ws, a.refs, q, l)
             ensures Of(b.ws, b.defs, q, l) <==> Of(a.ws, a.defs, q, l) || q == c.pos {
      SameCells(a, s, c, q, l);
    }
    forall q | Of(a.ws, a.refs, q, l) ensures Of(b.ws, b.defs, Get(b.buf, q), l) {
      OldRef(al, a, s, c, q, l);
    }
  }

  // ---- From the buffers to the link pass ---------------------------------------------------

  function ProgOf(a: Asm, est: seq<int>): Prog {
    Prog(a.ws, est, a.buf, a.defs)
  }

  ghost predicate EstOk(ws: Walks, est: seq<int>) {
    |est| == |ws| && forall s :: 0 <= s < |ws| ==> est[s] == Est(ws[s], |ws[s]|)
  }

  /** When no label is left undefined, every reference is bound to a label: the program can
      be linked. */
  lemma ReadyToLink(al: seq<Byte>, a: Asm, est: seq<int>)
    requires AsmOk(al, a) && EstOk(a.ws, est)
    requires forall l :: 0 <= l < |a.labels| ==> a.labels[l] <= 0
    ensures ProgOk(ProgOf(a, est)) && BranchesOk(ProgOf(a, est))
  {
    forall s | 0 <= s < |a.ws| ensures PositionsOk(a.ws[s], s) && forall k :: 0 <= k < |a.ws[s]| ==> BranchOk(a.ws[s], k) {
      assert SectionOk(al, a.ws[s], s);
    }
    forall s, k | 0 <= s < |a.ws| && 0 <= k < |a.ws[s]| && a.ws[s][k].IsRef()
      ensures Get(a.buf, a.ws[s][k].pos) in a.defs
    {
      RefBound(a, s, k);
    }
  }

  lemma RefBound(a: Asm, s: nat, k: nat)
    requires IndexOk(a.ws, a.refs, a.defs) && LabelsOk(a)
    requires s < |a.ws| && k < |a.ws[s]| && a.ws[s][k].IsRef()
    requires forall l :: 0 <= l < |a.labels| ==> a.labels[l] <= 0
    ensures Of(a.ws, a.defs, Get(a.buf, a.ws[s][k].pos), a.ws[s][k].arg)
  {
    var q := a.ws[s][k].pos;
    var l := a.ws[s][k].arg;
    assert q in a.refs && Has(a.ws, a.refs[q]);
    assert LabelOk(a, l);
    assert Of(a.ws, a.refs, q, l);
    if a.labels[l] >= 0 { PendingPositive(a, l, q); }
  }

  lemma PendingPositive(a: Asm, l: nat, q: int)
    requires l < |a.labels| && |a.chains| == |a.labels| && Pending(a, l) && q in a.chains[l]
    ensures a.labels[l] > 0
  {
  }

  // ---- What the label array promises -------------------------------------------------------

  /** The slots visited from `n' on in `i' links. */
  function Trace(buf: Memory, n: int, i: nat): seq<int>
    decreases i
  {
    if i == 0 then [] else [n] + Trace(buf, Get(buf, n), i - 1)
  }

  function Follow(buf: Memory, n: int, i: nat): int
    decreases i
  {
    if i == 0 then n else Follow(buf, Get(buf, n), i - 1)
  }

  lemma {:induction false} FollowsChain(buf: Memory, n: int, ch: seq<int>)
    requires ChainOk(buf, n, ch)
    ensures Trace(buf, n, |ch|) == ch && Follow(buf, n, |ch|) == 0
    decreases |ch|
  {
    if ch != [] {
      ChainTail(buf, n, ch);
      hide ChainOk;
      FollowsChain(buf, buf[n], ch[1..]);
    }
  }

  lemma ChainTail(buf: Memory, n: int, ch: seq<int>)
    requires ChainOk(buf, n, ch) && ch != []
    ensures n == ch[0] && n in buf && ChainOk(buf, buf[n], ch[1..])
  {
    var tl := ch[1..];
    assert buf[ch[0]] == Next(ch, 1);
    forall i | 0 <= i < |tl| ensures tl[i] > 0 && tl[i] in buf && buf[tl[i]] == Next(tl, i + 1) {
      assert tl[i] == ch[i + 1] && buf[ch[i + 1]] == Next(ch, i + 2);
    }
  }

  /** Every reference to a defined label holds the position of one of its definitions. */
  lemma ReferencesBound(al: seq<Byte>, a: Asm)
    ensures AsmOk(al, a) ==> forall s, k :: 0 <= s < |a.ws| && 0 <= k < |a.ws[s]| && a.ws[s][k].IsRef() ==>
      && 0 <= a.ws[s][k].arg < |a.labels|
      && (a.labels[a.ws[s][k].arg] < 0 ==> Of(a.ws, a.defs, Get(a.buf, a.ws[s][k].pos), a.ws[s][k].arg))
  {
    if AsmOk(al, a) {
      forall s, k | 0 <= s < |a.ws| && 0 <= k < |a.ws[s]| && a.ws[s][k].IsRef()
        ensures 0 <= a.ws[s][k].arg < |a.labels|
        ensures a.labels[a.ws[s][k].arg] < 0 ==> Of(a.ws, a.defs, Get(a.buf, a.ws[s][k].pos), a.ws[s][k].arg)
      {
        var q := a.ws[s][k].pos;
        assert q in a.refs && Has(a.ws, a.refs[q]);
        assert LabelOk(a, a.ws[s][k].arg);
        assert Of(a.ws, a.refs, q, a.ws[s][k].arg);
      }
    }
  }

  /** The chain anchored at an undefined label ends, and on the way visits every reference to
      the label exactly once and nothing else. */
  lemma ChainVisitsReferences(al: seq<Byte>, a: Asm, l: nat)
    requires l < |a.labels| && a.labels[l] >= 0
    ensures AsmOk(al, a) ==> l < |a.chains| && var t := Trace(a.buf, a.labels[l], |a.chains[l]|);
      && Follow(a.buf, a.labels[l], |t|) == 0
      && (forall q :: q in t <==> Of(a.ws, a.refs, q, l))
      && (forall i, j :: 0 <= i < j < |t| ==> t[i] != t[j])
  {
    if AsmOk(al, a) {
      assert LabelOk(a, l);
      FollowsChain(a.buf, a.labels[l], a.chains[l]);
    }
  }
}
