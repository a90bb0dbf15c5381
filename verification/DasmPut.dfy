/** One dasm_put call as data: the cells it adds, and what each action leaves behind. */
module DasmPut {
  import opened DasmActions
  import opened DasmLayout
  import opened DasmLink
  import opened DasmEncode
  import opened DasmLabels

  predicate NeedsArg(a: Action) {
    a.ImmD? || a.Space? || a.RelPC? || a.ImmPC? || a.LabelPC?
  }

  predicate IsLastAction(a: Action) { a.Stop? || a.Section? }

  /** What dasm_put demands of its caller: the list decodes up to its end, there is an argument
      for every action that takes one, spaces are not negative, alignments are 2**n-1, and a
      branch that can be shrunk stands behind its opcode (`n' plain bytes precede `p'). */
  predicate Takes(al: seq<Byte>, p: nat, args: seq<int>, n: nat)
    decreases |al| - p
  {
    match Decode(al, p)
    case Bad => false
    case Read(a, next) =>
      if IsLastAction(a) then true
      else
        && (NeedsArg(a) ==> |args| > 0)
        && (a.Space? ==> args[0] >= 0)
        && (a.Align? ==> IsMask(a.mask))
        && (a.RelPC? ==> (Saving(a.op) >= 3 ==> n >= 1) && (Saving(a.op) == 4 ==> n >= 2))
        && Takes(al, next, if NeedsArg(a) then args[1..] else args, if a.Emit? then n + 1 else 0)
  }

  function CellFor(a: Action, p: nat, pos: int, args: seq<int>): Cell {
    Act(a, p, pos, if NeedsArg(a) && |args| > 0 then args[0] else 0)
  }

  /** The cells of one dasm_put, from action index `p' and buffer position `pos' on. */
  function Cells(al: seq<Byte>, p: nat, args: seq<int>, pos: int): seq<Cell>
    decreases |al| - p
  {
    match Decode(al, p)
    case Bad => []
    case Read(a, next) =>
      var c := CellFor(a, p, pos, args);
      if IsLastAction(a) then [c]
      else [c] + Cells(al, next, if NeedsArg(a) && |args| > 0 then args[1..] else args, c.End())
  }

  /** The run-time checks on label and section numbers. */
  predicate InRange(c: Cell, labels: nat, sections: nat) {
    && (c.IsRef() || c.IsLabel() ==> 0 <= c.arg < labels)
    && (c.Act? && c.a.Section? ==> c.a.n < sections)
  }

  predicate AllInRange(cs: seq<Cell>, labels: nat, sections: nat) {
    forall c :: c in cs ==> InRange(c, labels, sections)
  }

  /** The section active after the put. */
  function NextSection(cs: seq<Cell>, s: nat): nat {
    if cs != [] && cs[|cs| - 1].Act? && cs[|cs| - 1].a.Section? then cs[|cs| - 1].a.n else s
  }

  lemma {:induction false} CellsAfter(al: seq<Byte>, p: nat, args: seq<int>, pos: int)
    ensures pos <= EndPos(Cells(al, p, args, pos), pos)
    ensures forall c :: c in Cells(al, p, args, pos) ==> pos <= c.pos && c.End() <= EndPos(Cells(al, p, args, pos), pos)
    decreases |al| - p
  {
    var d := Decode(al, p);
    if d.Read? && !IsLastAction(d.a) {
      var c := CellFor(d.a, p, pos, args);
      var rest := Cells(al, d.next, if NeedsArg(d.a) && |args| > 0 then args[1..] else args, c.End());
      CellsAfter(al, d.next, if NeedsArg(d.a) && |args| > 0 then args[1..] else args, c.End());
      if rest != [] { assert EndPos([c] + rest, pos) == EndPos(rest, c.End()); }
    }
  }

  // ---- A put under way -----------------------------------------------------------------------

  predicate Expects(al: seq<Byte>, c: Cell, p: nat) {
    match c
    case Begin(_, start) => p == start
    case Act(a, q, _, _) => !c.IsLast() && Decode(al, q).Read? && p == Decode(al, q).next
  }

  predicate EmitRun(al: seq<Byte>, cs: seq<Cell>, p: nat, n: nat) {
    && (n >= 1 ==> 1 <= p <= |al| && EmitAt(cs, |cs| - 1) && cs[|cs| - 1].a.b == al[p - 1])
    && (n >= 2 ==> EmitAt(cs, |cs| - 2))
  }

  ghost predicate Putting(al: seq<Byte>, a: Asm, s: nat, p: nat, pos: int, ofs: int, n: nat) {
    && AsmOk(al, a)
    && s < |a.ws| && a.ws[s] != []
    && s * BIAS < pos == EndPos(a.ws[s], s * BIAS)
    && ofs == Est(a.ws[s], |a.ws[s]|)
    && Expects(al, a.ws[s][|a.ws[s]| - 1], p)
    && EmitRun(al, a.ws[s], p, n)
  }

  predicate Closed(cs: seq<Cell>) {
    cs == [] || cs[|cs| - 1].IsLast()
  }

  function Emits(a: Action, n: nat): nat { if a.Emit? then n + 1 else 0 }

  /** An action that can be put next. */
  ghost predicate Ready(al: seq<Byte>, a: Asm, s: nat, p: nat, pos: int, ofs: int, n: nat, c: Cell) {
    && Putting(al, a, s, p, pos, ofs, n)
    && c.Act? && c.p == p && c.pos == pos && Decode(al, p).Read? && Decode(al, p).a == c.a
    && c.End() <= (s + 1) * BIAS
    && (c.a.RelPC? ==> (Saving(c.a.op) >= 3 ==> n >= 1) && (Saving(c.a.op) == 4 ==> n >= 2))
  }

  lemma ReadyFits(al: seq<Byte>, a: Asm, s: nat, p: nat, pos: int, ofs: int, n: nat, c: Cell)
    requires Ready(al, a, s, p, pos, ofs, n, c)
    ensures AsmOk(al, a) && Fits(al, a.ws, s, c) && c.pos > 0
  {
    hide AsmOk;
    var cs := a.ws[s];
    assert (cs + [c])[|cs|] == c;
    assert |cs| >= 1 ==> (cs + [c])[|cs| - 1] == cs[|cs| - 1];
    assert |cs| >= 2 ==> (cs + [c])[|cs| - 2] == cs[|cs| - 2];
  }

  /** After the action the put is still under way, at the next one. */
  lemma Advance(al: seq<Byte>, a: Asm, s: nat, p: nat, pos: int, ofs: int, n: nat, c: Cell, b: Asm)
    requires Ready(al, a, s, p, pos, ofs, n, c) && AsmOk(al, b) && b.ws == Append(a.ws, s, c)
    ensures s < |b.ws| && EndPos(b.ws[s], s * BIAS) == c.End() && Est(b.ws[s], |b.ws[s]|) == ofs + c.Room()
    ensures !c.IsLast() ==> Putting(al, b, s, Decode(al, p).next, c.End(), ofs + c.Room(), Emits(c.a, n))
    ensures c.IsLast() ==> Closed(b.ws[s])
  {
    hide AsmOk;
    var cs := a.ws[s];
    EstPrefix(cs, [c], |cs|);
    assert (cs + [c])[|cs|] == c;
    assert |cs| >= 1 ==> (cs + [c])[|cs| - 1] == cs[|cs| - 1];
  }

  lemma StepPlain(al: seq<Byte>, a: Asm, s: nat, p: nat, pos: int, ofs: int, n: nat, c: Cell, buf: Memory)
    requires Ready(al, a, s, p, pos, ofs, n, c) && !c.IsRef() && !c.IsLabel()
    requires c.a.Space? ==> c.arg >= 0
    requires c.a.Align? ==> IsMask(c.a.mask)
    requires buf == if c.Fields() == 0 then a.buf else a.buf[pos := if c.a.Align? then ofs + c.Room() else c.arg]
    ensures AsmOk(al, After(a, s, c, buf, a.labels, a.chains))
  {
    hide AsmOk;
    ReadyFits(al, a, s, p, pos, ofs, n, c);
    EstPrefix(a.ws[s], [c], |a.ws[s]|);
    assert FieldsOk(buf, a.ws[s] + [c], |a.ws[s]|);
    PutPlain(al, a, s, c, buf);
  }

  lemma StepRef(al: seq<Byte>, a: Asm, s: nat, p: nat, pos: int, ofs: int, n: nat, c: Cell, buf: Memory)
    requires Ready(al, a, s, p, pos, ofs, n, c) && c.IsRef() && 0 <= c.arg < |a.labels| == |a.chains|
    requires buf == if c.a.RelPC? then a.buf[pos := RefValue(a, c.arg)][pos + 1 := ofs + 4] else a.buf[pos := RefValue(a, c.arg)]
    ensures AsmOk(al, Referred(a, s, c, buf))
  {
    hide AsmOk;
    ReadyFits(al, a, s, p, pos, ofs, n, c);
    EstPrefix(a.ws[s], [c], |a.ws[s]|);
    PutRef(al, a, s, c, buf);
  }

  lemma StepLabel(al: seq<Byte>, a: Asm, s: nat, p: nat, pos: int, ofs: int, n: nat, c: Cell, buf: Memory)
    requires Ready(al, a, s, p, pos, ofs, n, c) && c.IsLabel() && 0 <= c.arg < |a.labels| == |a.chains|
    requires Collapsed(a.buf, a.chains[c.arg], pos, buf)
    ensures AsmOk(al, Labelled(a, s, c, buf[pos := ofs]))
  {
    hide AsmOk;
    ReadyFits(al, a, s, p, pos, ofs, n, c);
    PutLabel(al, a, s, c, buf, ofs);
  }

  /** The start of a put. */
  lemma StepBegin(al: seq<Byte>, a: Asm, s: nat, start: nat, pos: int, ofs: int)
    requires AsmOk(al, a) && s < |a.ws| && Closed(a.ws[s])
    requires pos == EndPos(a.ws[s], s * BIAS) && ofs == Est(a.ws[s], |a.ws[s]|) && s * BIAS <= pos < (s + 1) * BIAS
    ensures Putting(al, After(a, s, Begin(pos, start), a.buf[pos := start], a.labels, a.chains), s, start, pos + 1, ofs, 0)
  {
    hide AsmOk;
    var c := Begin(pos, start);
    EstPrefix(a.ws[s], [c], |a.ws[s]|);
    PutPlain(al, a, s, c, a.buf[pos := start]);
  }

  lemma StartsInside(al: seq<Byte>, a: Asm, s: nat)
    requires AsmOk(al, a) && s < |a.ws|
    ensures s * BIAS <= EndPos(a.ws[s], s * BIAS)
  {
    assert SectionOk(al, a.ws[s], s);
  }
}
