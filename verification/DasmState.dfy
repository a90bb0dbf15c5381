/** The encoder object and its three passes (dasm_x86.h:62-87, 144-449), with the run-time
    checks of DASM_CHECKS. */
module DasmState {
  import opened DasmActions
  import opened DasmLayout
  import opened DasmLink
  import opened DasmEncode
  import opened DasmBytes
  import opened DasmLabels
  import opened DasmPut

  /** DASM_S_*; the checks or in the index of the offending action or label. */
  datatype Status = Okay | RangePC(at: nat) | RangeSec(at: nat) | UndefPC(pc: nat) | Phase

  datatype Section = Section(pos: int, ofs: int)

  /** The lowest label that is referred to but not defined, if any. */
  predicate FirstUndefined(labels: seq<int>, r: Status) {
    match r
    case Okay => forall l :: 0 <= l < |labels| ==> labels[l] <= 0
    case UndefPC(pc) => pc < |labels| && labels[pc] > 0 && forall l :: 0 <= l < pc ==> labels[l] <= 0
    case _ => false
  }

  /** Positions of section 128 and above would not fit a signed 32-bit integer. */
  const MAXSECTION: nat := 128

  function OffsetsOf(ss: seq<Section>): seq<int> {
    seq(|ss|, s requires 0 <= s < |ss| => ss[s].ofs)
  }

  /** What the checks say of one action. */
  function Checked(c: Cell, labels: nat, sections: nat): Status {
    if InRange(c, labels, sections) || c.Begin? then Okay
    else if c.a.Section? then RangeSec(c.p)
    else RangePC(c.p)
  }

  /** What they say of a fragment: the first action that fails decides. */
  function FirstFailure(cs: seq<Cell>, labels: nat, sections: nat): Status {
    if cs == [] then Okay
    else if Checked(cs[0], labels, sections) != Okay then Checked(cs[0], labels, sections)
    else FirstFailure(cs[1..], labels, sections)
  }

  /** No failure exactly when every action is in range. */
  lemma {:induction false} NoFailure(cs: seq<Cell>, labels: nat, sections: nat)
    requires forall c :: c in cs ==> c.Act?
    ensures FirstFailure(cs, labels, sections) == Okay <==> AllInRange(cs, labels, sections)
    decreases |cs|
  {
    if cs != [] {
      NoFailure(cs[1..], labels, sections);
      assert cs == [cs[0]] + cs[1..];
    }
  }

  lemma {:induction false} CellsAct(al: seq<Byte>, p: nat, args: seq<int>, pos: int)
    ensures forall c :: c in Cells(al, p, args, pos) ==> c.Act?
    decreases |al| - p
  {
    match Decode(al, p)
    case Bad =>
    case Read(a, next) =>
      if !IsLastAction(a) {
        CellsAct(al, next, if NeedsArg(a) && |args| > 0 then args[1..] else args, CellFor(a, p, pos, args).End());
      }
  }

  lemma {:induction false} FailureBehind(done: seq<Cell>, rest: seq<Cell>, labels: nat, sections: nat)
    requires FirstFailure(done, labels, sections) == Okay
    ensures FirstFailure(done + rest, labels, sections) == FirstFailure(rest, labels, sections)
    decreases |done|
  {
    if done == [] {
      assert done + rest == rest;
    } else {
      assert (done + rest)[1..] == done[1..] + rest;
      FailureBehind(done[1..], rest, labels, sections);
    }
  }

  lemma Judged(cs: seq<Cell>, done: seq<Cell>, c: Cell, rest: seq<Cell>, labels: nat, sections: nat)
    requires FirstFailure(done, labels, sections) == Okay && cs == done + ([c] + rest)
    ensures Checked(c, labels, sections) != Okay ==> FirstFailure(cs, labels, sections) == Checked(c, labels, sections)
    ensures Checked(c, labels, sections) == Okay ==> FirstFailure(done + [c], labels, sections) == Okay
  {
    FailureBehind(done, [c] + rest, labels, sections);
    FailureBehind(done, [c], labels, sections);
  }

  class State {
    const actionlist: seq<Byte>
    var pclabels: seq<int>
    var sections: seq<Section>
    var section: nat
    var buf: Memory
    var codesize: int
    var status: Status
    ghost var asm: Asm

    /** Between puts: the buffers of all sections hold whole puts, and the labels are in order. */
    ghost predicate Valid()
      reads this
    {
      && section < |sections| == |asm.ws| <= MAXSECTION
      && asm.buf == buf && asm.labels == pclabels
      && AsmOk(actionlist, asm)
      && (forall s :: 0 <= s < |sections| ==> SectionAt(s))
    }

    ghost predicate SectionAt(s: nat)
      requires s < |sections| == |asm.ws|
      reads `sections, `asm
    {
      && Closed(asm.ws[s])
      && sections[s].pos == EndPos(asm.ws[s], s * BIAS)
      && sections[s].ofs == Est(asm.ws[s], |asm.ws[s]|)
    }

    function Offsets(): seq<int>
      reads `sections
    {
      OffsetsOf(sections)
    }

    /** The program as pass 1 has left it. */
    ghost function Program(): Prog
      reads `sections, `asm
    {
      ProgOf(asm, Offsets())
    }

    /** After pass 2: the buffers are those of the linked program. */
    ghost predicate Linked(pr: Prog)
      reads this
    {
      && |sections| == |pr.walks| == |asm.ws|
      && pr == ProgOf(asm, Offsets())
      && AsmOk(actionlist, asm) && asm.labels == pclabels
      && ProgOk(pr) && BranchesOk(pr)
      && (forall s :: 0 <= s < |sections| ==> SectionAt(s))
      && buf == DasmLink.Linked(pr)
      && codesize == CodeSize(pr)
    }

    /** dasm_init, dasm_growpc and dasm_setup. */
    constructor (al: seq<Byte>, maxsection: nat, maxpc: nat)
      requires 0 < maxsection <= MAXSECTION
      ensures Valid() && status == Okay && section == 0
      ensures actionlist == al && |sections| == maxsection && |pclabels| == maxpc
      ensures asm.ws == seq(maxsection, _ => [])
    {
      actionlist := al;
      pclabels := seq(maxpc, _ => 0);
      sections := seq(maxsection, s => Section.Section(s * BIAS, 0));
      section := 0;
      buf := map[];
      codesize := 0;
      status := Okay;
      asm := Asm(seq(maxsection, _ => []), map[], seq(maxpc, _ => 0), map[], map[], seq(maxpc, _ => []));
      new;
      forall l | 0 <= l < |asm.labels| ensures LabelOk(asm, l) {}
      forall s | 0 <= s < |asm.ws| ensures SectionOk(actionlist, asm.ws[s], s) {}
    }

    /** Pass 1: store the actions and arguments of one code fragment, link its branches and
        labels, and count its bytes. */
    method Put(start: nat, args: seq<int>)
      requires Valid() && status == Okay
      requires Takes(actionlist, start, args, 0)
      requires var pos := sections[section].pos;
        EndPos(Cells(actionlist, start, args, pos + 1), pos + 1) <= (section + 1) * BIAS
      modifies this
      ensures |pclabels| == old(|pclabels|) && |sections| == old(|sections|)
      ensures var s := old(section); var pos := old(sections[section].pos);
        var cs := Cells(actionlist, start, args, pos + 1);
        && status == FirstFailure(cs, |pclabels|, |sections|)
        && (status == Okay <==> AllInRange(cs, |pclabels|, |sections|))
        && (status == Okay ==>
              && Valid()
              && section == NextSection(cs, s)
              && asm.ws == old(asm.ws)[s := old(asm.ws[section]) + [Begin(pos, start)] + cs])
    {
      hide AsmOk, Putting, Takes, Cells, EndPos, FirstFailure;
      var s := section;
      var pos, ofs := sections[s].pos, sections[s].ofs;
      ghost var ws0 := asm.ws;
      assert SectionAt(s);
      CellsAfter(actionlist, start, args, pos + 1);
      StartsInside(actionlist, asm, s);
      StepBegin(actionlist, asm, s, start, pos, ofs);
      buf := buf[pos := start];
      asm := After(asm, s, Begin(pos, start), buf, asm.labels, asm.chains);
      CellsAct(actionlist, start, args, pos + 1);
      NoFailure(Cells(actionlist, start, args, pos + 1), |pclabels|, |sections|);
      pos, ofs := PutActions(start, args, pos + 1, ofs);
      if status == Okay {
        sections := sections[s := Section.Section(pos, ofs)];
        forall t | 0 <= t < |sections| ensures SectionAt(t) {
          if t != s { assert old(SectionAt(t)); }
        }
      }
    }

    /** The loop over the actions of a fragment. */
    method PutActions(start: nat, args: seq<int>, pos0: int, ofs0: int) returns (pos: int, ofs: int)
      requires status == Okay && section < |sections| == |asm.ws| && asm.buf == buf && asm.labels == pclabels
      requires Putting(actionlist, asm, section, start, pos0, ofs0, 0) && Takes(actionlist, start, args, 0)
      requires EndPos(Cells(actionlist, start, args, pos0), pos0) <= (section + 1) * BIAS
      modifies this
      ensures sections == old(sections) && |pclabels| == old(|pclabels|)
      ensures var s := old(section); var cs := Cells(actionlist, start, args, pos0);
        && status == FirstFailure(cs, |pclabels|, |sections|)
        && (status == Okay ==>
              && asm.buf == buf && asm.labels == pclabels && AsmOk(actionlist, asm)
              && section == NextSection(cs, s) && section < |sections|
              && asm.ws == old(asm.ws)[s := old(asm.ws[section]) + cs]
              && Closed(asm.ws[s]) && pos == EndPos(asm.ws[s], s * BIAS) && ofs == Est(asm.ws[s], |asm.ws[s]|))
    {
      hide AsmOk, Putting, Takes, Cells, EndPos, Est, FirstFailure, Ready, UnderWay, Finished, NextSection, Closed;
      var s := section;
      var p, i := start, 0;
      pos, ofs := pos0, ofs0;
      ghost var ws0 := asm.ws;
      ghost var cs := Cells(actionlist, start, args, pos0);
      ghost var done: seq<Cell> := [];
      ghost var n := 0;
      var stop := false;
      CellsAfter(actionlist, start, args, pos0);
      UnderWayStart(actionlist, asm, s, start, args, pos0, ofs0, |pclabels|, |sections|);
      while !stop
        invariant i <= |args| && asm.buf == buf && asm.labels == pclabels && |pclabels| == old(|pclabels|)
        invariant status == Okay && sections == old(sections) && |asm.ws| == |ws0| == |sections|
        invariant !stop ==> section == s && p <= |actionlist|
        invariant !stop ==> UnderWay(actionlist, asm, ws0, s, cs, done, p, args[i..], pos, ofs, n, |pclabels|, |sections|)
        invariant stop ==> Finished(actionlist, asm, ws0, s, cs, pos, ofs, |pclabels|, |sections|)
        invariant stop ==> section == NextSection(cs, s) && section < |sections|
        decreases if stop then 0 else 1, |actionlist| - p
      {
        UnderWayOne(actionlist, asm, ws0, s, cs, done, p, args[i..], pos, ofs, n, |pclabels|, |sections|, pos0);
        var d := Decode(actionlist, p);
        var arg := if NeedsArg(d.a) then args[i] else 0;
        ghost var c := Act(d.a, p, pos, arg);
        CellForIs(d.a, p, pos, args[i..]);
        ghost var before := asm;
        pos, ofs := PutAction(d.a, p, pos, ofs, arg, s, n, c);
        if status != Okay { return; }
        UnderWayNext(actionlist, before, asm, ws0, s, cs, done, p, args[i..], c.pos, ofs - c.Room(), n, |pclabels|, |sections|);
        done := done + [c];
        n := Emits(d.a, n);
        if NeedsArg(d.a) {
          assert args[i..][1..] == args[i + 1..];
          i := i + 1;
        }
        p := d.next;
        stop := d.a.Stop? || d.a.Section?;
        if stop { LastSection(cs, done, c, s); }
      }
      FinishedFacts(actionlist, asm, ws0, s, cs, pos, ofs, |pclabels|, |sections|);
    }

    method PutAction(a: Action, p: nat, pos: int, ofs: int, arg: int, ghost s: nat, ghost n: nat, ghost c: Cell)
      returns (pos2: int, ofs2: int)
      requires status == Okay && asm.buf == buf && asm.labels == pclabels
      requires Ready(actionlist, asm, s, p, pos, ofs, n, c) && c.a == a && c.arg == arg
      requires a.Space? ==> arg >= 0
      requires a.Align? ==> IsMask(a.mask)
      modifies this
      ensures sections == old(sections) && |pclabels| == old(|pclabels|)
      ensures status == Checked(c, |pclabels|, |sections|)
      ensures status == Okay ==>
        && asm.buf == buf && asm.labels == pclabels
        && AsmOk(actionlist, asm) && s < |old(asm.ws)| && asm.ws == Append(old(asm.ws), s, c)
        && pos2 == c.End() && ofs2 == ofs + c.Room()
        && section == if a.Section? then a.n else old(section)
    {
      hide AsmOk, Putting;
      pos2, ofs2 := pos, ofs;
      if a.RelPC? || a.ImmPC? {
        if !(0 <= arg < |pclabels|) {
          status := RangePC(p);
          return;
        }
        StoreRef(pos, ofs, arg, a.RelPC?, s, p, n, c);
        pos2, ofs2 := pos + 1, ofs + 4;
        if a.RelPC? { pos2 := pos2 + 1; }
      } else if a.LabelPC? {
        if !(0 <= arg < |pclabels|) {
          status := RangePC(p);
          return;
        }
        DefineLabel(pos, ofs, arg, s, p, n, c);
        pos2 := pos + 1;
      } else {
        if a.Section? {
          if !(a.n < |sections|) {
            status := RangeSec(p);
            return;
          }
          section := a.n;
        }
        pos2, ofs2 := StorePlain(a, pos, ofs, arg, s, p, n, c);
      }
    }

    /** Stores an action without a label. */
    method StorePlain(a: Action, pos: int, ofs: int, arg: int, ghost s: nat, ghost p: nat, ghost n: nat, ghost c: Cell)
      returns (pos2: int, ofs2: int)
      requires Ready(actionlist, asm, s, p, pos, ofs, n, c) && c.a == a && c.arg == arg && !c.IsRef() && !c.IsLabel()
      requires a.Space? ==> arg >= 0
      requires a.Align? ==> IsMask(a.mask)
      requires asm.buf == buf && asm.labels == pclabels
      modifies this`buf, this`asm
      ensures AsmOk(actionlist, asm) && s < |old(asm.ws)| && asm.ws == Append(old(asm.ws), s, c)
      ensures asm.buf == buf && asm.labels == pclabels
      ensures pos2 == c.End() && ofs2 == ofs + c.Room()
      ensures pos2 > pos ==> buf == old(buf)[pos := if a.Align? then ofs2 else arg]
    {
      hide AsmOk, Putting;
      InOrder(actionlist, asm, s, p, pos, ofs, n, c);
      pos2, ofs2 := pos, ofs;
      if a.Emit? {
        ofs2 := ofs2 + 1;
      } else if a.ImmD? {
        buf := buf[pos := arg];
        pos2, ofs2 := pos + 1, ofs + 4;
      } else if a.Space? {
        buf := buf[pos := arg];
        pos2, ofs2 := pos + 1, ofs + arg;
      } else if a.Align? {
        ofs2 := ofs + a.mask;
        buf := buf[pos := ofs2];
        pos2 := pos + 1;
      }
      StepPlain(actionlist, asm, s, p, pos, ofs, n, c, buf);
      asm := After(asm, s, c, buf, asm.labels, asm.chains);
    }

    /** Stores a reference: the position of an existing label, or a link of its chain; behind
        a branch also the offset estimate. */
    method StoreRef(pos: int, ofs: int, l: int, rel: bool, ghost s: nat, ghost p: nat, ghost n: nat, ghost c: Cell)
      requires Ready(actionlist, asm, s, p, pos, ofs, n, c) && c.IsRef() && c.arg == l && c.a.RelPC? == rel
      requires asm.buf == buf && asm.labels == pclabels && 0 <= l < |pclabels|
      modifies this`buf, this`pclabels, this`asm
      ensures AsmOk(actionlist, asm) && s < |old(asm.ws)| && asm.ws == Append(old(asm.ws), s, c)
      ensures asm.buf == buf && asm.labels == pclabels && |pclabels| == old(|pclabels|)
      ensures var r := old(pclabels[l]);
        if r < 0 then pclabels == old(pclabels) && Get(buf, pos) == -r
        else pclabels == old(pclabels)[l := pos] && Get(buf, pos) == r
    {
      hide AsmOk, Putting;
      ghost var before := asm;
      InOrder(actionlist, asm, s, p, pos, ofs, n, c);
      var r := pclabels[l];
      if r < 0 {
        buf := buf[pos := -r];
      } else {
        buf := buf[pos := r];
        pclabels := pclabels[l := pos];
      }
      if rel {
        buf := buf[pos + 1 := ofs + 4];
      }
      StepRef(actionlist, asm, s, p, pos, ofs, n, c, buf);
      asm := Referred(asm, s, c, buf);
    }

    /** Defines a label: its position replaces every link of its chain. */
    method DefineLabel(pos: int, ofs: int, l: int, ghost s: nat, ghost p: nat, ghost n: nat, ghost c: Cell)
      requires Ready(actionlist, asm, s, p, pos, ofs, n, c) && c.IsLabel() && c.arg == l
      requires asm.buf == buf && asm.labels == pclabels && 0 <= l < |pclabels|
      modifies this`buf, this`pclabels, this`asm
      ensures AsmOk(actionlist, asm) && s < |old(asm.ws)| && asm.ws == Append(old(asm.ws), s, c)
      ensures asm.buf == buf && asm.labels == pclabels && |pclabels| == old(|pclabels|)
      ensures pclabels == old(pclabels)[l := -pos] && Get(buf, pos) == ofs
    {
      hide AsmOk, Putting;
      InOrder(actionlist, asm, s, p, pos, ofs, n, c);
      ghost var ch := asm.chains[l];
      ChainOf(actionlist, asm, l);
      CollapseChain(pclabels[l], pos, ch);
      StepLabel(actionlist, asm, s, p, pos, ofs, n, c, buf);
      buf := buf[pos := ofs];
      pclabels := pclabels[l := -pos];
      asm := Labelled(asm, s, c, buf);
    }

    /** Replaces every link of the chain from `r' on. */
    method CollapseChain(r: int, pos: int, ghost ch: seq<int>)
      requires if r < 0 then ch == [] else ChainOk(buf, r, ch)
      modifies this`buf
      ensures Collapsed(old(buf), ch, pos, buf)
    {
      ghost var i := 0;
      var n := r;
      while n > 0
        invariant i <= |ch| && (r >= 0 ==> n == Next(ch, i))
        invariant r < 0 ==> n < 0
        invariant Collapsed(old(buf), ch[..i], pos, buf)
        decreases |ch| - i
      {
        assert n == ch[i] && n !in ch[..i];
        var pb := n;
        n := buf[pb];
        buf := buf[pb := pos];
        i := i + 1;
      }
      assert ch[..i] == ch;
    }
  
    // ---- Pass 2 ----------------------------------------------------------------------------

    /** dasm_link: reports a failed check or an undefined label, or links the program. */
    method Link() returns (r: Status, size: int)
      requires status == Okay ==> Valid()
      modifies this`buf, this`codesize
      ensures old(status) != Okay ==> r == old(status) && size == 0 && buf == old(buf)
      ensures old(status) == Okay ==> FirstUndefined(pclabels, r) && (r != Okay ==> buf == old(buf))
      ensures old(status) == Okay && r == Okay ==> Linked(Program()) && size == codesize
    {
      hide AsmOk, ProgOk, BranchesOk;
      size := 0;
      if status != Okay { return status, 0; }
      var pc := 0;
      while pc < |pclabels|
        invariant pc <= |pclabels| && forall l :: 0 <= l < pc ==> pclabels[l] <= 0
      {
        if pclabels[pc] > 0 { return UndefPC(pc), 0; }
        pc := pc + 1;
      }
      ghost var pr := Program();
      assert EstOk(asm.ws, Offsets()) by {
        forall s | 0 <= s < |sections| ensures Offsets()[s] == Est(asm.ws[s], |asm.ws[s]|) { assert SectionAt(s); }
      }
      ReadyToLink(actionlist, asm, Offsets());
      var secnum, ofs := 0, 0;
      while secnum < |sections|
        invariant secnum <= |sections|
        invariant LinkState(buf, ofs) == Swept(pr, secnum, 0)
      {
        assert SectionAt(secnum);
        SectionOf(actionlist, asm, secnum);
        ofs := LinkSection(secnum, ofs, pr);
        ofs := ofs + sections[secnum].ofs;
        secnum := secnum + 1;
      }
      codesize := ofs;
      size := ofs;
      r := Okay;
    }

    /** Links one section from its first to its last action. */
    method LinkSection(s: nat, ofs0: int, ghost pr: Prog) returns (ofs: int)
      requires ProgOk(pr) && pr.est == Offsets() && |sections| == |pr.walks| && s < |sections|
      requires SectionOk(actionlist, pr.walks[s], s) && Closed(pr.walks[s])
      requires sections[s].pos == EndPos(pr.walks[s], s * BIAS)
      requires LinkState(buf, ofs0) == Swept(pr, s, 0)
      modifies this`buf
      ensures LinkState(buf, ofs) == Swept(pr, s, |pr.walks[s]|)
    {
      hide ProgOk, Swept, SectionOk, LinkCell, Follows;
      ghost var cs := pr.walks[s];
      ghost var k := 0;
      var pos := s * BIAS;
      var lastpos := sections[s].pos;
      ofs := ofs0;
      WalkStart(actionlist, cs, s);
      while pos != lastpos
        invariant k <= |cs| && pos == PlaceOf(cs, s, k) && (k < |cs| ==> cs[k].Begin?)
        invariant LinkState(buf, ofs) == Swept(pr, s, k)
        invariant sections == old(sections)
        decreases |cs| - k
      {
        WalkNext(actionlist, cs, s, k);
        BeginSlot(pr, s, k);
        var p := Get(buf, pos);
        SweepOnce(pr, s, k);
        pos := pos + 1;
        k := k + 1;
        ghost var first := k;
        var stop := false;
        while !stop
          invariant first <= k <= |cs| && pos == PlaceOf(cs, s, k)
          invariant if stop then k < |cs| ==> cs[k].Begin? else k < |cs| && cs[k].Act? && cs[k].p == p
          invariant LinkState(buf, ofs) == Swept(pr, s, k)
          decreases if stop then 0 else 1, |cs| - k
        {
          WalkNext(actionlist, cs, s, k);
          var d := Decode(actionlist, p);
          SweepOnce(pr, s, k);
          pos, ofs := LinkAction(d.a, pos, ofs, s, pr, k);
          p := d.next;
          k := k + 1;
          stop := d.a.Stop? || d.a.Section?;
        }
      }
      WalkEnds(actionlist, cs, s, k);
    }

    method LinkAction(a: Action, pos: int, ofs: int, s: nat, ghost pr: Prog, ghost k: nat) returns (pos2: int, ofs2: int)
      requires ProgOk(pr) && pr.est == Offsets() && |sections| == |pr.walks| && s < |sections|
      requires k < |pr.walks[s]| && pr.walks[s][k].Act? && pr.walks[s][k].a == a && pr.walks[s][k].pos == pos
      requires LinkState(buf, ofs) == Swept(pr, s, k)
      modifies this`buf
      ensures pos2 == pr.walks[s][k].End()
      ensures LinkState(buf, ofs2) == LinkCell(LinkState(old(buf), ofs), pr.est, s, pr.walks[s][k])
    {
      hide ProgOk, Swept;
      pos2, ofs2 := pos, ofs;
      if a.RelPC? {
        var sh := Shrinkage(a.op, pos, ofs, s, pr, k);
        ofs2 := ofs - sh;
        buf := buf[pos + 1 := sh];
        pos2 := pos + 2;
      } else if a.LabelPC? {
        buf := buf[pos := Get(buf, pos) + ofs];
        pos2 := pos + 1;
      } else if a.Align? {
        ofs2 := ofs - And(Get(buf, pos) + ofs, a.mask);
        pos2 := pos + 1;
      } else if a.ImmD? || a.Space? || a.ImmPC? {
        pos2 := pos + 1;
      }
    }

    /** How many bytes a branch can save. */
    method Shrinkage(op: Byte, pos: int, ofs: int, s: nat, ghost pr: Prog, ghost k: nat) returns (sh: nat)
      requires ProgOk(pr) && pr.est == Offsets() && |sections| == |pr.walks| && s < |sections|
      requires k < |pr.walks[s]| && pr.walks[s][k].Act? && pr.walks[s][k].a == RelPC(op) && pr.walks[s][k].pos == pos
      requires LinkState(buf, ofs) == Swept(pr, s, k)
      ensures sh == Shrink(buf, pr.est, s, pr.walks[s][k], ofs)
    {
      hide ProgOk, Swept;
      sh := if op == 0xe9 then 3 else if op / 16 == 8 then 4 else 0;
      if sh != 0 {
        var lpos := Get(buf, pos);
        LabelSection(pr, s, k);
        var lofs := Get(buf, lpos);
        if lpos > pos {
          var i := s;
          ghost var sum := 0;
          while i < PosSection(lpos)
            invariant s <= i && (i <= PosSection(lpos) || i == s)
            invariant lofs == Get(buf, lpos) + Span(pr.est, s, i)
          {
            SpanSplit(pr.est, s, i);
            lofs := lofs + sections[i].ofs;
            i := i + 1;
          }
          if PosSection(lpos) < s { assert Span(pr.est, s, PosSection(lpos)) == Span(pr.est, s, s); }
        } else {
          lofs := lofs - ofs;
        }
        lofs := lofs - Get(buf, pos + 1);
        if !(-128 - sh <= lofs <= 127) { sh := 0; }
      }
    }
  
    // ---- Pass 3 ----------------------------------------------------------------------------

    /** dasm_encode: writes the code; the check for phase errors cannot fail. */
    method Encode(buffer: array<Byte>, base: int, ghost pr: Prog) returns (r: Status)
      requires Linked(pr) && buffer.Length >= codesize
      modifies buffer
      ensures r == Okay
      ensures 0 <= codesize && buffer[..codesize] == Output(pr, base)
    {
      hide AsmOk, ProgOk, BranchesOk, DasmLink.Linked, OutAt;
      var secnum: nat := 0;
      var cp: nat := 0;
      Lengths(pr);
      NoPhaseError(pr, base);
      OutStart(pr, base);
      while secnum < |sections|
        invariant secnum <= |sections| && cp <= buffer.Length
        invariant buffer[..cp] == OutAt(pr, base, secnum, 0)
      {
        assert SectionAt(secnum);
        SectionOf(actionlist, asm, secnum);
        cp := EncodeSection(secnum, cp, buffer, base, pr);
        OutNext(pr, base, secnum);
        secnum := secnum + 1;
      }
      assert buffer[..cp] == Output(pr, base);
      r := if cp == codesize then Okay else Phase;
    }

    method EncodeSection(s: nat, cp0: nat, buffer: array<Byte>, base: int, ghost pr: Prog) returns (cp: nat)
      requires ProgOk(pr) && BranchesOk(pr) && |sections| == |pr.walks| && s < |sections|
      requires SectionOk(actionlist, pr.walks[s], s) && Closed(pr.walks[s])
      requires sections[s].pos == EndPos(pr.walks[s], s * BIAS)
      requires buf == DasmLink.Linked(pr)
      requires cp0 <= buffer.Length && buffer.Length >= CodeSize(pr) && buffer[..cp0] == OutAt(pr, base, s, 0)
      modifies buffer
      ensures cp <= buffer.Length && buffer[..cp] == OutAt(pr, base, s, |pr.walks[s]|)
    {
      hide ProgOk, BranchesOk, Swept, SectionOk, OutAt, Follows, DasmLink.Linked, EmitCell;
      Lengths(pr);
      ghost var cs := pr.walks[s];
      ghost var k := 0;
      var pos := s * BIAS;
      var endb := sections[s].pos;
      cp := cp0;
      WalkStart(actionlist, cs, s);
      while pos != endb
        invariant k <= |cs| && pos == PlaceOf(cs, s, k) && (k < |cs| ==> cs[k].Begin?)
        invariant cp <= buffer.Length && buffer[..cp] == OutAt(pr, base, s, k)
        decreases |cs| - k
      {
        WalkNext(actionlist, cs, s, k);
        BeginLinked(pr, s, k);
        OutOnce(pr, base, s, k);
        var p := Get(buf, pos);
        pos := pos + 1;
        k := k + 1;
        ghost var first := k;
        var stop := false;
        while !stop
          invariant first <= k <= |cs| && pos == PlaceOf(cs, s, k)
          invariant if stop then k < |cs| ==> cs[k].Begin? else k < |cs| && cs[k].Act? && cs[k].p == p
          invariant cp <= buffer.Length && buffer[..cp] == OutAt(pr, base, s, k)
          decreases if stop then 0 else 1, |cs| - k
        {
          WalkNext(actionlist, cs, s, k);
          var d := Decode(actionlist, p);
          OutOnce(pr, base, s, k);
          OutLength(pr, base, s, k + 1);
          RealInside(pr, base, s, k + 1);
          pos, cp := EncodeAction(d.a, pos, cp, buffer, base, s, pr, k);
          p := d.next;
          k := k + 1;
          stop := d.a.Stop? || d.a.Section?;
        }
      }
      WalkEnds(actionlist, cs, s, k);
    }

    method EncodeAction(a: Action, pos: int, cp: nat, buffer: array<Byte>, base: int,
                        ghost s: nat, ghost pr: Prog, ghost k: nat) returns (pos2: int, cp2: nat)
      requires ProgOk(pr) && BranchesOk(pr) && s < |pr.walks|
      requires k < |pr.walks[s]| && pr.walks[s][k].Act? && pr.walks[s][k].a == a && pr.walks[s][k].pos == pos
      requires buf == DasmLink.Linked(pr)
      requires cp <= buffer.Length && buffer[..cp] == OutAt(pr, base, s, k)
      requires |EmitCell(DasmLink.Linked(pr), base, pr.walks[s][k], OutAt(pr, base, s, k))| <= buffer.Length
      modifies buffer
      ensures pos2 == pr.walks[s][k].End()
      ensures cp2 <= buffer.Length
      ensures buffer[..cp2] == EmitCell(DasmLink.Linked(pr), base, pr.walks[s][k], OutAt(pr, base, s, k))
    {
      hide ProgOk, BranchesOk, Swept, OutAt, DasmLink.Linked;
      Lengths(pr);
      ghost var out := OutAt(pr, base, s, k);
      pos2, cp2 := pos, cp;
      if a.Emit? {
        buffer[cp] := a.b;
        cp2 := cp + 1;
      } else if a.ImmD? {
        cp2 := WriteDword(buffer, cp, Get(buf, pos));
        pos2 := pos + 1;
      } else if a.Space? {
        var n := Get(buf, pos);
        SpaceArg(pr, s, k);
        cp2 := WriteFill(buffer, cp, n, a.fill);
        pos2 := pos + 1;
      } else if a.RelPC? {
        cp2 := EncodeBranch(a.op, pos, cp, buffer, base, s, pr, k);
        pos2 := pos + 2;
      } else if a.ImmPC? {
        cp2 := WriteDword(buffer, cp, Get(buf, Get(buf, pos)) + base);
        pos2 := pos + 1;
      } else if a.Align? {
        AlignMask(pr, s, k);
        cp2 := WriteNops(buffer, cp, a.mask);
        pos2 := pos + 1;
      } else if a.LabelPC? {
        pos2 := pos + 1;
      }
    }

    method EncodeBranch(op: Byte, pos: int, cp: nat, buffer: array<Byte>, ghost base: int,
                        ghost s: nat, ghost pr: Prog, ghost k: nat) returns (cp2: nat)
      requires ProgOk(pr) && BranchesOk(pr) && s < |pr.walks|
      requires k < |pr.walks[s]| && pr.walks[s][k].Act? && pr.walks[s][k].a == RelPC(op) && pr.walks[s][k].pos == pos
      requires buf == DasmLink.Linked(pr)
      requires cp <= buffer.Length && buffer[..cp] == OutAt(pr, base, s, k)
      requires |EmitCell(DasmLink.Linked(pr), base, pr.walks[s][k], OutAt(pr, base, s, k))| <= buffer.Length
      modifies buffer
      ensures cp2 <= buffer.Length
      ensures buffer[..cp2] == EmitCell(DasmLink.Linked(pr), base, pr.walks[s][k], OutAt(pr, base, s, k))
    {
      hide *;
      BranchNow(pr, s, k, op);
      BranchPlan(pr, base, s, k);
      PlanFacts(pr, base, s, k);
      BranchForm(OutAt(pr, base, s, k), op, Get(buf, pos + 1), Get(buf, Get(buf, pos)));
      ghost var out := OutAt(pr, base, s, k);
      var shrink := Get(buf, pos + 1);
      var n := Get(buf, Get(buf, pos)) - (cp + 4 - shrink);
      assert |out| == cp;
      if shrink == 0 {
        cp2 := WriteDword(buffer, cp, n);
      } else if shrink == 4 {
        TakenBack(buffer, cp, out, 2);
        cp2 := WriteShort(buffer, cp - 2, Low(buffer[cp - 1] as int - 0x10), n);
      } else {
        TakenBack(buffer, cp, out, 1);
        cp2 := WriteShort(buffer, cp - 1, 0xeb, n);
      }
    }

    /** dasm_getpclabel after linking: the place of a defined label, -1 if the label is
        undefined, -2 if it is unused or out of range. */
    method GetPcLabel(pc: nat, ghost pr: Prog) returns (r: int)
      requires Linked(pr)
      ensures pc < |pclabels| && pclabels[pc] < 0 ==>
        -pclabels[pc] in pr.defs && DasmLayout.Valid(pr, pr.defs[-pclabels[pc]])
        && pr.walks[pr.defs[-pclabels[pc]].s][pr.defs[-pclabels[pc]].k].arg == pc
        && r == Real(pr, pr.defs[-pclabels[pc]].s, pr.defs[-pclabels[pc]].k)
      ensures pc < |pclabels| && pclabels[pc] > 0 ==> r == -1
      ensures pc >= |pclabels| || pclabels[pc] == 0 ==> r == -2
    {
      hide ProgOk, BranchesOk, Swept, DasmLink.Linked, Real;
      if pc < |pclabels| {
        var pos := pclabels[pc];
        if pos < 0 {
          DefinedAt(actionlist, asm, pc);
          LabelLinked(pr, pr.defs[-pos].s, pr.defs[-pos].k);
          return Get(buf, -pos);
        }
        if pos > 0 { return -1; }
      }
      return -2;
    }
  }

  // ---- Writing bytes -------------------------------------------------------------------------

  method WriteDword(buffer: array<Byte>, cp: nat, n: int) returns (cp2: nat)
    requires cp + 4 <= buffer.Length
    modifies buffer
    ensures cp2 == cp + 4 && buffer[..cp2] == old(buffer[..cp]) + Le32(n)
  {
    buffer[cp] := Low(n);
    buffer[cp + 1] := Low(n / 0x100);
    buffer[cp + 2] := Low(n / 0x1_0000);
    buffer[cp + 3] := Low(n / 0x100_0000);
    cp2 := cp + 4;
    assert buffer[..cp] == old(buffer[..cp]);
  }

  /** A short branch: its opcode and the displacement byte. */
  method WriteShort(buffer: array<Byte>, at: nat, op: Byte, n: int) returns (cp2: nat)
    requires at + 2 <= buffer.Length
    modifies buffer
    ensures cp2 == at + 2 && buffer[..cp2] == old(buffer[..at]) + [op, Low(n)]
  {
    buffer[at] := op;
    buffer[at + 1] := Low(n);
    cp2 := at + 2;
    assert buffer[..at] == old(buffer[..at]);
  }

  method WriteFill(buffer: array<Byte>, cp: nat, n: nat, fill: Byte) returns (cp2: nat)
    requires cp + n <= buffer.Length
    modifies buffer
    ensures cp2 == cp + n && buffer[..cp2] == old(buffer[..cp]) + Fill(n, fill)
  {
    cp2 := cp;
    var i := n;
    while i > 0
      invariant 0 <= i <= n && cp2 == cp + (n - i)
      invariant buffer[..cp2] == old(buffer[..cp]) + Fill(n - i, fill)
    {
      buffer[cp2] := fill;
      cp2 := cp2 + 1;
      i := i - 1;
    }
  }

  method WriteNops(buffer: array<Byte>, cp: nat, mask: nat) returns (cp2: nat)
    requires IsMask(mask) && cp + Padding(cp, mask) <= buffer.Length
    modifies buffer
    ensures cp2 == cp + Padding(cp, mask) && buffer[..cp2] == old(buffer[..cp]) + Fill(Padding(cp, mask), 0x90)
  {
    cp2 := cp;
    MaskIsRemainder(cp2, mask);
    PaddingSize(cp, mask);
    while And(cp2, mask) != 0
      invariant cp <= cp2 <= cp + Padding(cp, mask)
      invariant And(cp2, mask) == cp2 % (mask + 1)
      invariant buffer[..cp2] == old(buffer[..cp]) + Fill(cp2 - cp, 0x90)
      decreases cp + Padding(cp, mask) - cp2
    {
      buffer[cp2] := 0x90;
      cp2 := cp2 + 1;
      MaskIsRemainder(cp2, mask);
    }
    PaddingLeast(cp, mask, cp2);
  }

  lemma Remultiplied(m: nat, d: nat)
    requires d > 0 && m % d == 0
    ensures m == d * (m / d)
  {
  }

  /** The padding goes no further than the next multiple. */
  lemma PaddingLeast(n: nat, mask: nat, j: nat)
    requires n <= j <= n + Padding(n, mask) && j % (mask + 1) == 0
    ensures j == n + Padding(n, mask)
  {
    var d, m := mask + 1, n + Padding(n, mask);
    PaddingSize(n, mask);
    hide Padding;
    Remultiplied(j, d);
    Remultiplied(m, d);
    Distribute(d, m / d, j / d);
    if m / d - j / d >= 1 { ProductGrows(d, m / d - j / d); }
    if j / d - m / d >= 1 { ProductGrows(d, j / d - m / d); Distribute(d, j / d, m / d); }
  }

  // ---- Facts for pass 3 ------------------------------------------------------------------------

  lemma OutStart(pr: Prog, base: int)
    requires |pr.est| == |pr.walks|
    ensures OutAt(pr, base, 0, 0) == []
  {
  }

  lemma OutNext(pr: Prog, base: int, s: nat)
    requires |pr.est| == |pr.walks| && s < |pr.walks|
    ensures OutAt(pr, base, s + 1, 0) == OutAt(pr, base, s, |pr.walks[s]|)
  {
  }

  lemma BeginLinked(pr: Prog, s: nat, k: nat)
    requires ProgOk(pr) && Place(pr, s, k) && k < |pr.walks[s]| && pr.walks[s][k].Begin?
    ensures Get(DasmLink.Linked(pr), pr.walks[s][k].pos) == pr.walks[s][k].start
  {
    PlainLinked(pr, s, k);
    assert FieldsOk(pr.mem, pr.walks[s], k);
  }

  lemma SpaceArg(pr: Prog, s: nat, k: nat)
    requires ProgOk(pr) && Place(pr, s, k) && k < |pr.walks[s]| && pr.walks[s][k].Act? && pr.walks[s][k].a.Space?
    ensures Get(DasmLink.Linked(pr), pr.walks[s][k].pos) >= 0
  {
    CellSlots(pr, s, k);
  }

  lemma AlignMask(pr: Prog, s: nat, k: nat)
    requires ProgOk(pr) && Place(pr, s, k) && k < |pr.walks[s]| && pr.walks[s][k].Act? && pr.walks[s][k].a.Align?
    ensures IsMask(pr.walks[s][k].a.mask)
  {
    assert FieldsOk(pr.mem, pr.walks[s], k);
  }

  lemma BranchBytes(pr: Prog, base: int, s: nat, k: nat)
    requires IsBranch(pr, s, k)
    ensures var c := pr.walks[s][k]; var m := DasmLink.Linked(pr);
      EmitCell(m, base, c, OutAt(pr, base, s, k)) ==
        EmitBranch(OutAt(pr, base, s, k), c.a.op, Get(m, c.pos + 1), Get(m, Get(m, c.pos)))
  {
  }

  lemma TakenBack(buffer: array<Byte>, cp: nat, out: seq<Byte>, d: nat)
    requires cp <= buffer.Length && buffer[..cp] == out && 0 < d <= cp
    ensures buffer[..cp - d] == out[..|out| - d] && buffer[cp - 1] == out[|out| - 1]
  {
  }

  /** The bytes of a branch: a displacement, or a short form over its opcode. */
  predicate Planned(pr: Prog, base: int, s: nat, k: nat)
    requires IsBranch(pr, s, k)
  {
    var c := pr.walks[s][k];
    var m := DasmLink.Linked(pr);
    var out := OutAt(pr, base, s, k);
    var shrink := Get(m, c.pos + 1);
    && (shrink == 0 || (shrink == 3 && |out| >= 1) || (shrink == 4 && |out| >= 2 && out[|out| - 1] == c.a.op))
    && EmitCell(m, base, c, out) == EmitBranch(out, c.a.op, shrink, Get(m, Get(m, c.pos)))
  }

  lemma BranchPlan(pr: Prog, base: int, s: nat, k: nat)
    requires ProgOk(pr) && BranchesOk(pr) && IsBranch(pr, s, k)
    ensures Planned(pr, base, s, k)
  {
    hide ProgOk, BranchesOk, OutAt, DasmLink.Linked, EmitCell, EmitBranch;
    OpcodeOut(pr, base, s, k);
    BranchBytes(pr, base, s, k);
  }

  lemma PlanFacts(pr: Prog, base: int, s: nat, k: nat)
    requires IsBranch(pr, s, k) && Planned(pr, base, s, k)
    ensures |pr.est| == |pr.walks|
    ensures var c := pr.walks[s][k]; var m := DasmLink.Linked(pr); var out := OutAt(pr, base, s, k);
      var shrink := Get(m, c.pos + 1);
      && (shrink == 0 || (shrink == 3 && |out| >= 1) || (shrink == 4 && |out| >= 2 && out[|out| - 1] == c.a.op))
      && EmitCell(m, base, c, out) == EmitBranch(out, c.a.op, shrink, Get(m, Get(m, c.pos)))
  {
    hide OutAt, DasmLink.Linked, EmitCell, EmitBranch;
  }

  lemma BranchNow(pr: Prog, s: nat, k: nat, op: Byte)
    requires ProgOk(pr) && s < |pr.walks| && k < |pr.walks[s]| && pr.walks[s][k].Act? && pr.walks[s][k].a == RelPC(op)
    ensures IsBranch(pr, s, k) && |pr.est| == |pr.walks|
  {
  }

  lemma BranchForm(out: seq<Byte>, op: Byte, shrink: int, target: int)
    requires shrink == 0 || (shrink == 3 && |out| >= 1) || (shrink == 4 && |out| >= 2)
    ensures var n := target - (|out| + 4 - shrink);
      EmitBranch(out, op, shrink, target) ==
        if shrink == 0 then out + Le32(n)
        else if shrink == 4 then out[..|out| - 2] + [Low(op as int - 0x10), Low(n)]
        else out[..|out| - 1] + [0xeb, Low(n)]
    ensures |Le32(target - (|out| + 4 - shrink))| == 4
    ensures |EmitBranch(out, op, shrink, target)| == if shrink == 0 then |out| + 4 else |out| + 4 - shrink
  {
    hide Low;
  }

  lemma OpcodeOut(pr: Prog, base: int, s: nat, k: nat)
    requires ProgOk(pr) && BranchesOk(pr) && IsBranch(pr, s, k)
    ensures var shrink := Get(DasmLink.Linked(pr), pr.walks[s][k].pos + 1); var out := OutAt(pr, base, s, k);
      && shrink in {0, 3, 4}
      && (shrink != 0 ==> |out| >= shrink - 2 && out[|out| - 1] == pr.walks[s][k].a.op)
  {
    assert BranchOk(pr.walks[s], k);
    hide ProgOk, BranchesOk, DasmLink.Linked, Real, OutAt, Swept;
    BranchLinked(pr, s, k);
    SizeBranch(pr, s, k);
    TakenBounds(pr, s, k);
    if Taken(pr, s, k) > 0 {
      if Taken(pr, s, k) == 2 { OutOnce(pr, base, s, k - 2); }
      OutOnce(pr, base, s, k - 1);
    }
  }

  lemma DefinedAt(al: seq<Byte>, a: Asm, l: nat)
    requires AsmOk(al, a) && l < |a.labels| && a.labels[l] < 0
    ensures -a.labels[l] in a.defs && Has(a.ws, a.defs[-a.labels[l]]) && At(a.ws, a.defs[-a.labels[l]]).IsLabel()
    ensures At(a.ws, a.defs[-a.labels[l]]).arg == l && At(a.ws, a.defs[-a.labels[l]]).pos == -a.labels[l]
  {
    assert LabelOk(a, l);
  }

  // ---- Walking through a section -------------------------------------------------------------

  function PlaceOf(cs: seq<Cell>, s: nat, k: nat): int
    requires k <= |cs|
  {
    if k < |cs| then cs[k].pos else EndPos(cs, s * BIAS)
  }

  lemma SectionOf(al: seq<Byte>, a: Asm, s: nat)
    requires AsmOk(al, a) && s < |a.ws|
    ensures SectionOk(al, a.ws[s], s)
  {
  }

  lemma WalkStart(al: seq<Byte>, cs: seq<Cell>, s: nat)
    requires SectionOk(al, cs, s)
    ensures PlaceOf(cs, s, 0) == s * BIAS && (|cs| > 0 ==> cs[0].Begin?)
  {
  }

  /** From a cell to the next one, in the buffer and in the action list. */
  lemma WalkNext(al: seq<Byte>, cs: seq<Cell>, s: nat, k: nat)
    requires SectionOk(al, cs, s) && Closed(cs)
    requires k <= |cs| && (k < |cs| || PlaceOf(cs, s, k) != EndPos(cs, s * BIAS))
    ensures k < |cs| && PlaceOf(cs, s, k + 1) == cs[k].End()
    ensures cs[k].Act? ==> Decode(al, cs[k].p).Read? && Decode(al, cs[k].p).a == cs[k].a
    ensures if cs[k].Begin? || !cs[k].IsLast() then
        k + 1 < |cs| && cs[k + 1].Act? && cs[k + 1].p == (if cs[k].Begin? then cs[k].start else Decode(al, cs[k].p).next)
      else k + 1 < |cs| ==> cs[k + 1].Begin?
  {
    assert DecodesTo(al, cs[k]);
    if k + 1 < |cs| { assert Follows(al, cs[k], cs[k + 1]); }
  }

  lemma WalkEnds(al: seq<Byte>, cs: seq<Cell>, s: nat, k: nat)
    requires SectionOk(al, cs, s) && k <= |cs| && PlaceOf(cs, s, k) == EndPos(cs, s * BIAS) && (k < |cs| ==> cs[k].Begin?)
    ensures k == |cs|
  {
    if k < |cs| { EndsBefore(cs, s, k); }
  }

  lemma BeginSlot(pr: Prog, s: nat, k: nat)
    requires ProgOk(pr) && Place(pr, s, k) && k < |pr.walks[s]| && pr.walks[s][k].Begin?
    ensures Get(Swept(pr, s, k).mem, pr.walks[s][k].pos) == pr.walks[s][k].start
  {
    OwnSlots(pr, s, k);
    assert FieldsOk(pr.mem, pr.walks[s], k);
  }

  lemma SweepOnce(pr: Prog, s: nat, k: nat)
    requires Place(pr, s, k) && k < |pr.walks[s]|
    ensures Swept(pr, s, k + 1) == LinkCell(Swept(pr, s, k), pr.est, s, pr.walks[s][k])
    ensures pr.walks[s][k].Begin? ==> Swept(pr, s, k + 1) == Swept(pr, s, k)
  {
  }

  /** The label of a branch lies in one of the sections. */
  lemma LabelSection(pr: Prog, s: nat, k: nat)
    requires ProgOk(pr) && Place(pr, s, k) && k < |pr.walks[s]|
    requires pr.walks[s][k].Act? && pr.walks[s][k].a.RelPC?
    ensures PosSection(Get(Swept(pr, s, k).mem, pr.walks[s][k].pos)) < |pr.walks|
  {
    BranchSlots(pr, s, k);
    TargetIs(pr, s, k);
    var l := Target(pr, pr.walks[s][k]);
    TargetSlot(pr, s, k, l.s, l.k);
  }

  /** The cells behind the next one. */
  function Rest(al: seq<Byte>, p: nat, args: seq<int>, pos: int): seq<Cell> {
    match Decode(al, p)
    case Bad => []
    case Read(a, next) =>
      if IsLastAction(a) then []
      else Cells(al, next, if NeedsArg(a) && |args| > 0 then args[1..] else args, CellFor(a, p, pos, args).End())
  }

  lemma TakesOne(al: seq<Byte>, p: nat, args: seq<int>, n: nat, pos: int)
    requires Takes(al, p, args, n)
    ensures Decode(al, p).Read?
    ensures var a := Decode(al, p).a;
      && (NeedsArg(a) ==> |args| > 0)
      && (a.Space? ==> args[0] >= 0)
      && (a.Align? ==> IsMask(a.mask))
      && (a.RelPC? ==> (Saving(a.op) >= 3 ==> n >= 1) && (Saving(a.op) == 4 ==> n >= 2))
      && (!IsLastAction(a) ==>
            Takes(al, Decode(al, p).next, if NeedsArg(a) then args[1..] else args, if a.Emit? then n + 1 else 0))
      && Cells(al, p, args, pos) == [CellFor(a, p, pos, args)] + Rest(al, p, args, pos)
  {
  }

  /** A put under way, with the cells already stored and those still to come. */
  ghost predicate UnderWay(al: seq<Byte>, a: Asm, ws0: Walks, s: nat, cs: seq<Cell>, done: seq<Cell>,
                           p: nat, args: seq<int>, pos: int, ofs: int, n: nat, labels: nat, sections: nat) {
    && s < |ws0| && a.ws == ws0[s := ws0[s] + done]
    && Putting(al, a, s, p, pos, ofs, n) && Takes(al, p, args, n)
    && cs == done + Cells(al, p, args, pos)
    && FirstFailure(done, labels, sections) == Okay
  }

  ghost predicate Finished(al: seq<Byte>, a: Asm, ws0: Walks, s: nat, cs: seq<Cell>, pos: int, ofs: int, labels: nat, sections: nat) {
    && s < |ws0| && a.ws == ws0[s := ws0[s] + cs] && AsmOk(al, a) && Closed(a.ws[s])
    && pos == EndPos(a.ws[s], s * BIAS) && ofs == Est(a.ws[s], |a.ws[s]|)
    && FirstFailure(cs, labels, sections) == Okay
  }

  lemma UnderWayStart(al: seq<Byte>, a: Asm, s: nat, p: nat, args: seq<int>, pos: int, ofs: int, labels: nat, sections: nat)
    requires Putting(al, a, s, p, pos, ofs, 0) && Takes(al, p, args, 0) && s < |a.ws|
    ensures UnderWay(al, a, a.ws, s, Cells(al, p, args, pos), [], p, args[0..], pos, ofs, 0, labels, sections)
    ensures p <= |al|
  {
    TakesOne(al, p, args, 0, pos);
    hide Putting, Takes, Cells;
    assert a.ws[s := a.ws[s] + []] == a.ws by { assert a.ws[s] + [] == a.ws[s]; }
    assert args[0..] == args && [] + Cells(al, p, args, pos) == Cells(al, p, args, pos);
  }

  lemma FinishedFacts(al: seq<Byte>, a: Asm, ws0: Walks, s: nat, cs: seq<Cell>, pos: int, ofs: int, labels: nat, sections: nat)
    requires Finished(al, a, ws0, s, cs, pos, ofs, labels, sections)
    ensures s < |ws0| && a.ws == ws0[s := ws0[s] + cs] && AsmOk(al, a) && Closed(a.ws[s])
    ensures pos == EndPos(a.ws[s], s * BIAS) && ofs == Est(a.ws[s], |a.ws[s]|)
    ensures FirstFailure(cs, labels, sections) == Okay
  {
  }

  lemma LastSection(cs: seq<Cell>, done: seq<Cell>, c: Cell, s: nat)
    requires cs == done && done != [] && done[|done| - 1] == c
    ensures NextSection(cs, s) == if c.Act? && c.a.Section? then c.a.n else s
  {
  }

  lemma CellForIs(a: Action, p: nat, pos: int, args: seq<int>)
    requires NeedsArg(a) ==> |args| > 0
    ensures CellFor(a, p, pos, args) == Act(a, p, pos, if NeedsArg(a) then args[0] else 0)
  {
  }

  /** What the next action may rely on, and what its failure means. */
  lemma UnderWayOne(al: seq<Byte>, a: Asm, ws0: Walks, s: nat, cs: seq<Cell>, done: seq<Cell>, p: nat, args: seq<int>,
                    pos: int, ofs: int, n: nat, labels: nat, sections: nat, pos0: int)
    requires UnderWay(al, a, ws0, s, cs, done, p, args, pos, ofs, n, labels, sections)
    requires EndPos(cs, pos0) <= (s + 1) * BIAS && forall c :: c in cs ==> c.End() <= EndPos(cs, pos0)
    ensures Decode(al, p).Read? && p < Decode(al, p).next <= |al|
    ensures var d := Decode(al, p).a; var c := CellFor(d, p, pos, args);
      && (NeedsArg(d) ==> |args| > 0)
      && (d.Space? ==> args[0] >= 0)
      && (d.Align? ==> IsMask(d.mask))
      && Ready(al, a, s, p, pos, ofs, n, c)
      && (Checked(c, labels, sections) != Okay ==> FirstFailure(cs, labels, sections) == Checked(c, labels, sections))
  {
    TakesOne(al, p, args, n, pos);
    var c := CellFor(Decode(al, p).a, p, pos, args);
    hide Putting, Takes, Cells, EndPos, FirstFailure, Checked, Rest;
    NextCell(cs, done, c, Rest(al, p, args, pos));
    Judged(cs, done, c, Rest(al, p, args, pos), labels, sections);
    ReadyNow(al, a, s, p, pos, ofs, n, args, cs, pos0);
  }

  /** After the action. */
  lemma UnderWayNext(al: seq<Byte>, a: Asm, b: Asm, ws0: Walks, s: nat, cs: seq<Cell>, done: seq<Cell>, p: nat, args: seq<int>,
                     pos: int, ofs: int, n: nat, labels: nat, sections: nat)
    requires UnderWay(al, a, ws0, s, cs, done, p, args, pos, ofs, n, labels, sections) && Decode(al, p).Read?
    requires var c := CellFor(Decode(al, p).a, p, pos, args);
      && Ready(al, a, s, p, pos, ofs, n, c) && AsmOk(al, b) && s < |a.ws| && b.ws == Append(a.ws, s, c)
      && Checked(c, labels, sections) == Okay
    ensures var d := Decode(al, p); var c := CellFor(d.a, p, pos, args);
      if IsLastAction(d.a) then
        && Finished(al, b, ws0, s, cs, c.End(), ofs + c.Room(), labels, sections) && cs == done + [c]
      else UnderWay(al, b, ws0, s, cs, done + [c], d.next, if NeedsArg(d.a) then args[1..] else args,
             c.End(), ofs + c.Room(), Emits(d.a, n), labels, sections)
  {
    TakesOne(al, p, args, n, pos);
    var c := CellFor(Decode(al, p).a, p, pos, args);
    Judged(cs, done, c, Rest(al, p, args, pos), labels, sections);
    hide Putting, Takes, Cells, EndPos, FirstFailure, Checked, Est, AsmOk, Ready;
    Advance(al, a, s, p, pos, ofs, n, c, b);
    NextWalks(ws0, s, done, c);
    NextCell(cs, done, c, Rest(al, p, args, pos));
  }

  /** The next cell of the put fits. */
  lemma ReadyNow(al: seq<Byte>, a: Asm, s: nat, p: nat, pos: int, ofs: int, n: nat, args: seq<int>, cs: seq<Cell>, pos0: int)
    requires Putting(al, a, s, p, pos, ofs, n) && Takes(al, p, args, n) && Decode(al, p).Read?
    requires CellFor(Decode(al, p).a, p, pos, args) in cs && EndPos(cs, pos0) <= (s + 1) * BIAS
    requires forall c :: c in cs ==> c.End() <= EndPos(cs, pos0)
    ensures Ready(al, a, s, p, pos, ofs, n, CellFor(Decode(al, p).a, p, pos, args))
  {
    hide Putting, EndPos;
  }

  lemma NextCell(cs: seq<Cell>, done: seq<Cell>, c: Cell, rest: seq<Cell>)
    requires cs == done + ([c] + rest)
    ensures c in cs && cs == (done + [c]) + rest
  {
    assert cs[|done|] == c;
  }

  lemma NextWalks(ws: Walks, s: nat, done: seq<Cell>, c: Cell)
    requires s < |ws|
    ensures Append(ws[s := ws[s] + done], s, c) == ws[s := ws[s] + (done + [c])]
  {
    assert (ws[s] + done) + [c] == ws[s] + (done + [c]);
  }

  lemma InOrder(al: seq<Byte>, a: Asm, s: nat, p: nat, pos: int, ofs: int, n: nat, c: Cell)
    requires Ready(al, a, s, p, pos, ofs, n, c)
    ensures s < |a.ws| && |a.chains| == |a.labels| && pos > 0 && AsmOk(al, a)
  {
  }

  lemma ChainOf(al: seq<Byte>, a: Asm, l: nat)
    requires AsmOk(al, a) && l < |a.labels|
    ensures |a.chains| == |a.labels|
    ensures if a.labels[l] < 0 then a.chains[l] == [] else ChainOk(a.buf, a.labels[l], a.chains[l])
  {
    assert LabelOk(a, l);
  }
}
