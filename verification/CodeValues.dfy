/** Discharging values (lcode.c:302-411) and `not' (lcode.c:594-626). */
module CodeValues {
  import opened CodeVm
  import opened CodeLists
  import opened CodeMeans
  import opened CodeSteps

  lemma ButNothing(fr: Frag, k: Kind, e: Expr, n: nat, reg: nat)
    requires Means(fr, k, e, n, reg) && reg >= n
    ensures Means(fr, k, e, n, NO_REG)
  {
    forall env: Env, regs: Regs | IsFrame(regs)
      ensures EndsIn(env, fr, k, RunOf(env, fr, k, regs), Eval(env, e, regs), regs, n, NO_REG)
    {
      assert EndsIn(env, fr, k, RunOf(env, fr, k, regs), Eval(env, e, regs), regs, n, reg);
    }
  }

  // ---- Variables ---------------------------------------------------------------------------------

  function Start(code: Code, j: seq<int>): Frag {
    Frag(code, |code|, [], [], j)
  }

  predicate Begins(code: Code, j: seq<int>) {
    Open(code, j) && Within(j, 0, |code|) && SealedAt(code, |code|)
  }

  lemma VariableMeans(code: Code, j: seq<int>, e: Expr, n: nat)
    requires Begins(code, j) && (e.Local? || e.Upval?)
    ensures var k := if e.Local? then KLocal(e.reg) else KUpval(e.idx);
      Shape(Start(code, j), k) && Means(Start(code, j), k, e, n, NO_REG)
  {
    var k := if e.Local? then KLocal(e.reg) else KUpval(e.idx);
    var fr := Start(code, j);
    forall env: Env, regs: Regs | IsFrame(regs)
      ensures EndsIn(env, fr, k, RunOf(env, fr, k, regs), Eval(env, e, regs), regs, n, NO_REG)
    {
      assert RunOf(env, fr, k, regs) == Fall(regs);
    }
  }

  /** luaK_dischargevars: a local is in its register, an upvalue is fetched by a pending
      instruction. */
  lemma LocalNonreloc(fr: Frag, r: nat, e: Expr, n: nat)
    requires Shape(fr, KLocal(r)) && Means(fr, KLocal(r), e, n, NO_REG) && r < NO_REG
    ensures Shape(fr, KNonreloc(r)) && Means(fr, KNonreloc(r), e, n, NO_REG)
  {
    forall env: Env, regs: Regs | IsFrame(regs)
      ensures EndsIn(env, fr, KNonreloc(r), RunOf(env, fr, KNonreloc(r), regs), Eval(env, e, regs), regs, n, NO_REG)
    {
      assert RunOf(env, fr, KNonreloc(r), regs) == RunOf(env, fr, KLocal(r), regs);
      assert EndsIn(env, fr, KLocal(r), RunOf(env, fr, KLocal(r), regs), Eval(env, e, regs), regs, n, NO_REG);
    }
  }

  function Fetched(fr: Frag, i: nat): Frag {
    Frag(Emit(fr.code, fr.j, IGetUpval(0, i)), fr.pc0, [], [], [])
  }

  lemma UpvalReloc(fr: Frag, i: nat, e: Expr, n: nat)
    requires Shape(fr, KUpval(i)) && Means(fr, KUpval(i), e, n, NO_REG)
    ensures Shape(Fetched(fr, i), KReloc(|fr.code|)) && Means(Fetched(fr, i), KReloc(|fr.code|), e, n, NO_REG)
  {
    var fr2 := Fetched(fr, i);
    EmitExtends(fr, KUpval(i), IGetUpval(0, i));
    ListsStay(fr, KUpval(i), fr2.code);
    forall env: Env, regs: Regs | IsFrame(regs)
      ensures EndsIn(env, fr2, KReloc(|fr.code|), RunOf(env, fr2, KReloc(|fr.code|), regs), Eval(env, e, regs), regs, n, NO_REG)
    {
      assert RunOf(env, fr, KUpval(i), regs) == Fall(regs);
      assert EndsIn(env, fr, KUpval(i), RunOf(env, fr, KUpval(i), regs), Eval(env, e, regs), regs, n, NO_REG);
      assert RunOf(env, fr2, KReloc(|fr.code|), regs) == Fall(regs);
    }
  }

  // ---- Into a register -------------------------------------------------------------------------------

  function SetA(i: Instr, reg: nat): Instr {
    match i
    case INot(_, b) => INot(reg, b)
    case IGetUpval(_, b) => IGetUpval(reg, b)
    case _ => i
  }

  /** discharge2reg on a pending instruction. */
  function Relocated(fr: Frag, reg: nat): Frag {
    if |fr.code| == 0 then fr
    else Frag(fr.code[|fr.code| - 1 := SetA(fr.code[|fr.code| - 1], reg)], fr.pc0, fr.t, fr.f, [])
  }

  lemma RelocTurns(fr: Frag, pc: nat, reg: nat)
    requires Shape(fr, KReloc(pc)) && reg < NO_REG
    ensures Extends(fr, KReloc(pc), Relocated(fr, reg).code)
    ensures Turns(fr, KReloc(pc), Relocated(fr, reg).code, KNonreloc(reg), reg)
  {
    var code2 := Relocated(fr, reg).code;
    forall env: Env, regs: Regs, v: Value | IsFrame(regs) && Gives(env, fr.code, KReloc(pc), regs, v)
      ensures var o := Run(env, code2, fr.t + fr.f, pc, regs, pc + 1);
        o.Fall? && (forall r :: 0 <= r < 256 && r != reg ==> Reg(o.regs, r) == Reg(regs, r)) && Gives(env, code2, KNonreloc(reg), o.regs, v)
    {
      assert pc !in fr.t + fr.f;
      assert Turn(env, code2, fr.t + fr.f, pc, regs, pc + 1) == Go(pc + 1, Set(regs, reg, v));
      assert Run(env, code2, fr.t + fr.f, pc + 1, Set(regs, reg, v), pc + 1) == Fall(Set(regs, reg, v));
    }
  }

  lemma RelocShape(fr: Frag, pc: nat, reg: nat)
    requires Shape(fr, KReloc(pc)) && reg < NO_REG && Extends(fr, KReloc(pc), Relocated(fr, reg).code)
    ensures Shape(Relocated(fr, reg), KNonreloc(reg))
    ensures Relocated(fr, reg) == Frag(Relocated(fr, reg).code, fr.pc0, fr.t, fr.f, [])
    ensures 0 <= pc == Stop(fr.code, KReloc(pc)) <= |Relocated(fr, reg).code|
  {
    ListsStay(fr, KReloc(pc), Relocated(fr, reg).code);
    hide Extends, Open;
  }

  lemma RelocMeans(fr: Frag, pc: nat, reg: nat, e: Expr, n: nat)
    requires Shape(fr, KReloc(pc)) && Means(fr, KReloc(pc), e, n, NO_REG) && reg < NO_REG && n <= NO_REG
    ensures Shape(Relocated(fr, reg), KNonreloc(reg)) && Means(Relocated(fr, reg), KNonreloc(reg), e, n, reg)
  {
    hide Turns, Means, Extends, Shape, Relocated;
    RelocTurns(fr, pc, reg);
    RelocShape(fr, pc, reg);
    TurnsMeans(fr, KReloc(pc), Relocated(fr, reg).code, KNonreloc(reg), e, n, reg);
  }

  /** discharge2reg on a value in another register. */
  function Moved(fr: Frag, r: nat, reg: nat): Frag {
    Frag(Emit(fr.code, fr.j, IMove(reg, r)), fr.pc0, fr.t, fr.f, [])
  }

  lemma MoveTurns(fr: Frag, r: nat, reg: nat)
    requires Shape(fr, KNonreloc(r)) && reg < NO_REG
    ensures Extends(fr, KNonreloc(r), Moved(fr, r, reg).code)
    ensures Turns(fr, KNonreloc(r), Moved(fr, r, reg).code, KNonreloc(reg), reg)
  {
    EmitExtends(fr, KNonreloc(r), IMove(reg, r));
    var pc := |fr.code|;
    var code2 := Moved(fr, r, reg).code;
    forall env: Env, regs: Regs, v: Value | IsFrame(regs) && Gives(env, fr.code, KNonreloc(r), regs, v)
      ensures var o := Run(env, code2, fr.t + fr.f, pc, regs, pc + 1);
        o.Fall? && (forall r :: 0 <= r < 256 && r != reg ==> Reg(o.regs, r) == Reg(regs, r)) && Gives(env, code2, KNonreloc(reg), o.regs, v)
    {
      assert pc !in fr.t + fr.f;
      assert Turn(env, code2, fr.t + fr.f, pc, regs, pc + 1) == Go(pc + 1, Set(regs, reg, v));
      assert Run(env, code2, fr.t + fr.f, pc + 1, Set(regs, reg, v), pc + 1) == Fall(Set(regs, reg, v));
    }
  }

  lemma MoveMeans(fr: Frag, r: nat, reg: nat, e: Expr, n: nat)
    requires Shape(fr, KNonreloc(r)) && Means(fr, KNonreloc(r), e, n, NO_REG) && reg < NO_REG && n <= NO_REG
    ensures Shape(Moved(fr, r, reg), KNonreloc(reg)) && Means(Moved(fr, r, reg), KNonreloc(reg), e, n, reg)
  {
    MoveTurns(fr, r, reg);
    ListsStay(fr, KNonreloc(r), Moved(fr, r, reg).code);
    hide Turns, Means, Extends;
    TurnsMeans(fr, KNonreloc(r), Moved(fr, r, reg).code, KNonreloc(reg), e, n, reg);
  }

  // ---- not ---------------------------------------------------------------------------------------------

  /** codenot on a value in a register: a pending OP_NOT, the lists exchanged, and no values
      on their jumps any more. */
  function Negated(fr: Frag, r: nat): Frag {
    var code := Emit(fr.code, fr.j, INot(0, r));
    Frag(Unvalued(Unvalued(code, fr.t), fr.f), fr.pc0, fr.f, fr.t, [])
  }

  /** codenot on a comparison: the condition is inverted. */
  function Inverted(i: Instr): Instr {
    if i.ICompare? then ICompare(i.rel, !i.cond, i.rb, i.rc) else i
  }

  function NegatedJump(fr: Frag): Frag {
    if |fr.code| < 2 then fr
    else
      var code := fr.code[|fr.code| - 2 := Inverted(fr.code[|fr.code| - 2])];
      Frag(Unvalued(Unvalued(code, fr.t), fr.f), fr.pc0, fr.f, fr.t, fr.j)
  }

  function Swapped(fr: Frag, code2: Code): Frag {
    Frag(Unvalued(Unvalued(code2, fr.t), fr.f), fr.pc0, fr.f, fr.t, [])
  }

  /** Exchanging the lists and dropping their values changes no run. */
  lemma SwapRun(env: Env, fr: Frag, k: Kind, code2: Code, k2: Kind, regs: Regs)
    requires Shape(fr, k) && Extends(fr, k, code2)
    requires Stop(code2, k2) == Stop(fr.code, k) == Stop(Swapped(fr, code2).code, k2) <= |code2|
    requires var o := RunOf(env, fr, k, regs); o != Stuck && (o.Exit? ==> o.via == HasControl(fr.code, o.j))
    ensures var o := RunOf(env, fr, k, regs);
      RunOf(env, Swapped(fr, code2), k2, regs) == if GoesOn(o, fr.j) then Fall(o.regs) else o
  {
    var m := Stop(fr.code, k);
    var fr2 := Swapped(fr, code2);
    hide Run;
    assert Removes(fr.Opens(), fr.j, fr2.Opens(), fr.pc0, m);
    Continue(env, fr, k, code2, fr2.Opens(), regs, m);
    ListsStay(fr, k, code2);
    AtEnd(env, code2, fr2.Opens(), m);
    UnvaluedRun(env, code2, fr2.Opens(), fr.t, fr.pc0, regs, m);
    StillOpen(code2, fr.t, fr.f);
    UnvaluedRun(env, Unvalued(code2, fr.t), fr2.Opens(), fr.f, fr.pc0, regs, m);
  }

  lemma StillOpen(code: Code, l: seq<int>, l2: seq<int>)
    requires Open(code, l2)
    ensures Open(Unvalued(code, l), l2)
  {
  }

  lemma SwapCarries(fr: Frag, k: Kind, code2: Code, x: int, regs: Regs, v: Value, truth: bool)
    requires Shape(fr, k) && Extends(fr, k, code2) && (x in fr.t || x in fr.f) && Carries(fr.code, x, regs, v, truth)
    ensures var code3 := Swapped(fr, code2).code;
      Carries(code3, x, regs, Bool(!Truthy(v)), !truth) && HasControl(code3, x) == HasControl(fr.code, x)
  {
    JumpStays(fr, k, code2, x);
    hide Shape, Extends, Unvalued;
    UnvaluedJump(code2, fr.t, x);
    UnvaluedJump(Unvalued(code2, fr.t), fr.f, x);
  }

  lemma SwapEnds(env: Env, fr: Frag, k: Kind, code2: Code, k2: Kind, v: Value, n: nat, regs: Regs)
    requires Shape(fr, k) && Extends(fr, k, code2)
    requires Stop(code2, k2) == Stop(fr.code, k) == Stop(Swapped(fr, code2).code, k2) <= |code2|
    requires EndsIn(env, fr, k, RunOf(env, fr, k, regs), v, regs, n, NO_REG)
    requires forall rs :: Gives(env, fr.code, k, rs, v) ==> Gives(env, Swapped(fr, code2).code, k2, rs, Bool(!Truthy(v)))
    ensures EndsIn(env, Swapped(fr, code2), k2, RunOf(env, Swapped(fr, code2), k2, regs), Bool(!Truthy(v)), regs, n, NO_REG)
  {
    hide RunOf, Run, Shape, Extends, Unvalued, Carries, HasControl, Gives;
    var o := RunOf(env, fr, k, regs);
    SwapRun(env, fr, k, code2, k2, regs);
    if o.Exit? { DisjointLists(fr, k, o.j); }
    if !GoesOn(o, fr.j) {
      SwapCarries(fr, k, code2, o.j, o.regs, v, o.j in fr.t);
    }
  }

  lemma DisjointLists(fr: Frag, k: Kind, x: int)
    requires Shape(fr, k)
    ensures x in fr.t ==> x !in fr.f
    ensures x in fr.j ==> x !in fr.t && x !in fr.f
  {
  }

  lemma SwapShape(fr: Frag, k: Kind, code2: Code, k2: Kind)
    requires Shape(fr, k) && Extends(fr, k, code2)
    requires Stop(code2, k2) == Stop(fr.code, k) == Stop(Swapped(fr, code2).code, k2) <= |code2|
    requires k2.KReloc? || k2.KJump?
    requires Pending(code2, fr.pc0, k2, []) && SealedAt(code2, |code2|)
    ensures Shape(Swapped(fr, code2), k2)
  {
    SwapLists(fr, k, code2);
    SwapStrays(fr, k, code2, k2);
    SwapPending(fr, k, code2, k2);
    hide Unvalued, Extends, Open, NoStray, Pending;
  }

  lemma UnvaluedTests(code: Code, l: seq<int>)
    ensures forall p :: 0 <= p < |code| ==> Unvalued(code, l)[p].Tests() == code[p].Tests()
  {
  }

  /** The pending instructions are behind all jumps of the lists. */
  lemma SwapBehind(fr: Frag, k: Kind, code2: Code)
    requires Shape(fr, k)
    ensures var code3 := Swapped(fr, code2).code;
      forall p :: 0 <= Stop(fr.code, k) <= p < |code2| ==> code3[p] == code2[p]
  {
    hide Open, NoStray, SealedAt, Disjoint, Pending;
    var code3 := Swapped(fr, code2).code;
    forall p | 0 <= Stop(fr.code, k) <= p < |code2| ensures code3[p] == code2[p] {
      assert p + 1 !in fr.t && p + 1 !in fr.f;
    }
  }

  lemma SwapPending(fr: Frag, k: Kind, code2: Code, k2: Kind)
    requires Shape(fr, k) && Extends(fr, k, code2)
    requires Stop(code2, k2) == Stop(fr.code, k) == Stop(Swapped(fr, code2).code, k2) <= |code2|
    requires k2.KReloc? || k2.KJump?
    requires Pending(code2, fr.pc0, k2, []) && SealedAt(code2, |code2|)
    ensures var code3 := Swapped(fr, code2).code;
      && Pending(code3, fr.pc0, k2, [])
      && SealedAt(code3, |code3|) && SealedAt(code3, fr.pc0) && SealedAt(code3, Stop(code2, k2))
  {
    EndsStay(fr, k, code2);
    UnvaluedTests(code2, fr.t);
    UnvaluedTests(Unvalued(code2, fr.t), fr.f);
    SwapBehind(fr, k, code2);
    hide Unvalued, Shape, Extends;
  }

  lemma SwapLists(fr: Frag, k: Kind, code2: Code)
    requires Shape(fr, k) && Extends(fr, k, code2)
    ensures Open(Swapped(fr, code2).code, fr.t) && Open(Swapped(fr, code2).code, fr.f)
  {
    forall x | x in fr.t || x in fr.f ensures Swapped(fr, code2).code[x].IJmp? && !Valued(Swapped(fr, code2).code, x) {
      JumpStays(fr, k, code2, x);
    }
  }

  /** A TESTSET that is still there was there before. */
  lemma StillSet(code: Code, l: seq<int>, p: int)
    requires 0 <= p < |code| && Unvalued(code, l)[p].ITestSet?
    ensures Unvalued(code, l)[p] == code[p]
  {
  }

  lemma SwapStrays(fr: Frag, k: Kind, code2: Code, k2: Kind)
    requires Shape(fr, k) && Extends(fr, k, code2)
    requires Stop(code2, k2) == Stop(fr.code, k) <= |code2| && (k2.KReloc? || k2.KJump?) && Pending(code2, fr.pc0, k2, [])
    ensures NoStray(Swapped(fr, code2).code, fr.pc0, Swapped(fr, code2).Opens())
  {
    ListsStay(fr, k, code2);
    hide Unvalued, Shape, Extends, Open, SealedAt;
    var code3 := Swapped(fr, code2).code;
    forall p | 0 <= fr.pc0 <= p < |code3| && code3[p].ITestSet? && code3[p].a == NO_REG
      ensures p + 1 in Swapped(fr, code2).Opens()
    {
      StillSet(Unvalued(code2, fr.t), fr.f, p);
      StillSet(code2, fr.t, p);
    }
  }

  lemma NotMeans(fr: Frag, r: nat, e: Expr, n: nat)
    requires Shape(fr, KNonreloc(r)) && Means(fr, KNonreloc(r), e, n, NO_REG)
    ensures Shape(Negated(fr, r), KReloc(|fr.code|)) && Means(Negated(fr, r), KReloc(|fr.code|), Not(e), n, NO_REG)
  {
    var k, k2 := KNonreloc(r), KReloc(|fr.code|);
    var code2 := Emit(fr.code, fr.j, INot(0, r));
    EmitExtends(fr, k, INot(0, r));
    SwapShape(fr, k, code2, k2);
    assert Swapped(fr, code2) == Negated(fr, r);
    forall env: Env, regs: Regs | IsFrame(regs)
      ensures EndsIn(env, Negated(fr, r), k2, RunOf(env, Negated(fr, r), k2, regs), Eval(env, Not(e), regs), regs, n, NO_REG)
    {
      MeansAt(env, fr, k, e, n, regs);
      NotGives(fr, r);
      SwapEnds(env, fr, k, code2, k2, Eval(env, e, regs), n, regs);
    }
  }

  lemma NotGives(fr: Frag, r: nat)
    requires Shape(fr, KNonreloc(r))
    ensures forall env: Env, rs, v :: Gives(env, fr.code, KNonreloc(r), rs, v) ==>
      Gives(env, Negated(fr, r).code, KReloc(|fr.code|), rs, Bool(!Truthy(v)))
  {
    assert |Negated(fr, r).code| == |fr.code| + 1;
    assert Negated(fr, r).code[|fr.code|] == INot(0, r);
  }

  lemma NotJumpMeans(fr: Frag, pc: nat, e: Expr, n: nat)
    requires Shape(fr, KJump(pc)) && Means(fr, KJump(pc), e, n, NO_REG)
    ensures Shape(NegatedJump(fr), KJump(pc)) && Means(NegatedJump(fr), KJump(pc), Not(e), n, NO_REG)
  {
    var k := KJump(pc);
    var code2 := fr.code[pc - 1 := Inverted(fr.code[pc - 1])];
    assert Extends(fr, k, code2);
    SwapShape(fr, k, code2, k);
    assert Swapped(fr, code2) == NegatedJump(fr);
    forall env: Env, regs: Regs | IsFrame(regs)
      ensures EndsIn(env, NegatedJump(fr), k, RunOf(env, NegatedJump(fr), k, regs), Eval(env, Not(e), regs), regs, n, NO_REG)
    {
      MeansAt(env, fr, k, e, n, regs);
      InvertGives(fr, pc);
      SwapEnds(env, fr, k, code2, k, Eval(env, e, regs), n, regs);
    }
  }

  lemma InvertGives(fr: Frag, pc: nat)
    requires Shape(fr, KJump(pc))
    ensures forall env: Env, rs, v :: Gives(env, fr.code, KJump(pc), rs, v) ==>
      Gives(env, NegatedJump(fr).code, KJump(pc), rs, Bool(!Truthy(v)))
  {
    assert |NegatedJump(fr).code| == |fr.code|;
    assert NegatedJump(fr).code[pc - 1] == Inverted(fr.code[pc - 1]);
  }
}
