/** Tests: luaK_goiftrue and luaK_goiffalse (lcode.c:527-591) and comparisons (lcode.c:681-694). */
module CodeTests {
  import opened CodeVm
  import opened CodeLists
  import opened CodeMeans
  import opened CodeSteps

  // ---- Deciding on an expression ---------------------------------------------------------------------

  /** The test at the end leaves through the jump behind it exactly when the value has the
      other truth, and knows the value then. */
  ghost predicate Judges(fr: Frag, k: Kind, test: Instr, truth: bool) {
    && test.Tests() && (test.ITestSet? ==> test.a == NO_REG)
    && forall env: Env, regs: Regs, v: Value :: IsFrame(regs) && Gives(env, fr.code, k, regs, v) ==>
         && Takes(env, test, regs) == (Truthy(v) != truth)
         && (Takes(env, test, regs) ==> if test.ITestSet? then Reg(regs, test.b) == v else v == Bool(!truth))
  }

  predicate EndsWith(fr: Frag, k: Kind, code2: Code, test: Instr) {
    var m := Stop(fr.code, k);
    Extends(fr, k, code2) && |code2| == m + 2 && code2[m] == test && code2[m + 1] == IJmp(NO_JUMP)
  }

  /** The new jump joins one list; the other list now waits for the end of the code. */
  function Decided(fr: Frag, code2: Code, truth: bool): Frag {
    if truth then Frag(code2, fr.pc0, [], fr.f + [|code2| - 1], fr.t)
    else Frag(code2, fr.pc0, fr.t + [|code2| - 1], [], fr.f)
  }

  lemma DecidedShape(fr: Frag, k: Kind, code2: Code, test: Instr, truth: bool)
    requires Shape(fr, k) && EndsWith(fr, k, code2, test) && Judges(fr, k, test, truth)
    ensures Shape(Decided(fr, code2, truth), KNonreloc(0)) && |code2| > fr.pc0
  {
    hide Judges, Extends;
    DecidedLists(fr, k, code2, test, truth);
    DecidedStray(fr, k, code2, test, truth);
    DecidedWithin(fr, k, code2, test, truth);
    hide *;
    ShapeNow(Decided(fr, code2, truth));
  }

  ghost predicate Parts(fr: Frag) {
    && fr.pc0 <= |fr.code| && Within(fr.t, fr.pc0, |fr.code|) && Within(fr.f, fr.pc0, |fr.code|)
    && Within(fr.j, fr.pc0, |fr.code|)
    && Disjoint(fr.t, fr.f) && Disjoint(fr.t, fr.j) && Disjoint(fr.f, fr.j)
    && SealedAt(fr.code, |fr.code|) && SealedAt(fr.code, fr.pc0)
  }

  lemma ShapeNow(fr: Frag)
    requires Open(fr.code, fr.t) && Open(fr.code, fr.f) && Open(fr.code, fr.j)
    requires NoStray(fr.code, fr.pc0, fr.Opens()) && Parts(fr)
    ensures Shape(fr, KNonreloc(0))
  {
    hide Open, NoStray, SealedAt, Disjoint;
  }

  lemma DecidedLists(fr: Frag, k: Kind, code2: Code, test: Instr, truth: bool)
    requires Shape(fr, k) && EndsWith(fr, k, code2, test) && Judges(fr, k, test, truth)
    ensures var d := Decided(fr, code2, truth); Open(d.code, d.t) && Open(d.code, d.f) && Open(d.code, d.j)
  {
    ListsStay(fr, k, code2);
    hide Shape, Extends;
  }

  lemma DecidedStray(fr: Frag, k: Kind, code2: Code, test: Instr, truth: bool)
    requires Shape(fr, k) && EndsWith(fr, k, code2, test) && Judges(fr, k, test, truth)
    ensures NoStray(code2, fr.pc0, Decided(fr, code2, truth).Opens())
  {
    ListsStay(fr, k, code2);
    hide Shape, Extends, Judges, Open;
  }

  lemma DecidedEnd(fr: Frag, k: Kind, code2: Code, test: Instr)
    requires Shape(fr, k) && EndsWith(fr, k, code2, test)
    ensures 0 <= Stop(fr.code, k) == |code2| - 2 && SealedAt(code2, |code2|) && SealedAt(code2, fr.pc0)
  {
    hide Open, NoStray, Disjoint, Within;
    ListsStay(fr, k, code2);
  }

  lemma DecidedWithin(fr: Frag, k: Kind, code2: Code, test: Instr, truth: bool)
    requires Shape(fr, k) && EndsWith(fr, k, code2, test)
    ensures Parts(Decided(fr, code2, truth)) && |code2| > fr.pc0
  {
    DecidedEnd(fr, k, code2, test);
    hide Extends, Open, NoStray, Pending, SealedAt;
  }

  /** The test itself, run. */
  lemma TestRun(env: Env, fr: Frag, k: Kind, code2: Code, test: Instr, truth: bool, regs: Regs, v: Value)
    requires Shape(fr, k) && EndsWith(fr, k, code2, test) && Judges(fr, k, test, truth)
    requires IsFrame(regs) && Gives(env, fr.code, k, regs, v)
    ensures var m := Stop(fr.code, k);
      Run(env, code2, Decided(fr, code2, truth).Opens(), m, regs, m + 2) ==
        if Truthy(v) == truth then Fall(regs) else Exit(m + 1, regs, true)
    ensures Truthy(v) != truth ==> Carries(code2, Stop(fr.code, k) + 1, regs, v, !truth)
  {
    var m := Stop(fr.code, k);
    var open := Decided(fr, code2, truth).Opens();
    assert Takes(env, test, regs) == (Truthy(v) != truth);
    assert m !in open && m + 1 in open;
    var t := Turn(env, code2, open, m, regs, m + 2);
    if Truthy(v) == truth {
      assert t == Go(m + 2, regs);
      assert Run(env, code2, open, m + 2, regs, m + 2) == Fall(regs);
    } else {
      assert t == Leave(m + 1, regs, true);
    }
  }

  lemma DecidedRemoves(fr: Frag, k: Kind, code2: Code, test: Instr, truth: bool)
    requires Shape(fr, k) && EndsWith(fr, k, code2, test)
    ensures Removes(fr.Opens(), fr.j, Decided(fr, code2, truth).Opens(), fr.pc0, Stop(fr.code, k))
    ensures Extends(fr, k, code2) && Stop(fr.code, k) <= |code2|
  {
    hide Extends, Open, NoStray, SealedAt, Pending;
  }

  lemma DecidedRun(env: Env, fr: Frag, k: Kind, code2: Code, test: Instr, truth: bool, regs: Regs)
    requires Shape(fr, k) && EndsWith(fr, k, code2, test)
    requires var o := RunOf(env, fr, k, regs); o != Stuck && (o.Exit? ==> o.via == HasControl(fr.code, o.j))
    ensures var o := RunOf(env, fr, k, regs); var fr2 := Decided(fr, code2, truth);
      Run(env, code2, fr2.Opens(), fr.pc0, regs, |code2|) ==
        if GoesOn(o, fr.j) then Run(env, code2, fr2.Opens(), Stop(fr.code, k), o.regs, |code2|) else o
  {
    DecidedRemoves(fr, k, code2, test, truth);
    hide *;
    Continue(env, fr, k, code2, Decided(fr, code2, truth).Opens(), regs, |code2|);
  }

  lemma DecidedEnds(env: Env, fr: Frag, k: Kind, code2: Code, test: Instr, truth: bool, v: Value, n: nat, regs: Regs)
    requires Shape(fr, k) && EndsWith(fr, k, code2, test) && Judges(fr, k, test, truth) && IsFrame(regs)
    requires EndsIn(env, fr, k, RunOf(env, fr, k, regs), v, regs, n, NO_REG)
    requires |RunOf(env, fr, k, regs).regs| == |regs|
    ensures var fr2 := Decided(fr, code2, truth);
      DecidesIn(fr2, truth, Run(env, code2, fr2.Opens(), fr.pc0, regs, |code2|), v, regs, n)
  {
    hide *;
    ViaOk(env, fr, k, RunOf(env, fr, k, regs), v, regs, n);
    DecidedRun(env, fr, k, code2, test, truth, regs);
    if GoesOn(RunOf(env, fr, k, regs), fr.j) {
      DecidedOn(env, fr, k, code2, test, truth, RunOf(env, fr, k, regs), v, n, regs);
    } else {
      DecidedOff(env, fr, k, code2, test, truth, RunOf(env, fr, k, regs), v, n, regs);
    }
  }

  lemma ViaOk(env: Env, fr: Frag, k: Kind, o: Outcome, v: Value, regs: Regs, n: nat)
    requires EndsIn(env, fr, k, o, v, regs, n, NO_REG)
    ensures o != Stuck && (o.Exit? ==> o.via == HasControl(fr.code, o.j))
  {
  }

  lemma DecidedOn(env: Env, fr: Frag, k: Kind, code2: Code, test: Instr, truth: bool, o: Outcome, v: Value, n: nat, regs: Regs)
    requires Shape(fr, k) && EndsWith(fr, k, code2, test) && Judges(fr, k, test, truth) && IsFrame(regs)
    requires EndsIn(env, fr, k, o, v, regs, n, NO_REG) && |o.regs| == |regs| && GoesOn(o, fr.j)
    ensures var fr2 := Decided(fr, code2, truth);
      DecidesIn(fr2, truth, Run(env, code2, fr2.Opens(), Stop(fr.code, k), o.regs, |code2|), v, regs, n)
  {
    hide *;
    GoesFacts(env, fr, k, o, v, n, regs);
    TestRun(env, fr, k, code2, test, truth, o.regs, v);
    TestControls(fr, k, code2, test, truth);
    TestedEnd(fr, k, code2, test, truth, o.regs, v, n, regs,
              Run(env, code2, Decided(fr, code2, truth).Opens(), Stop(fr.code, k), o.regs, |code2|));
  }

  lemma GoesFacts(env: Env, fr: Frag, k: Kind, o: Outcome, v: Value, n: nat, regs: Regs)
    requires Shape(fr, k) && IsFrame(regs) && EndsIn(env, fr, k, o, v, regs, n, NO_REG) && GoesOn(o, fr.j)
    ensures !o.Stuck? && Gives(env, fr.code, k, o.regs, v) && Kept(o.regs, regs, n, NO_REG) && (|o.regs| == |regs| ==> IsFrame(o.regs))
  {
    if o.Exit? { InOneList(fr, k, o.j); }
    hide Shape, Gives;
  }

  lemma TestedEnd(fr: Frag, k: Kind, code2: Code, test: Instr, truth: bool, regs1: Regs, v: Value, n: nat, regs: Regs, o: Outcome)
    requires EndsWith(fr, k, code2, test) && Kept(regs1, regs, n, NO_REG)
    requires o == if Truthy(v) == truth then Fall(regs1) else Exit(Stop(fr.code, k) + 1, regs1, true)
    requires HasControl(code2, Stop(fr.code, k) + 1)
    requires Truthy(v) != truth ==> Carries(code2, Stop(fr.code, k) + 1, regs1, v, !truth)
    ensures DecidesIn(Decided(fr, code2, truth), truth, o, v, regs, n)
  {
    hide Carries, HasControl, Extends;
  }

  lemma InOneList(fr: Frag, k: Kind, x: int)
    requires Shape(fr, k)
    ensures x in fr.j ==> x !in fr.t && x !in fr.f
    ensures x in fr.t ==> x !in fr.f
  {
  }

  lemma DecidedOff(env: Env, fr: Frag, k: Kind, code2: Code, test: Instr, truth: bool, o: Outcome, v: Value, n: nat, regs: Regs)
    requires Shape(fr, k) && EndsWith(fr, k, code2, test)
    requires EndsIn(env, fr, k, o, v, regs, n, NO_REG) && !GoesOn(o, fr.j)
    ensures DecidesIn(Decided(fr, code2, truth), truth, o, v, regs, n)
  {
    hide Extends, Carries, HasControl, Gives, Shape;
    CarriesStays(fr, k, code2, o.j, o.regs, v, o.j in fr.t);
    CarriesTruth(fr.code, o.j, o.regs, v, o.j in fr.t);
    JumpStays(fr, k, code2, o.j);
    InOneList(fr, k, o.j);
  }

  lemma TestControls(fr: Frag, k: Kind, code2: Code, test: Instr, truth: bool)
    requires Shape(fr, k) && EndsWith(fr, k, code2, test) && Judges(fr, k, test, truth)
    ensures HasControl(code2, Stop(fr.code, k) + 1) && |code2| == Stop(fr.code, k) + 2
  {
  }

  lemma CarriesTruth(code: Code, j: int, regs: Regs, v: Value, truth: bool)
    requires Carries(code, j, regs, v, truth)
    ensures Truthy(v) == truth
  {
  }

  /** After the test, the list is taken exactly when the expression has the other truth. */
  lemma DecidesMeans(fr: Frag, k: Kind, code2: Code, test: Instr, truth: bool, e: Expr, n: nat)
    requires Shape(fr, k) && EndsWith(fr, k, code2, test) && Judges(fr, k, test, truth)
    requires Means(fr, k, e, n, NO_REG)
    ensures Decides(Decided(fr, code2, truth), truth, e, n)
  {
    hide Shape, EndsWith, Judges, EndsIn, RunOf, DecidesIn;
    forall env: Env, regs: Regs | IsFrame(regs)
      ensures DecidesIn(Decided(fr, code2, truth), truth,
                Run(env, Decided(fr, code2, truth).code, Decided(fr, code2, truth).Opens(), Decided(fr, code2, truth).pc0, regs,
                    |Decided(fr, code2, truth).code|), Eval(env, e, regs), regs, n)
    {
      MeansAt(env, fr, k, e, n, regs);
      DecidedEnds(env, fr, k, code2, test, truth, Eval(env, e, regs), n, regs);
    }
  }

  // ---- The three ways to test ---------------------------------------------------------------------------

  /** The instruction that decides: a comparison as it is or inverted; OP_TEST for a pending
      `not'; OP_TESTSET for a value in a register. */
  function TestFor(code: Code, k: Kind, truth: bool): Instr {
    match k
    case KJump(pc) => if 1 <= pc <= |code| && code[pc - 1].ICompare? then
        (if truth then ICompare(code[pc - 1].rel, !code[pc - 1].cond, code[pc - 1].rb, code[pc - 1].rc) else code[pc - 1])
      else INot(0, 0)
    case KReloc(pc) => if pc < |code| && code[pc].INot? then ITest(code[pc].b, truth) else INot(0, 0)
    case KNonreloc(r) => ITestSet(NO_REG, r, !truth)
    case _ => INot(0, 0)
  }

  /** jumponcond's guard: a pending OP_NOT is replaced, any other value must be in a register. */
  predicate Testable(code: Code, k: Kind) {
    k.KJump? || k.KNonreloc? || (k.KReloc? && k.pc < |code| && code[k.pc].INot?)
  }

  lemma TestJudges(fr: Frag, k: Kind, truth: bool)
    requires Shape(fr, k) && Testable(fr.code, k)
    ensures Judges(fr, k, TestFor(fr.code, k, truth), truth)
  {
  }

  // ---- Comparisons -----------------------------------------------------------------------------------------

  /** Two operands in registers: the second was put behind the first. */
  ghost predicate Paired(a: Frag, ra: nat, b: Frag, rb: nat) {
    && Shape(a, KNonreloc(ra)) && Shape(b, KNonreloc(rb))
    && a.t == [] && a.f == [] && b.t == [] && b.f == []
    && b.pc0 == |a.code| && Framed(a.code, a.j, b.code, b.j)
  }

  function Pair(a: Frag, b: Frag): Frag { Frag(b.code, a.pc0, [], [], b.j) }

  lemma PairShape(a: Frag, ra: nat, b: Frag, rb: nat)
    requires Paired(a, ra, b, rb)
    ensures Shape(Pair(a, b), KNonreloc(rb))
  {
    FramedKeeps(a.code, a.j, b.code, b.j);
    forall p | a.pc0 <= p < |b.code| && b.code[p].ITestSet? && b.code[p].a == NO_REG ensures p + 1 in b.j {
      if p < |a.code| < |b.code| { PatchedStray(a, ra, b, p); }
    }
  }

  lemma PatchedStray(a: Frag, ra: nat, b: Frag, p: int)
    requires Shape(a, KNonreloc(ra)) && a.t == [] && a.f == []
    requires a.pc0 <= p < |a.code| < |b.code| && Framed(a.code, a.j, b.code, b.j)
    ensures !(b.code[p].ITestSet? && b.code[p].a == NO_REG)
  {
    assert b.code[p] == b.code[..|a.code|][p];
  }

  lemma PairRun(env: Env, a: Frag, ra: nat, b: Frag, rb: nat, regs: Regs)
    requires Paired(a, ra, b, rb)
    requires var o := RunOf(env, a, KNonreloc(ra), regs); o != Stuck && GoesOn(o, a.j) && (o.Exit? ==> o.via == HasControl(a.code, o.j))
    ensures var o := RunOf(env, a, KNonreloc(ra), regs); var c := Pair(a, b);
      RunOf(env, c, KNonreloc(rb), regs) == if |b.code| > |a.code| then RunOf(env, b, KNonreloc(rb), o.regs) else o
  {
    hide Run;
    var c := Pair(a, b);
    var o := RunOf(env, a, KNonreloc(ra), regs);
    if |b.code| > |a.code| {
      assert Extends(a, KNonreloc(ra), b.code);
      assert Removes(a.Opens(), a.j, c.Opens(), a.pc0, |a.code|);
      Continue(env, a, KNonreloc(ra), b.code, c.Opens(), regs, |b.code|);
      RunAgree(env, b.code, b.Opens(), b.code, c.Opens(), b.pc0, o.regs, |b.code|);
    } else {
      RunAgree(env, a.code, a.Opens(), b.code, c.Opens(), a.pc0, regs, |a.code|);
    }
  }

  /** Both values at hand. */
  ghost predicate BothIn(env: Env, c: Frag, o: Outcome, ra: nat, rb: nat, va: Value, vb: Value, regs: Regs, n: nat) {
    && !o.Stuck? && GoesOn(o, c.j) && (o.Exit? ==> o.via == HasControl(c.code, o.j))
    && Kept(o.regs, regs, n, NO_REG) && Reg(o.regs, ra) == va && Reg(o.regs, rb) == vb
  }

  lemma PairEnds(env: Env, a: Frag, ra: nat, b: Frag, rb: nat, l: Expr, r: Expr, n: nat, n2: nat, regs: Regs)
    requires Paired(a, ra, b, rb) && IsFrame(regs) && LocalsBelow(r, n) && n <= n2 <= NO_REG && ra < n2
    requires Means(a, KNonreloc(ra), l, n, NO_REG) && Means(b, KNonreloc(rb), r, n2, NO_REG)
    ensures BothIn(env, Pair(a, b), RunOf(env, Pair(a, b), KNonreloc(rb), regs), ra, rb, Eval(env, l, regs), Eval(env, r, regs), regs, n)
  {
    hide Run, RunOf, Eval, LocalsBelow, Shape;
    MeansAt(env, a, KNonreloc(ra), l, n, regs);
    PairRun(env, a, ra, b, rb, regs);
    var o := RunOf(env, a, KNonreloc(ra), regs);
    EvalKept(env, r, o.regs, regs, n);
    MeansAt(env, b, KNonreloc(rb), r, n2, o.regs);
    if |b.code| == |a.code| { EmptyRun(env, b, rb, o.regs); }
  }

  lemma EmptyRun(env: Env, b: Frag, rb: nat, regs: Regs)
    requires b.pc0 == |b.code|
    ensures RunOf(env, b, KNonreloc(rb), regs) == Fall(regs)
  {
  }

  /** The comparison opcode for an operator, and whether its operands are exchanged. */
  function RelOf(op: Cmp): Rel {
    match op
    case EQ => Eq
    case NE => Eq
    case LT => Lt
    case GT => Lt
    case LE => Le
    case GE => Le
  }

  /** codecomp: `>' and `>=' exchange their operands, only `~=' tests for false. */
  function CompareInstr(op: Cmp, ra: nat, rb: nat): Instr {
    if op.GT? || op.GE? then ICompare(RelOf(op), true, rb, ra)
    else ICompare(RelOf(op), !op.NE?, ra, rb)
  }

  function Compared(b: Frag, pc0: nat, i: Instr): Frag {
    Frag(Emit(b.code, b.j, i) + [IJmp(NO_JUMP)], pc0, [], [], [])
  }

  lemma ComparedShape(c: Frag, rb: nat, op: Cmp, ra: nat)
    requires Shape(c, KNonreloc(rb)) && c.t == [] && c.f == []
    ensures Shape(Compared(c, c.pc0, CompareInstr(op, ra, rb)), KJump(|c.code| + 1))
    ensures Extends(c, KNonreloc(rb), Compared(c, c.pc0, CompareInstr(op, ra, rb)).code)
  {
    var code2 := Compared(c, c.pc0, CompareInstr(op, ra, rb)).code;
    var m := |c.code|;
    assert code2[..m] == Patched(c.code, c.j, m, NO_REG, m);
    assert code2[m] == CompareInstr(op, ra, rb) && code2[m + 1] == IJmp(NO_JUMP);
    ListsStay(c, KNonreloc(rb), code2);
  }

  lemma ComparedEnds(env: Env, c: Frag, op: Cmp, ra: nat, rb: nat, va: Value, vb: Value, n: nat, regs: Regs)
    requires Shape(c, KNonreloc(rb)) && c.t == [] && c.f == []
    requires BothIn(env, c, RunOf(env, c, KNonreloc(rb), regs), ra, rb, va, vb, regs, n)
    ensures var c2 := Compared(c, c.pc0, CompareInstr(op, ra, rb)); var k2 := KJump(|c.code| + 1);
      EndsIn(env, c2, k2, RunOf(env, c2, k2, regs), Bool(Compares(env, op, va, vb)), regs, n, NO_REG)
  {
    hide Shape, Extends, Run, NoStray, Open;
    var c2 := Compared(c, c.pc0, CompareInstr(op, ra, rb));
    var m := |c.code|;
    ComparedShape(c, rb, op, ra);
    Continue(env, c, KNonreloc(rb), c2.code, c2.Opens(), regs, m);
    AtEnd(env, c2.code, c2.Opens(), m);
    assert c2.code[m] == CompareInstr(op, ra, rb);
  }

  /** A comparison of two operands, each with any code of its own. */
  lemma CompareMeans(a: Frag, ra: nat, b: Frag, rb: nat, op: Cmp, l: Expr, r: Expr, n: nat, n2: nat)
    requires Paired(a, ra, b, rb) && LocalsBelow(r, n) && n <= n2 <= NO_REG && ra < n2
    requires Means(a, KNonreloc(ra), l, n, NO_REG) && Means(b, KNonreloc(rb), r, n2, NO_REG)
    ensures var c := Compared(b, a.pc0, CompareInstr(op, ra, rb)); var k := KJump(|b.code| + 1);
      Shape(c, k) && Means(c, k, Compare(op, l, r), n, NO_REG)
  {
    PairIs(a, ra, b, rb, CompareInstr(op, ra, rb));
    PairShape(a, ra, b, rb);
    ComparedShape(Pair(a, b), rb, op, ra);
    hide Paired, Shape, LocalsBelow, BothIn, RunOf, EndsIn, CompareInstr, Emit, Compared, Pair, Eval;
    forall env: Env, regs: Regs | IsFrame(regs)
      ensures EndsIn(env, Compared(b, a.pc0, CompareInstr(op, ra, rb)), KJump(|b.code| + 1),
                RunOf(env, Compared(b, a.pc0, CompareInstr(op, ra, rb)), KJump(|b.code| + 1), regs),
                Eval(env, Compare(op, l, r), regs), regs, n, NO_REG)
    {
      CompareEval(env, op, l, r, regs);
      PairEnds(env, a, ra, b, rb, l, r, n, n2, regs);
      ComparedEnds(env, Pair(a, b), op, ra, rb, Eval(env, l, regs), Eval(env, r, regs), n, regs);
    }
  }

  lemma CompareEval(env: Env, op: Cmp, l: Expr, r: Expr, regs: Regs)
    ensures Eval(env, Compare(op, l, r), regs) == Bool(Compares(env, op, Eval(env, l, regs), Eval(env, r, regs)))
  {
  }

  lemma PairIs(a: Frag, ra: nat, b: Frag, rb: nat, i: Instr)
    requires Paired(a, ra, b, rb)
    ensures Pair(a, b).code == b.code && Pair(a, b).pc0 == a.pc0 && Pair(a, b).t == [] && Pair(a, b).f == []
    ensures Compared(b, a.pc0, i) == Compared(Pair(a, b), a.pc0, i)
  {
  }
}
