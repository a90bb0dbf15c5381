/** exp2reg (lcode.c:382-411): the value of an expression into a register, whatever its jumps. */
module CodeStore {
  import opened CodeVm
  import opened CodeLists
  import opened CodeMeans
  import opened CodeSteps

  /** need_value */
  predicate Needs(code: Code, l: seq<int>) {
    exists x :: x in l && !Valued(code, x)
  }

  /** The value a fragment delivers, at one frame. */
  lemma MeansBut(env: Env, fr: Frag, k: Kind, e: Expr, n: nat, but: int, regs: Regs)
    requires IsFrame(regs) && Means(fr, k, e, n, but)
    ensures EndsIn(env, fr, k, RunOf(env, fr, k, regs), Eval(env, e, regs), regs, n, but)
    ensures !RunOf(env, fr, k, regs).Stuck? && |RunOf(env, fr, k, regs).regs| == |regs|
    ensures var o := RunOf(env, fr, k, regs); o.Exit? ==> o.via == HasControl(fr.code, o.j)
  {
    RunFrame(env, fr.code, fr.Opens(), fr.pc0, regs, Stop(fr.code, k));
  }

  // ---- The two loads ---------------------------------------------------------------------------------

  function LoadsFor(reg: nat): Code { [ILoadBool(reg, false, true), ILoadBool(reg, true, false)] }

  /** The code with the loads of false and true behind it. A value already in the register
      jumps over them; a comparison falls into the first. */
  function WithLoads(fr: Frag, k: Kind, reg: nat): Frag {
    if k.KJump? then Frag(fr.code + LoadsFor(reg), fr.pc0, fr.t + [|fr.code| - 1], fr.f, [])
    else Frag(fr.code + [IJmp(NO_JUMP)] + LoadsFor(reg), fr.pc0, fr.t, fr.f, [|fr.code|] + fr.j)
  }

  predicate Loads(fr: Frag, reg: nat) {
    var m := |fr.code| - 2;
    && fr.pc0 <= m && fr.code[m..] == LoadsFor(reg)
    && Within(fr.Opens(), 0, m)
  }

  /** Running into a load ends behind the code, with the boolean in the register. */
  lemma LoadRun(env: Env, fr: Frag, reg: nat, open: seq<int>, truth: bool, regs: Regs)
    requires Loads(fr, reg) && reg < NO_REG && IsFrame(regs) && Within(open, 0, |fr.code| - 2)
    ensures Run(env, fr.code, open, if truth then |fr.code| - 1 else |fr.code| - 2, regs, |fr.code|) == Fall(Set(regs, reg, Bool(truth)))
  {
    var n := |fr.code|;
    var at := if truth then n - 1 else n - 2;
    assert fr.code[at] == fr.code[n - 2..][at - (n - 2)];
    assert at !in open;
    assert Turn(env, fr.code, open, at, regs, n) == Go(n, Set(regs, reg, Bool(truth)));
    assert Run(env, fr.code, open, n, Set(regs, reg, Bool(truth)), n) == Fall(Set(regs, reg, Bool(truth)));
  }

  lemma LoadsParts(fr: Frag, reg: nat)
    requires reg < NO_REG && fr.pc0 <= |fr.code| - 2 && fr.code[|fr.code| - 2..] == LoadsFor(reg)
    requires Within(fr.t, fr.pc0, |fr.code| - 2) && Within(fr.f, fr.pc0, |fr.code| - 2) && Within(fr.j, 0, |fr.code| - 2)
    requires Within(fr.j, if |fr.code| == fr.pc0 then 0 else fr.pc0, |fr.code| - 2)
    requires SealedAt(fr.code, |fr.code|) && SealedAt(fr.code, fr.pc0)
    requires Disjoint(fr.t, fr.f) && Disjoint(fr.t, fr.j) && Disjoint(fr.f, fr.j)
    requires Open(fr.code, fr.t) && Open(fr.code, fr.f) && Open(fr.code, fr.j) && NoStray(fr.code, fr.pc0, fr.Opens())
    ensures Shape(fr, KNonreloc(reg)) && Loads(fr, reg)
  {
    hide Open, NoStray, SealedAt, Disjoint;
  }

  lemma WithLoadsShape(fr: Frag, k: Kind, reg: nat)
    requires Shape(fr, k) && ((k == KNonreloc(reg) && |fr.code| > fr.pc0) || k.KJump?) && reg < NO_REG
    ensures Shape(WithLoads(fr, k, reg), KNonreloc(reg)) && Loads(WithLoads(fr, k, reg), reg)
  {
    LoadsLists(fr, k, reg);
    LoadsEnd(fr, k, reg);
    hide *;
    LoadsParts(WithLoads(fr, k, reg), reg);
  }

  lemma LoadsLists(fr: Frag, k: Kind, reg: nat)
    requires Shape(fr, k) && ((k == KNonreloc(reg) && |fr.code| > fr.pc0) || k.KJump?) && reg < NO_REG
    ensures var fr2 := WithLoads(fr, k, reg);
      && Open(fr2.code, fr2.t) && Open(fr2.code, fr2.f) && Open(fr2.code, fr2.j)
      && NoStray(fr2.code, fr2.pc0, fr2.Opens())
  {
    if k.KJump? {
      var code2 := fr.code + LoadsFor(reg);
      Prefix(fr.code, LoadsFor(reg), fr.t);
      Prefix(fr.code, LoadsFor(reg), fr.f);
      LoadsJumpOpen(fr, k, reg);
      LoadsStray(fr, k, code2);
    } else {
      var code2 := fr.code + [IJmp(NO_JUMP)] + LoadsFor(reg);
      assert code2 == fr.code + ([IJmp(NO_JUMP)] + LoadsFor(reg));
      Prefix(fr.code, [IJmp(NO_JUMP)] + LoadsFor(reg), fr.t);
      Prefix(fr.code, [IJmp(NO_JUMP)] + LoadsFor(reg), fr.f);
      Prefix(fr.code, [IJmp(NO_JUMP)] + LoadsFor(reg), fr.j);
      assert code2[|fr.code|] == IJmp(NO_JUMP);
      LoadsStray(fr, k, code2);
      LoadsJumpList(fr, code2);
    }
  }

  lemma LoadsJumpList(fr: Frag, code2: Code)
    requires Open(code2, fr.j) && |code2| > |fr.code| && code2[|fr.code|].IJmp? && SealedAt(fr.code, |fr.code|)
    requires forall p :: 0 <= p < |fr.code| ==> code2[p] == fr.code[p]
    ensures Open(code2, [|fr.code|] + fr.j)
  {
  }

  lemma LoadsJumpOpen(fr: Frag, k: Kind, reg: nat)
    requires Shape(fr, k) && k.KJump?
    ensures Open(fr.code + LoadsFor(reg), fr.t + [|fr.code| - 1])
  {
    Prefix(fr.code, LoadsFor(reg), fr.t);
    var x := |fr.code| - 1;
    assert (fr.code + LoadsFor(reg))[x] == fr.code[x] && (fr.code + LoadsFor(reg))[x - 1] == fr.code[x - 1];
    hide Shape;
  }

  lemma Prefix(code: Code, more: Code, l: seq<int>)
    requires Open(code, l)
    ensures Open(code + more, l)
  {
    assert forall p :: 0 <= p < |code| ==> (code + more)[p] == code[p];
  }

  /** Loads and a plain jump are no placeholders. */
  lemma LoadsStray(fr: Frag, k: Kind, code2: Code)
    requires Shape(fr, k) && |fr.code| <= |code2|
    requires forall p :: 0 <= p < |fr.code| ==> code2[p] == fr.code[p]
    requires forall p :: |fr.code| <= p < |code2| ==> !code2[p].ITestSet?
    ensures forall l :: (forall x :: x in fr.Opens() ==> x in l) ==> NoStray(code2, fr.pc0, l)
  {
  }

  lemma LoadsSealed(fr: Frag, k: Kind, reg: nat)
    requires Shape(fr, k)
    ensures var fr2 := WithLoads(fr, k, reg);
      && |fr.code| + 2 <= |fr2.code| && fr2.code[|fr2.code| - 2..] == LoadsFor(reg) && |LoadsFor(reg)| == 2
      && SealedAt(fr2.code, |fr2.code|) && SealedAt(fr2.code, fr2.pc0)
  {
    hide Open, NoStray, Within, Disjoint, Pending;
    var fr2 := WithLoads(fr, k, reg);
    assert fr2.code[|fr2.code| - 2..] == LoadsFor(reg);
    assert fr2.code[|fr2.code| - 1] == LoadsFor(reg)[1];
    if fr.pc0 > 0 { assert fr2.code[fr.pc0 - 1] == fr.code[fr.pc0 - 1]; }
  }

  lemma LoadsEnd(fr: Frag, k: Kind, reg: nat)
    requires Shape(fr, k) && ((k == KNonreloc(reg) && |fr.code| > fr.pc0) || k.KJump?) && reg < NO_REG
    ensures var fr2 := WithLoads(fr, k, reg); var m := |fr2.code| - 2;
      && fr2.pc0 == fr.pc0 <= m && fr2.code[m..] == LoadsFor(reg)
      && SealedAt(fr2.code, |fr2.code|) && SealedAt(fr2.code, fr2.pc0)
      && Disjoint(fr2.t, fr2.f) && Disjoint(fr2.t, fr2.j) && Disjoint(fr2.f, fr2.j)
      && Within(fr2.t, fr2.pc0, m) && Within(fr2.f, fr2.pc0, m) && Within(fr2.j, 0, m)
      && Within(fr2.j, if |fr2.code| == fr2.pc0 then 0 else fr2.pc0, m)
  {
    LoadsSealed(fr, k, reg);
    hide Open, NoStray, SealedAt, LoadsFor;
  }

  lemma JumpOver(env: Env, fr: Frag, reg: nat, v: Value, n: nat, regs: Regs)
    requires Shape(fr, KNonreloc(reg)) && reg < NO_REG && IsFrame(regs) && |fr.code| > fr.pc0
    requires EndsIn(env, fr, KNonreloc(reg), RunOf(env, fr, KNonreloc(reg), regs), v, regs, n, reg)
    requires n <= NO_REG
    ensures var fr2 := WithLoads(fr, KNonreloc(reg), reg);
      EndsIn(env, fr2, KNonreloc(reg), RunOf(env, fr2, KNonreloc(reg), regs), v, regs, n, reg)
  {
    hide Run, Takes;
    var fr2 := WithLoads(fr, KNonreloc(reg), reg);
    var m := |fr.code|;
    var o := RunOf(env, fr, KNonreloc(reg), regs);
    assert forall p :: 0 <= p < m ==> fr2.code[p] == fr.code[p];
    RunAgree(env, fr.code, fr.Opens(), fr2.code, fr2.Opens(), fr.pc0, regs, m);
    RunSplit(env, fr2.code, fr2.Opens(), fr.pc0, regs, m, |fr2.code|);
    if o.Fall? { LeaveAt(env, fr2.code, fr2.Opens(), m, o.regs, |fr2.code|); }
  }

  lemma LeaveAt(env: Env, code: Code, open: seq<int>, pc: int, regs: Regs, end: int)
    requires 0 <= pc < end <= |code| && pc in open
    ensures Run(env, code, open, pc, regs, end) == Exit(pc, regs, false)
  {
  }

  /** The pending comparison with the loads behind it. */
  lemma CompareOver(env: Env, fr: Frag, pc: nat, reg: nat, v: Value, regs: Regs)
    requires Shape(fr, KJump(pc)) && reg < NO_REG && IsFrame(regs) && Gives(env, fr.code, KJump(pc), regs, v)
    ensures var fr2 := WithLoads(fr, KJump(pc), reg);
      Run(env, fr2.code, fr2.Opens(), pc - 1, regs, |fr2.code|) ==
        if v == True then Exit(pc, regs, true) else Fall(Set(regs, reg, False))
    ensures v == Bool(Truthy(v))
  {
    var fr2 := WithLoads(fr, KJump(pc), reg);
    var open := fr2.Opens();
    assert fr2.code[pc - 1] == fr.code[pc - 1];
    assert pc in open && pc - 1 !in open && pc + 1 !in open;
    if v == True {
      assert Turn(env, fr2.code, open, pc - 1, regs, |fr2.code|) == Leave(pc, regs, true);
    } else {
      assert Turn(env, fr2.code, open, pc - 1, regs, |fr2.code|) == Go(pc + 1, regs);
      WithLoadsShape(fr, KJump(pc), reg);
      LoadRun(env, fr2, reg, open, false, regs);
    }
  }

  lemma FallInto(env: Env, fr: Frag, pc: nat, reg: nat, v: Value, n: nat, regs: Regs)
    requires Shape(fr, KJump(pc)) && reg < NO_REG && IsFrame(regs)
    requires EndsIn(env, fr, KJump(pc), RunOf(env, fr, KJump(pc), regs), v, regs, n, NO_REG)
    requires |RunOf(env, fr, KJump(pc), regs).regs| == |regs|
    requires n <= NO_REG
    ensures var fr2 := WithLoads(fr, KJump(pc), reg);
      EndsIn(env, fr2, KNonreloc(reg), RunOf(env, fr2, KNonreloc(reg), regs), v, regs, n, reg)
  {
    hide Run, Takes;
    var fr2 := WithLoads(fr, KJump(pc), reg);
    var o := RunOf(env, fr, KJump(pc), regs);
    assert Extends(fr, KJump(pc), fr2.code) by {
      assert Patched(fr.code, [], pc - 1, NO_REG, pc - 1) == fr.code;
    }
    Continue(env, fr, KJump(pc), fr2.code, fr2.Opens(), regs, |fr2.code|);
    assert fr2.code[pc - 1] == fr.code[pc - 1];
    if o.Fall? {
      CompareOver(env, fr, pc, reg, v, o.regs);
      var o2 := RunOf(env, fr2, KNonreloc(reg), regs);
      if v == True {
        assert o2 == Exit(pc, o.regs, true);
        assert pc in fr2.t;
        assert HasControl(fr2.code, pc);
        assert Carries(fr2.code, pc, o.regs, v, true);
      } else {
        assert o2 == Fall(Set(o.regs, reg, False));
        assert v == False;
      }
    } else {
      JumpStays(fr, KJump(pc), fr2.code, o.j);
    }
  }

  lemma WithLoadsMeans(fr: Frag, k: Kind, reg: nat, e: Expr, n: nat)
    requires Shape(fr, k) && ((k == KNonreloc(reg) && |fr.code| > fr.pc0) || k.KJump?) && reg < NO_REG
    requires Means(fr, k, e, n, if k.KJump? then NO_REG else reg)
    requires n <= NO_REG
    ensures Means(WithLoads(fr, k, reg), KNonreloc(reg), e, n, reg)
  {
    hide Shape, EndsIn, RunOf;
    forall env: Env, regs: Regs | IsFrame(regs)
      ensures EndsIn(env, WithLoads(fr, k, reg), KNonreloc(reg), RunOf(env, WithLoads(fr, k, reg), KNonreloc(reg), regs),
                     Eval(env, e, regs), regs, n, reg)
    {
      MeansBut(env, fr, k, e, n, if k.KJump? then NO_REG else reg, regs);
      if k.KJump? {
        FallInto(env, fr, k.pc, reg, Eval(env, e, regs), n, regs);
      } else {
        JumpOver(env, fr, reg, Eval(env, e, regs), n, regs);
      }
    }
  }

  // ---- Patching the lists ------------------------------------------------------------------------------

  /** patchlistaux on one of the lists: values to the end, plain jumps to their load. */
  function Closed(fr: Frag, reg: nat, truth: bool): Frag {
    var end := |fr.code|;
    var l := if truth then fr.t else fr.f;
    var target := if !Needs(fr.code, l) then end else if truth then end - 1 else end - 2;
    Frag(Patched(fr.code, l, end, reg, target), fr.pc0, if truth then [] else fr.t, if truth then fr.f else [], fr.j)
  }

  lemma ClosedShape(fr: Frag, reg: nat, truth: bool)
    requires Shape(fr, KNonreloc(reg)) && reg < NO_REG
    ensures Shape(Closed(fr, reg, truth), KNonreloc(reg))
    ensures Loads(fr, reg) ==> Loads(Closed(fr, reg, truth), reg)
    ensures forall p :: 0 <= p < fr.pc0 ==> Closed(fr, reg, truth).code[p] == fr.code[p]
  {
    ClosedLists(fr, reg, truth);
    ClosedCode(fr, reg, truth);
    if Loads(fr, reg) {
      assert Closed(fr, reg, truth).code[|fr.code| - 2..] == fr.code[|fr.code| - 2..];
    }
    hide Open, NoStray, Patched;
  }

  lemma ClosedTests(fr: Frag, reg: nat, truth: bool, p: int)
    requires Shape(fr, KNonreloc(reg)) && reg < NO_REG && 0 <= p < |fr.code|
    ensures !fr.code[p].Tests() ==> !Closed(fr, reg, truth).code[p].Tests()
  {
    var l := if truth then fr.t else fr.f;
    var end := |fr.code|;
    var d := if !Needs(fr.code, l) then end else if truth then end - 1 else end - 2;
    assert Patched(fr.code, l, end, reg, d)[p] == PatchedAt(fr.code, l, p, end, reg, d);
    hide Patched, NoStray, Shape, Needs;
  }

  lemma BehindList(fr: Frag, l: seq<int>, p: int)
    requires (l == fr.t || l == fr.f) && Within(fr.Opens(), 0, |fr.code| - 2) && p >= |fr.code| - 2
    ensures p !in l
  {
    assert forall x :: x in l ==> x in fr.Opens();
  }

  lemma BeforeList(fr: Frag, reg: nat, l: seq<int>, p: int)
    requires Shape(fr, KNonreloc(reg)) && (l == fr.t || l == fr.f) && 0 <= p < fr.pc0
    ensures p !in l && (p + 1 in l ==> !fr.code[p].Tests())
  {
    hide Open, NoStray, Disjoint, Pending;
    assert Within(l, fr.pc0, |fr.code|);
  }

  lemma ClosedAt(fr: Frag, reg: nat, truth: bool, p: int)
    requires Shape(fr, KNonreloc(reg)) && reg < NO_REG && 0 <= p < |fr.code|
    ensures p < fr.pc0 || (Loads(fr, reg) && p >= |fr.code| - 2) ==> Closed(fr, reg, truth).code[p] == fr.code[p]
  {
    var l := if truth then fr.t else fr.f;
    var end := |fr.code|;
    var d := if !Needs(fr.code, l) then end else if truth then end - 1 else end - 2;
    if p >= fr.pc0 && Loads(fr, reg) && p >= |fr.code| - 2 {
      BehindList(fr, l, p);
      BehindList(fr, l, p + 1);
    } else if p < fr.pc0 {
      BeforeList(fr, reg, l, p);
    }
    assert Patched(fr.code, l, end, reg, d)[p] == PatchedAt(fr.code, l, p, end, reg, d);
    hide Patched, Shape, Needs, Loads;
  }

  lemma ClosedCode(fr: Frag, reg: nat, truth: bool)
    requires Shape(fr, KNonreloc(reg)) && reg < NO_REG
    ensures var code2 := Closed(fr, reg, truth).code;
      && |code2| == |fr.code|
      && (forall p :: 0 <= p < fr.pc0 ==> code2[p] == fr.code[p])
      && (forall p :: 0 <= p < |fr.code| && SealedAt(fr.code, p) ==> SealedAt(code2, p))
      && SealedAt(code2, |code2|)
      && (Loads(fr, reg) ==> forall p :: |fr.code| - 2 <= p < |fr.code| ==> code2[p] == fr.code[p])
  {
    var code2 := Closed(fr, reg, truth).code;
    var l := if truth then fr.t else fr.f;
    hide NoStray, Patched;
    forall p | 0 <= p < |fr.code| && (p < fr.pc0 || (Loads(fr, reg) && p >= |fr.code| - 2)) ensures code2[p] == fr.code[p] {
      ClosedAt(fr, reg, truth, p);
    }
    forall p | 0 <= p <= |fr.code| && SealedAt(fr.code, p) ensures SealedAt(code2, p) {
      if p > 0 { ClosedTests(fr, reg, truth, p - 1); }
    }
  }

  lemma ClosedLists(fr: Frag, reg: nat, truth: bool)
    requires Shape(fr, KNonreloc(reg)) && reg < NO_REG
    ensures var fr2 := Closed(fr, reg, truth);
      && Open(fr2.code, fr2.t) && Open(fr2.code, fr2.f) && Open(fr2.code, fr2.j)
      && NoStray(fr2.code, fr2.pc0, fr2.Opens())
  {
    var fr2 := Closed(fr, reg, truth);
    var l := if truth then fr.t else fr.f;
    ClosedOpen(fr.code, l, fr2.code, reg, if truth then fr.f else fr.t);
    ClosedOpen(fr.code, l, fr2.code, reg, fr.j);
    hide Open;
  }

  /** Patching one list leaves the jumps of another open. */
  lemma ClosedOpen(code: Code, l: seq<int>, code2: Code, reg: nat, o: seq<int>)
    requires Open(code, o) && Open(code, l) && Disjoint(l, o) && |code2| == |code| && reg < NO_REG
    requires exists v, d :: code2 == Patched(code, l, v, reg, d)
    ensures Open(code2, o)
  {
    var v, d :| code2 == Patched(code, l, v, reg, d);
    hide Patched;
    forall x | x in o ensures 0 <= x < |code2| && code2[x].IJmp? && (Valued(code2, x) ==> code2[x - 1].a == NO_REG) {
      PatchedOther(code, l, x, v, reg, d);
    }
  }

  /** What becomes of the jumps of the other lists. */
  lemma ClosedCarries(fr: Frag, reg: nat, truth: bool, x: int, regs: Regs, v: Value, other: bool)
    requires Shape(fr, KNonreloc(reg)) && reg < NO_REG
    requires x in (if truth then fr.f else fr.t) || x in fr.j
    ensures var code2 := Closed(fr, reg, truth).code;
      HasControl(code2, x) == HasControl(fr.code, x) && (Carries(fr.code, x, regs, v, other) ==> Carries(code2, x, regs, v, other))
  {
    hide Patched;
    ClosedOther(fr, reg, truth, x);
  }

  lemma ClosedOther(fr: Frag, reg: nat, truth: bool, x: int)
    requires Shape(fr, KNonreloc(reg)) && reg < NO_REG
    requires x in (if truth then fr.f else fr.t) || x in fr.j
    ensures var code2 := Closed(fr, reg, truth).code;
      && 0 <= x < |fr.code| == |code2| && HasControl(code2, x) == HasControl(fr.code, x) && Valued(code2, x) == Valued(fr.code, x)
      && (Valued(fr.code, x) ==> code2[x - 1] == fr.code[x - 1])
  {
    var end := |fr.code|;
    var l := if truth then fr.t else fr.f;
    assert x !in l;
    hide Patched, NoStray, SealedAt;
    PatchedOther(fr.code, l, x, end, reg, if !Needs(fr.code, l) then end else if truth then end - 1 else end - 2);
  }

  lemma ClosedRun(env: Env, fr: Frag, reg: nat, truth: bool, regs: Regs)
    requires Shape(fr, KNonreloc(reg)) && reg < NO_REG && IsFrame(regs)
    requires Needs(fr.code, if truth then fr.t else fr.f) ==> Loads(fr, reg)
    requires var o := RunOf(env, fr, KNonreloc(reg), regs); !o.Stuck? && |o.regs| == |regs| && (o.Exit? ==> o.via == HasControl(fr.code, o.j))
    ensures var o := RunOf(env, fr, KNonreloc(reg), regs);
      RunOf(env, Closed(fr, reg, truth), KNonreloc(reg), regs) ==
        if o.Exit? && o.j in (if truth then fr.t else fr.f) then
          Fall(Set(o.regs, reg, if Valued(fr.code, o.j) then Reg(o.regs, fr.code[o.j - 1].b) else Bool(truth)))
        else o
  {
    ClosedPatched(env, fr, reg, truth, regs);
    hide Run, Takes, Closed, Shape;
    AtEnd(env, Closed(fr, reg, truth).code, Closed(fr, reg, truth).Opens(), |fr.code|);
    var o := RunOf(env, fr, KNonreloc(reg), regs);
    if o.Exit? && o.j in (if truth then fr.t else fr.f) && !Valued(fr.code, o.j) {
      ClosedLoad(env, fr, reg, truth, o.j, o.regs);
    }
  }

  function LoadAt(fr: Frag, truth: bool): int {
    if !Needs(fr.code, if truth then fr.t else fr.f) then |fr.code| else if truth then |fr.code| - 1 else |fr.code| - 2
  }

  lemma ClosedLoad(env: Env, fr: Frag, reg: nat, truth: bool, x: int, regs: Regs)
    requires Shape(fr, KNonreloc(reg)) && reg < NO_REG && IsFrame(regs)
    requires Needs(fr.code, if truth then fr.t else fr.f) ==> Loads(fr, reg)
    requires x in (if truth then fr.t else fr.f) && !Valued(fr.code, x)
    ensures var fr2 := Closed(fr, reg, truth);
      Run(env, fr2.code, fr2.Opens(), LoadAt(fr, truth), regs, |fr.code|) == Fall(Set(regs, reg, Bool(truth)))
  {
    assert Needs(fr.code, if truth then fr.t else fr.f);
    ClosedShape(fr, reg, truth);
    hide Run, Shape, Patched;
    LoadRun(env, Closed(fr, reg, truth), reg, Closed(fr, reg, truth).Opens(), truth, regs);
  }

  lemma ClosedPatched(env: Env, fr: Frag, reg: nat, truth: bool, regs: Regs)
    requires Shape(fr, KNonreloc(reg)) && reg < NO_REG && IsFrame(regs)
    requires Needs(fr.code, if truth then fr.t else fr.f) ==> Loads(fr, reg)
    requires var o := RunOf(env, fr, KNonreloc(reg), regs); o.Exit? ==> o.via == HasControl(fr.code, o.j)
    ensures |Closed(fr, reg, truth).code| == |fr.code| && Closed(fr, reg, truth).pc0 == fr.pc0
    ensures var o := RunOf(env, fr, KNonreloc(reg), regs); var fr2 := Closed(fr, reg, truth); var end := |fr.code|;
      RunOf(env, fr2, KNonreloc(reg), regs) ==
        if o.Exit? && o.j in (if truth then fr.t else fr.f)
        then Landed(env, fr.code, o, fr2.code, fr2.Opens(), end, end, reg, LoadAt(fr, truth))
        else o
  {
    hide Run, Takes, NoStray;
    var end := |fr.code|;
    var l := if truth then fr.t else fr.f;
    assert Removes(fr.Opens(), l, Closed(fr, reg, truth).Opens(), fr.pc0, end);
    PatchRun(env, fr.code, fr.Opens(), l, Closed(fr, reg, truth).Opens(), fr.pc0, regs, end, end, reg, LoadAt(fr, truth));
  }

  lemma ClosedEnds(env: Env, fr: Frag, reg: nat, truth: bool, v: Value, n: nat, regs: Regs)
    requires Shape(fr, KNonreloc(reg)) && reg < NO_REG && IsFrame(regs)
    requires Needs(fr.code, if truth then fr.t else fr.f) ==> Loads(fr, reg)
    requires EndsIn(env, fr, KNonreloc(reg), RunOf(env, fr, KNonreloc(reg), regs), v, regs, n, reg)
    requires |RunOf(env, fr, KNonreloc(reg), regs).regs| == |regs|
    requires n <= NO_REG
    ensures var fr2 := Closed(fr, reg, truth);
      EndsIn(env, fr2, KNonreloc(reg), RunOf(env, fr2, KNonreloc(reg), regs), v, regs, n, reg)
  {
    hide RunOf, Takes, Needs, Loads;
    var o := RunOf(env, fr, KNonreloc(reg), regs);
    ClosedRun(env, fr, reg, truth, regs);
    if o.Exit? && o.j !in (if truth then fr.t else fr.f) {
      assert o.j in (if truth then fr.f else fr.t) || o.j in fr.j;
      ClosedCarries(fr, reg, truth, o.j, o.regs, v, !truth);
    }
  }

  lemma ClosedMeans(fr: Frag, reg: nat, truth: bool, e: Expr, n: nat)
    requires Shape(fr, KNonreloc(reg)) && reg < NO_REG && Means(fr, KNonreloc(reg), e, n, reg)
    requires Needs(fr.code, if truth then fr.t else fr.f) ==> Loads(fr, reg)
    requires n <= NO_REG
    ensures Means(Closed(fr, reg, truth), KNonreloc(reg), e, n, reg)
  {
    hide Shape, EndsIn, RunOf, Loads, Closed;
    forall env: Env, regs: Regs | IsFrame(regs)
      ensures EndsIn(env, Closed(fr, reg, truth), KNonreloc(reg), RunOf(env, Closed(fr, reg, truth), KNonreloc(reg), regs),
                     Eval(env, e, regs), regs, n, reg)
    {
      MeansBut(env, fr, KNonreloc(reg), e, n, reg, regs);
      ClosedEnds(env, fr, reg, truth, Eval(env, e, regs), n, regs);
    }
  }

  // ---- exp2reg --------------------------------------------------------------------------------------------

  lemma NeedsStay(fr: Frag, reg: nat)
    requires Shape(fr, KNonreloc(reg)) && reg < NO_REG
    ensures Needs(Closed(fr, reg, false).code, fr.t) <==> Needs(fr.code, fr.t)
  {
    var code2 := Closed(fr, reg, false).code;
    hide Patched, Shape, Closed;
    forall x | x in fr.t ensures Valued(code2, x) == Valued(fr.code, x) { ClosedOther(fr, reg, false, x); }
  }

  lemma JumpsNeedCode(fr: Frag, k: Kind)
    requires Shape(fr, k) && (k.KNonreloc? ==> fr.t != [] || fr.f != [])
    ensures k.KNonreloc? ==> |fr.code| > fr.pc0
  {
    var x := if fr.t != [] then fr.t[0] else if fr.f != [] then fr.f[0] else 0;
    if k.KNonreloc? {
      assert x in fr.t || x in fr.f;
      assert fr.pc0 <= x < |fr.code|;
    }
  }
}
