/** `and' and `or': putting the code of two operands together (lcode.c:516-626, 718-758). */
module CodeLogic {
  import opened CodeVm
  import opened CodeLists
  import opened CodeMeans
  import opened CodeSteps

  /** The first operand, decided, and the second behind it. */
  ghost predicate Joined(a: Frag, truth: bool, b: Frag, kb: Kind) {
    && Shape(a, KNonreloc(0)) && (if truth then a.t == [] else a.f == [])
    && Shape(b, kb) && (kb.KNonreloc? || kb.KReloc? || kb.KJump?)
    && b.pc0 == |a.code| && |a.code| > a.pc0
    && Framed(a.code, a.j, b.code, b.j)
  }

  /** luaK_posfix: the lists of the second operand, followed by the open list of the first. */
  function Join(a: Frag, truth: bool, b: Frag): Frag {
    if truth then Frag(b.code, a.pc0, b.t, b.f + a.f, b.j) else Frag(b.code, a.pc0, b.t + a.t, b.f, b.j)
  }

  function Connect(truth: bool, l: Expr, r: Expr): Expr {
    if truth then And(l, r) else Or(l, r)
  }

  lemma JoinOpen(a: Frag, truth: bool, b: Frag, kb: Kind)
    requires Joined(a, truth, b, kb)
    ensures var c := Join(a, truth, b); Open(c.code, c.t) && Open(c.code, c.f) && Open(c.code, c.j)
  {
    var l := if truth then a.f else a.t;
    assert Open(a.code, l) && Open(b.code, b.t) && Open(b.code, b.f) && Open(b.code, b.j);
    hide Shape, Framed;
    forall x | x in l ensures 0 <= x < |b.code| && b.code[x].IJmp? && (Valued(b.code, x) ==> b.code[x - 1].a == NO_REG) {
      JumpKept(a, truth, b, kb, x);
    }
  }

  lemma JoinStray(a: Frag, truth: bool, b: Frag, kb: Kind)
    requires Joined(a, truth, b, kb)
    ensures NoStray(b.code, a.pc0, Join(a, truth, b).Opens())
  {
    assert NoStray(b.code, b.pc0, b.Opens());
    hide Shape, Framed;
    forall p | 0 <= a.pc0 <= p < |b.code| && b.code[p].ITestSet? && b.code[p].a == NO_REG
      ensures p + 1 in Join(a, truth, b).Opens()
    {
      if p < b.pc0 { StrayKept(a, truth, b, kb, p); }
    }
  }

  lemma JoinSealed(a: Frag, truth: bool, b: Frag, kb: Kind)
    requires Joined(a, truth, b, kb)
    ensures SealedAt(b.code, a.pc0) && |b.code| >= |a.code|
  {
    hide Open, NoStray, Within, Disjoint;
    FramedKeeps(a.code, a.j, b.code, b.j);
  }

  lemma JoinShape(a: Frag, truth: bool, b: Frag, kb: Kind)
    requires Joined(a, truth, b, kb)
    ensures Shape(Join(a, truth, b), kb)
  {
    JoinOpen(a, truth, b, kb);
    JoinStray(a, truth, b, kb);
    JoinSealed(a, truth, b, kb);
    hide Open, NoStray, SealedAt, Framed;
  }

  /** A jump of the first operand's list is still there, with its test. */
  lemma JumpKept(a: Frag, truth: bool, b: Frag, kb: Kind, x: int)
    requires Joined(a, truth, b, kb) && x in (if truth then a.f else a.t)
    ensures a.pc0 <= x < |a.code| && b.code[x] == a.code[x] && HasControl(b.code, x) == HasControl(a.code, x)
    ensures Valued(b.code, x) == Valued(a.code, x)
    ensures Valued(a.code, x) ==> b.code[x - 1] == a.code[x - 1]
    ensures b.code[x].IJmp?
  {
    FramedKeeps(a.code, a.j, b.code, b.j);
    if |b.code| > |a.code| {
      assert b.code[x] == b.code[..|a.code|][x];
      if x >= 1 { assert b.code[x - 1] == b.code[..|a.code|][x - 1]; }
    }
  }

  lemma StrayKept(a: Frag, truth: bool, b: Frag, kb: Kind, p: int)
    requires Joined(a, truth, b, kb) && a.pc0 <= p < b.pc0 && b.code[p].ITestSet? && b.code[p].a == NO_REG
    ensures p + 1 in Join(a, truth, b).Opens()
  {
    if |b.code| > |a.code| { assert b.code[p] == b.code[..|a.code|][p]; }
  }

  /** A run over the joined code is the run of the first operand; where that goes on, the
      second operand's run follows. */
  lemma JoinRun(env: Env, a: Frag, truth: bool, b: Frag, kb: Kind, regs: Regs)
    requires Joined(a, truth, b, kb) && |b.code| > |a.code| && IsFrame(regs)
    requires var o := Run(env, a.code, a.Opens(), a.pc0, regs, |a.code|);
      o != Stuck && (o.Exit? ==> o.via == HasControl(a.code, o.j))
    ensures var o := Run(env, a.code, a.Opens(), a.pc0, regs, |a.code|);
      RunOf(env, Join(a, truth, b), kb, regs) ==
        if o.Fall? || (o.Exit? && o.j in a.j) then RunOf(env, b, kb, o.regs) else o
  {
    var c := Join(a, truth, b);
    var o := Run(env, a.code, a.Opens(), a.pc0, regs, |a.code|);
    var stop := Stop(b.code, kb);
    assert Removes(a.Opens(), a.j, c.Opens(), a.pc0, |a.code|);
    PassRun(env, a, b.code, c.Opens(), regs);
    RunSplit(env, b.code, c.Opens(), a.pc0, regs, |a.code|, stop);
    if o.Fall? || (o.Exit? && o.j in a.j) {
      RunAgree(env, b.code, b.Opens(), b.code, c.Opens(), b.pc0, o.regs, stop);
    }
  }

  lemma FirstDecides(env: Env, a: Frag, truth: bool, l: Expr, n: nat, regs: Regs)
    requires IsFrame(regs) && Decides(a, truth, l, n)
    ensures DecidesIn(a, truth, Run(env, a.code, a.Opens(), a.pc0, regs, |a.code|), Eval(env, l, regs), regs, n)
  {
  }

  lemma SecondEnds(env: Env, b: Frag, kb: Kind, r: Expr, n: nat, regs: Regs)
    requires IsFrame(regs) && Means(b, kb, r, n, NO_REG)
    ensures EndsIn(env, b, kb, RunOf(env, b, kb, regs), Eval(env, r, regs), regs, n, NO_REG)
  {
  }

  lemma JoinOutcome(env: Env, a: Frag, truth: bool, b: Frag, kb: Kind, regs: Regs)
    requires Joined(a, truth, b, kb) && IsFrame(regs)
    requires var o := Run(env, a.code, a.Opens(), a.pc0, regs, |a.code|);
      o != Stuck && (o.Exit? ==> o.via == HasControl(a.code, o.j))
    ensures var o := Run(env, a.code, a.Opens(), a.pc0, regs, |a.code|);
      && IsFrame(o.regs)
      && RunOf(env, Join(a, truth, b), kb, regs) ==
           if GoesOn(o, a.j) && |b.code| > |a.code| then RunOf(env, b, kb, o.regs) else o
  {
    hide Run;
    RunFrame(env, a.code, a.Opens(), a.pc0, regs, |a.code|);
    if |b.code| > |a.code| {
      JoinRun(env, a, truth, b, kb, regs);
    } else {
      RunAgree(env, a.code, a.Opens(), b.code, Join(a, truth, b).Opens(), a.pc0, regs, |a.code|);
    }
  }

  lemma JoinEnds(env: Env, a: Frag, truth: bool, b: Frag, kb: Kind, l: Expr, r: Expr, n: nat, regs: Regs)
    requires Joined(a, truth, b, kb) && IsFrame(regs) && LocalsBelow(r, n) && n <= NO_REG
    requires Decides(a, truth, l, n) && Means(b, kb, r, n, NO_REG)
    ensures EndsIn(env, Join(a, truth, b), kb, RunOf(env, Join(a, truth, b), kb, regs),
                   Eval(env, Connect(truth, l, r), regs), regs, n, NO_REG)
  {
    hide *;
    FirstDecides(env, a, truth, l, n, regs);
    DecidesTidy(a, truth, Run(env, a.code, a.Opens(), a.pc0, regs, |a.code|), Eval(env, l, regs), regs, n);
    JoinOutcome(env, a, truth, b, kb, regs);
    ConnectEval(env, truth, l, r, regs);
    if GoesOn(Run(env, a.code, a.Opens(), a.pc0, regs, |a.code|), a.j) {
      SecondPart(env, a, truth, b, kb, l, r, n, regs, Run(env, a.code, a.Opens(), a.pc0, regs, |a.code|));
    } else {
      GoesOr(Run(env, a.code, a.Opens(), a.pc0, regs, |a.code|), a.j);
      Leaves(env, a, truth, b, kb, Run(env, a.code, a.Opens(), a.pc0, regs, |a.code|), Eval(env, l, regs), regs, n);
    }
  }

  lemma ConnectEval(env: Env, truth: bool, l: Expr, r: Expr, regs: Regs)
    ensures Eval(env, Connect(truth, l, r), regs) ==
      if Truthy(Eval(env, l, regs)) == truth then Eval(env, r, regs) else Eval(env, l, regs)
  {
  }

  lemma GoesOr(o: Outcome, j: seq<int>)
    requires o != Stuck && !GoesOn(o, j)
    ensures o.Exit? && o.j !in j
  {
  }

  lemma DecidesTidy(a: Frag, truth: bool, o: Outcome, v: Value, regs: Regs, n: nat)
    requires DecidesIn(a, truth, o, v, regs, n)
    ensures o != Stuck && (o.Exit? ==> o.via == HasControl(a.code, o.j))
  {
  }

  lemma SecondPart(env: Env, a: Frag, truth: bool, b: Frag, kb: Kind, l: Expr, r: Expr, n: nat, regs: Regs, o: Outcome)
    requires Joined(a, truth, b, kb) && LocalsBelow(r, n) && n <= NO_REG && Means(b, kb, r, n, NO_REG)
    requires DecidesIn(a, truth, o, Eval(env, l, regs), regs, n) && GoesOn(o, a.j) && IsFrame(o.regs)
    requires RunOf(env, Join(a, truth, b), kb, regs) ==
           if GoesOn(o, a.j) && |b.code| > |a.code| then RunOf(env, b, kb, o.regs) else o
    ensures Truthy(Eval(env, l, regs)) == truth
    ensures EndsIn(env, Join(a, truth, b), kb, RunOf(env, Join(a, truth, b), kb, regs), Eval(env, r, regs), regs, n, NO_REG)
  {
    hide *;
    Goes(a, truth, b, kb, o, Eval(env, l, regs), regs, n);
    EvalKept(env, r, o.regs, regs, n);
    SecondEnds(env, b, kb, r, n, o.regs);
    if |b.code| > |a.code| {
      OnAndOn(env, a, truth, b, kb, RunOf(env, b, kb, o.regs), Eval(env, r, regs), regs, o.regs, n);
    } else {
      JoinedMore(a, truth, b, kb);
      NothingMore(env, a, truth, b, kb, o, Eval(env, r, regs), regs, n);
    }
  }

  lemma JoinedMore(a: Frag, truth: bool, b: Frag, kb: Kind)
    requires Joined(a, truth, b, kb)
    ensures |b.code| >= |a.code|
  {
  }

  lemma Goes(a: Frag, truth: bool, b: Frag, kb: Kind, o: Outcome, v: Value, regs: Regs, n: nat)
    requires Joined(a, truth, b, kb) && DecidesIn(a, truth, o, v, regs, n) && GoesOn(o, a.j)
    ensures Truthy(v) == truth && Kept(o.regs, regs, n, NO_REG)
    ensures !o.Stuck? && (o.Exit? ==> o.via == HasControl(a.code, o.j))
  {
  }

  lemma CarriesKept(code: Code, code2: Code, j: int, regs: Regs, v: Value, truth: bool)
    requires Carries(code, j, regs, v, truth) && Valued(code2, j) == Valued(code, j)
    requires Valued(code, j) ==> code2[j - 1] == code[j - 1]
    ensures Carries(code2, j, regs, v, truth) && Truthy(v) == truth
  {
  }

  lemma LeaveFacts(a: Frag, truth: bool, b: Frag, kb: Kind, x: int)
    requires Joined(a, truth, b, kb) && x in (if truth then a.f else a.t)
    ensures x !in b.t && x !in b.f
  {
    hide Open, NoStray, SealedAt, Disjoint, Framed, Pending;
  }

  lemma Leaves(env: Env, a: Frag, truth: bool, b: Frag, kb: Kind, o: Outcome, v: Value, regs: Regs, n: nat)
    requires Joined(a, truth, b, kb) && DecidesIn(a, truth, o, v, regs, n) && o.Exit? && o.j !in a.j
    ensures EndsIn(env, Join(a, truth, b), kb, o, v, regs, n, NO_REG)
    ensures Truthy(v) != truth
  {
    hide Joined, HasControl, Gives, Carries, Valued;
    LeaveFacts(a, truth, b, kb, o.j);
    JumpKept(a, truth, b, kb, o.j);
    CarriesKept(a.code, b.code, o.j, o.regs, v, !truth);
  }

  lemma OnAndOn(env: Env, a: Frag, truth: bool, b: Frag, kb: Kind, o2: Outcome, v: Value, regs: Regs, regs1: Regs, n: nat)
    requires Joined(a, truth, b, kb) && |b.code| > |a.code|
    requires Kept(regs1, regs, n, NO_REG) && EndsIn(env, b, kb, o2, v, regs1, n, NO_REG)
    ensures EndsIn(env, Join(a, truth, b), kb, o2, v, regs, n, NO_REG)
  {
    hide Takes;
    var c := Join(a, truth, b);
    if o2.Exit? {
      FramedKeeps(a.code, a.j, b.code, b.j);
      assert o2.j in c.t <==> o2.j in b.t || (!truth && o2.j in a.t);
      assert o2.j in c.f <==> o2.j in b.f || (truth && o2.j in a.f);
    }
  }

  lemma NothingMore(env: Env, a: Frag, truth: bool, b: Frag, kb: Kind, o: Outcome, v: Value, regs: Regs, n: nat)
    requires Joined(a, truth, b, kb) && |b.code| == |a.code|
    requires GoesOn(o, a.j) && (o.Exit? ==> o.via == HasControl(a.code, o.j))
    requires Kept(o.regs, regs, n, NO_REG)
    requires EndsIn(env, b, kb, RunOf(env, b, kb, o.regs), v, o.regs, n, NO_REG)
    ensures EndsIn(env, Join(a, truth, b), kb, o, v, regs, n, NO_REG)
  {
    assert RunOf(env, b, kb, o.regs) == Fall(o.regs);
  }

  /** `and' and `or' mean what their operands mean, short-circuited. */
  lemma JoinMeans(a: Frag, truth: bool, b: Frag, kb: Kind, l: Expr, r: Expr, n: nat)
    requires Joined(a, truth, b, kb) && LocalsBelow(r, n) && n <= NO_REG
    requires Decides(a, truth, l, n) && Means(b, kb, r, n, NO_REG)
    ensures Means(Join(a, truth, b), kb, Connect(truth, l, r), n, NO_REG)
  {
    hide Joined, Decides;
    forall env: Env, regs: Regs | IsFrame(regs)
      ensures EndsIn(env, Join(a, truth, b), kb, RunOf(env, Join(a, truth, b), kb, regs),
                     Eval(env, Connect(truth, l, r), regs), regs, n, NO_REG)
    {
      JoinEnds(env, a, truth, b, kb, l, r, n, regs);
    }
  }
}
