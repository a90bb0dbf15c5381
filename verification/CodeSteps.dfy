/** Code appended to a fragment: what its run becomes, and what becomes of its lists. */
module CodeSteps {
  import opened CodeVm
  import opened CodeLists
  import opened CodeMeans

  predicate GoesOn(o: Outcome, j: seq<int>) {
    o.Fall? || (o.Exit? && o.j in j)
  }

  /** New code over a fragment: its pending instructions are replaced, its pending jumps fixed. */
  predicate Extends(fr: Frag, k: Kind, code2: Code) {
    var m := Stop(fr.code, k);
    && 0 <= m <= |code2|
    && code2[..m] == Patched(fr.code, fr.j, m, NO_REG, m)[..m]
  }

  lemma ExtendsAt(fr: Frag, k: Kind, code2: Code, p: int)
    requires Extends(fr, k, code2) && 0 <= p < Stop(fr.code, k) <= |fr.code|
    ensures code2[p] == PatchedAt(fr.code, fr.j, p, Stop(fr.code, k), NO_REG, Stop(fr.code, k))
  {
    var m := Stop(fr.code, k);
    assert code2[p] == code2[..m][p] == Patched(fr.code, fr.j, m, NO_REG, m)[..m][p];
  }

  lemma EmitExtends(fr: Frag, k: Kind, i: Instr)
    requires Stop(fr.code, k) == |fr.code|
    ensures Extends(fr, k, Emit(fr.code, fr.j, i))
  {
  }

  /** The fragment's code with its pending jumps fixed to its end. */
  function PatchedHere(fr: Frag, k: Kind): Code {
    Patched(fr.code, fr.j, Stop(fr.code, k), NO_REG, Stop(fr.code, k))
  }

  lemma ShapeBounds(fr: Frag, k: Kind)
    requires Shape(fr, k)
    ensures 0 <= fr.pc0 <= Stop(fr.code, k) <= |fr.code| == |PatchedHere(fr, k)|
    ensures SealedAt(PatchedHere(fr, k), Stop(fr.code, k))
  {
  }

  lemma PatchedSame(fr: Frag, k: Kind, code2: Code)
    requires Extends(fr, k, code2) && Stop(fr.code, k) <= |fr.code|
    ensures forall p :: 0 <= p < Stop(fr.code, k) ==> PatchedHere(fr, k)[p] == code2[p]
  {
    forall p | 0 <= p < Stop(fr.code, k) ensures PatchedHere(fr, k)[p] == code2[p] { ExtendsAt(fr, k, code2, p); }
  }

  lemma PatchedToEnd(env: Env, fr: Frag, k: Kind, open2: seq<int>, regs: Regs)
    requires Shape(fr, k) && Removes(fr.Opens(), fr.j, open2, fr.pc0, Stop(fr.code, k))
    requires var o := RunOf(env, fr, k, regs); o != Stuck && (o.Exit? ==> o.via == HasControl(fr.code, o.j))
    ensures var o := RunOf(env, fr, k, regs);
      Run(env, PatchedHere(fr, k), open2, fr.pc0, regs, Stop(fr.code, k)) == if GoesOn(o, fr.j) then Fall(o.regs) else o
  {
    var m := Stop(fr.code, k);
    hide Run;
    PatchRun(env, fr.code, fr.Opens(), fr.j, open2, fr.pc0, regs, m, m, NO_REG, m);
    AtEnd(env, PatchedHere(fr, k), open2, m);
  }

  /** The run over the new code is the old run; where that goes on, the new code is run. */
  lemma Continue(env: Env, fr: Frag, k: Kind, code2: Code, open2: seq<int>, regs: Regs, end: int)
    requires Shape(fr, k) && Extends(fr, k, code2) && Stop(fr.code, k) <= end <= |code2|
    requires Removes(fr.Opens(), fr.j, open2, fr.pc0, Stop(fr.code, k))
    requires var o := RunOf(env, fr, k, regs); o != Stuck && (o.Exit? ==> o.via == HasControl(fr.code, o.j))
    ensures var o := RunOf(env, fr, k, regs);
      Run(env, code2, open2, fr.pc0, regs, end) ==
        if GoesOn(o, fr.j) then Run(env, code2, open2, Stop(fr.code, k), o.regs, end) else o
  {
    var m := Stop(fr.code, k);
    PatchedToEnd(env, fr, k, open2, regs);
    ShapeBounds(fr, k);
    PatchedSame(fr, k, code2);
    hide *;
    RunAgree(env, PatchedHere(fr, k), open2, code2, open2, fr.pc0, regs, m);
    RunSplit(env, code2, open2, fr.pc0, regs, m, end);
  }

  lemma AtEnd(env: Env, code: Code, open: seq<int>, m: int)
    ensures forall regs {:trigger Run(env, code, open, m, regs, m)} :: Run(env, code, open, m, regs, m) == Fall(regs)
  {
  }

  /** The jumps of the lists that stay open, and their tests. */
  lemma JumpStays(fr: Frag, k: Kind, code2: Code, x: int)
    requires Shape(fr, k) && Extends(fr, k, code2) && (x in fr.t || x in fr.f)
    ensures fr.pc0 <= x < Stop(fr.code, k) && code2[x] == fr.code[x] && code2[x].IJmp?
    ensures HasControl(code2, x) == HasControl(fr.code, x) && Valued(code2, x) == Valued(fr.code, x)
    ensures Valued(fr.code, x) ==> code2[x - 1] == fr.code[x - 1] && code2[x - 1].a == NO_REG
  {
    ExtendsAt(fr, k, code2, x);
    if x >= 1 { ExtendsAt(fr, k, code2, x - 1); }
    hide Extends, Patched, NoStray, SealedAt;
  }

  lemma EndsStay(fr: Frag, k: Kind, code2: Code)
    requires Shape(fr, k) && Extends(fr, k, code2)
    ensures SealedAt(code2, Stop(fr.code, k)) && SealedAt(code2, fr.pc0) && 0 <= fr.pc0 <= Stop(fr.code, k) <= |code2|
  {
    var m := Stop(fr.code, k);
    if m > 0 { ExtendsAt(fr, k, code2, m - 1); }
    if fr.pc0 > 0 { ExtendsAt(fr, k, code2, fr.pc0 - 1); }
    hide Patched, NoStray;
  }

  lemma StrayStays(fr: Frag, k: Kind, code2: Code, p: int)
    requires Shape(fr, k) && Extends(fr, k, code2)
    requires fr.pc0 <= p < Stop(fr.code, k) && p < |code2| && code2[p].ITestSet? && code2[p].a == NO_REG
    ensures p + 1 in fr.t || p + 1 in fr.f
  {
    ExtendsAt(fr, k, code2, p);
    hide Patched, Extends, SealedAt;
  }

  lemma ListsStay(fr: Frag, k: Kind, code2: Code)
    requires Shape(fr, k) && Extends(fr, k, code2)
    ensures Open(code2, fr.t) && Open(code2, fr.f)
    ensures SealedAt(code2, Stop(fr.code, k)) && SealedAt(code2, fr.pc0)
    ensures forall p :: fr.pc0 <= p < Stop(fr.code, k) && code2[p].ITestSet? && code2[p].a == NO_REG ==> p + 1 in fr.t || p + 1 in fr.f
  {
    forall x | x in fr.t || x in fr.f ensures 0 <= x < |code2| && code2[x].IJmp? && (Valued(code2, x) ==> code2[x - 1].a == NO_REG) {
      JumpStays(fr, k, code2, x);
    }
    EndsStay(fr, k, code2);
    forall p | fr.pc0 <= p < Stop(fr.code, k) && code2[p].ITestSet? && code2[p].a == NO_REG ensures p + 1 in fr.t || p + 1 in fr.f {
      StrayStays(fr, k, code2, p);
    }
    hide Extends, Shape;
  }

  lemma CarriesStays(fr: Frag, k: Kind, code2: Code, x: int, regs: Regs, v: Value, truth: bool)
    requires Shape(fr, k) && Extends(fr, k, code2) && (x in fr.t || x in fr.f) && Carries(fr.code, x, regs, v, truth)
    ensures Carries(code2, x, regs, v, truth) && HasControl(code2, x) == HasControl(fr.code, x)
  {
    JumpStays(fr, k, code2, x);
  }

  lemma MeansAt(env: Env, fr: Frag, k: Kind, e: Expr, n: nat, regs: Regs)
    requires IsFrame(regs) && Means(fr, k, e, n, NO_REG)
    ensures EndsIn(env, fr, k, RunOf(env, fr, k, regs), Eval(env, e, regs), regs, n, NO_REG)
    ensures IsFrame(regs) && !RunOf(env, fr, k, regs).Stuck? && |RunOf(env, fr, k, regs).regs| == |regs|
    ensures var o := RunOf(env, fr, k, regs); o.Exit? ==> o.via == HasControl(fr.code, o.j)
  {
    RunFrame(env, fr.code, fr.Opens(), fr.pc0, regs, Stop(fr.code, k));
  }

  // ---- One more value instruction --------------------------------------------------------------------

  /** The new instruction `i' at `m' turns what the fragment gives into what the new one gives. */
  ghost predicate Turns(fr: Frag, k: Kind, code2: Code, k2: Kind, but: int) {
    forall env: Env, regs: Regs, v: Value :: IsFrame(regs) && Gives(env, fr.code, k, regs, v) ==>
      var o := Run(env, code2, fr.t + fr.f, Stop(fr.code, k), regs, Stop(code2, k2));
      o.Fall? && (forall r :: 0 <= r < 256 && r != but ==> Reg(o.regs, r) == Reg(regs, r)) && Gives(env, code2, k2, o.regs, v)
  }

  lemma TurnsEnds(env: Env, fr: Frag, k: Kind, code2: Code, k2: Kind, v: Value, n: nat, but: int, regs: Regs)
    requires Shape(fr, k) && Extends(fr, k, code2) && Turns(fr, k, code2, k2, but) && IsFrame(regs) && n <= NO_REG
    requires Stop(fr.code, k) <= Stop(code2, k2) <= |code2|
    requires EndsIn(env, fr, k, RunOf(env, fr, k, regs), v, regs, n, NO_REG) && |RunOf(env, fr, k, regs).regs| == |regs|
    ensures var fr2 := Frag(code2, fr.pc0, fr.t, fr.f, []); EndsIn(env, fr2, k2, RunOf(env, fr2, k2, regs), v, regs, n, but)
  {
    hide Run, Takes, Patched, Extends;
    var fr2 := Frag(code2, fr.pc0, fr.t, fr.f, []);
    var o := RunOf(env, fr, k, regs);
    assert fr2.Opens() == fr.t + fr.f;
    Continue(env, fr, k, code2, fr2.Opens(), regs, Stop(code2, k2));
    if GoesOn(o, fr.j) {
      assert Gives(env, fr.code, k, o.regs, v);
      RunFrame(env, code2, fr.t + fr.f, Stop(fr.code, k), o.regs, Stop(code2, k2));
    } else {
      CarriesStays(fr, k, code2, o.j, o.regs, v, o.j in fr.t);
    }
  }

  lemma TurnsMeans(fr: Frag, k: Kind, code2: Code, k2: Kind, e: Expr, n: nat, but: int)
    requires Shape(fr, k) && Extends(fr, k, code2) && Turns(fr, k, code2, k2, but) && n <= NO_REG
    requires Stop(fr.code, k) <= Stop(code2, k2) <= |code2|
    requires Means(fr, k, e, n, NO_REG)
    ensures Means(Frag(code2, fr.pc0, fr.t, fr.f, []), k2, e, n, but)
  {
    hide Shape, Extends, Turns, EndsIn, RunOf;
    forall env: Env, regs: Regs | IsFrame(regs)
      ensures EndsIn(env, Frag(code2, fr.pc0, fr.t, fr.f, []), k2, RunOf(env, Frag(code2, fr.pc0, fr.t, fr.f, []), k2, regs),
                     Eval(env, e, regs), regs, n, but)
    {
      MeansAt(env, fr, k, e, n, regs);
      TurnsEnds(env, fr, k, code2, k2, Eval(env, e, regs), n, but, regs);
    }
  }
}
