/** What a piece of code under construction means for the expression it was generated from:
    values in registers, pending instructions, and the open `true' and `false' lists. */
module CodeMeans {
  import opened CodeVm
  import opened CodeLists

  /** expkind, with `info'. A VRELOCABLE or VJMP expression is the code's last instruction,
      still without a register, or without a place to jump to. */
  datatype Kind = KLocal(r: nat) | KUpval(i: nat) | KNonreloc(r: nat) | KReloc(pc: nat) | KJump(pc: nat)

  /** Code from `pc0' on, with the open lists of the expression and the jumps to its end. */
  datatype Frag = Frag(code: Code, pc0: nat, t: seq<int>, f: seq<int>, j: seq<int>)
  {
    function Opens(): seq<int> { t + f + j }
  }

  /** Where the pending instructions begin. */
  function Stop(code: Code, k: Kind): int {
    match k
    case KReloc(_) => |code| - 1
    case KJump(_) => |code| - 2
    case _ => |code|
  }

  predicate Relocatable(i: Instr) { i.INot? || i.IGetUpval? }

  function RelocValue(env: Env, i: Instr, regs: Regs): Value {
    match i
    case INot(_, b) => Bool(!Truthy(Reg(regs, b)))
    case IGetUpval(_, b) => env.Up(b)
    case _ => Nil
  }

  predicate Disjoint(a: seq<int>, b: seq<int>) {
    forall x :: x in a ==> x !in b
  }

  predicate Within(l: seq<int>, lo: int, hi: int) {
    forall x :: x in l ==> lo <= x < hi
  }

  predicate Pending(code: Code, pc0: int, k: Kind, j: seq<int>) {
    match k
    case KLocal(_) => |code| == pc0
    case KUpval(_) => |code| == pc0
    case KNonreloc(r) => r < NO_REG
    case KReloc(pc) => j == [] && pc0 <= pc == |code| - 1 && Relocatable(code[pc])
    case KJump(pc) =>
      j == [] && 1 <= pc && pc0 <= pc - 1 && pc == |code| - 1 && code[pc - 1].ICompare? && code[pc] == IJmp(NO_JUMP)
  }

  /** The lists are disjoint, lie in the fragment, and hold all its placeholders. */
  predicate Shape(fr: Frag, k: Kind) {
    && fr.pc0 <= |fr.code|
    && Pending(fr.code, fr.pc0, k, fr.j)
    && Open(fr.code, fr.t) && Open(fr.code, fr.f) && Open(fr.code, fr.j)
    && Disjoint(fr.t, fr.f) && Disjoint(fr.t, fr.j) && Disjoint(fr.f, fr.j)
    && fr.pc0 <= Stop(fr.code, k)
    && Within(fr.t, fr.pc0, Stop(fr.code, k)) && Within(fr.f, fr.pc0, Stop(fr.code, k))
    && Within(fr.j, if |fr.code| == fr.pc0 then 0 else fr.pc0, Stop(fr.code, k))
    && SealedAt(fr.code, Stop(fr.code, k)) && SealedAt(fr.code, |fr.code|) && SealedAt(fr.code, fr.pc0)
    && NoStray(fr.code, fr.pc0, fr.Opens())
  }

  // ---- Meaning ---------------------------------------------------------------------------------

  ghost predicate Gives(env: Env, code: Code, k: Kind, regs: Regs, v: Value) {
    match k
    case KLocal(r) => Reg(regs, r) == v
    case KUpval(i) => env.Up(i) == v
    case KNonreloc(r) => Reg(regs, r) == v
    case KReloc(_) => |code| >= 1 && RelocValue(env, code[|code| - 1], regs) == v
    case KJump(_) => |code| >= 2 && v == Bool(Takes(env, code[|code| - 2], regs))
  }

  /** A jump of the `true' or `false' list: a TESTSET has the value at hand, any other jump
      stands for the plain boolean. */
  predicate Carries(code: Code, j: int, regs: Regs, v: Value, truth: bool) {
    && Truthy(v) == truth
    && (if Valued(code, j) then Reg(regs, code[j - 1].b) == v else v == Bool(truth))
  }

  ghost predicate EndsIn(env: Env, fr: Frag, k: Kind, o: Outcome, v: Value, regs0: Regs, n: nat, but: int) {
    match o
    case Stuck => false
    case Fall(regs) => Kept(regs, regs0, n, but) && Gives(env, fr.code, k, regs, v)
    case Exit(j, regs, via) =>
      && via == HasControl(fr.code, j)
      && (if j in fr.t then Kept(regs, regs0, n, NO_REG) && Carries(fr.code, j, regs, v, true)
          else if j in fr.f then Kept(regs, regs0, n, NO_REG) && Carries(fr.code, j, regs, v, false)
          else j in fr.j && Kept(regs, regs0, n, but) && Gives(env, fr.code, k, regs, v))
  }

  ghost function RunOf(env: Env, fr: Frag, k: Kind, regs: Regs): Outcome {
    Run(env, fr.code, fr.Opens(), fr.pc0, regs, Stop(fr.code, k))
  }

  /** From any registers, the fragment delivers the value of the expression, one way or another,
      and keeps the registers below `n'. */
  ghost predicate Means(fr: Frag, k: Kind, e: Expr, n: nat, but: int) {
    forall env: Env, regs: Regs :: IsFrame(regs) ==>
      EndsIn(env, fr, k, RunOf(env, fr, k, regs), Eval(env, e, regs), regs, n, but)
  }

  /** After luaK_goiftrue or luaK_goiffalse: the code goes on exactly when the expression has
      the wanted truth, and leaves through the list otherwise. */
  ghost predicate DecidesIn(fr: Frag, truth: bool, o: Outcome, v: Value, regs0: Regs, n: nat) {
    match o
    case Stuck => false
    case Fall(regs) => Kept(regs, regs0, n, NO_REG) && Truthy(v) == truth
    case Exit(j, regs, via) =>
      && via == HasControl(fr.code, j) && Kept(regs, regs0, n, NO_REG)
      && (if j in (if truth then fr.f else fr.t) then Carries(fr.code, j, regs, v, !truth) else j in fr.j && Truthy(v) == truth)
  }

  ghost predicate Decides(fr: Frag, truth: bool, e: Expr, n: nat) {
    forall env: Env, regs: Regs :: IsFrame(regs) ==>
      DecidesIn(fr, truth, Run(env, fr.code, fr.Opens(), fr.pc0, regs, |fr.code|), Eval(env, e, regs), regs, n)
  }

  // ---- Emitting code behind a fragment -------------------------------------------------------------

  /** luaK_code: the pending jumps are fixed to the new instruction. */
  function Emit(code: Code, j: seq<int>, i: Instr): Code {
    Patched(code, j, |code|, NO_REG, |code|) + [i]
  }

  /** What later code leaves of earlier code: nothing was emitted, or the pending jumps have
      been fixed to its end. */
  predicate Framed(code: Code, j: seq<int>, code2: Code, j2: seq<int>) {
    || (code2 == code && j2 == j)
    || (|code2| > |code| && code2[..|code|] == Patched(code, j, |code|, NO_REG, |code|) && Within(j2, |code|, |code2|))
  }

  function Passed(o: Outcome, j: seq<int>): Outcome {
    if o.Exit? && o.j in j then Fall(o.regs) else o
  }

  /** Once its pending jumps are fixed, a run over a complete fragment falls out of its end. */
  lemma PassRun(env: Env, fr: Frag, code2: Code, open2: seq<int>, regs: Regs)
    requires fr.pc0 <= |fr.code| && Open(fr.code, fr.j) && SealedAt(fr.code, |fr.code|)
    requires |code2| >= |fr.code| && code2[..|fr.code|] == Patched(fr.code, fr.j, |fr.code|, NO_REG, |fr.code|)
    requires Removes(fr.Opens(), fr.j, open2, fr.pc0, |fr.code|)
    requires var o := Run(env, fr.code, fr.Opens(), fr.pc0, regs, |fr.code|); o.Exit? && o.j in fr.j ==> o.via == HasControl(fr.code, o.j)
    ensures Run(env, code2, open2, fr.pc0, regs, |fr.code|) ==
      Passed(Run(env, fr.code, fr.Opens(), fr.pc0, regs, |fr.code|), fr.j)
  {
    var n := |fr.code|;
    var patched := Patched(fr.code, fr.j, n, NO_REG, n);
    PatchRun(env, fr.code, fr.Opens(), fr.j, open2, fr.pc0, regs, n, n, NO_REG, n);
    assert forall p :: 0 <= p < n ==> patched[p] == code2[..n][p] == code2[p];
    assert SealedAt(patched, n);
    RunAgree(env, patched, open2, code2, open2, fr.pc0, regs, n);
  }

  /** What patching the jumps to the end leaves alone. */
  lemma FramedKeeps(code: Code, j: seq<int>, code2: Code, j2: seq<int>)
    requires Framed(code, j, code2, j2) && Open(code, j)
    ensures |code2| >= |code|
    ensures forall p :: 0 <= p < |code| && p !in j && p + 1 !in j ==> code2[p] == code[p]
    ensures forall p :: 0 <= p < |code| ==> code2[p].Tests() == code[p].Tests()
    ensures forall p :: 0 <= p < |code| && p !in j ==> (code2[p].IJmp? <==> code[p].IJmp?)
    ensures forall p :: 0 <= p < |code| && p + 1 !in j ==> code2[p].ITestSet? == code[p].ITestSet?
  {
    if |code2| > |code| {
      assert forall p :: 0 <= p < |code| ==> code2[p] == code2[..|code|][p];
    }
  }
}
