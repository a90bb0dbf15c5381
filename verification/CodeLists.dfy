/** Jump lists threaded through the code (lcode.c:66-206), and what patching them means. */
module CodeLists {
  import opened CodeVm

  const NO_JUMP := -1

  /** getjump */
  function Follow(code: Code, pc: int): int {
    if 0 <= pc < |code| && code[pc].IJmp? && code[pc].sbx != NO_JUMP then pc + 1 + code[pc].sbx else NO_JUMP
  }

  function After(l: seq<int>, i: nat): int { if i + 1 < |l| then l[i + 1] else NO_JUMP }

  /** The list with head `h' visits exactly the jumps `l'. */
  predicate Threads(code: Code, h: int, l: seq<int>) {
    && h == (if l == [] then NO_JUMP else l[0])
    && (forall i :: 0 <= i < |l| ==> 0 <= l[i] < |code| && code[l[i]].IJmp?)
    && (forall i {:trigger Follow(code, l[i])} :: 0 <= i < |l| ==> Follow(code, l[i]) == After(l, i))
    && (forall i, j :: 0 <= i < j < |l| ==> l[i] != l[j])
  }

  /** getjumpcontrol finds a test in front of the jump. */
  predicate HasControl(code: Code, j: int) {
    1 <= j <= |code| && code[j - 1].Tests()
  }

  /** The jump carries the value of its test. */
  predicate Valued(code: Code, j: int) {
    1 <= j <= |code| && code[j - 1].ITestSet?
  }

  /** Open jumps, with placeholders for the registers they will set. */
  predicate Open(code: Code, l: seq<int>) {
    forall j :: j in l ==> 0 <= j < |code| && code[j].IJmp? && (Valued(code, j) ==> code[j - 1].a == NO_REG)
  }

  // ---- Patching ----------------------------------------------------------------------------

  /** patchtestreg: the register is set on the jump, or no value is needed. */
  function Patched1(i: Instr, reg: int): Instr
    requires i.ITestSet? && reg >= 0
  {
    if reg != NO_REG && reg != i.b then ITestSet(reg, i.b, i.cond) else ITest(i.b, i.cond)
  }

  /** patchlistaux, seen from one instruction. */
  function PatchedAt(code: Code, l: seq<int>, p: int, vtarget: int, reg: int, dtarget: int): Instr
    requires 0 <= p < |code| && reg >= 0
  {
    if p in l then IJmp((if Valued(code, p) then vtarget else dtarget) - (p + 1))
    else if p + 1 in l && code[p].ITestSet? then Patched1(code[p], reg)
    else code[p]
  }

  function Patched(code: Code, l: seq<int>, vtarget: int, reg: int, dtarget: int): (r: Code)
    requires reg >= 0
    ensures |r| == |code|
  {
    seq(|code|, p requires 0 <= p < |code| => PatchedAt(code, l, p, vtarget, reg, dtarget))
  }

  /** removevalues */
  function Unvalued(code: Code, l: seq<int>): (r: Code)
    ensures |r| == |code|
  {
    seq(|code|, p requires 0 <= p < |code| =>
      if p + 1 in l && code[p].ITestSet? then Patched1(code[p], NO_REG) else code[p])
  }

  /** Patching another list leaves a jump and the test in front of it alone. */
  lemma PatchedOther(code: Code, l: seq<int>, x: int, vtarget: int, reg: int, dtarget: int)
    requires Open(code, l) && x !in l && 0 <= x < |code| && code[x].IJmp? && reg >= 0
    ensures var code2 := Patched(code, l, vtarget, reg, dtarget);
      && code2[x] == code[x] && HasControl(code2, x) == HasControl(code, x)
      && Valued(code2, x) == Valued(code, x) && (Valued(code, x) ==> code2[x - 1] == code[x - 1])
  {
    var code2 := Patched(code, l, vtarget, reg, dtarget);
    assert code2[x] == PatchedAt(code, l, x, vtarget, reg, dtarget);
    if x >= 1 { assert code2[x - 1] == PatchedAt(code, l, x - 1, vtarget, reg, dtarget); }
    hide Patched;
  }

  lemma UnvaluedJump(code: Code, l: seq<int>, x: int)
    requires 0 <= x < |code| && code[x].IJmp?
    ensures var code2 := Unvalued(code, l);
      && code2[x] == code[x] && HasControl(code2, x) == HasControl(code, x)
      && Valued(code2, x) == (Valued(code, x) && x !in l)
  {
  }

  /** What patching makes of an exit: the value goes to the register, the run goes on at the
      target. */
  ghost function Landed(env: Env, code: Code, o: Outcome, code2: Code, open2: seq<int>, end: int,
                        vtarget: int, reg: int, dtarget: int): Outcome
    requires o.Exit?
  {
    if Valued(code, o.j) then
      Run(env, code2, open2, vtarget, if reg != NO_REG then Set(o.regs, reg, Reg(o.regs, code[o.j - 1].b)) else o.regs, end)
    else Run(env, code2, open2, dtarget, o.regs, end)
  }

  predicate Removes(open: seq<int>, l: seq<int>, open2: seq<int>, from: int, end: int) {
    forall p :: from <= p < end ==> (p in open2 <==> p in open && p !in l)
  }

  /** The instruction at `pc', and the jump a test at `pc' guards. */
  lemma PatchedPair(code: Code, l: seq<int>, pc: int, end: int, vtarget: int, reg: int, dtarget: int)
    requires 0 <= pc < end <= |code| && reg >= 0 && SealedAt(code, end)
    ensures var code2 := Patched(code, l, vtarget, reg, dtarget);
      && code2[pc] == PatchedAt(code, l, pc, vtarget, reg, dtarget)
      && (code[pc].Tests() ==> pc + 1 < end && code2[pc + 1] == PatchedAt(code, l, pc + 1, vtarget, reg, dtarget))
  {
  }

  /** One instruction of the patched code. */
  lemma PatchTurn(env: Env, code: Code, open: seq<int>, l: seq<int>, open2: seq<int>, pc: int, regs: Regs,
                  end: int, vtarget: int, reg: int, dtarget: int)
    requires 0 <= pc < end <= |code| && reg >= 0
    requires Open(code, l) && (forall j :: j in l && pc <= j ==> j in open)
    requires SealedAt(code, end) && Removes(open, l, open2, pc, end)
    ensures var code2 := Patched(code, l, vtarget, reg, dtarget);
      var t := Turn(env, code, open, pc, regs, end);
      if t.Leave? && t.j in l then
        t.via == HasControl(code, t.j) ==>
          Turn(env, code2, open2, pc, regs, end) ==
            if Valued(code, t.j) then Go(vtarget, if reg != NO_REG then Set(t.regs, reg, Reg(t.regs, code[t.j - 1].b)) else t.regs)
            else Go(dtarget, t.regs)
      else Turn(env, code2, open2, pc, regs, end) == t
  {
    PatchedPair(code, l, pc, end, vtarget, reg, dtarget);
    hide Patched, SealedAt;
  }

  /** A run over patched code is a run over the open code, continued where it left through one
      of the patched jumps. */
  lemma {:induction false} PatchRun(env: Env, code: Code, open: seq<int>, l: seq<int>, open2: seq<int>, pc: int, regs: Regs,
                                    end: int, vtarget: int, reg: int, dtarget: int)
    requires 0 <= pc && 0 <= end <= |code| && reg >= 0
    requires Open(code, l) && (forall j :: j in l && pc <= j ==> j in open && j < vtarget && j < dtarget)
    requires SealedAt(code, end) && Removes(open, l, open2, pc, end)
    ensures var code2 := Patched(code, l, vtarget, reg, dtarget);
      var o := Run(env, code, open, pc, regs, end);
      if o.Exit? && o.j in l then
        o.via == HasControl(code, o.j) ==>
          Run(env, code2, open2, pc, regs, end) == Landed(env, code, o, code2, open2, end, vtarget, reg, dtarget)
      else Run(env, code2, open2, pc, regs, end) == o
    decreases end - pc
  {
    if pc < end {
      hide Patched;
      PatchTurn(env, code, open, l, open2, pc, regs, end, vtarget, reg, dtarget);
      var t := Turn(env, code, open, pc, regs, end);
      if t.Go? && t.to > pc {
        PatchRun(env, code, open, l, open2, t.to, t.regs, end, vtarget, reg, dtarget);
      }
    }
  }

  /** Removing values changes no run: a placeholder sets nothing. */
  lemma {:induction false} UnvaluedRun(env: Env, code: Code, open: seq<int>, l: seq<int>, pc: int, regs: Regs, end: int)
    requires 0 <= pc && 0 <= end <= |code| && Open(code, l)
    ensures Run(env, Unvalued(code, l), open, pc, regs, end) == Run(env, code, open, pc, regs, end)
    decreases end - pc
  {
    if pc < end {
      var t := Turn(env, code, open, pc, regs, end);
      assert t == Turn(env, Unvalued(code, l), open, pc, regs, end);
      if t.Go? && t.to > pc { UnvaluedRun(env, code, open, l, t.to, t.regs, end); }
    }
  }

  /** On finished code, with its open list patched to a target, the interpreter gets from `pc'
      to the end where the run falls out, and to the target where the run leaves. */
  lemma {:induction false} PatchedSteps(env: Env, code: Code, open: seq<int>, l: seq<int>, from: int, pc: int, regs: Regs, end: int,
                                        target: int, finished: Code) returns (k: nat)
    requires 0 <= from <= pc <= end <= |code| && end <= |finished| && SealedAt(code, end) && Open(code, l)
    requires (forall j :: j in l && from <= j ==> j in open) && Removes(open, l, [], from, end)
    requires finished[..end] == Patched(code, l, target, NO_REG, target)[..end] && SealedAt(finished, end)
    requires forall p :: from <= p < end && finished[p].ITestSet? ==> finished[p].a != NO_REG
    requires var o := Run(env, code, open, pc, regs, end); o.Fall? || (o.Exit? && o.j in l && o.via == HasControl(code, o.j))
    ensures var o := Run(env, code, open, pc, regs, end);
      Steps(env, finished, pc, regs, k) == (if o.Fall? then end else target, o.regs)
    decreases end - pc
  {
    k := 0;
    if pc < end {
      hide Patched;
      var code2 := Patched(code, l, target, NO_REG, target);
      PatchTurn(env, code, open, l, [], pc, regs, end, target, NO_REG, target);
      var t := Turn(env, code, open, pc, regs, end);
      assert finished[pc] == finished[..end][pc] == code2[..end][pc] == code2[pc];
      PatchedSealed(code, l, target, end);
      TurnStep(env, code2, pc, regs, end, finished);
      if t.Go? {
        k := PatchedSteps(env, code, open, l, from, t.to, t.regs, end, target, finished);
      }
      k := k + 1;
    }
  }

  lemma PatchedSealed(code: Code, l: seq<int>, target: int, end: int)
    requires SealedAt(code, end) && end <= |code|
    ensures SealedAt(Patched(code, l, target, NO_REG, target), end)
  {
  }
}
