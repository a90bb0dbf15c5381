/** The values, the test opcodes of the virtual machine (lvm.c) that boolean expressions compile
    to, and the meaning of the expressions themselves. */
module CodeVm {

  /** Lua's falsy values, `true', and everything else. */
  datatype Value = Nil | False | True | Other(n: int)

  predicate Truthy(v: Value) { v != Nil && v != False }

  function Bool(b: bool): Value { if b then True else False }

  datatype Rel = Eq | Lt | Le

  /** What does not change while an expression runs: upvalues and the comparison relations. */
  datatype Env = Env(upvals: seq<Value>, rel: iset<(Rel, Value, Value)>)
  {
    function Up(i: int): Value { if 0 <= i < |upvals| then upvals[i] else Nil }

    ghost predicate Holds(op: Rel, v: Value, w: Value) { (op, v, w) in rel }
  }

  // ---- Expressions ---------------------------------------------------------------------------

  datatype Cmp = EQ | NE | LT | LE | GT | GE

  datatype Expr =
    | Local(reg: nat)
    | Upval(idx: nat)
    | Not(e: Expr)
    | And(l: Expr, r: Expr)
    | Or(l: Expr, r: Expr)
    | Compare(op: Cmp, l: Expr, r: Expr)

  ghost predicate Compares(env: Env, op: Cmp, v: Value, w: Value) {
    match op
    case EQ => env.Holds(Eq, v, w)
    case NE => !env.Holds(Eq, v, w)
    case LT => env.Holds(Lt, v, w)
    case LE => env.Holds(Le, v, w)
    case GT => env.Holds(Lt, w, v)
    case GE => env.Holds(Le, w, v)
  }

  /** A register frame; NO_REG is the largest argument A, no real register. */
  const NO_REG := 255

  type Regs = seq<Value>

  predicate IsFrame(regs: Regs) { |regs| == 256 }

  function Reg(regs: Regs, r: int): Value { if 0 <= r < |regs| then regs[r] else Nil }

  /** Lua's short-circuit semantics. */
  ghost function Eval(env: Env, e: Expr, regs: Regs): Value {
    match e
    case Local(r) => Reg(regs, r)
    case Upval(i) => env.Up(i)
    case Not(a) => Bool(!Truthy(Eval(env, a, regs)))
    case And(a, b) => if Truthy(Eval(env, a, regs)) then Eval(env, b, regs) else Eval(env, a, regs)
    case Or(a, b) => if Truthy(Eval(env, a, regs)) then Eval(env, a, regs) else Eval(env, b, regs)
    case Compare(op, a, b) => Bool(Compares(env, op, Eval(env, a, regs), Eval(env, b, regs)))
  }

  predicate LocalsBelow(e: Expr, n: nat) {
    match e
    case Local(r) => r < n
    case Upval(_) => true
    case Not(a) => LocalsBelow(a, n)
    case And(a, b) => LocalsBelow(a, n) && LocalsBelow(b, n)
    case Or(a, b) => LocalsBelow(a, n) && LocalsBelow(b, n)
    case Compare(_, a, b) => LocalsBelow(a, n) && LocalsBelow(b, n)
  }

  /** The registers below `n' are unchanged, `but' one. */
  predicate Kept(regs: Regs, regs0: Regs, n: nat, but: int) {
    |regs| == |regs0| && forall r :: 0 <= r < n && r != but ==> Reg(regs, r) == Reg(regs0, r)
  }

  lemma {:induction false} EvalKept(env: Env, e: Expr, regs: Regs, regs0: Regs, n: nat)
    requires LocalsBelow(e, n) && Kept(regs, regs0, n, NO_REG) && n <= NO_REG
    ensures Eval(env, e, regs) == Eval(env, e, regs0)
  {
    match e
    case Local(_) =>
    case Upval(_) =>
    case Not(a) => EvalKept(env, a, regs, regs0, n);
    case And(a, b) => EvalKept(env, a, regs, regs0, n); EvalKept(env, b, regs, regs0, n);
    case Or(a, b) => EvalKept(env, a, regs, regs0, n); EvalKept(env, b, regs, regs0, n);
    case Compare(_, a, b) => EvalKept(env, a, regs, regs0, n); EvalKept(env, b, regs, regs0, n);
  }

  // ---- Instructions ----------------------------------------------------------------------------

  datatype Instr =
    | IMove(a: nat, b: nat)
    | ILoadBool(a: nat, val: bool, skip: bool)
    | IGetUpval(a: nat, b: nat)
    | INot(a: nat, b: nat)
    | IJmp(sbx: int)
    | ICompare(rel: Rel, cond: bool, rb: nat, rc: nat)
    | ITest(a: nat, cond: bool)
    | ITestSet(a: nat, b: nat, cond: bool)
    | IReturn(a: nat)
  {
    /** testTMode: the next instruction is a jump that belongs to it. */
    predicate Tests() { ICompare? || ITest? || ITestSet? }
  }

  type Code = seq<Instr>

  function Set(regs: Regs, r: int, v: Value): Regs {
    if 0 <= r < |regs| then regs[r := v] else regs
  }

  /** Does a test take the jump behind it? OP_TEST and OP_TESTSET compare `is false' with C. */
  ghost predicate Takes(env: Env, i: Instr, regs: Regs) {
    match i
    case ICompare(op, cond, b, c) => env.Holds(op, Reg(regs, b), Reg(regs, c)) == cond
    case ITest(a, c) => Truthy(Reg(regs, a)) == c
    case ITestSet(_, b, c) => Truthy(Reg(regs, b)) == c
    case _ => false
  }

  /** One turn of the interpreter loop: a test consumes the jump that follows it. */
  ghost function Step(env: Env, code: Code, pc: int, regs: Regs): (int, Regs)
    requires 0 <= pc < |code|
  {
    match code[pc]
    case IMove(a, b) => (pc + 1, Set(regs, a, Reg(regs, b)))
    case ILoadBool(a, v, skip) => (if skip then pc + 2 else pc + 1, Set(regs, a, Bool(v)))
    case IGetUpval(a, b) => (pc + 1, Set(regs, a, env.Up(b)))
    case INot(a, b) => (pc + 1, Set(regs, a, Bool(!Truthy(Reg(regs, b)))))
    case IJmp(s) => (pc + 1 + s, regs)
    case IReturn(_) => (pc, regs)
    case _ =>
      if !Takes(env, code[pc], regs) then (pc + 2, regs)
      else
        var to := if pc + 1 < |code| && code[pc + 1].IJmp? then pc + 2 + code[pc + 1].sbx else -1;
        (to, if code[pc].ITestSet? then Set(regs, code[pc].a, Reg(regs, code[pc].b)) else regs)
  }

  datatype Result = Returned(v: Value) | Lost

  /** Runs forward to a return; boolean expressions never jump back. */
  ghost function Execute(env: Env, code: Code, pc: int, regs: Regs): Result
    decreases |code| - pc
  {
    if !(0 <= pc < |code|) then Lost
    else if code[pc].IReturn? then Returned(Reg(regs, code[pc].a))
    else
      var next := Step(env, code, pc, regs);
      if next.0 <= pc then Lost else Execute(env, code, next.0, next.1)
  }

  // ---- Code under construction -------------------------------------------------------------------

  /** How a run over unfinished code ends: behind the code, at a jump still to be patched (`via'
      says whether a test led to it), or nowhere. */
  datatype Outcome = Fall(regs: Regs) | Exit(j: int, regs: Regs, via: bool) | Stuck

  /** A placeholder TESTSET (A is NO_REG) has no register to set yet. */
  function Assign(regs: Regs, i: Instr): Regs {
    if i.ITestSet? && i.a != NO_REG then Set(regs, i.a, Reg(regs, i.b)) else regs
  }

  datatype Move = Go(to: int, regs: Regs) | Leave(j: int, regs: Regs, via: bool) | Halt

  /** One instruction of unfinished code; a jump in `open' leaves it. */
  ghost function Turn(env: Env, code: Code, open: seq<int>, pc: int, regs: Regs, end: int): Move
    requires 0 <= pc < end <= |code|
  {
    if pc in open then Leave(pc, regs, false)
    else match code[pc]
      case IMove(a, b) => Go(pc + 1, Set(regs, a, Reg(regs, b)))
      case ILoadBool(a, v, skip) => Go(if skip then pc + 2 else pc + 1, Set(regs, a, Bool(v)))
      case IGetUpval(a, b) => Go(pc + 1, Set(regs, a, env.Up(b)))
      case INot(a, b) => Go(pc + 1, Set(regs, a, Bool(!Truthy(Reg(regs, b)))))
      case IJmp(s) => Go(pc + 1 + s, regs)
      case IReturn(_) => Halt
      case _ =>
        if !Takes(env, code[pc], regs) then Go(pc + 2, regs)
        else if pc + 1 in open then Leave(pc + 1, Assign(regs, code[pc]), true)
        else if pc + 1 < end && code[pc + 1].IJmp? then Go(pc + 2 + code[pc + 1].sbx, Assign(regs, code[pc]))
        else Halt
  }

  /** Runs from `pc' to `end'. */
  ghost function Run(env: Env, code: Code, open: seq<int>, pc: int, regs: Regs, end: int): Outcome
    decreases end - pc
  {
    if pc == end then Fall(regs)
    else if !(0 <= pc < end <= |code|) then Stuck
    else match Turn(env, code, open, pc, regs, end)
      case Go(to, regs2) => if to <= pc then Stuck else Run(env, code, open, to, regs2, end)
      case Leave(j, regs2, via) => Exit(j, regs2, via)
      case Halt => Stuck
  }

  /** No test is cut off from its jump. */
  predicate SealedAt(code: Code, end: int) {
    0 < end <= |code| ==> !code[end - 1].Tests()
  }

  /** A run depends only on the code it runs over. */
  lemma {:induction false} RunAgree(env: Env, code: Code, open: seq<int>, code2: Code, open2: seq<int>, pc: int, regs: Regs, end: int)
    requires 0 <= end <= |code| && end <= |code2| && 0 <= pc && SealedAt(code, end)
    requires forall p :: pc <= p < end ==> code[p] == code2[p]
    requires forall p :: pc <= p < end ==> (p in open <==> p in open2)
    ensures Run(env, code, open, pc, regs, end) == Run(env, code2, open2, pc, regs, end)
    decreases end - pc
  {
    if pc < end {
      var t := Turn(env, code, open, pc, regs, end);
      assert t == Turn(env, code2, open2, pc, regs, end);
      if t.Go? && t.to > pc { RunAgree(env, code, open, code2, open2, t.to, t.regs, end); }
    }
  }

  lemma TurnFrame(env: Env, code: Code, open: seq<int>, pc: int, regs: Regs, end: int)
    requires 0 <= pc < end <= |code|
    ensures !Turn(env, code, open, pc, regs, end).Halt? ==> |Turn(env, code, open, pc, regs, end).regs| == |regs|
  {
  }

  /** A run that passes `mid' can be cut there. */
  lemma {:induction false} RunSplit(env: Env, code: Code, open: seq<int>, pc: int, regs: Regs, mid: int, end: int)
    requires 0 <= pc <= mid <= end <= |code|
    requires Run(env, code, open, pc, regs, mid) != Stuck
    ensures var o := Run(env, code, open, pc, regs, mid);
      Run(env, code, open, pc, regs, end) == if o.Fall? then Run(env, code, open, mid, o.regs, end) else o
    decreases mid - pc
  {
    if pc < mid {
      var t := Turn(env, code, open, pc, regs, mid);
      assert t == Turn(env, code, open, pc, regs, end);
      if t.Go? { RunSplit(env, code, open, t.to, t.regs, mid, end); }
    }
  }

  /** The registers of an outcome form a frame again. */
  lemma {:induction false} RunFrame(env: Env, code: Code, open: seq<int>, pc: int, regs: Regs, end: int)
    ensures var o := Run(env, code, open, pc, regs, end); !o.Stuck? ==> |o.regs| == |regs|
    decreases end - pc
  {
    if 0 <= pc < end <= |code| {
      TurnFrame(env, code, open, pc, regs, end);
      var t := Turn(env, code, open, pc, regs, end);
      if t.Go? && t.to > pc { RunFrame(env, code, open, t.to, t.regs, end); }
    }
  }

  /** Placeholders: every TESTSET that has not got its register yet belongs to an open jump. */
  predicate NoStray(code: Code, from: int, open: seq<int>) {
    forall p :: 0 <= from <= p < |code| && code[p].ITestSet? && code[p].a == NO_REG ==> p + 1 in open
  }

  /** On finished code the interpreter does what the run does. */
  lemma {:induction false} ExecuteIsRun(env: Env, code: Code, from: int, pc: int, regs: Regs, end: int)
    requires 0 <= from <= pc <= end <= |code| && NoStray(code, from, []) && Run(env, code, [], pc, regs, end).Fall?
    ensures Execute(env, code, pc, regs) == Execute(env, code, end, Run(env, code, [], pc, regs, end).regs)
    decreases end - pc
  {
    if pc < end {
      var t := Turn(env, code, [], pc, regs, end);
      assert (t.to, t.regs) == Step(env, code, pc, regs);
      ExecuteIsRun(env, code, from, t.to, t.regs, end);
    }
  }

  /** `k' turns of the interpreter loop. */
  ghost function Steps(env: Env, code: Code, pc: int, regs: Regs, k: nat): (int, Regs)
    decreases k
  {
    if k == 0 || !(0 <= pc < |code|) then (pc, regs)
    else
      var next := Step(env, code, pc, regs);
      Steps(env, code, next.0, next.1, k - 1)
  }

  /** On finished code one turn of the run is one turn of the interpreter. */
  lemma TurnStep(env: Env, code: Code, pc: int, regs: Regs, end: int, finished: Code)
    requires 0 <= pc < end <= |code| && end <= |finished| && finished[..end] == code[..end] && SealedAt(code, end)
    requires code[pc].ITestSet? ==> code[pc].a != NO_REG
    requires Turn(env, code, [], pc, regs, end).Go?
    ensures var t := Turn(env, code, [], pc, regs, end); Step(env, finished, pc, regs) == (t.to, t.regs)
  {
    assert finished[pc] == finished[..end][pc] == code[..end][pc];
    if pc + 1 < end { assert finished[pc + 1] == finished[..end][pc + 1] == code[..end][pc + 1]; }
  }
}
