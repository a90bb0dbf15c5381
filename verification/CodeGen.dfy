/** The code generator (lcode.c): a function's code, the pending jumps and the register counter,
    updated in place. */
module CodeGen {
  import opened CodeVm
  import opened CodeLists
  import opened CodeMeans
  import opened CodeSteps
  import opened CodeValues
  import opened CodeTests
  import opened CodeLogic
  import opened CodeStore
  import opened CodeFrames

  /** expdesc */
  datatype ExpDesc = ExpDesc(k: Kind, t: int, f: int)

  class FuncState {
    var code: Code
    var jpc: int
    var freereg: nat
    const nactvar: nat
    ghost var pend: seq<int>

    constructor (locals: nat)
      ensures code == [] && jpc == NO_JUMP && pend == [] && freereg == nactvar == locals
    {
      code, jpc, freereg, nactvar, pend := [], NO_JUMP, locals, locals, [];
    }

    /** The pending jumps, threaded through the code. */
    ghost predicate Ready()
      reads this
    {
      Threads(code, jpc, pend) && Begins(code, pend)
    }

    /** luaK_code */
    method EmitCode(i: Instr)
      requires Threads(code, jpc, pend)
      modifies `code, `jpc, `pend
      ensures code == Emit(old(code), old(pend), i) && jpc == NO_JUMP && pend == []
    {
      PatchList(jpc, |code|, NO_REG, |code|, pend);
      code := code + [i];
      jpc := NO_JUMP;
      pend := [];
    }

    /** patchlistaux: walks the list and fixes every jump. */
    method PatchList(list: int, vtarget: int, reg: nat, dtarget: int, ghost l: seq<int>)
      requires Threads(code, list, l)
      modifies `code
      ensures code == Patched(old(code), l, vtarget, reg, dtarget)
    {
      hide Patched;
      var node := list;
      ghost var i := 0;
      PatchNone(code, l[..0], vtarget, reg, dtarget);
      while node != NO_JUMP
        invariant i <= |l| && node == if i < |l| then l[i] else NO_JUMP
        invariant code == Patched(old(code), l[..i], vtarget, reg, dtarget) && |code| == |old(code)|
        decreases |l| - i
      {
        PatchStep(old(code), l, i, vtarget, reg, dtarget);
        var next := Follow(code, node);
        assert next == Follow(old(code), l[i]) == After(l, i);
        PatchOne(node, vtarget, reg, dtarget);
        node := next;
        i := i + 1;
      }
      assert l[..i] == l;
    }

    /** patchtestreg and fixjump on one jump. */
    method PatchOne(node: int, vtarget: int, reg: nat, dtarget: int)
      requires 0 <= node < |code|
      modifies `code
      ensures code ==
        if Valued(old(code), node) then old(code)[node - 1 := Patched1(old(code)[node - 1], reg)][node := IJmp(vtarget - (node + 1))]
        else old(code)[node := IJmp(dtarget - (node + 1))]
    {
      if PatchesTest(code, node) {
        code := code[node - 1 := Patched1(code[node - 1], reg)];
        code := code[node := IJmp(vtarget - (node + 1))];
      } else {
        code := code[node := IJmp(dtarget - (node + 1))];
      }
    }

    /** luaK_concat */
    method Concat(l1: int, l2: int, ghost a: seq<int>, ghost b: seq<int>) returns (r: int)
      requires Threads(code, l1, a) && Threads(code, l2, b) && Disjoint(a, b)
      modifies `code
      ensures code == CodeFrames.Linked(old(code), a, b)
      ensures r == (if a == [] then l2 else l1) && Threads(code, r, a + b)
    {
      LinkedThreads(code, l1, a, l2, b);
      if l2 == NO_JUMP { return l1; }
      if l1 == NO_JUMP { return l2; }
      var list := l1;
      ghost var i := 0;
      var next := Follow(code, list);
      while next != NO_JUMP
        invariant code == old(code)
        invariant i < |a| && list == a[i] && next == Follow(code, list)
        decreases |a| - i
      {
        list := next;
        next := Follow(code, list);
        i := i + 1;
      }
      code := code[list := IJmp(l2 - (list + 1))];
      r := l1;
    }

    /** need_value */
    method NeedValue(list: int, ghost l: seq<int>) returns (r: bool)
      requires Threads(code, list, l)
      ensures r == Needs(code, l)
    {
      var node := list;
      ghost var i := 0;
      while node != NO_JUMP
        invariant i <= |l| && node == if i < |l| then l[i] else NO_JUMP
        invariant forall x :: x in l[..i] ==> Valued(code, x)
        decreases |l| - i
      {
        if !PatchesTest(code, node) {
          assert node in l;
          return true;
        }
        node := Follow(code, node);
        i := i + 1;
      }
      assert l[..i] == l;
      r := false;
    }

    /** removevalues */
    method RemoveValues(list: int, ghost l: seq<int>)
      requires Threads(code, list, l)
      modifies `code
      ensures code == Unvalued(old(code), l)
    {
      var node := list;
      ghost var i := 0;
      assert l[..0] == [];
      assert code == Unvalued(code, []);
      while node != NO_JUMP
        invariant i <= |l| && node == if i < |l| then l[i] else NO_JUMP
        invariant code == Unvalued(old(code), l[..i])
        decreases |l| - i
      {
        UnvalueStep(old(code), l, i);
        if PatchesTest(code, node) {
          code := code[node - 1 := Patched1(code[node - 1], NO_REG)];
        }
        assert code[node] == old(code)[node];
        assert Follow(code, node) == Follow(old(code), l[i]) == After(l, i);
        node := Follow(code, node);
        i := i + 1;
      }
      assert l[..i] == l;
    }

    /** luaK_jump: the pending jumps go on hold behind the new one. */
    method Jump() returns (j: int)
      requires Threads(code, jpc, pend)
      modifies `code, `jpc, `pend
      ensures jpc == NO_JUMP && pend == [] && |code| == |old(code)| + 1
      ensures forall p :: 0 <= p < |old(code)| ==> code[p] == old(code)[p]
      ensures code[|old(code)|].IJmp? && Threads(code, j, [|old(code)|] + old(pend))
      ensures old(pend) == [] ==> code == old(code) + [IJmp(NO_JUMP)] && j == |old(code)|
    {
      var hold := jpc;
      ghost var held := pend;
      jpc := NO_JUMP;
      pend := [];
      var n := |code|;
      assert Patched(code, [], n, NO_REG, n) == code;
      EmitCode(IJmp(NO_JUMP));
      assert code == old(code) + [IJmp(NO_JUMP)];
      assert code[n] == IJmp(NO_JUMP);
      ThreadsStay(old(code), code, hold, held);
      j := Concat(n, hold, [n], held);
    }

    // ---- Expressions under construction ---------------------------------------------------------------

    ghost function Piece(job: Job, tl: seq<int>, fl: seq<int>): Frag
      reads `code, `pend
    {
      Frag(code, |job.code|, tl, fl, pend)
    }

    /** The code generated since the job began means its expression, described by `d'. */
    ghost predicate Holds(job: Job, d: ExpDesc, tl: seq<int>, fl: seq<int>)
      reads `code, `jpc, `pend
    {
      Serves(job, Piece(job, tl, fl), jpc, d)
    }

    /** Only a value in a temporary register occupies one. */
    predicate Registers(job: Job, k: Kind)
      reads `freereg
    {
      && nactvar <= job.n
      && (k.KLocal? ==> k.r < nactvar)
      && if k.KNonreloc? && k.r >= nactvar then k.r == job.n && freereg == job.n + 1 else freereg == job.n
    }

    /** luaK_dischargevars */
    method DischargeVars(d: ExpDesc, ghost job: Job, ghost tl: seq<int>, ghost fl: seq<int>) returns (d2: ExpDesc)
      requires Holds(job, d, tl, fl) && Registers(job, d.k)
      modifies `code, `jpc, `pend
      ensures Holds(job, d2, tl, fl) && Registers(job, d2.k)
      ensures !d2.k.KLocal? && !d2.k.KUpval? && d2.t == d.t && d2.f == d.f
      ensures !d.k.KLocal? && !d.k.KUpval? ==> d2 == d && code == old(code) && pend == old(pend)
    {
      hide Serves;
      d2 := d;
      ServesThreads(job, Piece(job, tl, fl), jpc, d);
      if d.k.KLocal? {
        LocalServes(job, Piece(job, tl, fl), jpc, d);
        d2 := ExpDesc(KNonreloc(d.k.r), d.t, d.f);
      } else if d.k.KUpval? {
        UpvalServes(job, Piece(job, tl, fl), jpc, d);
        EmitCode(IGetUpval(0, d.k.i));
        d2 := ExpDesc(KReloc(|code| - 1), d.t, d.f);
      }
    }

    /** discharge2reg */
    method Discharge2Reg(d: ExpDesc, reg: nat, ghost job: Job, ghost tl: seq<int>, ghost fl: seq<int>) returns (d2: ExpDesc)
      requires Holds(job, d, tl, fl) && reg == job.n && !d.k.KLocal? && !d.k.KUpval?
      modifies `code, `jpc, `pend
      ensures Holds(job, d2, tl, fl) && d2.t == d.t && d2.f == d.f
      ensures if d.k.KJump? then d2 == d else d2.k == KNonreloc(reg)
    {
      hide Serves;
      d2 := d;
      ServesThreads(job, Piece(job, tl, fl), jpc, d);
      if d.k.KReloc? {
        RelocServes(job, Piece(job, tl, fl), jpc, d);
        code := code[d.k.pc := SetA(code[d.k.pc], reg)];
        d2 := ExpDesc(KNonreloc(reg), d.t, d.f);
      } else if d.k.KNonreloc? && d.k.r != reg {
        MoveServes(job, Piece(job, tl, fl), jpc, d);
        EmitCode(IMove(reg, d.k.r));
        d2 := ExpDesc(KNonreloc(reg), d.t, d.f);
      }
    }

    /** A comparison's own jump joins its `true' list. */
    method HangJump(d: ExpDesc, ghost job: Job, ghost tl: seq<int>, ghost fl: seq<int>) returns (t: int)
      requires Holds(job, d, tl, fl) && d.k.KJump?
      modifies `code
      ensures |code| == old(|code|) && Begins(job.code, job.pend) && Framed(job.code, job.pend, code, pend)
      ensures Shape(Piece(job, tl, fl), d.k) && Means(Piece(job, tl, fl), d.k, job.e, job.n, NO_REG)
      ensures Threads(code, t, tl + [d.k.pc]) && Threads(code, d.f, fl) && Threads(code, jpc, pend)
    {
      hide Means;
      ghost var fr := Piece(job, tl, fl);
      LinkedRelinks(code, tl, [d.k.pc], fr.Opens());
      RelinkMeans(fr, d.k, CodeFrames.Linked(code, tl, [d.k.pc]), job.e, job.n, NO_REG);
      LinkKeepsOther(code, tl, [d.k.pc], d.f, fl);
      FramedLinked(job.code, job.pend, fr, d.k, [d.k.pc]);
      t := Concat(d.t, d.k.pc, tl, [d.k.pc]);
    }

    /** The two loads, and for a value in the register the jump over them. */
    method AddLoads(k: Kind, reg: nat, ghost fr: Frag)
      requires fr.code == code && fr.j == pend && Threads(code, jpc, pend) && Begins(code, pend)
      requires k.KNonreloc? || (k.KJump? && pend == [])
      modifies `code, `jpc, `pend
      ensures LoadsOn(fr, k, reg, code) && pend == WithLoads(fr, k, reg).j && Threads(code, jpc, pend)
    {
      if k.KJump? {
        EmitLoads(NO_JUMP, [], reg);
      } else {
        var fj := Jump();
        EmitLoads(fj, [|fr.code|] + fr.j, reg);
      }
      LoadsOnIs(fr, k, reg, code);
    }

    /** The loads of false and true; the jump over them waits for their end. */
    method EmitLoads(fj: int, ghost fjl: seq<int>, reg: nat)
      requires Threads(code, fj, fjl) && jpc == NO_JUMP && pend == []
      modifies `code, `jpc, `pend
      ensures code == old(code) + LoadsFor(reg) && pend == fjl && Threads(code, jpc, pend)
    {
      ghost var mid := code;
      EmitCode(ILoadBool(reg, false, true));
      EmitCode(ILoadBool(reg, true, false));
      assert code == mid + LoadsFor(reg);
      ThreadsStay(mid, code, fj, fjl);
      jpc := Concat(jpc, fj, [], fjl);
      pend := fjl;
    }

    /** The end of exp2reg: both lists are patched, the false list first. */
    method CloseLists(t: int, f: int, reg: nat, p_f: int, p_t: int, ghost fr: Frag)
      requires fr.code == code && fr.j == pend && Shape(fr, KNonreloc(reg)) && reg < NO_REG
      requires Threads(code, t, fr.t) && Threads(code, f, fr.f) && Threads(code, jpc, pend)
      requires Needs(code, fr.f) ==> p_f == |code| - 2
      requires Needs(code, fr.t) ==> p_t == |code| - 1
      modifies `code
      ensures code == Closed(Closed(fr, reg, false), reg, true).code && Threads(code, jpc, pend)
    {
      hide Shape, Patched, Needs;
      var final := |code|;
      ClosedIs(fr, reg, false, p_f);
      ClosedThreads(fr, reg, false, t, jpc);
      PatchList(f, final, reg, p_f, fr.f);
      ghost var fr2 := Closed(fr, reg, false);
      ClosedShape(fr, reg, false);
      NeedsStay(fr, reg);
      ClosedIs(fr2, reg, true, p_t);
      ClosedThreads(fr2, reg, true, NO_JUMP, jpc);
      PatchList(t, final, reg, p_t, fr.t);
    }

    /** exp2reg for an expression with jumps. */
    method StoreJumps(k: Kind, t: int, f: int, reg: nat, ghost job: Job, ghost tl: seq<int>, ghost fl: seq<int>)
      requires Begins(job.code, job.pend) && Framed(job.code, job.pend, code, pend) && reg == job.n < NO_REG
      requires Shape(Piece(job, tl, fl), k) && Means(Piece(job, tl, fl), k, job.e, job.n, NO_REG)
      requires (k == KNonreloc(reg) && (tl != [] || fl != [])) || k.KJump?
      requires Threads(code, t, if k.KJump? then tl + [|code| - 1] else tl) && Threads(code, f, fl) && Threads(code, jpc, pend)
      modifies `code, `jpc, `pend
      ensures Holds(job, ExpDesc(KNonreloc(reg), NO_JUMP, NO_JUMP), [], [])
    {
      hide *;
      ghost var fr := Piece(job, tl, fl);
      PieceIs(job, tl, fl);
      JumpsNeedCode(fr, k);
      var need := NeedValue(t, if k.KJump? then tl + [|code| - 1] else tl);
      if !need {
        need := NeedValue(f, fl);
      }
      if need {
        StoreBooleans(k, t, f, reg, job, fr);
      } else {
        if k.KJump? { JumpNeeds(fr, k); }
        StoreValues(k, t, f, reg, job, fr);
      }
    }

    lemma PieceIs(job: Job, tl: seq<int>, fl: seq<int>)
      ensures Piece(job, tl, fl) == Frag(code, |job.code|, tl, fl, pend)
    {
    }

    lemma HoldsNow(job: Job, d: ExpDesc, c: Frag)
      requires Serves(job, c, jpc, d) && c == Frag(code, |job.code|, [], [], pend)
      ensures Holds(job, d, [], [])
    {
    }

    /** Every jump carries its value: no loads. */
    method StoreValues(k: Kind, t: int, f: int, reg: nat, ghost job: Job, ghost fr: Frag)
      requires fr.code == code && fr.j == pend && fr.pc0 == |job.code|
      requires Begins(job.code, job.pend) && Framed(job.code, job.pend, code, pend) && reg == job.n < NO_REG
      requires Shape(fr, k) && Means(fr, k, job.e, job.n, NO_REG) && k == KNonreloc(reg) && |fr.code| > fr.pc0
      requires !Needs(fr.code, fr.t) && !Needs(fr.code, fr.f)
      requires Threads(code, t, fr.t) && Threads(code, f, fr.f) && Threads(code, jpc, pend)
      modifies `code, `jpc, `pend
      ensures Holds(job, ExpDesc(KNonreloc(reg), NO_JUMP, NO_JUMP), [], [])
    {
      hide Means, Shape, Framed, Loads, Begins, Needs, Closed;
      ButMore(fr, k, job.e, job.n, reg);
      CloseLists(t, f, reg, NO_JUMP, NO_JUMP, fr);
      ClosedAll(fr, reg, job);
    }

    method StoreBooleans(k: Kind, t: int, f: int, reg: nat, ghost job: Job, ghost fr: Frag)
      requires fr.code == code && fr.j == pend && fr.pc0 == |job.code|
      requires Begins(job.code, job.pend) && Framed(job.code, job.pend, code, pend) && reg == job.n < NO_REG
      requires Shape(fr, k) && Means(fr, k, job.e, job.n, NO_REG)
      requires (k == KNonreloc(reg) && |fr.code| > fr.pc0) || k.KJump?
      requires Threads(code, t, if k.KJump? then fr.t + [|code| - 1] else fr.t) && Threads(code, f, fr.f) && Threads(code, jpc, pend)
      modifies `code, `jpc, `pend
      ensures Holds(job, ExpDesc(KNonreloc(reg), NO_JUMP, NO_JUMP), [], [])
    {
      hide *;
      LoadsFacts(fr, k);
      AddLoads(k, reg, fr);
      AfterLoads(fr, k, reg, code, job);
      LoadsFrame(fr, k, reg, code, job, t, f);
      LoadsSize(fr, k, reg, code);
      ghost var fr2 := WithLoads(fr, k, reg).(code := code);
      CloseLists(t, f, reg, |code| - 2, |code| - 1, fr2);
      ClosedAll(fr2, reg, job);
      ClosedServes(Closed(Closed(fr2, reg, false), reg, true), reg, job, jpc);
      HoldsNow(job, ExpDesc(KNonreloc(reg), NO_JUMP, NO_JUMP), Closed(Closed(fr2, reg, false), reg, true));
    }

    /** exp2reg */
    method Exp2Reg(d0: ExpDesc, reg: nat, ghost job: Job, ghost tl: seq<int>, ghost fl: seq<int>) returns (d2: ExpDesc)
      requires Holds(job, d0, tl, fl) && reg == job.n && !d0.k.KLocal? && !d0.k.KUpval?
      modifies `code, `jpc, `pend
      ensures d2 == ExpDesc(KNonreloc(reg), NO_JUMP, NO_JUMP) && Holds(job, d2, [], [])
    {
      hide Means, Shape, Framed;
      var d := Discharge2Reg(d0, reg, job, tl, fl);
      var t := d.t;
      ghost var fr := Piece(job, tl, fl);
      if d.k.KJump? {
        t := HangJump(d, job, tl, fl);
      }
      HasJumps(code, t, d.f, fr, d.k);
      if t != d.f {
        StoreJumps(d.k, t, d.f, reg, job, tl, fl);
      }
      d2 := ExpDesc(KNonreloc(reg), NO_JUMP, NO_JUMP);
    }

    // ---- Registers --------------------------------------------------------------------------------------

    /** freeexp */
    method FreeExp(k: Kind)
      requires k.KNonreloc? && k.r >= nactvar ==> freereg > 0
      modifies `freereg
      ensures freereg == if k.KNonreloc? && k.r >= nactvar then old(freereg) - 1 else old(freereg)
    {
      if k.KNonreloc? && k.r >= nactvar {
        freereg := freereg - 1;
      }
    }

    /** luaK_exp2nextreg */
    method Exp2NextReg(d: ExpDesc, ghost job: Job, ghost tl: seq<int>, ghost fl: seq<int>) returns (d2: ExpDesc)
      requires Holds(job, d, tl, fl) && Registers(job, d.k) && job.n + 1 < MAXSTACK
      modifies this
      ensures d2 == ExpDesc(KNonreloc(job.n), NO_JUMP, NO_JUMP) && Holds(job, d2, [], []) && Registers(job, d2.k)
    {
      hide Holds;
      d2 := DischargeVars(d, job, tl, fl);
      FreeExp(d2.k);
      freereg := freereg + 1;
      d2 := Exp2Reg(d2, freereg - 1, job, tl, fl);
    }

    /** luaK_exp2anyreg */
    method Exp2AnyReg(d: ExpDesc, ghost job: Job, ghost tl: seq<int>, ghost fl: seq<int>) returns (d2: ExpDesc)
      requires Holds(job, d, tl, fl) && Registers(job, d.k) && job.n + 1 < MAXSTACK
      modifies this
      ensures d2.k.KNonreloc? && d2.t == d2.f == NO_JUMP && Holds(job, d2, [], []) && Registers(job, d2.k)
    {
      d2 := DischargeVars(d, job, tl, fl);
      HasJumps(code, d2.t, d2.f, Piece(job, tl, fl), if d2.k.KNonreloc? then d2.k else KNonreloc(0));
      if d2.k.KNonreloc? {
        if d2.t == d2.f { return d2; }
        if d2.k.r >= nactvar {
          d2 := Exp2Reg(d2, d2.k.r, job, tl, fl);
          return d2;
        }
      }
      d2 := Exp2NextReg(d2, job, tl, fl);
    }

    /** discharge2anyreg */
    method Discharge2AnyReg(d: ExpDesc, ghost job: Job, ghost tl: seq<int>, ghost fl: seq<int>) returns (d2: ExpDesc)
      requires Holds(job, d, tl, fl) && Registers(job, d.k) && job.n + 1 < MAXSTACK
      requires d.k.KReloc? || d.k.KNonreloc?
      modifies this
      ensures d2.k.KNonreloc? && d2.t == d.t && d2.f == d.f && Holds(job, d2, tl, fl) && Registers(job, d2.k)
    {
      hide Holds;
      d2 := d;
      if !d.k.KNonreloc? {
        freereg := freereg + 1;
        d2 := Discharge2Reg(d, freereg - 1, job, tl, fl);
      }
    }

    // ---- Conditional jumps ------------------------------------------------------------------------------

    /** condjump */
    method CondJump(i: Instr) returns (j: int)
      requires Threads(code, jpc, pend)
      modifies `code, `jpc, `pend
      ensures code == Emit(old(code), old(pend), i) + [IJmp(NO_JUMP)] && j == |code| - 1 && jpc == NO_JUMP && pend == []
    {
      EmitCode(i);
      j := Jump();
    }

    /** jumponcond: jumps if the value has the truth `cond'. */
    method JumpOnCond(d: ExpDesc, cond: bool, ghost job: Job, ghost tl: seq<int>, ghost fl: seq<int>)
      returns (pc: int, ghost fr: Frag, ghost k: Kind)
      requires Holds(job, d, tl, fl) && Registers(job, d.k) && job.n + 1 < MAXSTACK
      requires d.k.KReloc? || d.k.KNonreloc?
      modifies this
      ensures TestedPiece(job, fr, k, code, d.t, d.f, !cond) && fr.t == tl && fr.f == fl
      ensures pc == |code| - 1 && jpc == NO_JUMP && pend == [] && freereg == job.n
    {
      hide Serves, TestedPiece;
      ServesThreads(job, Piece(job, tl, fl), jpc, d);
      if d.k.KReloc? && code[d.k.pc].INot? {
        var b := code[d.k.pc].b;
        fr, k := Piece(job, tl, fl), d.k;
        NotTests(job, fr, jpc, d, !cond);
        code := code[..|code| - 1];
        pc := CondJump(ITest(b, !cond));
        return;
      }
      var d2 := Discharge2AnyReg(d, job, tl, fl);
      FreeExp(d2.k);
      fr, k := Piece(job, tl, fl), d2.k;
      ServesThreads(job, fr, jpc, d2);
      RegTests(job, fr, jpc, d2, !cond);
      pc := CondJump(ITestSet(NO_REG, d2.k.r, cond));
    }

    /** invertjump */
    method InvertJump(pc: int)
      requires 1 <= pc < |code| && code[pc - 1].ICompare?
      modifies `code
      ensures code == old(code)[pc - 1 := Inverted(old(code)[pc - 1])]
    {
      code := code[pc - 1 := ICompare(code[pc - 1].rel, !code[pc - 1].cond, code[pc - 1].rb, code[pc - 1].rc)];
    }

    /** luaK_goiftrue: goes on if the value is true, leaves through the `false' list otherwise. */
    method GoIfTrue(d0: ExpDesc, ghost job: Job, ghost tl: seq<int>, ghost fl: seq<int>) returns (f: int, ghost l: seq<int>)
      requires Holds(job, d0, tl, fl) && Registers(job, d0.k) && job.n + 1 < MAXSTACK
      modifies this
      ensures Branches(job, Frag(code, |job.code|, [], l, pend), true, jpc, f) && freereg == job.n
    {
      hide Serves, TestedPiece, Branches;
      var d := DischargeVars(d0, job, tl, fl);
      var pc;
      ghost var fr, k;
      if d.k.KJump? {
        ServesThreads(job, Piece(job, tl, fl), jpc, d);
        fr, k := Piece(job, tl, fl), d.k;
        JumpTests(job, fr, jpc, d, true);
        InvertJump(d.k.pc);
        pc := d.k.pc;
      } else {
        pc, fr, k := JumpOnCond(d, false, job, tl, fl);
      }
      f, l := HangBranch(d.f, d.t, pc, true, job, fr, k);
    }

    /** The new jump joins its list; the other list is patched to here. */
    method HangBranch(own: int, other: int, pc: int, ghost truth: bool, ghost job: Job, ghost fr: Frag, ghost k: Kind)
      returns (h: int, ghost l: seq<int>)
      requires TestedPiece(job, fr, k, code, if truth then other else own, if truth then own else other, truth)
      requires pc == |code| - 1 && jpc == NO_JUMP && pend == []
      modifies `code, `jpc, `pend
      ensures Branches(job, if truth then Frag(code, |job.code|, [], l, pend) else Frag(code, |job.code|, l, [], pend), truth, jpc, h)
    {
      hide TestedPiece, Branches;
      BranchNow(job, fr, k, code, if truth then other else own, if truth then own else other, truth);
      l := if truth then fr.f else fr.t;
      h := Concat(own, pc, l, [pc]);
      l := l + [pc];
      pend := if truth then fr.t else fr.f;
      jpc := Concat(jpc, other, [], pend);
    }

    /** luaK_goiffalse */
    method GoIfFalse(d0: ExpDesc, ghost job: Job, ghost tl: seq<int>, ghost fl: seq<int>) returns (t: int, ghost l: seq<int>)
      requires Holds(job, d0, tl, fl) && Registers(job, d0.k) && job.n + 1 < MAXSTACK
      modifies this
      ensures Branches(job, Frag(code, |job.code|, l, [], pend), false, jpc, t) && freereg == job.n
    {
      hide Serves, TestedPiece, Branches;
      var d := DischargeVars(d0, job, tl, fl);
      var pc;
      ghost var fr, k;
      if d.k.KJump? {
        ServesThreads(job, Piece(job, tl, fl), jpc, d);
        fr, k := Piece(job, tl, fl), d.k;
        JumpTests(job, fr, jpc, d, false);
        pc := d.k.pc;
      } else {
        pc, fr, k := JumpOnCond(d, true, job, tl, fl);
      }
      t, l := HangBranch(d.t, d.f, pc, false, job, fr, k);
    }

    // ---- Operators --------------------------------------------------------------------------------------

    /** codenot */
    method CodeNot(d0: ExpDesc, ghost job: Job, ghost tl: seq<int>, ghost fl: seq<int>) returns (d: ExpDesc)
      requires Holds(job, d0, tl, fl) && Registers(job, d0.k) && job.n + 1 < MAXSTACK
      modifies this
      ensures Holds(job.(e := Not(job.e)), d, fl, tl) && Registers(job, d.k)
    {
      hide Serves, Exchanged, Threads;
      d := DischargeVars(d0, job, tl, fl);
      ServesThreads(job, Piece(job, tl, fl), jpc, d);
      if d.k.KJump? {
        JumpNegates(job, Piece(job, tl, fl), jpc, d);
        InvertJump(d.k.pc);
      } else {
        d := Discharge2AnyReg(d, job, tl, fl);
        ServesThreads(job, Piece(job, tl, fl), jpc, d);
        FreeExp(d.k);
        RegNegates(job, Piece(job, tl, fl), jpc, d);
        EmitCode(INot(0, d.k.r));
        d := ExpDesc(KReloc(|code| - 1), d.t, d.f);
      }
      d := ExpDesc(d.k, d.f, d.t);
      ExchangedParts(job, code, pend, jpc, d, tl, fl);
      RemoveValues(d.f, tl);
      RemoveValues(d.t, fl);
    }

    /** codecomp: both operands are in registers; a comparison and its jump. */
    method CodeComp(op: Cmp, d1: ExpDesc, d2: ExpDesc, ghost job: Job, ghost a: Frag, ghost jpc1: int, ghost r: Expr, ghost n2: nat)
      returns (d: ExpDesc)
      requires d1.k.KNonreloc? && d2.k.KNonreloc? && LocalsBelow(r, job.n) && job.n <= n2 < NO_REG && d1.k.r < n2
      requires Serves(job, a, jpc1, d1) && a.t == [] && a.f == []
      requires Holds(Job(a.code, a.j, r, n2), d2, [], []) && Registers(Job(a.code, a.j, r, n2), d2.k)
      requires n2 == (if d1.k.r >= nactvar then job.n + 1 else job.n) && (d1.k.r >= nactvar ==> d1.k.r == job.n)
      requires nactvar <= job.n
      modifies this
      ensures Holds(job.(e := Compare(op, job.e, r)), d, [], []) && Registers(job, d.k) && d.k.KJump?
    {
      hide Serves;
      FreeExp(d2.k);
      FreeExp(d1.k);
      ghost var b := Frag(code, |a.code|, [], [], pend);
      assert Piece(Job(a.code, a.j, r, n2), [], []) == b;
      CompareServes(job, a, jpc1, d1, r, n2, b, jpc, d2, op);
      ServesFacts(job, a, jpc1, d1);
      ServesThreads(Job(a.code, a.j, r, n2), b, jpc, d2);
      var i := if op.GT? || op.GE? then ICompare(RelOf(op), true, d2.k.r, d1.k.r) else ICompare(RelOf(op), !op.NE?, d1.k.r, d2.k.r);
      var pc := CondJump(i);
      d := ExpDesc(KJump(pc), NO_JUMP, NO_JUMP);
    }

    /** luaK_posfix for `and' and `or': the list the first operand left through is appended to
        the second operand's. */
    method Posfix(truth: bool, h: int, d0: ExpDesc, ghost job: Job, ghost a: Frag, ghost jpc1: int, ghost r: Expr,
                  ghost tl: seq<int>, ghost fl: seq<int>) returns (d: ExpDesc)
      requires Branches(job, a, truth, jpc1, h) && LocalsBelow(r, job.n)
      requires Holds(Job(a.code, a.j, r, job.n), d0, tl, fl) && Registers(Job(a.code, a.j, r, job.n), d0.k)
      modifies `code, `jpc, `pend
      ensures Holds(job.(e := Connect(truth, job.e, r)), d, if truth then tl else tl + a.t, if truth then fl + a.f else fl)
      ensures Registers(job, d.k)
    {
      hide Serves, Branches;
      d := DischargeVars(d0, Job(a.code, a.j, r, job.n), tl, fl);
      JoinServes(job, a, truth, jpc1, h, r, Piece(Job(a.code, a.j, r, job.n), tl, fl), jpc, d);
      BranchFacts(job, a, truth, jpc1, h);
      if truth {
        var f := Concat(d.f, h, fl, a.f);
        d := ExpDesc(d.k, d.t, f);
      } else {
        var t := Concat(d.t, h, tl, a.t);
        d := ExpDesc(d.k, t, d.f);
      }
    }

    /** subexpr (lparser.c:828-853): generates code for an expression. */
    method Expression(e: Expr) returns (d: ExpDesc, ghost tl: seq<int>, ghost fl: seq<int>)
      requires Ready() && nactvar <= freereg && LocalsBelow(e, nactvar) && freereg + Need(e) < MAXSTACK
      modifies this
      ensures Holds(Job(old(code), old(pend), e, old(freereg)), d, tl, fl)
      ensures Registers(Job(old(code), old(pend), e, old(freereg)), d.k)
      decreases e
    {
      hide Serves, Branches;
      ghost var job := Job(code, pend, e, freereg);
      match e
      case Local(r) =>
        d, tl, fl := ExpDesc(KLocal(r), NO_JUMP, NO_JUMP), [], [];
        VariableServes(job, jpc);
      case Upval(i) =>
        d, tl, fl := ExpDesc(KUpval(i), NO_JUMP, NO_JUMP), [], [];
        VariableServes(job, jpc);
      case Not(a) =>
        d, tl, fl := Expression(a);
        d := CodeNot(d, job.(e := a), tl, fl);
        tl, fl := fl, tl;
      case And(l, r) =>
        d, tl, fl := Logical(true, l, r);
      case Or(l, r) =>
        d, tl, fl := Logical(false, l, r);
      case Compare(op, l, r) =>
        d, tl, fl := Comparison(op, l, r);
    }

    method Logical(truth: bool, l: Expr, r: Expr) returns (d: ExpDesc, ghost tl: seq<int>, ghost fl: seq<int>)
      requires Ready() && nactvar <= freereg && LocalsBelow(l, nactvar) && LocalsBelow(r, nactvar)
      requires freereg + Need(l) < MAXSTACK && freereg + Need(r) < MAXSTACK
      modifies this
      ensures Holds(Job(old(code), old(pend), Connect(truth, l, r), old(freereg)), d, tl, fl)
      ensures Registers(Job(old(code), old(pend), Connect(truth, l, r), old(freereg)), d.k)
      decreases Connect(truth, l, r), 0
    {
      hide Serves, Branches;
      ghost var job := Job(code, pend, l, freereg);
      d, tl, fl := Expression(l);
      var h;
      ghost var open;
      if truth {
        h, open := GoIfTrue(d, job, tl, fl);
      } else {
        h, open := GoIfFalse(d, job, tl, fl);
      }
      ghost var a := if truth then Frag(code, |job.code|, [], open, pend) else Frag(code, |job.code|, open, [], pend);
      ghost var jpc1 := jpc;
      BranchReady(job, a, truth, jpc, h);
      LocalsMore(r, nactvar, freereg);
      d, tl, fl := Expression(r);
      d := Posfix(truth, h, d, job, a, jpc1, r, tl, fl);
      tl, fl := if truth then tl else tl + open, if truth then fl + open else fl;
    }

    method Comparison(op: Cmp, l: Expr, r: Expr) returns (d: ExpDesc, ghost tl: seq<int>, ghost fl: seq<int>)
      requires Ready() && nactvar <= freereg && LocalsBelow(l, nactvar) && LocalsBelow(r, nactvar)
      requires freereg + Need(l) < MAXSTACK && freereg + 1 + Need(r) < MAXSTACK
      modifies this
      ensures Holds(Job(old(code), old(pend), Compare(op, l, r), old(freereg)), d, tl, fl)
      ensures Registers(Job(old(code), old(pend), Compare(op, l, r), old(freereg)), d.k)
      decreases Compare(op, l, r), 0
    {
      hide Serves;
      ghost var job := Job(code, pend, l, freereg);
      d, tl, fl := Expression(l);
      var d1 := Exp2AnyReg(d, job, tl, fl);
      ghost var a := Piece(job, [], []);
      ghost var jpc1 := jpc;
      ghost var n2 := freereg;
      PieceReady(job, a, jpc, d1);
      d, tl, fl := Expression(r);
      var d2 := Exp2AnyReg(d, Job(a.code, a.j, r, n2), tl, fl);
      LocalsMore(r, nactvar, job.n);
      d := CodeComp(op, d1, d2, job, a, jpc1, r, n2);
      tl, fl := [], [];
    }

    // ---- Whole statements ----------------------------------------------------------------------------------

    /** `return e': the interpreter, started where the code began, returns the value of the
        expression, whatever is in the registers and however comparisons come out. */
    method ReturnStatement(e: Expr)
      requires Ready() && nactvar <= freereg && LocalsBelow(e, nactvar) && freereg + Need(e) < MAXSTACK
      modifies this
      ensures forall env: Env, regs: Regs :: IsFrame(regs) ==>
        Execute(env, code, old(|code|), regs) == Returned(Eval(env, e, regs))
    {
      hide Serves;
      ghost var job := Job(code, pend, e, freereg);
      var d;
      ghost var tl, fl;
      d, tl, fl := Expression(e);
      d := Exp2AnyReg(d, job, tl, fl);
      ServesThreads(job, Piece(job, [], []), jpc, d);
      ServesFacts(job, Piece(job, [], []), jpc, d);
      ReturnMeans(Piece(job, [], []), d.k.r, e, job.n);
      EmitCode(IReturn(d.k.r));
    }

    /** The condition of an `if': the code behind is reached exactly when the expression is
        true, the `false' list is taken exactly when it is false. */
    method Condition(e: Expr) returns (f: int, ghost l: seq<int>)
      requires Ready() && nactvar <= freereg && LocalsBelow(e, nactvar) && freereg + Need(e) < MAXSTACK
      modifies this
      ensures Branches(Job(old(code), old(pend), e, old(freereg)), Frag(code, old(|code|), [], l, pend), true, jpc, f)
      ensures freereg == old(freereg)
    {
      hide Serves, Branches;
      ghost var job := Job(code, pend, e, freereg);
      var d;
      ghost var tl, fl;
      d, tl, fl := Expression(e);
      f, l := GoIfTrue(d, job, tl, fl);
    }
  }

  /** Registers an expression takes at most. */
  function Need(e: Expr): (n: nat)
    ensures n >= 1
  {
    match e
    case Local(_) => 1
    case Upval(_) => 1
    case Not(a) => Need(a)
    case And(a, b) => if Need(a) > Need(b) then Need(a) else Need(b)
    case Or(a, b) => if Need(a) > Need(b) then Need(a) else Need(b)
    case Compare(_, a, b) => if Need(a) > Need(b) + 1 then Need(a) else Need(b) + 1
  }

  /** MAXSTACK (lcode.c); luaK_checkstack reports an error instead of reaching it. */
  const MAXSTACK := 250

  /** An expression under compilation: the code and pending jumps it began with, and the first
      register it may use. */
  datatype Job = Job(code: Code, pend: seq<int>, e: Expr, n: nat)

  /** A piece of code means the job's expression, and all its lists are threaded. */
  ghost predicate Serves(job: Job, fr: Frag, jpc: int, d: ExpDesc) {
    && fr.pc0 == |job.code| && job.n < NO_REG
    && Begins(job.code, job.pend) && Framed(job.code, job.pend, fr.code, fr.j)
    && Shape(fr, d.k) && Means(fr, d.k, job.e, job.n, NO_REG)
    && Threads(fr.code, d.t, fr.t) && Threads(fr.code, d.f, fr.f) && Threads(fr.code, jpc, fr.j)
  }

  lemma ServesThreads(job: Job, fr: Frag, jpc: int, d: ExpDesc)
    requires Serves(job, fr, jpc, d)
    ensures Threads(fr.code, d.t, fr.t) && Threads(fr.code, d.f, fr.f) && Threads(fr.code, jpc, fr.j)
    ensures job.n < NO_REG && (d.k.KReloc? ==> d.k.pc == |fr.code| - 1 && fr.j == [])
    ensures d.k.KJump? ==> d.k.pc == |fr.code| - 1 && fr.j == []
  {
  }

  lemma LocalServes(job: Job, fr: Frag, jpc: int, d: ExpDesc)
    requires Serves(job, fr, jpc, d) && d.k.KLocal? && d.k.r < NO_REG
    ensures Serves(job, fr, jpc, ExpDesc(KNonreloc(d.k.r), d.t, d.f))
  {
    hide Means, Shape, Framed;
    LocalNonreloc(fr, d.k.r, job.e, job.n);
  }

  lemma UpvalServes(job: Job, fr: Frag, jpc: int, d: ExpDesc)
    requires Serves(job, fr, jpc, d) && d.k.KUpval?
    ensures Serves(job, Frag(Emit(fr.code, fr.j, IGetUpval(0, d.k.i)), fr.pc0, fr.t, fr.f, []), NO_JUMP, ExpDesc(KReloc(|fr.code|), d.t, d.f))
  {
    UpvalEmpty(job, fr, jpc, d);
    hide Means, Shape, Framed, Emit;
    UpvalReloc(fr, d.k.i, job.e, job.n);
    EmitFrames(job.code, job.pend, fr, d.k, IGetUpval(0, d.k.i));
    EmitLists(fr, d.k, IGetUpval(0, d.k.i), d.t, d.f);
  }

  lemma UpvalEmpty(job: Job, fr: Frag, jpc: int, d: ExpDesc)
    requires Serves(job, fr, jpc, d) && d.k.KUpval?
    ensures fr.t == [] && fr.f == [] && Stop(fr.code, d.k) == |fr.code|
  {
    NothingOpen(fr, d.k);
  }

  lemma RelocServes(job: Job, fr: Frag, jpc: int, d: ExpDesc)
    requires Serves(job, fr, jpc, d) && d.k.KReloc?
    ensures d.k.pc == |fr.code| - 1
    ensures Serves(job, Frag(fr.code[d.k.pc := SetA(fr.code[d.k.pc], job.n)], fr.pc0, fr.t, fr.f, fr.j), jpc, ExpDesc(KNonreloc(job.n), d.t, d.f))
  {
    ServesThreads(job, fr, jpc, d);
    var fr2 := Relocated(fr, job.n);
    assert fr2 == Frag(fr.code[d.k.pc := SetA(fr.code[d.k.pc], job.n)], fr.pc0, fr.t, fr.f, fr.j);
    WithinPiece(fr, d.k);
    hide Means, Shape;
    RelocMeans(fr, d.k.pc, job.n, job.e, job.n);
    ButNothing(fr2, KNonreloc(job.n), job.e, job.n, job.n);
    FramedSame(job.code, job.pend, fr.code, fr.j, fr2.code, fr.j);
    ListsUnmoved(fr, d.k, fr2.code, d.t, d.f);
  }

  lemma MoveServes(job: Job, fr: Frag, jpc: int, d: ExpDesc)
    requires Serves(job, fr, jpc, d) && d.k.KNonreloc?
    ensures Serves(job, Frag(Emit(fr.code, fr.j, IMove(job.n, d.k.r)), fr.pc0, fr.t, fr.f, []), NO_JUMP, ExpDesc(KNonreloc(job.n), d.t, d.f))
  {
    hide Means, Shape, Framed, Emit;
    MoveMeans(fr, d.k.r, job.n, job.e, job.n);
    ButNothing(Moved(fr, d.k.r, job.n), KNonreloc(job.n), job.e, job.n, job.n);
    EmitFrames(job.code, job.pend, fr, d.k, IMove(job.n, d.k.r));
    EmitLists(fr, d.k, IMove(job.n, d.k.r), d.t, d.f);
  }

  lemma ServesFacts(job: Job, fr: Frag, jpc: int, d: ExpDesc)
    requires Serves(job, fr, jpc, d)
    ensures fr.pc0 == |job.code| && job.n < NO_REG && Begins(job.code, job.pend) && Framed(job.code, job.pend, fr.code, fr.j)
    ensures Shape(fr, d.k) && Means(fr, d.k, job.e, job.n, NO_REG)
  {
  }

  lemma ServesNow(job: Job, fr: Frag, jpc: int, d: ExpDesc)
    requires fr.pc0 == |job.code| && job.n < NO_REG && Begins(job.code, job.pend) && Framed(job.code, job.pend, fr.code, fr.j)
    requires Shape(fr, d.k) && Means(fr, d.k, job.e, job.n, NO_REG)
    requires Threads(fr.code, d.t, fr.t) && Threads(fr.code, d.f, fr.f) && Threads(fr.code, jpc, fr.j)
    ensures Serves(job, fr, jpc, d)
  {
  }

  // ---- Tests -----------------------------------------------------------------------------------------------

  /** The code ends with a test of the piece's value and its jump. */
  ghost predicate TestedPiece(job: Job, fr: Frag, k: Kind, code2: Code, t: int, f: int, truth: bool) {
    && fr.pc0 == |job.code| && job.n < NO_REG
    && Begins(job.code, job.pend) && Framed(job.code, job.pend, code2, [])
    && Shape(fr, k) && Means(fr, k, job.e, job.n, NO_REG)
    && Testable(fr.code, k) && EndsWith(fr, k, code2, TestFor(fr.code, k, truth))
    && Threads(code2, t, fr.t) && Threads(code2, f, fr.f)
  }

  lemma JumpTests(job: Job, fr: Frag, jpc: int, d: ExpDesc, truth: bool)
    requires Serves(job, fr, jpc, d) && d.k.KJump?
    ensures 1 <= d.k.pc == |fr.code| - 1 && fr.code[d.k.pc - 1].ICompare? && jpc == NO_JUMP && fr.j == []
    ensures var code2 := if truth then fr.code[d.k.pc - 1 := Inverted(fr.code[d.k.pc - 1])] else fr.code;
      TestedPiece(job, fr, d.k, code2, d.t, d.f, truth)
  {
    WithinPiece(fr, d.k);
    JumpEnds(fr, d.k, truth);
    assert fr.j == [] && Threads(fr.code, jpc, fr.j) && Framed(job.code, job.pend, fr.code, fr.j) && |job.code| == fr.pc0;
    hide Means, EndsWith, Shape, Framed, Begins, TestFor, Testable;
    var code2 := if truth then fr.code[d.k.pc - 1 := Inverted(fr.code[d.k.pc - 1])] else fr.code;
    FramedSame(job.code, job.pend, fr.code, fr.j, code2, []);
    ListsUnmoved(fr, d.k, code2, d.t, d.f);
  }

  lemma JumpEnds(fr: Frag, k: Kind, truth: bool)
    requires Shape(fr, k) && k.KJump?
    ensures 1 <= k.pc == |fr.code| - 1 && fr.code[k.pc - 1].ICompare? && fr.j == [] && Testable(fr.code, k)
    ensures var code2 := if truth then fr.code[k.pc - 1 := Inverted(fr.code[k.pc - 1])] else fr.code;
      EndsWith(fr, k, code2, TestFor(fr.code, k, truth))
  {
    hide Open, NoStray, Disjoint, Within;
  }

  lemma NotTests(job: Job, fr: Frag, jpc: int, d: ExpDesc, truth: bool)
    requires Serves(job, fr, jpc, d) && d.k.KReloc? && d.k.pc < |fr.code| && fr.code[d.k.pc].INot?
    ensures |fr.code| >= 1 && jpc == NO_JUMP && fr.j == []
    ensures TestedPiece(job, fr, d.k, Emit(fr.code[..|fr.code| - 1], fr.j, ITest(fr.code[d.k.pc].b, truth)) + [IJmp(NO_JUMP)], d.t, d.f, truth)
  {
    var m := |fr.code| - 1;
    var code2 := Emit(fr.code[..m], fr.j, ITest(fr.code[d.k.pc].b, truth)) + [IJmp(NO_JUMP)];
    WithinPiece(fr, d.k);
    assert forall p :: 0 <= p < m ==> code2[p] == fr.code[p];
    assert code2[..m] == Patched(fr.code, fr.j, m, NO_REG, m)[..m];
    assert EndsWith(fr, d.k, code2, TestFor(fr.code, d.k, truth));
    hide Means, EndsWith;
    NotFrames(job, fr, d, code2);
    ThreadsBelow(fr.code, code2, d.t, fr.t, m);
    ThreadsBelow(fr.code, code2, d.f, fr.f, m);
  }

  lemma NotFrames(job: Job, fr: Frag, d: ExpDesc, code2: Code)
    requires Framed(job.code, job.pend, fr.code, fr.j) && |job.code| < |fr.code| < |code2|
    requires forall p :: 0 <= p < |fr.code| - 1 ==> code2[p] == fr.code[p]
    ensures Framed(job.code, job.pend, code2, [])
  {
    FramedSame(job.code, job.pend, fr.code, fr.j, code2, []);
  }

  lemma ThreadsBelow(code: Code, code2: Code, h: int, l: seq<int>, m: int)
    requires Threads(code, h, l) && Within(l, 0, m) && m <= |code| && m <= |code2|
    requires forall p :: 0 <= p < m ==> code2[p] == code[p]
    ensures Threads(code2, h, l)
  {
    ThreadsStay(code, code2, h, l);
  }

  lemma RegTests(job: Job, fr: Frag, jpc: int, d: ExpDesc, truth: bool)
    requires Serves(job, fr, jpc, d) && d.k.KNonreloc?
    ensures TestedPiece(job, fr, d.k, Emit(fr.code, fr.j, ITestSet(NO_REG, d.k.r, !truth)) + [IJmp(NO_JUMP)], d.t, d.f, truth)
  {
    var i := ITestSet(NO_REG, d.k.r, !truth);
    var code1 := Emit(fr.code, fr.j, i);
    var code2 := code1 + [IJmp(NO_JUMP)];
    EmitExtends(fr, d.k, i);
    assert code2[..|fr.code|] == code1[..|fr.code|];
    assert code2[|fr.code|] == i;
    assert EndsWith(fr, d.k, code2, TestFor(fr.code, d.k, truth));
    EmitLists(fr, d.k, i, d.t, d.f);
    EmitFrames(job.code, job.pend, fr, d.k, i);
    hide Means, EndsWith, Emit, Shape, Extends;
    ThreadsStays(code1, code2, d.t, fr.t);
    ThreadsStays(code1, code2, d.f, fr.f);
    FramedLonger(job.code, job.pend, code1, [IJmp(NO_JUMP)]);
  }

  lemma FramedLonger(code: Code, j: seq<int>, code1: Code, more: Code)
    requires Framed(code, j, code1, []) && |code1| > |code|
    ensures Framed(code, j, code1 + more, [])
  {
    FramedSame(code, j, code1, [], code1 + more, []);
  }

  /** luaK_goiftrue and luaK_goiffalse have been here: one list leaves, the other waits. */
  ghost predicate Branches(job: Job, fr: Frag, truth: bool, jpc: int, h: int) {
    && fr.pc0 == |job.code| < |fr.code| && job.n < NO_REG
    && Begins(job.code, job.pend) && Framed(job.code, job.pend, fr.code, fr.j)
    && Shape(fr, KNonreloc(0)) && Decides(fr, truth, job.e, job.n)
    && (if truth then fr.t == [] && Threads(fr.code, h, fr.f) else fr.f == [] && Threads(fr.code, h, fr.t))
    && Threads(fr.code, jpc, fr.j)
  }

  /** Finished code with the condition in it: the interpreter reaches the code behind it exactly
      when the expression is true, and otherwise the target its `false' list was patched to
      (luaK_patchtohere, or luaK_patchlist to any place), and keeps the registers in use. */
  lemma ConditionDecides(job: Job, fr: Frag, jpc: int, h: int, finished: Code, target: int, env: Env, regs: Regs)
    requires Branches(job, fr, true, jpc, h) && IsFrame(regs)
    requires |finished| >= |fr.code|
    requires finished[..|fr.code|] == Patched(Patched(fr.code, fr.j, |fr.code|, NO_REG, |fr.code|), fr.f, target, NO_REG, target)
    ensures exists k: nat, regs2: Regs ::
      && Steps(env, finished, |job.code|, regs, k) == (if Truthy(Eval(env, job.e, regs)) then |fr.code| else target, regs2)
      && Kept(regs2, regs, job.n, NO_REG)
  {
    var m := |fr.code|;
    var code1 := Patched(fr.code, fr.j, m, NO_REG, m);
    var o := Run(env, fr.code, fr.Opens(), fr.pc0, regs, m);
    assert DecidesIn(fr, true, o, Eval(env, job.e, regs), regs, job.n);
    DecidedPass(fr, env, regs);
    DecidedCode(fr, finished, target);
    var k := PatchedSteps(env, code1, fr.f, fr.f, fr.pc0, fr.pc0, regs, m, target, finished);
    hide Shape, Run, Steps, Patched;
  }

  /** With the pending jumps fixed, the run falls out behind the code or leaves by the list. */
  lemma DecidedPass(fr: Frag, env: Env, regs: Regs)
    requires Shape(fr, KNonreloc(0)) && fr.t == []
    requires var o := Run(env, fr.code, fr.Opens(), fr.pc0, regs, |fr.code|);
      o.Exit? ==> o.via == HasControl(fr.code, o.j)
    ensures Run(env, Patched(fr.code, fr.j, |fr.code|, NO_REG, |fr.code|), fr.f, fr.pc0, regs, |fr.code|)
      == Passed(Run(env, fr.code, fr.Opens(), fr.pc0, regs, |fr.code|), fr.j)
  {
    var m := |fr.code|;
    var code1 := Patched(fr.code, fr.j, m, NO_REG, m);
    assert code1[..m] == code1;
    hide Patched, Run;
    PassRun(env, fr, code1, fr.f, regs);
  }

  lemma DecidedCode(fr: Frag, finished: Code, target: int)
    requires Shape(fr, KNonreloc(0)) && fr.t == [] && |finished| >= |fr.code|
    requires finished[..|fr.code|] == Patched(Patched(fr.code, fr.j, |fr.code|, NO_REG, |fr.code|), fr.f, target, NO_REG, target)
    ensures var m := |fr.code|; var code1 := Patched(fr.code, fr.j, m, NO_REG, m);
      && Open(code1, fr.f) && SealedAt(code1, m) && SealedAt(finished, m)
      && (forall x :: x in fr.f ==> HasControl(code1, x) == HasControl(fr.code, x))
      && (forall p :: fr.pc0 <= p < m && finished[p].ITestSet? ==> finished[p].a != NO_REG)
  {
    var m := |fr.code|;
    var code1 := Patched(fr.code, fr.j, m, NO_REG, m);
    var code2 := Patched(code1, fr.f, target, NO_REG, target);
    hide Patched;
    forall x | x in fr.f ensures 0 <= x < m && code1[x].IJmp? && HasControl(code1, x) == HasControl(fr.code, x)
      && (Valued(code1, x) ==> code1[x - 1].a == NO_REG)
    {
      PatchedOther(fr.code, fr.j, x, m, NO_REG, m);
    }
    PatchedSealed(fr.code, fr.j, m, m);
    PatchedSealed(code1, fr.f, target, m);
    if m > 0 { assert finished[m - 1] == finished[..m][m - 1] == code2[m - 1]; }
    forall p | fr.pc0 <= p < m && finished[p].ITestSet? ensures finished[p].a != NO_REG {
      assert finished[p] == finished[..m][p] == code2[p];
      PatchedStill(fr.code, fr.j, m, p);
      PatchedStill(code1, fr.f, target, p);
    }
  }

  /** A TESTSET that is still there after patching was not one of the list's. */
  lemma PatchedStill(code: Code, l: seq<int>, target: int, p: int)
    requires 0 <= p < |code|
    ensures var c := Patched(code, l, target, NO_REG, target)[p]; c.ITestSet? ==> c == code[p] && p + 1 !in l
  {
  }

  /** The last jump joins its list, the other list waits for the end of the code. */
  lemma BranchNow(job: Job, fr: Frag, k: Kind, code2: Code, t: int, f: int, truth: bool)
    requires TestedPiece(job, fr, k, code2, t, f, truth)
    ensures fr.pc0 == |job.code| && |code2| >= 2 && Threads(code2, |code2| - 1, [|code2| - 1])
    ensures Threads(code2, t, fr.t) && Threads(code2, f, fr.f)
    ensures Disjoint(if truth then fr.f else fr.t, [|code2| - 1])
    ensures var l := if truth then fr.f else fr.t; var code3 := CodeFrames.Linked(code2, l, [|code2| - 1]);
      && Threads(code3, if truth then t else f, if truth then fr.t else fr.f)
      && Branches(job, Decided(fr, code2, truth).(code := code3), truth, if truth then t else f,
           if l == [] then |code2| - 1 else if truth then f else t)
  {
    var pc := |code2| - 1;
    var l := if truth then fr.f else fr.t;
    var o := if truth then fr.t else fr.f;
    TestedFacts(job, fr, k, code2, t, f, truth);
    hide TestedPiece, Shape, EndsWith, Judges, Means, Decides, Framed;
    LinkedThreads(code2, if truth then f else t, l, pc, [pc]);
    LinkKeepsOther(code2, l, [pc], if truth then t else f, o);
    BranchMeans(job, fr, k, code2, t, f, truth);
  }

  lemma TestedFacts(job: Job, fr: Frag, k: Kind, code2: Code, t: int, f: int, truth: bool)
    requires TestedPiece(job, fr, k, code2, t, f, truth)
    ensures |code2| >= 2 && Threads(code2, |code2| - 1, [|code2| - 1])
    ensures Threads(code2, t, fr.t) && Threads(code2, f, fr.f)
    ensures Disjoint(fr.f, [|code2| - 1]) && Disjoint(fr.t, [|code2| - 1]) && Disjoint(fr.t, fr.f) && Disjoint(fr.f, fr.t)
    ensures Begins(job.code, job.pend) && job.n < NO_REG && fr.pc0 == |job.code| < |code2|
  {
  }

  lemma BranchMeans(job: Job, fr: Frag, k: Kind, code2: Code, t: int, f: int, truth: bool)
    requires TestedPiece(job, fr, k, code2, t, f, truth)
    ensures var l := if truth then fr.f else fr.t; var code3 := CodeFrames.Linked(code2, l, [|code2| - 1]);
      var fr2 := Decided(fr, code2, truth).(code := code3);
      Shape(fr2, KNonreloc(0)) && Decides(fr2, truth, job.e, job.n) && Framed(job.code, job.pend, code3, fr2.j)
  {
    var test := TestFor(fr.code, k, truth);
    var l := if truth then fr.f else fr.t;
    var code3 := CodeFrames.Linked(code2, l, [|code2| - 1]);
    TestJudges(fr, k, truth);
    WithinPiece(fr, k);
    hide Shape, EndsWith, Judges, Means, Decides, Framed;
    DecidedShape(fr, k, code2, test, truth);
    DecidesMeans(fr, k, code2, test, truth, job.e, job.n);
    BranchRelinks(fr, code2, truth);
    RelinkMeans(Decided(fr, code2, truth), KNonreloc(0), code3, job.e, job.n, NO_REG);
    RelinkDecides(Decided(fr, code2, truth), truth, code3, job.e, job.n);
    BranchFrames(job, fr, k, code2, truth);
  }

  lemma BranchRelinks(fr: Frag, code2: Code, truth: bool)
    requires Open(code2, Decided(fr, code2, truth).t) && Open(code2, Decided(fr, code2, truth).f)
    ensures Relinked(code2, CodeFrames.Linked(code2, if truth then fr.f else fr.t, [|code2| - 1]), Decided(fr, code2, truth).Opens())
  {
    var l := if truth then fr.f else fr.t;
    var o := if truth then Decided(fr, code2, truth).f else Decided(fr, code2, truth).t;
    assert forall x :: x in l ==> x in o;
    LinkedRelinks(code2, l, [|code2| - 1], Decided(fr, code2, truth).Opens());
  }

  lemma BranchFrames(job: Job, fr: Frag, k: Kind, code2: Code, truth: bool)
    requires fr.pc0 == |job.code| && Framed(job.code, job.pend, code2, [])
    requires Within(fr.t, fr.pc0, |code2|) && Within(fr.f, fr.pc0, |code2|) && |code2| > fr.pc0
    ensures Framed(job.code, job.pend, CodeFrames.Linked(code2, if truth then fr.f else fr.t, [|code2| - 1]), Decided(fr, code2, truth).j)
  {
    LinkedBehind(job.code, job.pend, code2, [], if truth then fr.f else fr.t, [|code2| - 1]);
    var code3 := CodeFrames.Linked(code2, if truth then fr.f else fr.t, [|code2| - 1]);
    FramedSame(job.code, job.pend, code3, [], code3, Decided(fr, code2, truth).j);
  }

  // ---- Operators ---------------------------------------------------------------------------------------------

  lemma UnvaluedThreads(code: Code, l: seq<int>, h: int, l2: seq<int>)
    requires Threads(code, h, l2)
    ensures Threads(Unvalued(code, l), h, l2)
  {
    ThreadsStay(code, Unvalued(code, l), h, l2);
  }

  lemma SwapThreads(code: Code, fr: Frag, t: int, f: int)
    requires Threads(code, t, fr.t) && Threads(code, f, fr.f)
    ensures Threads(Unvalued(code, fr.t), f, fr.f) && Threads(Unvalued(code, fr.t), t, fr.t)
    ensures Threads(Unvalued(Unvalued(code, fr.t), fr.f), f, fr.f) && Threads(Unvalued(Unvalued(code, fr.t), fr.f), t, fr.t)
  {
    UnvaluedThreads(code, fr.t, t, fr.t);
    UnvaluedThreads(code, fr.t, f, fr.f);
    UnvaluedThreads(Unvalued(code, fr.t), fr.f, t, fr.t);
    UnvaluedThreads(Unvalued(code, fr.t), fr.f, f, fr.f);
  }

  /** The code below a frame is not touched by dropping values. */
  lemma UnvaluedFrames(job: Job, code2: Code, fr: Frag)
    requires Framed(job.code, job.pend, code2, []) && |code2| > |job.code|
    requires Within(fr.t, |job.code|, |code2|) && Within(fr.f, |job.code|, |code2|) && SealedAt(code2, |job.code|)
    ensures Framed(job.code, job.pend, Unvalued(Unvalued(code2, fr.t), fr.f), [])
  {
    var code3 := Unvalued(Unvalued(code2, fr.t), fr.f);
    forall p | 0 <= p < |job.code| ensures code3[p] == code2[p] {
      if p + 1 == |job.code| { assert !code2[p].Tests(); }
    }
    FramedSame(job.code, job.pend, code2, [], code3, []);
  }

  /** Once their jumps carry no value, the exchanged lists complete the negation. */
  ghost predicate Exchanged(job: Job, code: Code, pend: seq<int>, jpc: int, d: ExpDesc, tl: seq<int>, fl: seq<int>) {
    && Threads(code, d.f, tl) && Threads(Unvalued(code, tl), d.t, fl)
    && Serves(job.(e := Not(job.e)), Frag(Unvalued(Unvalued(code, tl), fl), |job.code|, fl, tl, pend), jpc, d)
  }

  lemma ExchangedParts(job: Job, code: Code, pend: seq<int>, jpc: int, d: ExpDesc, tl: seq<int>, fl: seq<int>)
    requires Exchanged(job, code, pend, jpc, d, tl, fl)
    ensures Threads(code, d.f, tl) && Threads(Unvalued(code, tl), d.t, fl)
    ensures Serves(job.(e := Not(job.e)), Frag(Unvalued(Unvalued(code, tl), fl), |job.code|, fl, tl, pend), jpc, d)
  {
  }

  lemma RegNegates(job: Job, fr: Frag, jpc: int, d: ExpDesc)
    requires Serves(job, fr, jpc, d) && d.k.KNonreloc?
    ensures Exchanged(job, Emit(fr.code, fr.j, INot(0, d.k.r)), [], NO_JUMP, ExpDesc(KReloc(|fr.code|), d.f, d.t), fr.t, fr.f)
  {
    var code2 := Emit(fr.code, fr.j, INot(0, d.k.r));
    ServesThreads(job, fr, jpc, d);
    EmitLists(fr, d.k, INot(0, d.k.r), d.t, d.f);
    EmitFrames(job.code, job.pend, fr, d.k, INot(0, d.k.r));
    EmitSealed(fr, d.k, INot(0, d.k.r));
    WithinPiece(fr, d.k);
    hide Means, Shape, Framed, Emit, Unvalued, Threads, Begins, SealedAt;
    SwapThreads(code2, fr, d.t, d.f);
    UnvaluedFrames(job, code2, fr);
    NotMeans(fr, d.k.r, job.e, job.n);
  }

  lemma EmitSealed(fr: Frag, k: Kind, i: Instr)
    requires Shape(fr, k) && Stop(fr.code, k) == |fr.code|
    ensures SealedAt(Emit(fr.code, fr.j, i), fr.pc0) && |Emit(fr.code, fr.j, i)| > fr.pc0
  {
    EmitExtends(fr, k, i);
    ListsStay(fr, k, Emit(fr.code, fr.j, i));
  }

  lemma JumpNegates(job: Job, fr: Frag, jpc: int, d: ExpDesc)
    requires Serves(job, fr, jpc, d) && d.k.KJump?
    ensures 1 <= d.k.pc == |fr.code| - 1 && fr.code[d.k.pc - 1].ICompare? && fr.j == []
    ensures Exchanged(job, fr.code[d.k.pc - 1 := Inverted(fr.code[d.k.pc - 1])], fr.j, jpc, ExpDesc(d.k, d.f, d.t), fr.t, fr.f)
  {
    FlippedSame(fr, d.k);
    InvertFrames(job, fr, jpc, d);
    var code2 := Flipped(fr);
    hide Means, Shape, Framed, Unvalued;
    SwapThreads(code2, fr, d.t, d.f);
    UnvaluedFrames(job, code2, fr);
    NotJumpMeans(fr, d.k.pc, job.e, job.n);
    NoThreads(fr.code, jpc, code2);
  }

  lemma InvertSealed(fr: Frag, k: Kind)
    requires Shape(fr, k) && k.KJump?
    ensures 1 <= k.pc == |fr.code| - 1 && fr.code[k.pc - 1].ICompare? && fr.j == [] && fr.pc0 <= k.pc - 1
    ensures SealedAt(fr.code[k.pc - 1 := Inverted(fr.code[k.pc - 1])], fr.pc0)
  {
    hide Open, NoStray, Disjoint, Within;
  }

  /** The comparison before the last jump inverted. */
  function Flipped(fr: Frag): Code {
    if |fr.code| < 2 then fr.code else fr.code[|fr.code| - 2 := Inverted(fr.code[|fr.code| - 2])]
  }

  lemma FlippedSame(fr: Frag, k: Kind)
    requires Shape(fr, k) && k.KJump?
    ensures 1 <= k.pc == |fr.code| - 1 && |fr.code| > fr.pc0 && fr.code[k.pc - 1].ICompare? && fr.j == []
    ensures var code2 := Flipped(fr);
      && |code2| == |fr.code| && code2 == fr.code[k.pc - 1 := Inverted(fr.code[k.pc - 1])]
      && (forall p :: 0 <= p < Stop(fr.code, k) ==> code2[p] == fr.code[p])
      && (forall p :: 0 <= p < fr.pc0 ==> code2[p] == fr.code[p])
      && NegatedJump(fr) == Frag(Unvalued(Unvalued(code2, fr.t), fr.f), fr.pc0, fr.f, fr.t, [])
      && Within(fr.t, fr.pc0, |code2|) && Within(fr.f, fr.pc0, |code2|) && Within([], fr.pc0, |code2|)
      && SealedAt(code2, fr.pc0)
  {
    InvertSealed(fr, k);
    WithinPiece(fr, k);
    hide Open, NoStray, Disjoint, Unvalued, SealedAt, Inverted, Shape;
  }

  lemma UnmovedFrames(job: Job, fr: Frag, jpc: int, d: ExpDesc, code2: Code)
    requires Serves(job, fr, jpc, d) && |fr.code| > fr.pc0 && |code2| == |fr.code|
    requires forall p :: 0 <= p < Stop(fr.code, d.k) ==> code2[p] == fr.code[p]
    requires forall p :: 0 <= p < fr.pc0 ==> code2[p] == fr.code[p]
    requires Within([], fr.pc0, |code2|)
    ensures |job.code| == fr.pc0 && Framed(job.code, job.pend, code2, [])
    ensures Threads(code2, d.t, fr.t) && Threads(code2, d.f, fr.f)
  {
    ServesFacts(job, fr, jpc, d);
    ServesThreads(job, fr, jpc, d);
    hide *;
    ListsUnmoved(fr, d.k, code2, d.t, d.f);
    FramedSame(job.code, job.pend, fr.code, fr.j, code2, []);
  }

  lemma InvertFrames(job: Job, fr: Frag, jpc: int, d: ExpDesc)
    requires Serves(job, fr, jpc, d) && d.k.KJump?
    ensures var code2 := Flipped(fr);
      && |code2| == |fr.code| && Threads(code2, d.t, fr.t) && Threads(code2, d.f, fr.f)
      && Framed(job.code, job.pend, code2, []) && |code2| > |job.code| && SealedAt(code2, |job.code|)
      && Within(fr.t, |job.code|, |code2|) && Within(fr.f, |job.code|, |code2|)
      && NegatedJump(fr) == Frag(Unvalued(Unvalued(code2, fr.t), fr.f), fr.pc0, fr.f, fr.t, [])
  {
    FlippedSame(fr, d.k);
    hide *;
    UnmovedFrames(job, fr, jpc, d, Flipped(fr));
  }

  lemma NoThreads(code: Code, h: int, code2: Code)
    ensures Threads(code, h, []) ==> forall c: Code :: Threads(c, h, [])
  {
  }

  lemma CompareServes(job: Job, a: Frag, jpc1: int, d1: ExpDesc, r: Expr, n2: nat, b: Frag, jpc: int, d2: ExpDesc, op: Cmp)
    requires d1.k.KNonreloc? && d2.k.KNonreloc? && LocalsBelow(r, job.n) && job.n <= n2 < NO_REG && d1.k.r < n2
    requires Serves(job, a, jpc1, d1) && a.t == [] && a.f == []
    requires Serves(Job(a.code, a.j, r, n2), b, jpc, d2) && b.t == [] && b.f == []
    ensures var c := Compared(b, a.pc0, CompareInstr(op, d1.k.r, d2.k.r));
      Serves(job.(e := Compare(op, job.e, r)), c, NO_JUMP, ExpDesc(KJump(|b.code| + 1), NO_JUMP, NO_JUMP))
  {
    var i := CompareInstr(op, d1.k.r, d2.k.r);
    CompareFrames(job, a, jpc1, d1, r, n2, b, jpc, d2, i);
    hide Means, Shape, Framed, Emit, CompareInstr;
    CompareMeans(a, d1.k.r, b, d2.k.r, op, job.e, r, job.n, n2);
  }

  lemma CompareFrames(job: Job, a: Frag, jpc1: int, d1: ExpDesc, r: Expr, n2: nat, b: Frag, jpc: int, d2: ExpDesc, i: Instr)
    requires d1.k.KNonreloc? && d2.k.KNonreloc?
    requires Serves(job, a, jpc1, d1) && Serves(Job(a.code, a.j, r, n2), b, jpc, d2)
    ensures Framed(job.code, job.pend, Emit(b.code, b.j, i) + [IJmp(NO_JUMP)], [])
  {
    WithinPiece(a, d1.k);
    WithinPiece(b, d2.k);
    hide Means, Emit;
    EmitFrames(a.code, a.j, b, d2.k, i);
    FramedTrans(job.code, job.pend, a.code, a.j, Emit(b.code, b.j, i), []);
    EmitSealed(b, d2.k, i);
    FramedLonger(job.code, job.pend, Emit(b.code, b.j, i), [IJmp(NO_JUMP)]);
  }

  lemma {:induction false} LocalsMore(e: Expr, n: nat, n2: nat)
    requires LocalsBelow(e, n) && n <= n2
    ensures LocalsBelow(e, n2)
  {
    match e
    case Local(_) =>
    case Upval(_) =>
    case Not(a) => LocalsMore(a, n, n2);
    case And(a, b) => LocalsMore(a, n, n2); LocalsMore(b, n, n2);
    case Or(a, b) => LocalsMore(a, n, n2); LocalsMore(b, n, n2);
    case Compare(_, a, b) => LocalsMore(a, n, n2); LocalsMore(b, n, n2);
  }

  lemma VariableServes(job: Job, jpc: int)
    requires job.e.Local? || job.e.Upval?
    requires Threads(job.code, jpc, job.pend) && Begins(job.code, job.pend) && job.n < NO_REG
    ensures var k := if job.e.Local? then KLocal(job.e.reg) else KUpval(job.e.idx);
      Serves(job, Frag(job.code, |job.code|, [], [], job.pend), jpc, ExpDesc(k, NO_JUMP, NO_JUMP))
  {
    hide Means, Shape;
    VariableMeans(job.code, job.pend, job.e, job.n);
  }

  lemma BranchReady(job: Job, a: Frag, truth: bool, jpc: int, h: int)
    requires Branches(job, a, truth, jpc, h)
    ensures Threads(a.code, jpc, a.j) && Begins(a.code, a.j)
  {
  }

  lemma PieceReady(job: Job, a: Frag, jpc: int, d: ExpDesc)
    requires Serves(job, a, jpc, d) && d.k.KNonreloc?
    ensures Threads(a.code, jpc, a.j) && Begins(a.code, a.j)
  {
  }

  lemma JoinServes(job: Job, a: Frag, truth: bool, jpc1: int, h: int, r: Expr, b: Frag, jpc: int, d: ExpDesc)
    requires Branches(job, a, truth, jpc1, h) && LocalsBelow(r, job.n)
    requires Serves(Job(a.code, a.j, r, job.n), b, jpc, d) && (d.k.KNonreloc? || d.k.KReloc? || d.k.KJump?)
    ensures var own := if truth then b.f else b.t; var other := if truth then a.f else a.t;
      var code2 := CodeFrames.Linked(b.code, own, other);
      && Threads(b.code, if truth then d.f else d.t, own) && Threads(b.code, h, other) && Disjoint(own, other)
      && Threads(code2, if truth then d.t else d.f, if truth then b.t else b.f) && Threads(code2, jpc, b.j)
      && (forall g :: Threads(code2, g, own + other) ==>
            Serves(job.(e := Connect(truth, job.e, r)), Join(a, truth, b).(code := code2), jpc,
                   ExpDesc(d.k, if truth then d.t else g, if truth then g else d.f)))
  {
    var own := if truth then b.f else b.t;
    var other := if truth then a.f else a.t;
    var code2 := CodeFrames.Linked(b.code, own, other);
    JoinedNow(job, a, truth, jpc1, h, r, b, jpc, d);
    JoinLists(job, a, truth, jpc1, h, r, b, jpc, d);
    JoinFrames(job, a, truth, jpc1, h, r, b, jpc, d);
    BranchFacts(job, a, truth, jpc1, h);
    hide Means, Shape, Framed, Joined, Decides, Branches;
    JoinShape(a, truth, b, d.k);
    JoinMeans(a, truth, b, d.k, job.e, r, job.n);
    JoinRelinks(a, truth, b);
    RelinkMeans(Join(a, truth, b), d.k, code2, Connect(truth, job.e, r), job.n, NO_REG);
    forall g | Threads(code2, g, own + other)
      ensures Serves(job.(e := Connect(truth, job.e, r)), Join(a, truth, b).(code := code2), jpc,
                     ExpDesc(d.k, if truth then d.t else g, if truth then g else d.f))
    {
      ServesNow(job.(e := Connect(truth, job.e, r)), Join(a, truth, b).(code := code2), jpc,
                ExpDesc(d.k, if truth then d.t else g, if truth then g else d.f));
    }
  }

  lemma BranchFacts(job: Job, a: Frag, truth: bool, jpc1: int, h: int)
    requires Branches(job, a, truth, jpc1, h)
    ensures Decides(a, truth, job.e, job.n) && Begins(job.code, job.pend) && job.n < NO_REG && a.pc0 == |job.code|
  {
  }

  lemma JoinedNow(job: Job, a: Frag, truth: bool, jpc1: int, h: int, r: Expr, b: Frag, jpc: int, d: ExpDesc)
    requires Branches(job, a, truth, jpc1, h)
    requires Serves(Job(a.code, a.j, r, job.n), b, jpc, d) && (d.k.KNonreloc? || d.k.KReloc? || d.k.KJump?)
    ensures Joined(a, truth, b, d.k) && Means(b, d.k, r, job.n, NO_REG)
  {
    hide Means, Decides, Shape;
  }

  lemma JoinLists(job: Job, a: Frag, truth: bool, jpc1: int, h: int, r: Expr, b: Frag, jpc: int, d: ExpDesc)
    requires Branches(job, a, truth, jpc1, h)
    requires Serves(Job(a.code, a.j, r, job.n), b, jpc, d) && Joined(a, truth, b, d.k)
    ensures var own := if truth then b.f else b.t; var other := if truth then a.f else a.t;
      var code2 := CodeFrames.Linked(b.code, own, other);
      && Threads(b.code, if truth then d.f else d.t, own) && Threads(b.code, h, other) && Disjoint(own, other)
      && Threads(code2, if truth then d.t else d.f, if truth then b.t else b.f) && Threads(code2, jpc, b.j)
  {
    hide Means, Decides;
    var own := if truth then b.f else b.t;
    var other := if truth then a.f else a.t;
    forall x | x in other ensures 0 <= x < |b.code| && b.code[x] == a.code[x] && x < |a.code| { JumpKept(a, truth, b, d.k, x); }
    ThreadsStay(a.code, b.code, h, other);
    OwnDisjoint(b, d.k);
    hide Shape, Joined, Framed;
    LinkKeepsOther(b.code, own, other, if truth then d.t else d.f, if truth then b.t else b.f);
    LinkKeepsOther(b.code, own, other, jpc, b.j);
  }

  lemma OwnDisjoint(b: Frag, k: Kind)
    requires Shape(b, k)
    ensures Disjoint(b.f, b.t) && Disjoint(b.t, b.f) && Disjoint(b.f, b.j) && Disjoint(b.t, b.j)
  {
  }

  lemma JoinFrames(job: Job, a: Frag, truth: bool, jpc1: int, h: int, r: Expr, b: Frag, jpc: int, d: ExpDesc)
    requires Branches(job, a, truth, jpc1, h) && Serves(Job(a.code, a.j, r, job.n), b, jpc, d)
    ensures Framed(job.code, job.pend, CodeFrames.Linked(b.code, if truth then b.f else b.t, if truth then a.f else a.t), b.j)
  {
    WithinPiece(a, KNonreloc(0));
    WithinPiece(b, d.k);
    hide Means, Decides;
    FramedTrans(job.code, job.pend, a.code, a.j, b.code, b.j);
    LinkedBehind(job.code, job.pend, b.code, b.j, if truth then b.f else b.t, if truth then a.f else a.t);
  }

  lemma JoinRelinks(a: Frag, truth: bool, b: Frag)
    requires Open(b.code, if truth then b.f else b.t) || (if truth then b.f else b.t) == []
    ensures Relinked(b.code, CodeFrames.Linked(b.code, if truth then b.f else b.t, if truth then a.f else a.t), Join(a, truth, b).Opens())
  {
    var own := if truth then b.f else b.t;
    var o := if truth then Join(a, truth, b).f else Join(a, truth, b).t;
    assert forall x :: x in own ==> x in o;
    LinkedRelinks(b.code, own, if truth then a.f else a.t, Join(a, truth, b).Opens());
  }

  /** A value in a register, returned. */
  lemma ReturnMeans(fr: Frag, r: nat, e: Expr, n: nat)
    requires Shape(fr, KNonreloc(r)) && fr.t == [] && fr.f == [] && Means(fr, KNonreloc(r), e, n, NO_REG)
    ensures forall env: Env, regs: Regs :: IsFrame(regs) ==>
      Execute(env, Emit(fr.code, fr.j, IReturn(r)), fr.pc0, regs) == Returned(Eval(env, e, regs))
  {
    EmitExtends(fr, KNonreloc(r), IReturn(r));
    ListsStay(fr, KNonreloc(r), Emit(fr.code, fr.j, IReturn(r)));
    assert NoStray(Emit(fr.code, fr.j, IReturn(r)), fr.pc0, []);
    hide Shape, Means, Extends, Emit;
    forall env: Env, regs: Regs | IsFrame(regs)
      ensures Execute(env, Emit(fr.code, fr.j, IReturn(r)), fr.pc0, regs) == Returned(Eval(env, e, regs))
    {
      MeansAt(env, fr, KNonreloc(r), e, n, regs);
      ReturnRun(env, fr, r, Eval(env, e, regs), n, regs);
    }
  }

  lemma ReturnRun(env: Env, fr: Frag, r: nat, v: Value, n: nat, regs: Regs)
    requires Shape(fr, KNonreloc(r)) && fr.t == [] && fr.f == []
    requires EndsIn(env, fr, KNonreloc(r), RunOf(env, fr, KNonreloc(r), regs), v, regs, n, NO_REG)
    requires NoStray(Emit(fr.code, fr.j, IReturn(r)), fr.pc0, [])
    ensures Execute(env, Emit(fr.code, fr.j, IReturn(r)), fr.pc0, regs) == Returned(v)
  {
    hide Run, RunOf;
    var code2 := Emit(fr.code, fr.j, IReturn(r));
    var m := |fr.code|;
    EmitExtends(fr, KNonreloc(r), IReturn(r));
    Continue(env, fr, KNonreloc(r), code2, [], regs, m);
    AtEnd(env, code2, [], m);
    ExecuteIsRun(env, code2, fr.pc0, fr.pc0, regs, m);
    assert code2[m] == IReturn(r);
  }

  lemma NothingOpen(fr: Frag, k: Kind)
    requires Shape(fr, k) && |fr.code| == fr.pc0
    ensures fr.t == [] && fr.f == []
  {
    Empty(fr.t, fr.pc0, Stop(fr.code, k));
    Empty(fr.f, fr.pc0, Stop(fr.code, k));
  }

  lemma Empty(l: seq<int>, lo: int, hi: int)
    requires Within(l, lo, hi) && hi <= lo
    ensures l == []
  {
    if l != [] { Spans(l, lo, hi); }
  }

  lemma Spans(l: seq<int>, lo: int, hi: int)
    requires Within(l, lo, hi) && l != []
    ensures lo < hi
  {
    var x := l[0];
    assert x in l;
  }

  lemma LinkKeepsOther(code: Code, a: seq<int>, b: seq<int>, h: int, l: seq<int>)
    requires Threads(code, h, l) && Disjoint(a, l)
    ensures Threads(CodeFrames.Linked(code, a, b), h, l)
  {
    if a != [] { assert a[|a| - 1] in a; }
    ThreadsStay(code, CodeFrames.Linked(code, a, b), h, l);
  }

  lemma FramedLinked(code: Code, j: seq<int>, fr: Frag, k: Kind, b: seq<int>)
    requires Shape(fr, k) && fr.pc0 == |code| && Framed(code, j, fr.code, fr.j)
    ensures Framed(code, j, CodeFrames.Linked(fr.code, fr.t, b), fr.j)
    ensures Framed(code, j, CodeFrames.Linked(fr.code, fr.f, b), fr.j)
  {
    LinkedBehind(code, j, fr.code, fr.j, fr.t, b);
    LinkedBehind(code, j, fr.code, fr.j, fr.f, b);
  }

  lemma LinkedBehind(code: Code, j: seq<int>, code1: Code, j1: seq<int>, l: seq<int>, b: seq<int>)
    requires Framed(code, j, code1, j1) && Within(l, |code|, |code1|)
    ensures Framed(code, j, CodeFrames.Linked(code1, l, b), j1)
  {
    if l != [] {
      assert l[|l| - 1] in l;
      FramedSame(code, j, code1, j1, CodeFrames.Linked(code1, l, b), j1);
    }
  }

  /** The code with the loads, up to the link of the jump over them. */
  predicate LoadsOn(fr: Frag, k: Kind, reg: nat, code2: Code) {
    var w := WithLoads(fr, k, reg).code;
    && |code2| == |w|
    && (forall p :: 0 <= p < |w| ==> code2[p] == w[p] || (k.KNonreloc? && p == |fr.code| && code2[p].IJmp?))
  }

  /** The loads stand behind the piece; what was relinked on the way changes nothing. */
  lemma AfterLoads(fr: Frag, k: Kind, reg: nat, code2: Code, job: Job)
    requires Shape(fr, k) && Means(fr, k, job.e, job.n, NO_REG) && reg == job.n < NO_REG
    requires (k == KNonreloc(reg) && |fr.code| > fr.pc0) || k.KJump?
    requires LoadsOn(fr, k, reg, code2)
    ensures Shape(WithLoads(fr, k, reg).(code := code2), KNonreloc(reg))
    ensures Means(WithLoads(fr, k, reg).(code := code2), KNonreloc(reg), job.e, job.n, reg)
    ensures Loads(WithLoads(fr, k, reg).(code := code2), reg)
  {
    hide *;
    ButMore(fr, k, job.e, job.n, reg);
    WithLoadsShape(fr, k, reg);
    WithLoadsMeans(fr, k, reg, job.e, job.n);
    LoadsOnRelinks(fr, k, reg, code2);
    RelinkMeans(WithLoads(fr, k, reg), KNonreloc(reg), code2, job.e, job.n, reg);
    LoadsRelinked(WithLoads(fr, k, reg), reg, code2);
  }

  lemma LoadsFacts(fr: Frag, k: Kind)
    requires Shape(fr, k)
    ensures k.KJump? ==> fr.j == []
    ensures Open(fr.code, fr.j) && Within(fr.j, 0, |fr.code|) && SealedAt(fr.code, |fr.code|)
    ensures Begins(fr.code, fr.j)
  {
  }

  lemma LoadsOnIs(fr: Frag, k: Kind, reg: nat, code2: Code)
    requires k.KNonreloc? || k.KJump?
    requires k.KJump? ==> code2 == fr.code + LoadsFor(reg)
    requires k.KNonreloc? ==> |code2| == |fr.code| + 3 && code2[|fr.code| + 1..] == LoadsFor(reg) && code2[|fr.code|].IJmp?
    requires k.KNonreloc? ==> forall p :: 0 <= p < |fr.code| ==> code2[p] == fr.code[p]
    ensures LoadsOn(fr, k, reg, code2)
  {
    if k.KNonreloc? {
      assert code2[|fr.code| + 1] == code2[|fr.code| + 1..][0] && code2[|fr.code| + 2] == code2[|fr.code| + 1..][1];
    }
  }

  lemma LoadsOnRelinks(fr: Frag, k: Kind, reg: nat, code2: Code)
    requires LoadsOn(fr, k, reg, code2) && (k.KNonreloc? || k.KJump?)
    ensures Relinked(WithLoads(fr, k, reg).code, code2, WithLoads(fr, k, reg).Opens())
    ensures |code2| == |WithLoads(fr, k, reg).code|
  {
  }

  /** Lists and frame behind the loads. */
  lemma LoadsFrame(fr: Frag, k: Kind, reg: nat, code2: Code, job: Job, t: int, f: int)
    requires Shape(fr, k) && LoadsOn(fr, k, reg, code2)
    requires (k == KNonreloc(reg) && |fr.code| > fr.pc0) || k.KJump?
    requires fr.pc0 == |job.code| && Framed(job.code, job.pend, fr.code, fr.j)
    requires Threads(fr.code, t, if k.KJump? then fr.t + [|fr.code| - 1] else fr.t) && Threads(fr.code, f, fr.f)
    ensures Framed(job.code, job.pend, code2, WithLoads(fr, k, reg).j)
    ensures Threads(code2, t, WithLoads(fr, k, reg).t) && Threads(code2, f, WithLoads(fr, k, reg).f)
  {
    LoadsPrefix(fr, k, reg, code2);
    LoadsWithin(fr, k, reg);
    LoadsAre(fr, k, reg);
    hide *;
    ThreadsStays(fr.code, code2, t, if k.KJump? then fr.t + [|fr.code| - 1] else fr.t);
    ThreadsStays(fr.code, code2, f, fr.f);
    FramedSame(job.code, job.pend, fr.code, fr.j, code2, WithLoads(fr, k, reg).j);
  }

  lemma LoadsAre(fr: Frag, k: Kind, reg: nat)
    ensures WithLoads(fr, k, reg).t == (if k.KJump? then fr.t + [|fr.code| - 1] else fr.t) && WithLoads(fr, k, reg).f == fr.f
    ensures |WithLoads(fr, k, reg).code| > |fr.code|
  {
  }

  lemma ThreadsStays(code: Code, code2: Code, h: int, l: seq<int>)
    requires Threads(code, h, l) && |code| <= |code2| && (forall p :: 0 <= p < |code| ==> code2[p] == code[p])
    ensures Threads(code2, h, l)
  {
    ThreadsStay(code, code2, h, l);
  }

  lemma LoadsPrefix(fr: Frag, k: Kind, reg: nat, code2: Code)
    requires LoadsOn(fr, k, reg, code2)
    ensures |code2| >= |fr.code| && forall p :: 0 <= p < |fr.code| ==> code2[p] == fr.code[p]
    ensures |code2| == |WithLoads(fr, k, reg).code|
  {
    assert forall p :: 0 <= p < |fr.code| ==> WithLoads(fr, k, reg).code[p] == fr.code[p];
  }

  lemma LoadsSize(fr: Frag, k: Kind, reg: nat, code2: Code)
    requires Shape(fr, k) && LoadsOn(fr, k, reg, code2)
    ensures |code2| >= |fr.code| + 2 && |fr.code| >= fr.pc0 && WithLoads(fr, k, reg).pc0 == fr.pc0
  {
  }

  lemma LoadsWithin(fr: Frag, k: Kind, reg: nat)
    requires Shape(fr, k) && ((k.KNonreloc? && |fr.code| > fr.pc0) || k.KJump?)
    ensures fr.pc0 < |fr.code| && Within(WithLoads(fr, k, reg).j, fr.pc0, |WithLoads(fr, k, reg).code|)
  {
  }

  lemma ButMore(fr: Frag, k: Kind, e: Expr, n: nat, reg: nat)
    requires Means(fr, k, e, n, NO_REG) && n <= NO_REG
    ensures Means(fr, k, e, n, reg)
  {
    forall env: Env, regs: Regs | IsFrame(regs)
      ensures EndsIn(env, fr, k, RunOf(env, fr, k, regs), Eval(env, e, regs), regs, n, reg)
    {
      assert EndsIn(env, fr, k, RunOf(env, fr, k, regs), Eval(env, e, regs), regs, n, NO_REG);
    }
  }

  lemma LoadsRelinked(w: Frag, reg: nat, code2: Code)
    requires Loads(w, reg) && |code2| == |w.code| && Relinked(w.code, code2, w.Opens())
    ensures Loads(w.(code := code2), reg)
  {
    var m := |w.code| - 2;
    forall p | m <= p < |w.code| ensures code2[p] == w.code[p] {
      assert p !in w.Opens();
    }
    assert code2[m..] == w.code[m..];
  }

  lemma WithinPiece(fr: Frag, k: Kind)
    requires Shape(fr, k)
    ensures Within(fr.t, fr.pc0, Stop(fr.code, k)) && Within(fr.f, fr.pc0, Stop(fr.code, k))
    ensures |fr.code| > fr.pc0 ==> Within(fr.j, fr.pc0, Stop(fr.code, k))
    ensures fr.pc0 <= Stop(fr.code, k) <= |fr.code| && (k.KJump? ==> |fr.code| > fr.pc0)
  {
  }

  /** hasjumps: the list heads differ exactly when there are jumps. */
  lemma HasJumps(code: Code, t: int, f: int, fr: Frag, k: Kind)
    requires Shape(fr, k) && Threads(code, f, fr.f)
    requires Threads(code, t, if k.KJump? then fr.t + [k.pc] else fr.t)
    ensures t != f <==> k.KJump? || fr.t != [] || fr.f != []
    ensures t == f ==> t == NO_JUMP
    ensures k.KJump? ==> k.pc == |fr.code| - 1
  {
    if fr.t != [] { assert fr.t[0] in fr.t; }
    if fr.f != [] { assert fr.f[0] in fr.f; }
  }

  /** A comparison is a jump without a value. */
  lemma JumpNeeds(fr: Frag, k: Kind)
    requires Shape(fr, k) && k.KJump?
    ensures Needs(fr.code, fr.t + [|fr.code| - 1])
  {
    var x := |fr.code| - 1;
    assert x in fr.t + [x] && !Valued(fr.code, x);
  }

  lemma ClosedIs(fr: Frag, reg: nat, truth: bool, target: int)
    requires Needs(fr.code, if truth then fr.t else fr.f) ==> target == if truth then |fr.code| - 1 else |fr.code| - 2
    ensures Closed(fr, reg, truth).code == Patched(fr.code, if truth then fr.t else fr.f, |fr.code|, reg, target)
  {
    var l := if truth then fr.t else fr.f;
    if !Needs(fr.code, l) {
      assert forall x :: x in l ==> Valued(fr.code, x);
    }
  }

  lemma ClosedThreads(fr: Frag, reg: nat, truth: bool, t: int, j: int)
    requires Shape(fr, KNonreloc(reg)) && reg < NO_REG
    requires (!truth ==> Threads(fr.code, t, fr.t)) && Threads(fr.code, j, fr.j)
    ensures !truth ==> Threads(Closed(fr, reg, truth).code, t, fr.t)
    ensures Threads(Closed(fr, reg, truth).code, j, fr.j)
  {
    var code2 := Closed(fr, reg, truth).code;
    assert forall x :: x in fr.j ==> code2[x] == fr.code[x];
    ThreadsStay(fr.code, code2, j, fr.j);
    if !truth {
      assert forall x :: x in fr.t ==> code2[x] == fr.code[x];
      ThreadsStay(fr.code, code2, t, fr.t);
    }
  }

  lemma ClosedServes(c: Frag, reg: nat, job: Job, jpc: int)
    requires Shape(c, KNonreloc(reg)) && Means(c, KNonreloc(reg), job.e, job.n, NO_REG)
    requires c.t == [] && c.f == [] && c.pc0 == |job.code| && job.n < NO_REG && Begins(job.code, job.pend)
    requires Framed(job.code, job.pend, c.code, c.j) && Threads(c.code, jpc, c.j)
    ensures Serves(job, c, jpc, ExpDesc(KNonreloc(reg), NO_JUMP, NO_JUMP))
  {
    hide Shape, Means, Framed, Begins;
  }

  /** With both lists patched the value is in the register. */
  lemma ClosedAll(fr: Frag, reg: nat, job: Job)
    requires Shape(fr, KNonreloc(reg)) && reg == job.n < NO_REG && Means(fr, KNonreloc(reg), job.e, job.n, reg)
    requires Needs(fr.code, fr.t) || Needs(fr.code, fr.f) ==> Loads(fr, reg)
    requires fr.pc0 == |job.code| && Framed(job.code, job.pend, fr.code, fr.j) && |fr.code| > fr.pc0
    ensures var c := Closed(Closed(fr, reg, false), reg, true);
      && c == Frag(c.code, fr.pc0, [], [], fr.j)
      && Shape(c, KNonreloc(reg)) && Means(c, KNonreloc(reg), job.e, job.n, NO_REG)
      && Framed(job.code, job.pend, c.code, fr.j)
  {
    hide Means, Shape, Loads, Needs, Framed;
    ClosedShape(fr, reg, false);
    ClosedMeans(fr, reg, false, job.e, job.n);
    NeedsStay(fr, reg);
    var fr2 := Closed(fr, reg, false);
    ClosedShape(fr2, reg, true);
    ClosedMeans(fr2, reg, true, job.e, job.n);
    ButNothing(Closed(fr2, reg, true), KNonreloc(reg), job.e, job.n, reg);
    WithinPiece(fr, KNonreloc(reg));
    FramedSame(job.code, job.pend, fr.code, fr.j, Closed(fr2, reg, true).code, fr.j);
  }

  lemma ListsUnmoved(fr: Frag, k: Kind, code2: Code, t: int, f: int)
    requires Shape(fr, k) && |code2| == |fr.code| && (forall p :: 0 <= p < Stop(fr.code, k) ==> code2[p] == fr.code[p])
    requires Threads(fr.code, t, fr.t) && Threads(fr.code, f, fr.f)
    ensures Threads(code2, t, fr.t) && Threads(code2, f, fr.f)
  {
    ThreadsStay(fr.code, code2, t, fr.t);
    ThreadsStay(fr.code, code2, f, fr.f);
  }

  /** Emitting code moves no open list. */
  lemma EmitLists(fr: Frag, k: Kind, i: Instr, t: int, f: int)
    requires Shape(fr, k) && Stop(fr.code, k) == |fr.code|
    requires Threads(fr.code, t, fr.t) && Threads(fr.code, f, fr.f)
    ensures Threads(Emit(fr.code, fr.j, i), t, fr.t) && Threads(Emit(fr.code, fr.j, i), f, fr.f)
  {
    ThreadsStay(fr.code, Emit(fr.code, fr.j, i), t, fr.t);
    ThreadsStay(fr.code, Emit(fr.code, fr.j, i), f, fr.f);
  }

  lemma EmitFrames(code: Code, j: seq<int>, fr: Frag, k: Kind, i: Instr)
    requires Shape(fr, k) && Stop(fr.code, k) == |fr.code| && fr.pc0 == |code| && Framed(code, j, fr.code, fr.j)
    ensures Framed(code, j, Emit(fr.code, fr.j, i), [])
  {
    FramedFirst(fr.code, fr.j, [i], []);
    FramedTrans(code, j, fr.code, fr.j, Emit(fr.code, fr.j, i), []);
  }

  /** patchtestreg finds a TESTSET to patch. */
  predicate PatchesTest(code: Code, node: int) {
    1 <= node <= |code| && code[node - 1].ITestSet?
  }

  lemma PatchNone(code: Code, l: seq<int>, vtarget: int, reg: nat, dtarget: int)
    requires l == []
    ensures Patched(code, l, vtarget, reg, dtarget) == code
  {
  }

  lemma PatchStep(code: Code, l: seq<int>, i: nat, vtarget: int, reg: nat, dtarget: int)
    requires i < |l| && (forall i :: 0 <= i < |l| ==> 0 <= l[i] < |code| && code[l[i]].IJmp?)
    requires forall i, j :: 0 <= i < j < |l| ==> l[i] != l[j]
    ensures var c := Patched(code, l[..i], vtarget, reg, dtarget); var x := l[i];
      Valued(c, x) == Valued(code, x) && (Valued(code, x) ==> c[x - 1] == code[x - 1]) && c[x] == code[x] &&
      Patched(code, l[..i + 1], vtarget, reg, dtarget) ==
        if Valued(code, x) then c[x - 1 := Patched1(code[x - 1], reg)][x := IJmp(vtarget - (x + 1))]
        else c[x := IJmp(dtarget - (x + 1))]
  {
    assert l[..i + 1] == l[..i] + [l[i]];
  }

  lemma UnvalueStep(code: Code, l: seq<int>, i: nat)
    requires i < |l| && (forall i :: 0 <= i < |l| ==> 0 <= l[i] < |code| && code[l[i]].IJmp?)
    requires forall i, j :: 0 <= i < j < |l| ==> l[i] != l[j]
    ensures var c := Unvalued(code, l[..i]); var x := l[i];
      Valued(c, x) == Valued(code, x) && (Valued(code, x) ==> c[x - 1] == code[x - 1]) &&
      Unvalued(code, l[..i + 1]) == if Valued(code, x) then c[x - 1 := Patched1(code[x - 1], NO_REG)] else c
  {
    assert l[..i + 1] == l[..i] + [l[i]];
  }
}
