/** What stays the same when lists are relinked and code grows. */
module CodeFrames {
  import opened CodeVm
  import opened CodeLists
  import opened CodeMeans
  import opened CodeSteps
  import opened CodeValues

  // ---- Threads -----------------------------------------------------------------------------------------

  lemma ThreadsStay(code: Code, code2: Code, h: int, l: seq<int>)
    requires Threads(code, h, l)
    requires forall j :: j in l ==> 0 <= j < |code2| && code2[j] == code[j]
    ensures Threads(code2, h, l)
  {
    forall i | 0 <= i < |l| ensures Follow(code2, l[i]) == After(l, i) {
      assert Follow(code, l[i]) == After(l, i);
    }
  }

  /** luaK_concat: the end of the first list is linked to the head of the second. */
  function Linked(code: Code, a: seq<int>, b: seq<int>): (r: Code)
    ensures |r| == |code|
  {
    if a != [] && b != [] && 0 <= a[|a| - 1] < |code| then code[a[|a| - 1] := IJmp(b[0] - (a[|a| - 1] + 1))] else code
  }

  lemma LinkedNext(code: Code, h: int, a: seq<int>, g: int, b: seq<int>, i: nat)
    requires Threads(code, h, a) && Threads(code, g, b) && Disjoint(a, b) && a != [] && b != [] && i < |a + b|
    ensures Follow(Linked(code, a, b), (a + b)[i]) == After(a + b, i)
  {
    var last := a[|a| - 1];
    assert last in a && b[0] in b;
    if i < |a| - 1 {
      assert a[i] != last && Follow(code, a[i]) == After(a, i);
    } else if i >= |a| {
      assert b[i - |a|] in b && Follow(code, b[i - |a|]) == After(b, i - |a|);
    }
  }

  lemma LinkedThreads(code: Code, h: int, a: seq<int>, g: int, b: seq<int>)
    requires Threads(code, h, a) && Threads(code, g, b) && Disjoint(a, b)
    ensures Threads(Linked(code, a, b), if a == [] then g else h, a + b)
  {
    if a != [] && b != [] {
      var code2 := Linked(code, a, b);
      forall i | 0 <= i < |a + b| ensures Follow(code2, (a + b)[i]) == After(a + b, i) { LinkedNext(code, h, a, g, b, i); }
      forall i, j | 0 <= i < j < |a + b| ensures (a + b)[i] != (a + b)[j] {
        if i < |a| <= j { assert a[i] in a && b[j - |a|] in b; }
      }
      hide Follow, After;
    } else {
      assert a + b == if a == [] then b else a;
    }
  }

  /** The codes differ in the links of open jumps only. */
  predicate Relinked(code: Code, code2: Code, open: seq<int>) {
    && |code2| == |code|
    && forall p :: 0 <= p < |code| ==> code2[p] == code[p] || (p in open && code[p].IJmp? && code2[p].IJmp?)
  }

  lemma LinkedRelinks(code: Code, a: seq<int>, b: seq<int>, open: seq<int>)
    requires Open(code, a) && forall x :: x in a ==> x in open
    ensures Relinked(code, Linked(code, a, b), open)
  {
  }

  lemma {:induction false} RelinkRun(env: Env, code: Code, code2: Code, open: seq<int>, pc: int, regs: Regs, end: int)
    requires Relinked(code, code2, open) && 0 <= pc && 0 <= end <= |code|
    ensures Run(env, code2, open, pc, regs, end) == Run(env, code, open, pc, regs, end)
    decreases end - pc
  {
    if pc < end {
      var t := Turn(env, code, open, pc, regs, end);
      assert t == Turn(env, code2, open, pc, regs, end);
      if t.Go? && t.to > pc { RelinkRun(env, code, code2, open, t.to, t.regs, end); }
    }
  }

  /** The fragment with its lists joined differently, over relinked code. */
  lemma RelinkMeans(fr: Frag, k: Kind, code2: Code, e: Expr, n: nat, but: int)
    requires Shape(fr, k) && Relinked(fr.code, code2, fr.Opens())
    ensures Shape(fr.(code := code2), k)
    ensures Means(fr, k, e, n, but) ==> Means(fr.(code := code2), k, e, n, but)
  {
    RelinkShape(fr, k, code2);
    if Means(fr, k, e, n, but) {
      forall env: Env, regs: Regs | IsFrame(regs)
        ensures EndsIn(env, fr.(code := code2), k, RunOf(env, fr.(code := code2), k, regs), Eval(env, e, regs), regs, n, but)
      {
        assert EndsIn(env, fr, k, RunOf(env, fr, k, regs), Eval(env, e, regs), regs, n, but);
        RelinkOnce(env, fr, k, code2, Eval(env, e, regs), regs, n, but);
      }
    }
  }

  lemma RelinkSame(env: Env, fr: Frag, k: Kind, code2: Code, regs: Regs)
    requires Shape(fr, k) && Relinked(fr.code, code2, fr.Opens()) && Shape(fr.(code := code2), k)
    ensures RunOf(env, fr.(code := code2), k, regs) == RunOf(env, fr, k, regs)
  {
    hide Open, NoStray, Pending, SealedAt, Run;
    RelinkRun(env, fr.code, code2, fr.Opens(), fr.pc0, regs, Stop(fr.code, k));
  }

  lemma RelinkOnce(env: Env, fr: Frag, k: Kind, code2: Code, v: Value, regs: Regs, n: nat, but: int)
    requires Shape(fr, k) && Relinked(fr.code, code2, fr.Opens()) && Shape(fr.(code := code2), k)
    requires EndsIn(env, fr, k, RunOf(env, fr, k, regs), v, regs, n, but)
    ensures EndsIn(env, fr.(code := code2), k, RunOf(env, fr.(code := code2), k, regs), v, regs, n, but)
  {
    RelinkSame(env, fr, k, code2, regs);
    hide *;
    RelinkEnds(env, fr, k, code2, RunOf(env, fr, k, regs), v, regs, n, but);
  }

  lemma RelinkShape(fr: Frag, k: Kind, code2: Code)
    requires Shape(fr, k) && Relinked(fr.code, code2, fr.Opens())
    ensures Shape(fr.(code := code2), k)
  {
    var open := fr.Opens();
    assert forall x :: x in fr.t || x in fr.f || x in fr.j <==> x in open;
    RelinkOpen(fr.code, code2, open, fr.t);
    RelinkOpen(fr.code, code2, open, fr.f);
    RelinkOpen(fr.code, code2, open, fr.j);
    RelinkSealed(fr.code, code2, open);
    RelinkPending(fr, k, code2);
    hide Open, NoStray, Pending, SealedAt, Relinked;
  }

  lemma RelinkOpen(code: Code, code2: Code, open: seq<int>, l: seq<int>)
    requires Relinked(code, code2, open) && Open(code, l)
    ensures Open(code2, l)
  {
  }

  lemma RelinkSealed(code: Code, code2: Code, open: seq<int>)
    requires Relinked(code, code2, open)
    ensures forall p :: SealedAt(code, p) ==> SealedAt(code2, p)
    ensures forall from, l :: NoStray(code, from, l) ==> NoStray(code2, from, l)
  {
  }

  lemma RelinkPending(fr: Frag, k: Kind, code2: Code)
    requires Shape(fr, k) && Relinked(fr.code, code2, fr.Opens())
    ensures Pending(code2, fr.pc0, k, fr.j)
  {
    assert forall p :: Stop(fr.code, k) <= p < |fr.code| ==> p !in fr.Opens();
  }

  lemma RelinkEnds(env: Env, fr: Frag, k: Kind, code2: Code, o: Outcome, v: Value, regs: Regs, n: nat, but: int)
    requires Shape(fr, k) && Relinked(fr.code, code2, fr.Opens()) && EndsIn(env, fr, k, o, v, regs, n, but)
    ensures EndsIn(env, fr.(code := code2), k, o, v, regs, n, but)
  {
    hide Open, NoStray, Pending, SealedAt, Run;
  }

  lemma RelinkDecides(fr: Frag, truth: bool, code2: Code, e: Expr, n: nat)
    requires Shape(fr, KNonreloc(0)) && Relinked(fr.code, code2, fr.Opens()) && Decides(fr, truth, e, n)
    ensures Decides(fr.(code := code2), truth, e, n)
  {
    forall env: Env, regs: Regs | IsFrame(regs)
      ensures DecidesIn(fr.(code := code2), truth, Run(env, code2, fr.Opens(), fr.pc0, regs, |code2|), Eval(env, e, regs), regs, n)
    {
      RelinkRun(env, fr.code, code2, fr.Opens(), fr.pc0, regs, |fr.code|);
      assert DecidesIn(fr, truth, Run(env, fr.code, fr.Opens(), fr.pc0, regs, |fr.code|), Eval(env, e, regs), regs, n);
      RelinkDecidesIn(fr, truth, code2, Run(env, fr.code, fr.Opens(), fr.pc0, regs, |fr.code|), Eval(env, e, regs), regs, n);
    }
  }

  lemma RelinkDecidesIn(fr: Frag, truth: bool, code2: Code, o: Outcome, v: Value, regs: Regs, n: nat)
    requires Shape(fr, KNonreloc(0)) && Relinked(fr.code, code2, fr.Opens()) && DecidesIn(fr, truth, o, v, regs, n)
    ensures DecidesIn(fr.(code := code2), truth, o, v, regs, n)
  {
  }

  // ---- The frame of earlier code ----------------------------------------------------------------------------

  /** Changes behind the earlier code. */
  lemma FramedSame(code: Code, j: seq<int>, code1: Code, j1: seq<int>, code2: Code, j2: seq<int>)
    requires Framed(code, j, code1, j1) && |code1| > |code|
    requires |code2| > |code| && (forall p :: 0 <= p < |code| ==> code2[p] == code1[p]) && Within(j2, |code|, |code2|)
    ensures Framed(code, j, code2, j2)
  {
    assert code2[..|code|] == code1[..|code|];
  }

  /** The first code behind the earlier code. */
  lemma FramedFirst(code: Code, j: seq<int>, suffix: Code, j2: seq<int>)
    requires suffix != [] && Within(j2, |code|, |code| + |suffix|)
    ensures Framed(code, j, Patched(code, j, |code|, NO_REG, |code|) + suffix, j2)
  {
  }

  lemma FramedTrans(code: Code, j: seq<int>, code1: Code, j1: seq<int>, code2: Code, j2: seq<int>)
    requires Framed(code, j, code1, j1) && Framed(code1, j1, code2, j2)
    requires Open(code1, j1) && SealedAt(code1, |code|)
    ensures Framed(code, j, code2, j2)
  {
    if |code1| > |code| && |code2| > |code1| {
      forall p | 0 <= p < |code| ensures code2[p] == code1[p] {
        assert code2[p] == code2[..|code1|][p] == PatchedAt(code1, j1, p, |code1|, NO_REG, |code1|);
      }
      FramedSame(code, j, code1, j1, code2, j2);
    }
  }
}
