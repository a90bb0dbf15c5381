/** An assembled program as a whole: from what the fragments say to what the processor reads. */
module DasmWhole {
  import opened DasmActions
  import opened DasmLayout
  import opened DasmLink
  import opened DasmEncode
  import opened DasmBytes
  import opened DasmLabels
  import opened DasmPrint

  /** Every reference is bound to a definition of the label it names. */
  ghost predicate OwnLabels(pr: Prog) {
    forall s, k :: 0 <= s < |pr.walks| && 0 <= k < |pr.walks[s]| && pr.walks[s][k].IsRef() ==> OwnLabel(pr, pr.walks[s][k])
  }

  predicate OwnLabel(pr: Prog, c: Cell)
    requires c.Act?
  {
    && Get(pr.mem, c.pos) in pr.defs && Valid(pr, Target(pr, c))
    && var d := pr.walks[Target(pr, c).s][Target(pr, c).k];
    && d.Act? && d.a.LabelPC? && d.arg == c.arg
  }

  /** A branch behind a plain byte has that byte as its opcode. */
  ghost predicate OpcodesFirst(pr: Prog) {
    forall s, k :: 0 <= s && 0 <= k && IsBranch(pr, s, k) && EmitAt(pr.walks[s], k - 1) ==>
      pr.walks[s][k - 1].a.b == pr.walks[s][k].a.op
  }

  /** Once no label is undefined, the code has the announced size, every action's bytes say what
      the fragment says, and every branch goes to the label it names. */
  lemma AssembledRight(al: seq<Byte>, a: Asm, est: seq<int>, base: int)
    ensures AsmOk(al, a) && EstOk(a.ws, est) && (forall l :: 0 <= l < |a.labels| ==> a.labels[l] <= 0) ==>
      var pr := ProgOf(a, est);
      && |pr.est| == |pr.walks| && |Output(pr, base)| == CodeSize(pr)
      && OwnLabels(pr) && OpcodesFirst(pr) && LabelsPlaced(pr) && BytesStand(pr, base, Output(pr, base))
      && (CodeSize(pr) < 0x8000_0000 ==> BranchesLand(pr, Output(pr, base)))
  {
    hide AsmOk, EstOk, ProgOk, BranchesOk, Output, CodeSize, LabelsPlaced, BytesStand, BranchesLand, OwnLabels, OpcodesFirst;
    if AsmOk(al, a) && EstOk(a.ws, est) && forall l :: 0 <= l < |a.labels| ==> a.labels[l] <= 0 {
      ReadyToLink(al, a, est);
      PassesAgree(ProgOf(a, est), base);
      Lengths(ProgOf(a, est));
      Own(al, a, est);
      First(al, a, est);
    }
  }

  lemma Own(al: seq<Byte>, a: Asm, est: seq<int>)
    requires AsmOk(al, a) && forall l :: 0 <= l < |a.labels| ==> a.labels[l] <= 0
    ensures OwnLabels(ProgOf(a, est))
  {
    forall s, k | 0 <= s < |a.ws| && 0 <= k < |a.ws[s]| && a.ws[s][k].IsRef()
      ensures OwnLabel(ProgOf(a, est), a.ws[s][k])
    {
      RefBound(a, s, k);
    }
  }

  lemma First(al: seq<Byte>, a: Asm, est: seq<int>)
    requires AsmOk(al, a)
    ensures OpcodesFirst(ProgOf(a, est))
  {
    forall s, k | 0 <= s && 0 <= k && IsBranch(ProgOf(a, est), s, k) && EmitAt(a.ws[s], k - 1)
      ensures a.ws[s][k - 1].a.b == a.ws[s][k].a.op
    {
      assert SectionOk(al, a.ws[s], s);
      OpcodeInFront(al, a.ws[s], s * BIAS, k);
    }
  }
}
