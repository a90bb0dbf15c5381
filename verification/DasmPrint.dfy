/** How action lists are written (dasm_x86.h:18-25): what pass 1 reads from a fragment is what the
    preprocessor wrote. */
module DasmPrint {
  import opened DasmActions
  import opened DasmLayout
  import opened DasmEncode
  import opened DasmPut

  // ---- Single actions ---------------------------------------------------------------------------

  /** The bytes of an action. A branch stands behind the last byte of its opcode. */
  function Spelled(a: Action): seq<Byte> {
    match a
    case Emit(b) => if b < 233 then [b] else [252, b]
    case ImmD => [237]
    case Space(fill) => [241, fill]
    case RelPC(_) => [245]
    case ImmPC => [247]
    case LabelPC => [249]
    case Align(mask) => [250, mask]
    case Section(n) => [254, n]
    case Stop => [255]
  }

  /** al[p..next] spells the action; any byte may be escaped. */
  predicate Spells(al: seq<Byte>, p: nat, a: Action, next: nat) {
    && p <= next <= |al|
    && (al[p..next] == Spelled(a) || (a.Emit? && al[p..next] == [252, a.b]))
    && (a.RelPC? ==> p > 0 && al[p - 1] == a.op)
  }

  /** What is read is what is spelled, and nothing else is read. */
  lemma DecodeExact(al: seq<Byte>, p: nat, a: Action, next: nat)
    ensures Decode(al, p) == Read(a, next) <==> Spells(al, p, a, next)
  {
    if Spells(al, p, a, next) {
      var s := al[p..next];
      assert |s| >= 1 && s[0] == al[p] && (|s| == 2 ==> s[1] == al[p + 1]);
    }
    if Decode(al, p) == Read(a, next) {
      assert al[p..next] == if next == p + 1 then [al[p]] else [al[p], al[p + 1]];
    }
  }

  /** Every other number from 233 on is refused. */
  lemma DecodeBad(al: seq<Byte>, p: nat)
    ensures p < |al| && al[p] >= 233 && al[p] !in {237, 241, 245, 247, 249, 250, 252, 254, 255} ==> Decode(al, p) == Bad
  {
    if Decode(al, p).Read? { DecodeExact(al, p, Decode(al, p).a, Decode(al, p).next); }
  }

  /** In front of a branch stands its opcode. */
  lemma OpcodeInFront(al: seq<Byte>, cs: seq<Cell>, base: int, k: nat)
    ensures WalkOk(al, cs, base) && 0 < k < |cs| && cs[k].Act? && cs[k].a.RelPC? && EmitAt(cs, k - 1) ==>
      cs[k - 1].a.b == cs[k].a.op
  {
    if WalkOk(al, cs, base) && 0 < k < |cs| && cs[k].Act? && cs[k].a.RelPC? && EmitAt(cs, k - 1) {
      assert DecodesTo(al, cs[k]) && DecodesTo(al, cs[k - 1]) && Follows(al, cs[k - 1], cs[k]);
    }
  }

  // ---- Fragments --------------------------------------------------------------------------------

  /** What a fragment says, with its arguments. */
  datatype Item =
    | Raw(b: Byte)
    | Word(n: int)                              // 32 bits
    | Gap(fill: Byte, n: int)       // n bytes
    | Branch(op: Byte, pc: int)
    | Address(pc: int)                       // of a label
    | Here(pc: int)                          // defines it
    | Pad(mask: Byte)
    | Switch(section: Byte)               // to a section; ends the fragment
    | End

  function ActionOf(i: Item): Action {
    match i
    case Raw(b) => Emit(b)
    case Word(_) => ImmD
    case Gap(fill, _) => Space(fill)
    case Branch(op, _) => RelPC(op)
    case Address(_) => ImmPC
    case Here(_) => LabelPC
    case Pad(mask) => Align(mask)
    case Switch(n) => Section(n)
    case End => Stop
  }

  /** The arguments that dasm_put gets for it. */
  function ArgsOf(i: Item): seq<int> {
    match i
    case Word(n) => [n]
    case Gap(_, n) => [n]
    case Branch(_, pc) => [pc]
    case Address(pc) => [pc]
    case Here(pc) => [pc]
    case _ => []
  }

  function Text(its: seq<Item>): seq<Byte> {
    if its == [] then [] else Spelled(ActionOf(its[0])) + Text(its[1..])
  }

  function Arguments(its: seq<Item>): seq<int> {
    if its == [] then [] else ArgsOf(its[0]) + Arguments(its[1..])
  }

  predicate Ends(i: Item) { i.Switch? || i.End? }

  /** A fragment ends once, and every branch stands behind its opcode. */
  predicate Fragment(its: seq<Item>, front: seq<Byte>)
    decreases |its|
  {
    && its != [] && (Ends(its[0]) <==> |its| == 1)
    && (its[0].Branch? ==> front != [] && front[|front| - 1] == its[0].op)
    && (|its| > 1 ==> Fragment(its[1..], front + Spelled(ActionOf(its[0]))))
  }

  /** Buffer slots an item takes. */
  function Slots(i: Item): nat {
    match i
    case Raw(_) => 0
    case Branch(_, _) => 2
    case Switch(_) => 0
    case End => 0
    case _ => 1
  }

  function SlotsOf(its: seq<Item>): nat {
    if its == [] then 0 else Slots(its[0]) + SlotsOf(its[1..])
  }

  /** The cell of an item at a place of the action list and of the buffer. */
  predicate CellOf(c: Cell, i: Item, p: nat, pos: int) {
    && c.Act? && c.a == ActionOf(i) && c.p == p && c.pos == pos
    && c.arg == if ArgsOf(i) == [] then 0 else ArgsOf(i)[0]
  }

  /** The run-time checks: labels and sections must exist. */
  lemma InRangeExact(c: Cell, i: Item, p: nat, pos: int, labels: nat, sections: nat)
    requires CellOf(c, i, p, pos)
    ensures InRange(c, labels, sections) <==>
      match i
      case Branch(_, pc) => 0 <= pc < labels
      case Address(pc) => 0 <= pc < labels
      case Here(pc) => 0 <= pc < labels
      case Switch(n) => n < sections
      case _ => true
  {
  }

  lemma SpelledDecodes(front: seq<Byte>, i: Item, rest: seq<Byte>)
    requires i.Branch? ==> front != [] && front[|front| - 1] == i.op
    ensures var t := Spelled(ActionOf(i));
      Decode(front + t + rest, |front|) == Read(ActionOf(i), |front + t|)
  {
    var t := Spelled(ActionOf(i));
    var al := front + t + rest;
    assert al[|front|..|front + t|] == t;
    DecodeExact(al, |front|, ActionOf(i), |front + t|);
  }

  lemma ArgsFirst(i: Item, more: seq<int>)
    ensures var args := ArgsOf(i) + more;
      && NeedsArg(ActionOf(i)) == (ArgsOf(i) != [])
      && (if ArgsOf(i) != [] then args != [] && args[0] == ArgsOf(i)[0] && args[1..] == more else args == more)
  {
  }

  /** One item is read; the others come next. */
  lemma ItemRead(front: seq<Byte>, i: Item, rest: seq<Byte>, more: seq<int>, pos: int)
    requires i.Branch? ==> front != [] && front[|front| - 1] == i.op
    ensures var t := Spelled(ActionOf(i)); var al := front + t + rest; var args := ArgsOf(i) + more;
      var c := CellFor(ActionOf(i), |front|, pos, args);
      && CellOf(c, i, |front|, pos) && c.End() == pos + Slots(i)
      && Cells(al, |front|, args, pos) == if Ends(i) then [c] else [c] + Cells(al, |front + t|, more, pos + Slots(i))
  {
    hide Decode, Cells, Spelled, ArgsOf;
    var args, t := ArgsOf(i) + more, Spelled(ActionOf(i));
    SpelledDecodes(front, i, rest);
    CellsOnce(front + t + rest, |front|, args, pos, ActionOf(i), |front + t|);
    ArgsFirst(i, more);
  }

  lemma CellsOnce(al: seq<Byte>, p: nat, args: seq<int>, pos: int, a: Action, next: nat)
    requires Decode(al, p) == Read(a, next)
    ensures var c := CellFor(a, p, pos, args);
      Cells(al, p, args, pos) ==
        if IsLastAction(a) then [c]
        else [c] + Cells(al, next, if NeedsArg(a) && |args| > 0 then args[1..] else args, c.End())
  {
    hide Decode;
  }

  ghost predicate AllCells(cs: seq<Cell>, its: seq<Item>, p: nat, pos: int) {
    |cs| == |its| && forall k :: 0 <= k < |its| ==> CellOf(cs[k], its[k], p + |Text(its[..k])|, pos + SlotsOf(its[..k]))
  }

  lemma CellsCons(c: Cell, cs: seq<Cell>, its: seq<Item>, p: nat, pos: int)
    requires its != [] && CellOf(c, its[0], p, pos)
    requires AllCells(cs, its[1..], p + |Spelled(ActionOf(its[0]))|, pos + Slots(its[0]))
    ensures AllCells([c] + cs, its, p, pos)
  {
    hide CellOf, Spelled, Slots;
    forall k | 0 <= k < |its|
      ensures CellOf(([c] + cs)[k], its[k], p + |Text(its[..k])|, pos + SlotsOf(its[..k]))
    {
      if k > 0 {
        assert its[..k][0] == its[0] && its[..k][1..] == its[1..][..k - 1];
        assert ([c] + cs)[k] == cs[k - 1] && its[k] == its[1..][k - 1];
      }
    }
  }

  lemma TextFirst(front: seq<Byte>, its: seq<Item>, rest: seq<Byte>, args: seq<int>)
    requires its != []
    ensures var t, more := Spelled(ActionOf(its[0])), its[1..];
      && front + Text(its) + rest == front + t + (Text(more) + rest)
      && front + t + (Text(more) + rest) == (front + t) + Text(more) + rest
      && Arguments(its) + args == ArgsOf(its[0]) + (Arguments(more) + args)
  {
  }

  /** Pass 1 reads from a written fragment what it says: the actions in order, each with its own
      argument, at their places in the list and in the buffer. */
  lemma {:induction false} FragmentRead(front: seq<Byte>, its: seq<Item>, rest: seq<Byte>, args: seq<int>, pos: int)
    requires Fragment(its, front)
    ensures AllCells(Cells(front + Text(its) + rest, |front|, Arguments(its) + args, pos), its, |front|, pos)
    decreases |its|
  {
    hide CellOf, Spelled, Slots, ArgsOf, Cells, AllCells, Text, Arguments;
    var i, t, more := its[0], Spelled(ActionOf(its[0])), its[1..];
    TextFirst(front, its, rest, args);
    ItemRead(front, i, Text(more) + rest, Arguments(more) + args, pos);
    if Ends(i) {
      OneCell(CellFor(ActionOf(i), |front|, pos, Arguments(its) + args), its, |front|, pos);
    } else {
      FragmentRead(front + t, more, rest, args, pos + Slots(i));
      CellsCons(CellFor(ActionOf(i), |front|, pos, Arguments(its) + args),
        Cells((front + t) + Text(more) + rest, |front + t|, Arguments(more) + args, pos + Slots(i)), its, |front|, pos);
    }
  }

  lemma OneCell(c: Cell, its: seq<Item>, p: nat, pos: int)
    requires |its| == 1 && CellOf(c, its[0], p, pos)
    ensures AllCells([c], its, p, pos)
  {
  }
}
