/** Action lists of the DynASM x86 encoder (dasm_x86.h:18-25), positions (dasm_x86.h:43-48),
    and the layout that pass 1 gives the section buffers. */
module DasmActions {

  type Byte = x: int | 0 <= x < 256

  const DASM_DISP := 233
  const DASM_IMM_D := 237
  const DASM_SPACE := 241
  const DASM_REL_PC := 245
  const DASM_IMM_PC := 247
  const DASM_LABEL_PC := 249
  const DASM_ALIGN := 250
  const DASM_ESC := 252
  const DASM_SECTION := 254
  const DASM_STOP := 255

  /** One decoded action. A branch carries the byte in front of it, its opcode. */
  datatype Action =
    | Emit(b: Byte)            // a plain byte, or one behind DASM_ESC
    | ImmD
    | Space(fill: Byte)
    | RelPC(op: Byte)
    | ImmPC
    | LabelPC
    | Align(mask: Byte)
    | Section(n: Byte)
    | Stop

  /** The action at index `p' of the list, and the index behind it. Lists outside the
      modelled subset, or cut off, decode to nothing. */
  datatype Decoded = Bad | Read(a: Action, next: nat)

  function Decode(al: seq<Byte>, p: nat): (d: Decoded)
    ensures d.Read? ==> p < d.next <= |al|
  {
    if p >= |al| then Bad
    else if al[p] < DASM_DISP then Read(Emit(al[p]), p + 1)
    else if al[p] == DASM_IMM_D then Read(ImmD, p + 1)
    else if al[p] == DASM_REL_PC then (if p == 0 then Bad else Read(RelPC(al[p - 1]), p + 1))
    else if al[p] == DASM_IMM_PC then Read(ImmPC, p + 1)
    else if al[p] == DASM_LABEL_PC then Read(LabelPC, p + 1)
    else if al[p] == DASM_STOP then Read(Stop, p + 1)
    else if p + 1 >= |al| then Bad
    else if al[p] == DASM_SPACE then Read(Space(al[p + 1]), p + 2)
    else if al[p] == DASM_ALIGN then Read(Align(al[p + 1]), p + 2)
    else if al[p] == DASM_ESC then Read(Emit(al[p + 1]), p + 2)
    else if al[p] == DASM_SECTION then Read(Section(al[p + 1]), p + 2)
    else Bad
  }

  // ---- Bit masks -----------------------------------------------------------------------

  /** x & m, with the bits of a two's complement x. */
  function And(x: int, m: nat): nat
    decreases m
  {
    if m == 0 then 0 else (x % 2) * (m % 2) + 2 * And(x / 2, m / 2)
  }

  /** 2**n-1, the argument an alignment takes. */
  predicate IsMask(m: nat) {
    m == 0 || (m % 2 == 1 && IsMask(m / 2))
  }

  lemma {:induction false} MaskIsRemainder(x: int, m: nat)
    requires IsMask(m)
    ensures And(x, m) == x % (m + 1)
    decreases m
  {
    if m > 0 {
      var h := m / 2;
      MaskIsRemainder(x / 2, h);
      HalfRemainder(x, h + 1);
    }
  }

  lemma HalfRemainder(x: int, n: int)
    requires n > 0
    ensures x % (2 * n) == x % 2 + 2 * ((x / 2) % n)
  {
    var q := (x / 2) / n;
    var r := x % 2 + 2 * ((x / 2) % n);
    assert x == 2 * (x / 2) + x % 2;
    assert x / 2 == n * q + (x / 2) % n;
    assert x == (2 * n) * q + r by {
      assert 2 * (n * q) == (2 * n) * q;
    }
    RemainderUnique(x, 2 * n, q, r);
  }

  lemma RemainderUnique(x: int, n: int, q: int, r: int)
    requires 0 <= r < n && x == n * q + r
    ensures x % n == r
  {
    var d := q - x / n;
    Distribute(n, q, x / n);
    assert n * d == x % n - r;
    if d >= 1 { ProductGrows(n, d); }
    if d <= -1 { Distribute(n, 0, d); ProductGrows(n, -d); }
  }

  lemma Distribute(n: int, a: int, b: int)
    ensures n * (a - b) == n * a - n * b
  {
  }

  lemma ProductGrows(n: int, d: int)
    requires n > 0 && d >= 1
    ensures n * d >= n
  {
  }
}
