/** What single characters, sets, frontiers and back references are, told without the scans that
    decide them (lstrlib.c:160-300, 353-362). */
module StrSets {
  import opened Wrappers
  import opened StrPattern

  // ---- Character classes ------------------------------------------------------------------------

  const LOWER: string := "abcdefghijklmnopqrstuvwxyz"
  const UPPER: string := "ABCDEFGHIJKLMNOPQRSTUVWXYZ"
  const DIGITS: string := "0123456789"
  const MARKS: string := "!\"#$%&'()*+,-./"
  const SIGNS: string := ":;<=>?@"
  const BRACKETS: string := "[\\]^_`{|}~"

  predicate In(c: int, s: string) { 0 <= c < 256 && c as char in s }

  /** The characters of the C locale that a small letter stands for. */
  predicate Of(c: int, l: char) {
    match l
    case 'a' => In(c, LOWER) || In(c, UPPER)
    case 'c' => c <= 31 || c == 127
    case 'd' => In(c, DIGITS)
    case 'l' => In(c, LOWER)
    case 'p' => In(c, MARKS) || In(c, SIGNS) || In(c, BRACKETS)
    case 's' => In(c, " \t\n\r") || c == 11 || c == 12
    case 'u' => In(c, UPPER)
    case 'w' => In(c, LOWER) || In(c, UPPER) || In(c, DIGITS)
    case 'x' => In(c, DIGITS) || In(c, "abcdef") || In(c, "ABCDEF")
    case _ => c == 0
  }

  /** What `%' and a character match: a capital letter stands for the other characters, and what
      is no class for itself. */
  predicate ClassHas(c: int, cl: int) {
    if In(cl, "acdlpsuwxz") then Of(c, cl as char)
    else if In(cl, "ACDLPSUWXZ") then !Of(c, (cl + 32) as char)
    else c == cl
  }

  lemma LowerExact(c: int)
    ensures Lower(c) <==> In(c, LOWER)
  {
  }

  lemma UpperExact(c: int)
    ensures Upper(c) <==> In(c, UPPER)
  {
  }

  lemma DigitExact(c: int)
    ensures Digit(c) <==> In(c, DIGITS)
  {
  }

  lemma PunctuationExact(c: int)
    ensures Graph(c) && !Alpha(c) && !Digit(c) <==> In(c, MARKS) || In(c, SIGNS) || In(c, BRACKETS)
  {
    MarksExact(c);
    SignsExact(c);
    BracketsExact(c);
    hide In;
  }

  lemma MarksExact(c: int)
    ensures 33 <= c <= 47 <==> In(c, MARKS)
  {
  }

  lemma SignsExact(c: int)
    ensures 58 <= c <= 64 <==> In(c, SIGNS)
  {
  }

  lemma BracketsExact(c: int)
    ensures 91 <= c <= 96 || 123 <= c <= 126 <==> In(c, BRACKETS)
  {
  }

  lemma HexExact(c: int)
    ensures 'a' as int <= c <= 'f' as int <==> In(c, "abcdef")
    ensures 'A' as int <= c <= 'F' as int <==> In(c, "ABCDEF")
  {
  }

  lemma SpaceExact(c: int)
    ensures Space(c) <==> In(c, " \t\n\r") || c == 11 || c == 12
  {
  }

  lemma LettersExact(cl: int)
    ensures In(cl, "acdlpsuwxz") <==> cl in ClassLetters()
    ensures In(cl, "ACDLPSUWXZ") <==> Upper(cl) && cl + 32 in ClassLetters()
  {
  }

  lemma OfExact(c: int, l: int)
    requires l in ClassLetters()
    ensures Lower(l) && (OfKind(c, l) <==> Of(c, l as char))
  {
    LowerExact(c);
    UpperExact(c);
    DigitExact(c);
    PunctuationExact(c);
    HexExact(c);
    SpaceExact(c);
    hide In, Lower, Upper, Graph, Space, Digit;
    LettersLower(l);
  }

  lemma LettersLower(l: int)
    requires l in ClassLetters()
    ensures Lower(l)
  {
  }

  lemma ClassExact(c: int, cl: int)
    ensures InClass(c, cl) <==> ClassHas(c, cl)
  {
    LettersExact(cl);
    if ToLower(cl) in ClassLetters() { OfExact(c, ToLower(cl)); }
    hide Of, OfKind, In, ClassLetters;
  }

  // ---- Sets -------------------------------------------------------------------------------------

  /** Characters of an element of a set: an escape, a range, or a single one. */
  function Width(pat: Str, i: nat, ec: nat): nat {
    if Is(pat, i, '%') then 2 else if Is(pat, i + 1, '-') && i + 2 < ec then 3 else 1
  }

  /** Places, each one element behind the one before it. */
  ghost predicate Elements(pat: Str, ec: nat, places: seq<nat>) {
    forall j :: 0 <= j < |places| - 1 ==> NextAt(pat, ec, places, j)
  }

  predicate NextAt(pat: Str, ec: nat, places: seq<nat>, j: nat)
    requires j < |places| - 1
  {
    places[j] < ec && places[j + 1] == places[j] + Width(pat, places[j], ec)
  }

  /** An element of the set that begins at `q' and ends in front of `ec' stands at `i'. */
  ghost predicate Element(pat: Str, q: nat, ec: nat, i: nat) {
    exists places :: Elements(pat, ec, places) && |places| > 0 && places[0] == q && places[|places| - 1] == i && i < ec
  }

  predicate ElementHas(c: int, pat: Str, i: nat, ec: nat) {
    if Is(pat, i, '%') then ClassHas(c, At(pat, i + 1))
    else if Is(pat, i + 1, '-') && i + 2 < ec then At(pat, i) <= c && c <= At(pat, i + 2)
    else c == At(pat, i)
  }

  ghost predicate SomeHas(c: int, pat: Str, q: nat, ec: nat) {
    exists i: nat :: Element(pat, q, ec, i) && ElementHas(c, pat, i, ec)
  }

  /** The set whose bracket is at `pi' and whose end is at `ec' has the character. */
  ghost predicate SetHas(c: int, pat: Str, pi: nat, ec: nat) {
    if Is(pat, pi + 1, '^') then !SomeHas(c, pat, pi + 2, ec) else SomeHas(c, pat, pi + 1, ec)
  }

  lemma FirstElement(pat: Str, q: nat, ec: nat)
    requires q < ec
    ensures Element(pat, q, ec, q)
  {
    var places := [q];
    assert Elements(pat, ec, places);
  }

  lemma NextElement(pat: Str, q: nat, ec: nat, i: nat)
    requires q < ec && Element(pat, q + Width(pat, q, ec), ec, i)
    ensures Element(pat, q, ec, i)
  {
    hide Width;
    var places :| Elements(pat, ec, places) && |places| > 0 && places[0] == q + Width(pat, q, ec) && places[|places| - 1] == i && i < ec;
    var all := [q] + places;
    forall j | 0 <= j < |all| - 1 ensures NextAt(pat, ec, all, j) {
      if j > 0 { assert NextAt(pat, ec, places, j - 1); }
    }
    assert Elements(pat, ec, all) && all[|all| - 1] == i;
  }

  lemma LaterElement(pat: Str, q: nat, ec: nat, i: nat)
    requires Element(pat, q, ec, i) && i != q
    ensures q < ec && Element(pat, q + Width(pat, q, ec), ec, i)
  {
    hide Width;
    var places :| Elements(pat, ec, places) && |places| > 0 && places[0] == q && places[|places| - 1] == i && i < ec;
    var rest := places[1..];
    assert NextAt(pat, ec, places, 0);
    forall j | 0 <= j < |rest| - 1 ensures NextAt(pat, ec, rest, j) { assert NextAt(pat, ec, places, j + 1); }
    assert Elements(pat, ec, rest) && rest[|rest| - 1] == i;
  }

  lemma ElementsBehind(pat: Str, q: nat, ec: nat, i: nat)
    requires Element(pat, q, ec, i)
    ensures q < ec
  {
    hide Width;
    if i != q { LaterElement(pat, q, ec, i); }
  }

  lemma CoversStep(c: int, pat: Str, q: nat, ec: nat)
    ensures Covers(c, pat, q, ec) <==> q < ec && (ElementHas(c, pat, q, ec) || Covers(c, pat, q + Width(pat, q, ec), ec))
  {
    ClassExact(c, At(pat, q + 1));
    hide InClass, ClassHas;
  }

  /** The scan of a set finds a character exactly if some element has it. */
  lemma {:induction false} CoversExact(c: int, pat: Str, q: nat, ec: nat)
    ensures Covers(c, pat, q, ec) <==> SomeHas(c, pat, q, ec)
    decreases ec - q
  {
    hide Covers, Element, ElementHas;
    CoversStep(c, pat, q, ec);
    if q < ec {
      var w := Width(pat, q, ec);
      CoversExact(c, pat, q + w, ec);
      FirstElement(pat, q, ec);
      forall i: nat ensures Element(pat, q, ec, i) <==> i == q || Element(pat, q + w, ec, i) {
        if Element(pat, q + w, ec, i) { NextElement(pat, q, ec, i); }
        if Element(pat, q, ec, i) && i != q { LaterElement(pat, q, ec, i); }
      }
    } else if SomeHas(c, pat, q, ec) {
      var i: nat :| Element(pat, q, ec, i) && ElementHas(c, pat, i, ec);
      ElementsBehind(pat, q, ec, i);
    }
  }

  lemma SetExact(c: int, pat: Str, pi: nat, ec: nat)
    ensures InSet(c, pat, pi, ec) <==> SetHas(c, pat, pi, ec)
  {
    hide Covers, SomeHas;
    CoversExact(c, pat, pi + 1, ec);
    CoversExact(c, pat, pi + 2, ec);
  }

  // ---- The end of an item -----------------------------------------------------------------------

  /** A character of a set, with the sign that escapes it. */
  function Skip(pat: Str, i: nat): nat { if Is(pat, i, '%') && At(pat, i + 1) != 0 then 2 else 1 }

  /** From place to place up to the first bracket that closes, where the first place cannot. */
  ghost predicate UpTo(pat: Str, places: seq<nat>) {
    && |places| >= 2 && Is(pat, places[|places| - 1], ']')
    && forall j :: 0 <= j < |places| - 1 ==> OnAt(pat, places, j)
  }

  predicate OnAt(pat: Str, places: seq<nat>, j: nat)
    requires j < |places| - 1
  {
    At(pat, places[j]) != 0 && (j > 0 ==> !Is(pat, places[j], ']')) && places[j + 1] == places[j] + Skip(pat, places[j])
  }

  /** The set whose first character is at `q' ends in front of `e'. */
  ghost predicate Closes(pat: Str, q: nat, e: nat) {
    exists places :: UpTo(pat, places) && places[0] == q && e == places[|places| - 1] + 1
  }

  lemma ClosesNow(pat: Str, q: nat)
    requires At(pat, q) != 0 && Is(pat, q + Skip(pat, q), ']')
    ensures Closes(pat, q, q + Skip(pat, q) + 1)
  {
    hide Is, At, Skip;
    var places := [q, q + Skip(pat, q)];
    assert OnAt(pat, places, 0);
    assert UpTo(pat, places);
  }

  lemma ClosesLater(pat: Str, q: nat, e: nat)
    requires At(pat, q) != 0 && !Is(pat, q + Skip(pat, q), ']') && Closes(pat, q + Skip(pat, q), e)
    ensures Closes(pat, q, e)
  {
    hide Is, At, Skip;
    var places :| UpTo(pat, places) && places[0] == q + Skip(pat, q) && e == places[|places| - 1] + 1;
    var all := [q] + places;
    forall j | 0 <= j < |all| - 1 ensures OnAt(pat, all, j) {
      if j > 0 { assert OnAt(pat, places, j - 1); }
    }
    assert all[|all| - 1] == places[|places| - 1];
    assert UpTo(pat, all);
  }

  lemma ClosesHow(pat: Str, q: nat, e: nat)
    requires Closes(pat, q, e)
    ensures At(pat, q) != 0
    ensures if Is(pat, q + Skip(pat, q), ']') then e == q + Skip(pat, q) + 1 else Closes(pat, q + Skip(pat, q), e)
  {
    hide Is, At, Skip;
    var places :| UpTo(pat, places) && places[0] == q && e == places[|places| - 1] + 1;
    assert OnAt(pat, places, 0);
    if |places| > 2 {
      assert OnAt(pat, places, 1);
      var rest := places[1..];
      forall j | 0 <= j < |rest| - 1 ensures OnAt(pat, rest, j) { assert OnAt(pat, places, j + 1); }
      assert rest[|rest| - 1] == places[|places| - 1];
      assert UpTo(pat, rest);
    }
  }

  lemma SetEndStep(pat: Str, q: nat)
    ensures SetEnd(pat, q) ==
      if At(pat, q) == 0 then None
      else if Is(pat, q + Skip(pat, q), ']') then Some(q + Skip(pat, q) + 1)
      else SetEnd(pat, q + Skip(pat, q))
  {
  }

  lemma {:induction false} SetEndExact(pat: Str, q: nat, e: nat)
    ensures SetEnd(pat, q) == Some(e) <==> Closes(pat, q, e)
    decreases |pat| - q
  {
    SetEndStep(pat, q);
    hide SetEnd, Closes, Skip, Is;
    if Closes(pat, q, e) { ClosesHow(pat, q, e); }
    if At(pat, q) != 0 {
      if Is(pat, q + Skip(pat, q), ']') {
        ClosesNow(pat, q);
      } else {
        SkipSome(pat, q);
        SetEndExact(pat, q + Skip(pat, q), e);
        if Closes(pat, q + Skip(pat, q), e) { ClosesLater(pat, q, e); }
      }
    }
  }

  lemma SkipSome(pat: Str, q: nat)
    ensures Skip(pat, q) > 0
  {
  }

  function SetStart(pat: Str, pi: nat): nat { if Is(pat, pi + 1, '^') then pi + 2 else pi + 1 }

  /** The item at `pi' ends in front of `ep'. */
  ghost predicate ItemEnds(pat: Str, pi: nat, ep: nat) {
    if Is(pat, pi, '%') then At(pat, pi + 1) != 0 && ep == pi + 2
    else if Is(pat, pi, '[') then Closes(pat, SetStart(pat, pi), ep)
    else ep == pi + 1
  }

  ghost predicate NeverEnds(pat: Str, pi: nat) { forall ep: nat :: !ItemEnds(pat, pi, ep) }

  /** The error of an item that has no end. */
  ghost predicate ItemFails(pat: Str, pi: nat, err: Error) {
    NeverEnds(pat, pi) && err == if Is(pat, pi, '%') then EndsWithPercent else MissingBracket
  }

  lemma FailsExact(pat: Str, pi: nat)
    requires At(pat, pi) != 0
    ensures forall err :: ClassEnd(pat, pi) == Malformed(err) <==> ItemFails(pat, pi, err)
  {
    ClassEndExact(pat, pi);
    hide SetEnd, Closes;
    if ClassEnd(pat, pi).Ends? { assert ItemEnds(pat, pi, ClassEnd(pat, pi).ep); }
  }

  /** An item ends where it should; otherwise an escape has no character, or a set no end. */
  lemma ClassEndExact(pat: Str, pi: nat)
    requires At(pat, pi) != 0
    ensures forall ep: nat :: ClassEnd(pat, pi) == Ends(ep) <==> ItemEnds(pat, pi, ep)
    ensures ClassEnd(pat, pi) == Malformed(EndsWithPercent) <==> Is(pat, pi, '%') && At(pat, pi + 1) == 0
    ensures ClassEnd(pat, pi) == Malformed(MissingBracket) <==>
      Is(pat, pi, '[') && forall ep: nat :: !Closes(pat, SetStart(pat, pi), ep)
  {
    hide SetEnd, Closes;
    forall ep: nat ensures SetEnd(pat, SetStart(pat, pi)) == Some(ep) <==> Closes(pat, SetStart(pat, pi), ep) {
      SetEndExact(pat, SetStart(pat, pi), ep);
    }
    var r := SetEnd(pat, SetStart(pat, pi));
    assert r.Some? ==> r == Some(r.value) && Closes(pat, SetStart(pat, pi), r.value);
  }

  // ---- Items at a place of the string -----------------------------------------------------------

  /** The item from `pi' to `ep' matches the character. */
  ghost predicate Accepts(c: int, pat: Str, pi: nat, ep: nat)
    requires ep > 0
  {
    if Is(pat, pi, '.') then true
    else if Is(pat, pi, '%') then ClassHas(c, At(pat, pi + 1))
    else if Is(pat, pi, '[') then SetHas(c, pat, pi, ep - 1)
    else c == At(pat, pi)
  }

  lemma AcceptsExact(c: int, pat: Str, pi: nat, ep: nat)
    requires ep > 0
    ensures Single(c, pat, pi, ep) <==> Accepts(c, pat, pi, ep)
  {
    ClassExact(c, At(pat, pi + 1));
    SetExact(c, pat, pi, ep - 1);
    hide InClass, ClassHas, InSet, SetHas;
  }

  /** At the place `si' the set begins to hold; the string has zero bytes at both ends. */
  ghost predicate Begins(src: Str, si: nat, pat: Str, pi: nat, ep: nat)
    requires si <= |src| && ep > 0
  {
    && !SetHas(if si == 0 then 0 else src[si - 1], pat, pi, ep - 1)
    && SetHas(if si == |src| then 0 else src[si], pat, pi, ep - 1)
  }

  lemma FrontierExact(src: Str, si: nat, pat: Str, pi: nat, ep: nat)
    requires si <= |src| && ep > 0
    ensures Frontier(src, si, pat, pi, ep) <==> Begins(src, si, pat, pi, ep)
  {
    hide InSet, SetHas;
    SetExact(if si == 0 then 0 else src[si - 1], pat, pi, ep - 1);
    SetExact(if si == |src| then 0 else src[si], pat, pi, ep - 1);
  }

  /** `d' is the digit of capture `l', which is finished, and its text stands again at `si'. */
  predicate Again(src: Str, si: nat, caps: seq<Cap>, d: int, l: nat) {
    && l < |caps| && d == '1' as int + l && caps[l].len >= 0
    && caps[l].init + caps[l].len <= |src| && si + caps[l].len <= |src|
    && forall j :: 0 <= j < caps[l].len ==> Agree(src, si, caps[l].init, j)
  }

  predicate Agree(src: Str, a: nat, b: nat, j: nat) { a + j < |src| && b + j < |src| && src[a + j] == src[b + j] }

  lemma TextAgrees(src: Str, a: nat, b: nat, n: nat)
    requires a + n <= |src| && b + n <= |src|
    ensures src[a..a + n] == src[b..b + n] <==> forall j :: 0 <= j < n ==> Agree(src, a, b, j)
  {
    var s, t := src[a..a + n], src[b..b + n];
    if s == t {
      forall j | 0 <= j < n ensures Agree(src, a, b, j) { assert s[j] == t[j]; }
    }
    if forall j :: 0 <= j < n ==> Agree(src, a, b, j) {
      forall j | 0 <= j < n ensures s[j] == t[j] { assert Agree(src, a, b, j); }
      assert s == t;
    }
  }

  lemma AgainExact(src: Str, si: nat, caps: seq<Cap>, d: int, l: nat)
    ensures Referred(caps, d) == Some(l) && Repeats(src, si, caps[l]) <==> Again(src, si, caps, d, l)
  {
    if l < |caps| && caps[l].len >= 0 && caps[l].init + caps[l].len <= |src| && si + caps[l].len <= |src| {
      TextAgrees(src, si, caps[l].init, caps[l].len);
    }
  }

  /** There is no capture of that number, or it is open. */
  predicate NoCapture(caps: seq<Cap>, d: int) {
    forall l: nat :: l < |caps| && d == '1' as int + l ==> caps[l].len == UNFINISHED
  }

  lemma ReferredExact(caps: seq<Cap>, d: int)
    ensures Referred(caps, d) == None <==> NoCapture(caps, d)
  {
    if Referred(caps, d) == None && '1' as int <= d < '1' as int + |caps| { assert caps[d - '1' as int].len == UNFINISHED; }
  }
}
