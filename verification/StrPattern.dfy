/** Lua patterns (lstrlib.c:160-440): what one item matches, and all the ways in which a pattern
    matches from a position, in the order in which the matcher tries them. */
module StrPattern {
  import opened Wrappers

  type Byte = x: int | 0 <= x < 256
  type Str = seq<Byte>

  /** A capture: where it begins, and its length, or one of two marks. */
  datatype Cap = Cap(init: nat, len: int)

  const UNFINISHED: int := -1
  const POSITION: int := -2
  const MAXCAPTURES: nat := 32

  datatype Error = EndsWithPercent | MissingBracket | Unbalanced | NoSetAfterF | TooManyCaptures | NoneToClose | BadIndex

  /** One way to match: the end of the match and the captures; or the error that is met on it. */
  datatype Out = Ok(e: nat, caps: seq<Cap>) | Err(err: Error)

  const ESC: int := '%' as int

  /** Strings end with a zero byte. */
  function At(s: Str, i: int): Byte { if 0 <= i < |s| then s[i] else 0 }

  predicate Is(s: Str, i: int, c: char) { At(s, i) == c as int }

  // ---- Single characters -------------------------------------------------------------------------

  predicate Lower(c: int) { 'a' as int <= c <= 'z' as int }
  predicate Upper(c: int) { 'A' as int <= c <= 'Z' as int }
  predicate Digit(c: int) { '0' as int <= c <= '9' as int }
  predicate Alpha(c: int) { Lower(c) || Upper(c) }
  predicate Graph(c: int) { 33 <= c <= 126 }
  predicate Space(c: int) { c == 32 || 9 <= c <= 13 }
  predicate Hex(c: int) { Digit(c) || 'a' as int <= c <= 'f' as int || 'A' as int <= c <= 'F' as int }

  function ToLower(c: int): int { if Upper(c) then c + 32 else c }

  /** match_class, in the C locale */
  predicate InClass(c: int, cl: int) {
    var l := ToLower(cl);
    if !Lower(l) || !(l in ClassLetters()) then cl == c
    else Lower(cl) <==> OfKind(c, l)
  }

  function ClassLetters(): seq<int> {
    ['a' as int, 'c' as int, 'd' as int, 'l' as int, 'p' as int, 's' as int, 'u' as int, 'w' as int, 'x' as int, 'z' as int]
  }

  predicate OfKind(c: int, l: int) {
    if l == 'a' as int then Alpha(c)
    else if l == 'c' as int then c < 32 || c == 127
    else if l == 'd' as int then Digit(c)
    else if l == 'l' as int then Lower(c)
    else if l == 'p' as int then Graph(c) && !Alpha(c) && !Digit(c)
    else if l == 's' as int then Space(c)
    else if l == 'u' as int then Upper(c)
    else if l == 'w' as int then Alpha(c) || Digit(c)
    else if l == 'x' as int then Hex(c)
    else c == 0
  }

  /** The end of the set that `q' is in, behind its `]'. */
  function SetEnd(pat: Str, q: nat): (r: Option<nat>)
    ensures r.Some? ==> q + 1 < r.value <= |pat|
    decreases |pat| - q
  {
    if At(pat, q) == 0 then None
    else
      var q2 := if At(pat, q) == ESC && At(pat, q + 1) != 0 then q + 2 else q + 1;
      if Is(pat, q2, ']') then Some(q2 + 1) else SetEnd(pat, q2)
  }

  datatype Class = Ends(ep: nat) | Malformed(err: Error)

  /** classend: where the single-character item at `pi' ends. */
  function ClassEnd(pat: Str, pi: nat): (r: Class)
    requires At(pat, pi) != 0
    ensures r.Ends? ==> pi < r.ep <= |pat|
  {
    if At(pat, pi) == ESC then
      if At(pat, pi + 1) == 0 then Malformed(EndsWithPercent) else Ends(pi + 2)
    else if Is(pat, pi, '[') then
      var r := SetEnd(pat, if Is(pat, pi + 1, '^') then pi + 2 else pi + 1);
      if r.None? then Malformed(MissingBracket) else Ends(r.value)
    else Ends(pi + 1)
  }

  /** Some element of the set between `q' and `ec' covers `c'. */
  predicate Covers(c: int, pat: Str, q: nat, ec: nat)
    decreases ec - q
  {
    q < ec &&
    if At(pat, q) == ESC then InClass(c, At(pat, q + 1)) || Covers(c, pat, q + 2, ec)
    else if Is(pat, q + 1, '-') && q + 2 < ec then At(pat, q) <= c <= At(pat, q + 2) || Covers(c, pat, q + 3, ec)
    else At(pat, q) == c || Covers(c, pat, q + 1, ec)
  }

  /** matchbracketclass, for the set from `pi' to its `]' at `ec' */
  predicate InSet(c: int, pat: Str, pi: nat, ec: nat) {
    if Is(pat, pi + 1, '^') then !Covers(c, pat, pi + 2, ec) else Covers(c, pat, pi + 1, ec)
  }

  /** singlematch */
  predicate Single(c: int, pat: Str, pi: nat, ep: nat)
    requires ep > 0
  {
    if Is(pat, pi, '.') then true
    else if At(pat, pi) == ESC then InClass(c, At(pat, pi + 1))
    else if Is(pat, pi, '[') then InSet(c, pat, pi, ep - 1)
    else At(pat, pi) == c
  }

  predicate Hits(src: Str, si: nat, pat: Str, pi: nat, ep: nat)
    requires ep > 0
  {
    si < |src| && Single(src[si], pat, pi, ep)
  }

  /** How many characters from `si' on the item matches in a row. */
  function Run(src: Str, si: nat, pat: Str, pi: nat, ep: nat): (n: nat)
    requires ep > 0 && si <= |src|
    ensures si + n <= |src|
    decreases |src| - si
  {
    if Hits(src, si, pat, pi, ep) then 1 + Run(src, si + 1, pat, pi, ep) else 0
  }

  // ---- Items that are more than a character --------------------------------------------------------

  /** The scan of matchbalance, inside `cont' opening characters. */
  function Balanced(src: Str, si: nat, b: int, e: int, cont: nat): (r: Option<nat>)
    requires si <= |src|
    ensures r.Some? ==> si < r.value <= |src|
    decreases |src| - si
  {
    if si >= |src| then None
    else if src[si] == e then (if cont <= 1 then Some(si + 1) else Balanced(src, si + 1, b, e, cont - 1))
    else Balanced(src, si + 1, b, e, if src[si] == b then cont + 1 else cont)
  }

  /** How deep in brackets `x' is, if one was opened before `si'; where both characters are the
      same they close. */
  function Depth(src: Str, si: nat, x: nat, b: int, e: int): int
    requires si <= x <= |src|
  {
    1 + (if b == e then 0 else Times(src[si..x], b)) - Times(src[si..x], e)
  }

  function Times(s: Str, c: int): nat { if 0 <= c < 256 then multiset(s)[c] else 0 }

  /** The first place where every bracket is closed. */
  predicate ClosesAt(src: Str, si: nat, x: nat, b: int, e: int) {
    && si < x <= |src| && Depth(src, si, x, b, e) == 0
    && forall y :: si <= y < x ==> Depth(src, si, y, b, e) != 0
  }

  lemma DepthNext(src: Str, si: nat, x: nat, b: int, e: int)
    requires si <= x < |src|
    ensures Depth(src, si, x + 1, b, e) ==
      Depth(src, si, x, b, e) + if src[x] == e then -1 else if src[x] == b then 1 else 0
  {
    assert src[si..x + 1] == src[si..x] + [src[x]];
  }

  lemma {:induction false} BalancedFrom(src: Str, si: nat, s: nat, b: int, e: int)
    requires si <= s <= |src| && Depth(src, si, s, b, e) >= 1
    requires forall y :: si <= y < s ==> Depth(src, si, y, b, e) != 0
    ensures var r := Balanced(src, s, b, e, Depth(src, si, s, b, e));
      if r.Some? then ClosesAt(src, si, r.value, b, e) else forall x: nat :: !ClosesAt(src, si, x, b, e)
    decreases |src| - s
  {
    hide Depth;
    if s < |src| {
      DepthNext(src, si, s, b, e);
      if src[s] != e || Depth(src, si, s, b, e) > 1 { BalancedFrom(src, si, s + 1, b, e); }
    }
  }

  /** The scan ends at the first place where every bracket is closed, and fails if there is none. */
  lemma BalancedExact(src: Str, si: nat, b: int, e: int)
    ensures si <= |src| ==> forall x: nat :: Balanced(src, si, b, e, 1) == Some(x) <==> ClosesAt(src, si, x, b, e)
  {
    if si <= |src| {
      BalancedFrom(src, si, si, b, e);
      hide Depth, Balanced;
    }
  }

  /** %f: the set begins to hold here. */
  predicate Frontier(src: Str, si: nat, pat: Str, pi: nat, ep: nat)
    requires ep > 0
  {
    var previous := if si == 0 then 0 else At(src, si - 1);
    !InSet(previous, pat, pi, ep - 1) && InSet(At(src, si), pat, pi, ep - 1)
  }

  /** capture_to_close: the last capture that is unfinished. */
  function ToClose(caps: seq<Cap>): (r: Option<nat>)
    ensures r.Some? ==> r.value < |caps| && caps[r.value].len == UNFINISHED
    ensures r.Some? ==> forall i :: r.value < i < |caps| ==> caps[i].len != UNFINISHED
    ensures r.None? ==> forall i :: 0 <= i < |caps| ==> caps[i].len != UNFINISHED
  {
    if caps == [] then None
    else if caps[|caps| - 1].len == UNFINISHED then Some(|caps| - 1)
    else ToClose(caps[..|caps| - 1])
  }

  /** check_capture, for the digit `d'. */
  function Referred(caps: seq<Cap>, d: int): (r: Option<nat>)
    ensures r.Some? ==> r.value < |caps|
  {
    var l := d - '1' as int;
    if l < 0 || l >= |caps| || caps[l].len == UNFINISHED then None else Some(l)
  }

  /** The captured text comes again at `si'; a position has none. */
  predicate Repeats(src: Str, si: nat, c: Cap) {
    && c.len >= 0 && c.init + c.len <= |src| && si + c.len <= |src|
    && src[si..si + c.len] == src[c.init..c.init + c.len]
  }

  // ---- All matches ---------------------------------------------------------------------------------

  /** Every way to match the pattern from `pi' on at `si', in the order of the search. */
  function Results(src: Str, pat: Str, si: nat, pi: nat, caps: seq<Cap>): seq<Out>
    requires si <= |src|
    decreases |pat| - pi, 0
  {
    var c := At(pat, pi);
    if c == 0 then [Ok(si, caps)]
    else if c == '(' as int then
      var position := Is(pat, pi + 1, ')');
      if |caps| >= MAXCAPTURES then [Err(TooManyCaptures)]
      else Results(src, pat, si, if position then pi + 2 else pi + 1, caps + [Cap(si, if position then POSITION else UNFINISHED)])
    else if c == ')' as int then
      var l := ToClose(caps);
      if l.None? then [Err(NoneToClose)]
      else Results(src, pat, si, pi + 1, caps[l.value := Cap(caps[l.value].init, si - caps[l.value].init)])
    else if c == ESC && Is(pat, pi + 1, 'b') then
      if At(pat, pi + 2) == 0 || At(pat, pi + 3) == 0 then [Err(Unbalanced)]
      else if At(src, si) != At(pat, pi + 2) then []
      else
        assert si < |src|;
        var e := Balanced(src, si + 1, At(pat, pi + 2), At(pat, pi + 3), 1);
        if e.None? then [] else Results(src, pat, e.value, pi + 4, caps)
    else if c == ESC && Is(pat, pi + 1, 'f') then
      if !Is(pat, pi + 2, '[') then [Err(NoSetAfterF)]
      else
        var r := ClassEnd(pat, pi + 2);
        if r.Malformed? then [Err(r.err)]
        else if !Frontier(src, si, pat, pi + 2, r.ep) then []
        else Results(src, pat, si, r.ep, caps)
    else if c == ESC && Digit(At(pat, pi + 1)) then
      var l := Referred(caps, At(pat, pi + 1));
      if l.None? then [Err(BadIndex)]
      else if !Repeats(src, si, caps[l.value]) then []
      else Results(src, pat, si + caps[l.value].len, pi + 2, caps)
    else if c == '$' as int && At(pat, pi + 1) == 0 then
      if si == |src| then [Ok(si, caps)] else []
    else
      var r := ClassEnd(pat, pi);
      if r.Malformed? then [Err(r.err)]
      else
        var hit := Hits(src, si, pat, pi, r.ep);
        if Is(pat, r.ep, '?') then
          (if hit then Results(src, pat, si + 1, r.ep + 1, caps) else []) + Results(src, pat, si, r.ep + 1, caps)
        else if Is(pat, r.ep, '*') then MostFirst(src, pat, si, r.ep + 1, caps, Run(src, si, pat, pi, r.ep))
        else if Is(pat, r.ep, '+') then
          if hit then MostFirst(src, pat, si + 1, r.ep + 1, caps, Run(src, si + 1, pat, pi, r.ep)) else []
        else if Is(pat, r.ep, '-') then LeastFirst(src, pat, si, pi, r.ep, caps)
        else if hit then Results(src, pat, si + 1, r.ep, caps) else []
  }

  /** After `n' repetitions, after one fewer, and so on. */
  function MostFirst(src: Str, pat: Str, si: nat, pi: nat, caps: seq<Cap>, n: nat): seq<Out>
    requires si + n <= |src|
    decreases |pat| - pi, n + 1
  {
    Results(src, pat, si + n, pi, caps) + if n == 0 then [] else MostFirst(src, pat, si, pi, caps, n - 1)
  }

  /** After no repetition of the item, after one, and so on. */
  function LeastFirst(src: Str, pat: Str, si: nat, pi: nat, ep: nat, caps: seq<Cap>): seq<Out>
    requires si <= |src| && 0 < ep < |pat|
    decreases |pat| - (ep + 1), |src| - si + 1
  {
    Results(src, pat, si, ep + 1, caps) +
      if Hits(src, si, pat, pi, ep) then LeastFirst(src, pat, si + 1, pi, ep, caps) else []
  }

  // ---- The cases of match ---------------------------------------------------------------------------

  lemma AtEnd(src: Str, pat: Str, si: nat, pi: nat, caps: seq<Cap>)
    requires si <= |src| && At(pat, pi) == 0
    ensures Results(src, pat, si, pi, caps) == [Ok(si, caps)]
  {
  }

  lemma AtOpen(src: Str, pat: Str, si: nat, pi: nat, caps: seq<Cap>)
    requires si <= |src| && At(pat, pi) == '(' as int
    ensures (if Is(pat, pi + 1, ')') then pi + 2 else pi + 1) <= |pat|
    ensures var position := Is(pat, pi + 1, ')');
      Results(src, pat, si, pi, caps) ==
        if |caps| >= MAXCAPTURES then [Err(TooManyCaptures)]
        else Results(src, pat, si, if position then pi + 2 else pi + 1, caps + [Cap(si, if position then POSITION else UNFINISHED)])
  {
  }

  lemma AtClose(src: Str, pat: Str, si: nat, pi: nat, caps: seq<Cap>)
    requires si <= |src| && At(pat, pi) == ')' as int
    ensures pi + 1 <= |pat|
    ensures var l := ToClose(caps);
      Results(src, pat, si, pi, caps) ==
        if l.None? then [Err(NoneToClose)]
        else Results(src, pat, si, pi + 1, caps[l.value := Cap(caps[l.value].init, si - caps[l.value].init)])
  {
    hide ToClose;
  }

  lemma AtBalance(src: Str, pat: Str, si: nat, pi: nat, caps: seq<Cap>)
    requires si <= |src| && At(pat, pi) == ESC && Is(pat, pi + 1, 'b')
    ensures At(pat, pi + 2) == 0 || At(pat, pi + 3) == 0 ==> Results(src, pat, si, pi, caps) == [Err(Unbalanced)]
    ensures At(pat, pi + 2) != 0 && At(pat, pi + 3) != 0 ==>
      pi + 4 <= |pat| &&
      if At(src, si) != At(pat, pi + 2) then Results(src, pat, si, pi, caps) == []
      else
        si < |src| &&
        var e := Balanced(src, si + 1, At(pat, pi + 2), At(pat, pi + 3), 1);
        Results(src, pat, si, pi, caps) == if e.None? then [] else Results(src, pat, e.value, pi + 4, caps)
  {
    hide Balanced;
  }

  lemma AtSet(src: Str, pat: Str, si: nat, pi: nat, caps: seq<Cap>)
    requires si <= |src| && At(pat, pi) == ESC && Is(pat, pi + 1, 'f')
    ensures !Is(pat, pi + 2, '[') ==> Results(src, pat, si, pi, caps) == [Err(NoSetAfterF)]
    ensures Is(pat, pi + 2, '[') ==>
      At(pat, pi + 2) != 0 &&
      var r := ClassEnd(pat, pi + 2);
      (r.Ends? ==> r.ep > pi) && Results(src, pat, si, pi, caps) ==
        if r.Malformed? then [Err(r.err)]
        else if !Frontier(src, si, pat, pi + 2, r.ep) then []
        else Results(src, pat, si, r.ep, caps)
  {
    hide ClassEnd, Frontier;
  }

  lemma AtReference(src: Str, pat: Str, si: nat, pi: nat, caps: seq<Cap>)
    requires si <= |src| && At(pat, pi) == ESC && Digit(At(pat, pi + 1))
    ensures pi + 2 <= |pat|
    ensures var l := Referred(caps, At(pat, pi + 1));
      if l.None? then Results(src, pat, si, pi, caps) == [Err(BadIndex)]
      else if !Repeats(src, si, caps[l.value]) then Results(src, pat, si, pi, caps) == []
      else
        && caps[l.value].len >= 0 && si + caps[l.value].len <= |src|
        && Results(src, pat, si, pi, caps) == Results(src, pat, si + caps[l.value].len, pi + 2, caps)
  {
    hide Referred;
  }

  lemma AtDollar(src: Str, pat: Str, si: nat, pi: nat, caps: seq<Cap>)
    requires si <= |src| && At(pat, pi) == '$' as int && At(pat, pi + 1) == 0
    ensures Results(src, pat, si, pi, caps) == if si == |src| then [Ok(si, caps)] else []
  {
  }

  /** Not one of the other cases. */
  predicate Item(pat: Str, pi: nat) {
    var c := At(pat, pi);
    && c != 0 && c != '(' as int && c != ')' as int
    && !(c == ESC && (Is(pat, pi + 1, 'b') || Is(pat, pi + 1, 'f') || Digit(At(pat, pi + 1))))
    && !(c == '$' as int && At(pat, pi + 1) == 0)
  }

  lemma IsItem(pat: Str, pi: nat)
    requires At(pat, pi) != 0 && At(pat, pi) != '(' as int && At(pat, pi) != ')' as int
    requires !(At(pat, pi) == ESC && Is(pat, pi + 1, 'b')) && !(At(pat, pi) == ESC && Is(pat, pi + 1, 'f'))
    requires !(At(pat, pi) == ESC && Digit(At(pat, pi + 1))) && !(At(pat, pi) == '$' as int && At(pat, pi + 1) == 0)
    ensures Item(pat, pi)
  {
  }

  lemma AtItem(src: Str, pat: Str, si: nat, pi: nat, caps: seq<Cap>)
    requires si <= |src| && Item(pat, pi)
    ensures var r := ClassEnd(pat, pi);
      if r.Malformed? then Results(src, pat, si, pi, caps) == [Err(r.err)]
      else
        var hit := Hits(src, si, pat, pi, r.ep);
        && (hit ==> si < |src|)
        && (Is(pat, r.ep, '?') || Is(pat, r.ep, '*') || Is(pat, r.ep, '+') || Is(pat, r.ep, '-') ==> r.ep < |pat|)
        && pi < r.ep <= |pat|
        && Results(src, pat, si, pi, caps) ==
          if Is(pat, r.ep, '?') then
            (if hit then Results(src, pat, si + 1, r.ep + 1, caps) else []) + Results(src, pat, si, r.ep + 1, caps)
          else if Is(pat, r.ep, '*') then MostFirst(src, pat, si, r.ep + 1, caps, Run(src, si, pat, pi, r.ep))
          else if Is(pat, r.ep, '+') then
            if hit then MostFirst(src, pat, si + 1, r.ep + 1, caps, Run(src, si + 1, pat, pi, r.ep)) else []
          else if Is(pat, r.ep, '-') then LeastFirst(src, pat, si, pi, r.ep, caps)
          else if hit then Results(src, pat, si + 1, r.ep, caps) else []
  {
    hide ClassEnd, Single, Run, MostFirst, LeastFirst;
  }
}
