/** What the matches of a pattern are, whatever the order of the search; where they and their
    captures lie; and patterns on which the matcher meets no error. */
module StrTheory {
  import opened Wrappers
  import opened StrPattern
  import opened StrSets

  // ---- A declarative account ------------------------------------------------------------------

  /** The item matches every character of src[si..x]. */
  ghost predicate Spans(src: Str, si: nat, x: int, pat: Str, pi: nat, ep: nat)
    requires ep > 0
  {
    si <= x <= |src| && forall j :: si <= j < x ==> Accepts(src[j], pat, pi, ep)
  }

  /** How often the item may be repeated. */
  predicate Often(pat: Str, ep: nat, k: int) {
    if Is(pat, ep, '?') then k <= 1
    else if Is(pat, ep, '*') || Is(pat, ep, '-') then true
    else if Is(pat, ep, '+') then k >= 1
    else k == 1
  }

  /** Where the pattern goes on behind the item. */
  function Rest(pat: Str, ep: nat): nat { if Repeated(pat, ep) then ep + 1 else ep }

  predicate Repeated(pat: Str, ep: nat) { Is(pat, ep, '?') || Is(pat, ep, '*') || Is(pat, ep, '+') || Is(pat, ep, '-') }

  /** %b: the text src[si..x] begins with the opening character and ends where it is closed first. */
  predicate Bracketed(src: Str, pat: Str, si: nat, pi: nat, x: nat) {
    si < |src| && src[si] == At(pat, pi + 2) && ClosesAt(src, si + 1, x, At(pat, pi + 2), At(pat, pi + 3))
  }

  /** %f: the set from `pi + 2' to `ep' begins to hold. */
  ghost predicate Borders(src: Str, si: nat, pat: Str, pi: nat, ep: nat)
    requires si <= |src|
  {
    pi < ep <= |pat| && Is(pat, pi + 2, '[') && ItemEnds(pat, pi + 2, ep) && Begins(src, si, pat, pi + 2, ep)
  }

  /** A digit: what capture `l' holds stands here again. */
  predicate Quotes(src: Str, si: nat, pat: Str, pi: nat, caps: seq<Cap>, l: nat) {
    Again(src, si, caps, At(pat, pi + 1), l)
  }

  /** A way through the pattern from `pi' on at `si': it matches src[si..o.e] and turns the captures
      into `o.caps', or it meets the error `o.err'. */
  ghost predicate Derives(src: Str, pat: Str, si: nat, pi: nat, caps: seq<Cap>, o: Out)
    requires si <= |src|
    decreases |pat| - pi
  {
    var c := At(pat, pi);
    if c == 0 then o == Ok(si, caps)
    else if c == '(' as int then
      var position := Is(pat, pi + 1, ')');
      if |caps| >= 32 then o == Err(TooManyCaptures)
      else Derives(src, pat, si, if position then pi + 2 else pi + 1, caps + [Cap(si, if position then POSITION else UNFINISHED)], o)
    else if c == ')' as int then
      var l := ToClose(caps);
      if l.None? then o == Err(NoneToClose)
      else Derives(src, pat, si, pi + 1, caps[l.value := Cap(caps[l.value].init, si - caps[l.value].init)], o)
    else if c == ESC && Is(pat, pi + 1, 'b') then
      if At(pat, pi + 2) == 0 || At(pat, pi + 3) == 0 then o == Err(Unbalanced)
      else exists x: nat :: Bracketed(src, pat, si, pi, x) && Derives(src, pat, x, pi + 4, caps, o)
    else if c == ESC && Is(pat, pi + 1, 'f') then
      if !Is(pat, pi + 2, '[') then o == Err(NoSetAfterF)
      else
        || (o.Err? && ItemFails(pat, pi + 2, o.err))
        || exists ep: nat :: Borders(src, si, pat, pi, ep) && Derives(src, pat, si, ep, caps, o)
    else if c == ESC && In(At(pat, pi + 1), DIGITS) then
      if NoCapture(caps, At(pat, pi + 1)) then o == Err(BadIndex)
      else exists l: nat :: Quotes(src, si, pat, pi, caps, l) && Derives(src, pat, si + caps[l].len, pi + 2, caps, o)
    else if c == '$' as int && At(pat, pi + 1) == 0 then si == |src| && o == Ok(si, caps)
    else
      || (o.Err? && ItemFails(pat, pi, o.err))
      || exists ep: nat, x: nat :: pi < ep <= |pat| && ItemEnds(pat, pi, ep)
           && Spans(src, si, x, pat, pi, ep) && Often(pat, ep, x - si) && Derives(src, pat, x, Rest(pat, ep), caps, o)
  }

  lemma {:induction false} RunIs(src: Str, si: nat, pat: Str, pi: nat, ep: nat, x: nat)
    requires ep > 0 && si <= |src|
    ensures Spans(src, si, x, pat, pi, ep) <==> si <= x <= si + Run(src, si, pat, pi, ep)
    decreases |src| - si
  {
    hide Single, Accepts;
    if si < |src| { AcceptsExact(src[si], pat, pi, ep); }
    if x > si && Hits(src, si, pat, pi, ep) {
      RunIs(src, si + 1, pat, pi, ep, x);
      assert Spans(src, si, x, pat, pi, ep) <==> Spans(src, si + 1, x, pat, pi, ep);
    }
  }

  lemma MostStep(src: Str, pat: Str, si: nat, pi: nat, caps: seq<Cap>, n: nat)
    requires si + n <= |src|
    ensures MostFirst(src, pat, si, pi, caps, n) ==
      Results(src, pat, si + n, pi, caps) + if n == 0 then [] else MostFirst(src, pat, si, pi, caps, n - 1)
  {
    hide Results;
  }

  /** Some place in src[lo..hi] from which the rest of the pattern gives the result. */
  ghost predicate InReach(src: Str, pat: Str, lo: nat, hi: nat, np: nat, caps: seq<Cap>, o: Out)
    requires hi <= |src|
  {
    exists x: nat :: lo <= x <= hi && o in Results(src, pat, x, np, caps)
  }

  lemma ReachLast(src: Str, pat: Str, lo: nat, hi: nat, np: nat, caps: seq<Cap>, o: Out)
    requires lo <= hi <= |src|
    ensures InReach(src, pat, lo, hi, np, caps, o) <==>
      o in Results(src, pat, hi, np, caps) || (lo < hi && InReach(src, pat, lo, hi - 1, np, caps, o))
  {
    hide Results;
    if x: nat :| lo <= x <= hi && o in Results(src, pat, x, np, caps) {
      assert x == hi || x <= hi - 1;
    }
  }

  lemma ReachFirst(src: Str, pat: Str, lo: nat, hi: nat, np: nat, caps: seq<Cap>, o: Out)
    requires lo <= hi <= |src|
    ensures InReach(src, pat, lo, hi, np, caps, o) <==>
      o in Results(src, pat, lo, np, caps) || InReach(src, pat, lo + 1, hi, np, caps, o)
  {
    hide Results;
    if x: nat :| lo <= x <= hi && o in Results(src, pat, x, np, caps) {
      assert x == lo || lo + 1 <= x;
    }
  }

  lemma {:induction false} InMost(src: Str, pat: Str, si: nat, pi: nat, caps: seq<Cap>, n: nat, o: Out)
    requires si + n <= |src|
    ensures o in MostFirst(src, pat, si, pi, caps, n) <==> InReach(src, pat, si, si + n, pi, caps, o)
    decreases n
  {
    hide Results, MostFirst, InReach;
    MostStep(src, pat, si, pi, caps, n);
    ReachLast(src, pat, si, si + n, pi, caps, o);
    if n > 0 { InMost(src, pat, si, pi, caps, n - 1, o); }
  }

  lemma LeastStep(src: Str, pat: Str, si: nat, pi: nat, ep: nat, caps: seq<Cap>)
    requires si <= |src| && 0 < ep < |pat|
    ensures Hits(src, si, pat, pi, ep) ==> si < |src|
    ensures Hits(src, si, pat, pi, ep) ==>
      LeastFirst(src, pat, si, pi, ep, caps) == Results(src, pat, si, ep + 1, caps) + LeastFirst(src, pat, si + 1, pi, ep, caps)
    ensures !Hits(src, si, pat, pi, ep) ==> LeastFirst(src, pat, si, pi, ep, caps) == Results(src, pat, si, ep + 1, caps)
  {
    hide Results, Single;
  }

  lemma RunStep(src: Str, si: nat, pat: Str, pi: nat, ep: nat)
    requires ep > 0 && si <= |src|
    ensures Hits(src, si, pat, pi, ep) ==> si < |src| && Run(src, si, pat, pi, ep) == 1 + Run(src, si + 1, pat, pi, ep)
    ensures !Hits(src, si, pat, pi, ep) ==> Run(src, si, pat, pi, ep) == 0
  {
    hide Single;
  }

  lemma {:induction false} InLeast(src: Str, pat: Str, si: nat, pi: nat, ep: nat, caps: seq<Cap>, o: Out)
    requires si <= |src| && 0 < ep < |pat|
    ensures o in LeastFirst(src, pat, si, pi, ep, caps) <==> InReach(src, pat, si, si + Run(src, si, pat, pi, ep), ep + 1, caps, o)
    decreases |src| - si
  {
    hide Results, LeastFirst, Hits, Run, InReach;
    LeastStep(src, pat, si, pi, ep, caps);
    RunStep(src, si, pat, pi, ep);
    ReachFirst(src, pat, si, si + Run(src, si, pat, pi, ep), ep + 1, caps, o);
    if Hits(src, si, pat, pi, ep) {
      InLeast(src, pat, si + 1, pi, ep, caps, o);
    } else {
      ReachNone(src, pat, si, ep + 1, caps, o);
    }
  }

  lemma ReachNone(src: Str, pat: Str, si: nat, np: nat, caps: seq<Cap>, o: Out)
    requires si <= |src|
    ensures !InReach(src, pat, si + 1, si, np, caps, o)
  {
  }

  // ---- The matcher finds them all -------------------------------------------------------------------

  /** A way through the pattern, or an error, is among the results exactly if the account has it. */
  lemma {:induction false} ResultsExact(src: Str, pat: Str, si: nat, pi: nat, caps: seq<Cap>, o: Out)
    ensures si <= |src| ==> (o in Results(src, pat, si, pi, caps) <==> Derives(src, pat, si, pi, caps, o))
    decreases |pat| - pi
  {
    if si <= |src| && At(pat, pi) != 0 {
      hide Results, Derives, ClassEnd, Balanced, Frontier, Repeats, Referred, ToClose;
      if !Item(pat, pi) {
        forall x: nat, np: nat, cs | pi < np <= |pat| && x <= |src| ensures Same(src, pat, x, np, cs, o) {
          ResultsExact(src, pat, x, np, cs, o);
        }
        SpecialExact(src, pat, si, pi, caps, o);
      } else {
        AtItem(src, pat, si, pi, caps);
        var r := ClassEnd(pat, pi);
        if r.Ends? {
          var np := Rest(pat, r.ep);
          NextInside(pat, r.ep);
          forall x: nat | x <= |src| ensures Same(src, pat, x, np, caps, o) {
            ResultsExact(src, pat, x, np, caps, o);
          }
        }
        ItemExact(src, pat, si, pi, caps, o);
      }
    } else if si <= |src| {
      AtEnd(src, pat, si, pi, caps);
      hide Results;
    }
  }

  ghost predicate Same(src: Str, pat: Str, si: nat, pi: nat, caps: seq<Cap>, o: Out)
    requires si <= |src|
  {
    o in Results(src, pat, si, pi, caps) <==> Derives(src, pat, si, pi, caps, o)
  }

  lemma NextInside(pat: Str, ep: nat)
    requires ep <= |pat|
    ensures Rest(pat, ep) <= |pat|
  {
  }

  /** Everything but single characters and their repetition. */
  lemma SpecialExact(src: Str, pat: Str, si: nat, pi: nat, caps: seq<Cap>, o: Out)
    requires si <= |src| && At(pat, pi) != 0 && !Item(pat, pi)
    requires forall x: nat, np: nat, cs :: pi < np <= |pat| && x <= |src| ==> Same(src, pat, x, np, cs, o)
    ensures Same(src, pat, si, pi, caps, o)
  {
    hide Results, ClassEnd, Balanced, ClosesAt, Frontier, Repeats, Referred, ToClose;
    var c := At(pat, pi);
    if c == '(' as int {
      AtOpen(src, pat, si, pi, caps);
      var position := Is(pat, pi + 1, ')');
      hide Derives;
      OpenDerives(src, pat, si, pi, caps, o);
      if |caps| < MAXCAPTURES {
        assert Same(src, pat, si, if position then pi + 2 else pi + 1, caps + [Cap(si, if position then POSITION else UNFINISHED)], o);
      }
    } else if c == ')' as int {
      AtClose(src, pat, si, pi, caps);
      var l := ToClose(caps);
      if l.Some? {
        assert Same(src, pat, si, pi + 1, caps[l.value := Cap(caps[l.value].init, si - caps[l.value].init)], o);
      }
    } else if c == '$' as int {
      AtDollar(src, pat, si, pi, caps);
    } else {
      EscapeExact(src, pat, si, pi, caps, o);
    }
  }

  lemma OpenDerives(src: Str, pat: Str, si: nat, pi: nat, caps: seq<Cap>, o: Out)
    requires si <= |src| && At(pat, pi) == '(' as int
    ensures var position := Is(pat, pi + 1, ')');
      Derives(src, pat, si, pi, caps, o) <==>
        if |caps| >= MAXCAPTURES then o == Err(TooManyCaptures)
        else Derives(src, pat, si, if position then pi + 2 else pi + 1, caps + [Cap(si, if position then POSITION else UNFINISHED)], o)
  {
  }

  // ---- The cases of the account, as the matcher decides them -----------------------------------------

  lemma BalanceDerives(src: Str, pat: Str, si: nat, pi: nat, caps: seq<Cap>, o: Out)
    requires si <= |src| && At(pat, pi) == ESC && Is(pat, pi + 1, 'b')
    ensures Derives(src, pat, si, pi, caps, o) <==>
      if At(pat, pi + 2) == 0 || At(pat, pi + 3) == 0 then o == Err(Unbalanced)
      else
        && si < |src| && src[si] == At(pat, pi + 2)
        && var r := Balanced(src, si + 1, At(pat, pi + 2), At(pat, pi + 3), 1);
        && r.Some? && Derives(src, pat, r.value, pi + 4, caps, o)
  {
    hide ClosesAt, Balanced;
    if si < |src| {
      BalancedExact(src, si + 1, At(pat, pi + 2), At(pat, pi + 3));
      var r := Balanced(src, si + 1, At(pat, pi + 2), At(pat, pi + 3), 1);
      if r.Some? && src[si] == At(pat, pi + 2) { assert Bracketed(src, pat, si, pi, r.value); }
    }
  }

  lemma FrontierDerives(src: Str, pat: Str, si: nat, pi: nat, caps: seq<Cap>, o: Out)
    requires si <= |src| && At(pat, pi) == ESC && Is(pat, pi + 1, 'f')
    ensures Derives(src, pat, si, pi, caps, o) <==>
      if !Is(pat, pi + 2, '[') then o == Err(NoSetAfterF)
      else
        var r := ClassEnd(pat, pi + 2);
        if r.Malformed? then o == Err(r.err)
        else Frontier(src, si, pat, pi + 2, r.ep) && Derives(src, pat, si, r.ep, caps, o)
  {
    hide ClassEnd, ItemEnds, ItemFails, Frontier, Begins;
    if Is(pat, pi + 2, '[') {
      ClassEndExact(pat, pi + 2);
      FailsExact(pat, pi + 2);
      var r := ClassEnd(pat, pi + 2);
      if r.Ends? {
        FrontierExact(src, si, pat, pi + 2, r.ep);
        if Frontier(src, si, pat, pi + 2, r.ep) { assert Borders(src, si, pat, pi, r.ep); }
      }
    }
  }

  lemma QuoteDerives(src: Str, pat: Str, si: nat, pi: nat, caps: seq<Cap>, o: Out)
    requires si <= |src| && At(pat, pi) == ESC && Digit(At(pat, pi + 1))
    ensures Derives(src, pat, si, pi, caps, o) <==>
      var l := Referred(caps, At(pat, pi + 1));
      if l.None? then o == Err(BadIndex)
      else Repeats(src, si, caps[l.value]) && Derives(src, pat, si + caps[l.value].len, pi + 2, caps, o)
  {
    hide Referred, Repeats, Again, NoCapture, Digit, In;
    ReferredExact(caps, At(pat, pi + 1));
    DigitExact(At(pat, pi + 1));
    NotLetters(At(pat, pi + 1));
    forall l: nat ensures Quotes(src, si, pat, pi, caps, l) <==>
      Referred(caps, At(pat, pi + 1)) == Some(l) && Repeats(src, si, caps[l])
    {
      AgainExact(src, si, caps, At(pat, pi + 1), l);
    }
    var l := Referred(caps, At(pat, pi + 1));
    if l.Some? && Repeats(src, si, caps[l.value]) { assert Quotes(src, si, pat, pi, caps, l.value); }
  }

  lemma NotLetters(d: int)
    requires Digit(d)
    ensures d != 'b' as int && d != 'f' as int
  {
  }

  lemma EscapeExact(src: Str, pat: Str, si: nat, pi: nat, caps: seq<Cap>, o: Out)
    requires si <= |src| && At(pat, pi) == ESC && !Item(pat, pi)
    requires forall x: nat, np: nat, cs :: pi < np <= |pat| && x <= |src| ==> Same(src, pat, x, np, cs, o)
    ensures Same(src, pat, si, pi, caps, o)
  {
    hide Results, Derives, Balanced, Frontier, Repeats, Referred, ClassEnd;
    if Is(pat, pi + 1, 'b') {
      AtBalance(src, pat, si, pi, caps);
      BalanceDerives(src, pat, si, pi, caps, o);
      if At(pat, pi + 2) != 0 && At(pat, pi + 3) != 0 && At(src, si) == At(pat, pi + 2) {
        var r := Balanced(src, si + 1, At(pat, pi + 2), At(pat, pi + 3), 1);
        if r.Some? { assert Same(src, pat, r.value, pi + 4, caps, o); }
      }
    } else if Is(pat, pi + 1, 'f') {
      AtSet(src, pat, si, pi, caps);
      FrontierDerives(src, pat, si, pi, caps, o);
      if Is(pat, pi + 2, '[') {
        var r := ClassEnd(pat, pi + 2);
        if r.Ends? { assert Same(src, pat, si, r.ep, caps, o); }
      }
    } else {
      AtReference(src, pat, si, pi, caps);
      QuoteDerives(src, pat, si, pi, caps, o);
      var l := Referred(caps, At(pat, pi + 1));
      if l.Some? && Repeats(src, si, caps[l.value]) {
        assert Same(src, pat, si + caps[l.value].len, pi + 2, caps, o);
      }
    }
  }

  ghost predicate RestSame(src: Str, pat: Str, np: nat, caps: seq<Cap>, o: Out) {
    forall x: nat :: x <= |src| ==> Same(src, pat, x, np, caps, o)
  }

  /** Single characters, repeated greedily or not: the order does not matter for what is matched. */
  lemma ItemExact(src: Str, pat: Str, si: nat, pi: nat, caps: seq<Cap>, o: Out)
    requires si <= |src| && Item(pat, pi)
    requires var r := ClassEnd(pat, pi); r.Ends? ==> RestSame(src, pat, Rest(pat, r.ep), caps, o)
    ensures Same(src, pat, si, pi, caps, o)
  {
    AtItem(src, pat, si, pi, caps);
    ItemDerives(src, pat, si, pi, caps, o);
    var r := ClassEnd(pat, pi);
    hide Results, Derives, ClassEnd, Item;
    if r.Ends? {
      ItemInResults(src, pat, si, pi, r.ep, caps, o);
      var np := Rest(pat, r.ep);
      forall x: nat | x <= |src|
        ensures o in Results(src, pat, x, np, caps) <==> Derives(src, pat, x, np, caps, o)
      {
        assert Same(src, pat, x, np, caps, o);
      }
    }
  }

  lemma ItemDerives(src: Str, pat: Str, si: nat, pi: nat, caps: seq<Cap>, o: Out)
    requires si <= |src| && Item(pat, pi)
    ensures var r := ClassEnd(pat, pi);
      Derives(src, pat, si, pi, caps, o) <==>
        if r.Malformed? then o == Err(r.err)
        else exists x: nat ::
          Spans(src, si, x, pat, pi, r.ep) && Often(pat, r.ep, x - si) && Derives(src, pat, x, Rest(pat, r.ep), caps, o)
  {
    hide ClassEnd, ItemEnds, ItemFails, Spans, Often, Digit, In;
    FailsExact(pat, pi);
    DigitExact(At(pat, pi + 1));
    ClassEndExact(pat, pi);
    var r := ClassEnd(pat, pi);
    if r.Ends? { assert ItemEnds(pat, pi, r.ep); }
  }

  /** A place that the item may lead to, and a result of the rest from there. */
  ghost predicate LedTo(src: Str, pat: Str, si: nat, pi: nat, ep: nat, np: nat, caps: seq<Cap>, o: Out)
    requires ep > 0
  {
    exists x: nat :: Spans(src, si, x, pat, pi, ep) && Often(pat, ep, x - si) && o in Results(src, pat, x, np, caps)
  }

  /** What the item leads to, by the kind of repetition. */
  lemma LedByKind(src: Str, pat: Str, si: nat, pi: nat, ep: nat, np: nat, caps: seq<Cap>, o: Out)
    requires si <= |src| && ep > 0
    ensures si + Run(src, si, pat, pi, ep) <= |src|
    ensures var n := Run(src, si, pat, pi, ep);
      LedTo(src, pat, si, pi, ep, np, caps, o) <==>
        if Is(pat, ep, '?') then InReach(src, pat, si, if n > 0 then si + 1 else si, np, caps, o)
        else if Is(pat, ep, '*') || Is(pat, ep, '-') then InReach(src, pat, si, si + n, np, caps, o)
        else if Is(pat, ep, '+') then InReach(src, pat, si + 1, si + n, np, caps, o)
        else n > 0 && o in Results(src, pat, si + 1, np, caps)
  {
    hide Results, Spans, Run, Is;
    forall x: nat ensures Spans(src, si, x, pat, pi, ep) <==> si <= x <= si + Run(src, si, pat, pi, ep) {
      RunIs(src, si, pat, pi, ep, x);
    }
  }

  lemma KindsApart(pat: Str, ep: nat)
    requires Is(pat, ep, '+')
    ensures !Is(pat, ep, '?') && !Is(pat, ep, '*') && !Is(pat, ep, '-')
  {
  }

  lemma OptionalIn(src: Str, pat: Str, si: nat, pi: nat, ep: nat, caps: seq<Cap>, o: Out)
    requires si <= |src| && 0 < ep
    ensures Hits(src, si, pat, pi, ep) ==> si < |src|
    ensures si + Run(src, si, pat, pi, ep) <= |src|
    ensures o in (if Hits(src, si, pat, pi, ep) then Results(src, pat, si + 1, ep + 1, caps) else []) + Results(src, pat, si, ep + 1, caps)
      <==> InReach(src, pat, si, if Run(src, si, pat, pi, ep) > 0 then si + 1 else si, ep + 1, caps, o)
  {
    hide Results, Run, InReach, Single;
    RunStep(src, si, pat, pi, ep);
    ReachFirst(src, pat, si, if Run(src, si, pat, pi, ep) > 0 then si + 1 else si, ep + 1, caps, o);
    if Hits(src, si, pat, pi, ep) {
      ReachFirst(src, pat, si + 1, si + 1, ep + 1, caps, o);
      ReachNone(src, pat, si + 1, ep + 1, caps, o);
    } else {
      ReachNone(src, pat, si, ep + 1, caps, o);
    }
  }

  lemma PlusIn(src: Str, pat: Str, si: nat, pi: nat, ep: nat, caps: seq<Cap>, o: Out)
    requires si <= |src| && 0 < ep
    ensures Hits(src, si, pat, pi, ep) ==> si < |src|
    ensures si + Run(src, si, pat, pi, ep) <= |src|
    ensures o in (if Hits(src, si, pat, pi, ep) then MostFirst(src, pat, si + 1, ep + 1, caps, Run(src, si + 1, pat, pi, ep)) else [])
      <==> InReach(src, pat, si + 1, si + Run(src, si, pat, pi, ep), ep + 1, caps, o)
  {
    hide Results, Run, InReach, Single, MostFirst;
    RunStep(src, si, pat, pi, ep);
    if Hits(src, si, pat, pi, ep) {
      InMost(src, pat, si + 1, ep + 1, caps, Run(src, si + 1, pat, pi, ep), o);
    } else {
      ReachNone(src, pat, si, ep + 1, caps, o);
    }
  }

  /** The results of an item: those of the rest, from all places that the item may lead to. */
  lemma ItemInResults(src: Str, pat: Str, si: nat, pi: nat, ep: nat, caps: seq<Cap>, o: Out)
    requires si <= |src| && Item(pat, pi) && ClassEnd(pat, pi) == Ends(ep)
    ensures o in Results(src, pat, si, pi, caps) <==> LedTo(src, pat, si, pi, ep, Rest(pat, ep), caps, o)
  {
    hide Results, ClassEnd, MostFirst, LeastFirst, Item, Run, InReach, LedTo, Hits, Is;
    AtItem(src, pat, si, pi, caps);
    LedByKind(src, pat, si, pi, ep, Rest(pat, ep), caps, o);
    if Is(pat, ep, '?') {
      OptionalIn(src, pat, si, pi, ep, caps, o);
    } else if Is(pat, ep, '*') {
      InMost(src, pat, si, ep + 1, caps, Run(src, si, pat, pi, ep), o);
    } else if Is(pat, ep, '+') {
      KindsApart(pat, ep);
      PlusIn(src, pat, si, pi, ep, caps, o);
    } else if Is(pat, ep, '-') {
      InLeast(src, pat, si, pi, ep, caps, o);
    } else {
      RunStep(src, si, pat, pi, ep);
    }
  }

  // ---- Which way comes first ------------------------------------------------------------------------

  /** The item may lead to `x', and the rest of the pattern has a way to go on there. */
  ghost predicate GoesOn(src: Str, pat: Str, si: nat, pi: nat, ep: nat, caps: seq<Cap>, x: nat) {
    && ep > 0 && Spans(src, si, x, pat, pi, ep) && Often(pat, ep, x - si)
    && Results(src, pat, x, Rest(pat, ep), caps) != []
  }

  /** Among the places it goes on from, the first way starts at the last one, or the first one. */
  ghost predicate StartsAt(src: Str, pat: Str, np: nat, caps: seq<Cap>, lo: nat, hi: nat, last: bool, rs: seq<Out>, x: nat) {
    && lo <= x <= hi <= |src| && rs != [] && Results(src, pat, x, np, caps) != []
    && rs[0] == Results(src, pat, x, np, caps)[0]
    && forall y: nat :: lo <= y <= hi && Results(src, pat, y, np, caps) != [] ==> if last then y <= x else x <= y
  }

  lemma {:induction false} MostStarts(src: Str, pat: Str, si: nat, np: nat, caps: seq<Cap>, n: nat) returns (x: nat)
    requires si + n <= |src| && MostFirst(src, pat, si, np, caps, n) != []
    ensures StartsAt(src, pat, np, caps, si, si + n, true, MostFirst(src, pat, si, np, caps, n), x)
    decreases n
  {
    hide Results, MostFirst;
    MostStep(src, pat, si, np, caps, n);
    x := si + n;
    if Results(src, pat, x, np, caps) == [] { x := MostStarts(src, pat, si, np, caps, n - 1); }
  }

  lemma {:induction false} LeastStarts(src: Str, pat: Str, si: nat, pi: nat, ep: nat, caps: seq<Cap>) returns (x: nat)
    requires si <= |src| && 0 < ep < |pat| && LeastFirst(src, pat, si, pi, ep, caps) != []
    ensures si + Run(src, si, pat, pi, ep) <= |src|
    ensures StartsAt(src, pat, ep + 1, caps, si, si + Run(src, si, pat, pi, ep), false, LeastFirst(src, pat, si, pi, ep, caps), x)
    decreases |src| - si
  {
    hide Results, LeastFirst, Run, Hits;
    LeastStep(src, pat, si, pi, ep, caps);
    RunStep(src, si, pat, pi, ep);
    x := si;
    if Results(src, pat, x, ep + 1, caps) == [] { x := LeastStarts(src, pat, si + 1, pi, ep, caps); }
  }

  /** Where the item may lead, in terms of the greatest number of repetitions. */
  lemma GoesOnIs(src: Str, pat: Str, si: nat, pi: nat, ep: nat, caps: seq<Cap>, x: nat)
    requires si <= |src| && ep > 0
    ensures GoesOn(src, pat, si, pi, ep, caps, x) <==>
      && si <= x <= si + Run(src, si, pat, pi, ep) && Often(pat, ep, x - si)
      && Results(src, pat, x, Rest(pat, ep), caps) != []
  {
    hide Results, Run, Spans, Often;
    if x <= |src| { RunIs(src, si, pat, pi, ep, x); }
    if Spans(src, si, x, pat, pi, ep) { SpanBounds(src, si, x, pat, pi, ep); }
  }

  /** Of all places to which an item may lead and from which the pattern goes on, the matcher's
      first way uses the last one, but for `-' the first one. */
  ghost predicate Prefers(src: Str, pat: Str, si: nat, pi: nat, ep: nat, caps: seq<Cap>, rs: seq<Out>, x: nat) {
    && rs != [] && GoesOn(src, pat, si, pi, ep, caps, x) && x <= |src|
    && rs[0] == Results(src, pat, x, Rest(pat, ep), caps)[0]
    && forall y: nat :: GoesOn(src, pat, si, pi, ep, caps, y) ==> if Is(pat, ep, '-') then x <= y else y <= x
  }

  lemma Preference(src: Str, pat: Str, si: nat, pi: nat, ep: nat, caps: seq<Cap>)
    ensures si <= |src| && Item(pat, pi) && ClassEnd(pat, pi) == Ends(ep) && Results(src, pat, si, pi, caps) != [] ==>
      exists x: nat :: Prefers(src, pat, si, pi, ep, caps, Results(src, pat, si, pi, caps), x)
  {
    if si <= |src| && Item(pat, pi) && ClassEnd(pat, pi) == Ends(ep) && Results(src, pat, si, pi, caps) != [] {
      var x := Preferred(src, pat, si, pi, ep, caps);
    }
  }

  lemma Preferred(src: Str, pat: Str, si: nat, pi: nat, ep: nat, caps: seq<Cap>) returns (x: nat)
    requires si <= |src| && Item(pat, pi) && ClassEnd(pat, pi) == Ends(ep) && Results(src, pat, si, pi, caps) != []
    ensures Prefers(src, pat, si, pi, ep, caps, Results(src, pat, si, pi, caps), x)
  {
    hide Results, MostFirst, LeastFirst, Run, Hits, GoesOn, ClassEnd, Item;
    AtItem(src, pat, si, pi, caps);
    RunStep(src, si, pat, pi, ep);
    forall y: nat ensures GoesOn(src, pat, si, pi, ep, caps, y) <==>
      && si <= y <= si + Run(src, si, pat, pi, ep) && Often(pat, ep, y - si)
      && Results(src, pat, y, Rest(pat, ep), caps) != []
    {
      GoesOnIs(src, pat, si, pi, ep, caps, y);
    }
    var n := Run(src, si, pat, pi, ep);
    if Is(pat, ep, '?') {
      x := if n > 0 && Results(src, pat, si + 1, ep + 1, caps) != [] then si + 1 else si;
    } else if Is(pat, ep, '*') {
      x := MostStarts(src, pat, si, ep + 1, caps, n);
    } else if Is(pat, ep, '+') {
      KindsApart(pat, ep);
      x := MostStarts(src, pat, si + 1, ep + 1, caps, n - 1);
    } else if Is(pat, ep, '-') {
      x := LeastStarts(src, pat, si, pi, ep, caps);
    } else {
      x := si + 1;
    }
  }

  // ---- Where matches and captures lie ----------------------------------------------------------------

  /** Every capture begins and ends no later than `e'. */
  predicate CapsIn(caps: seq<Cap>, e: nat) {
    |caps| <= MAXCAPTURES && forall i :: 0 <= i < |caps| ==> CapIn(caps[i], e)
  }

  predicate CapIn(c: Cap, e: nat) {
    c.init <= e && (c.len == UNFINISHED || c.len == POSITION || (0 <= c.len && c.init + c.len <= e))
  }

  /** Later parts of the pattern add captures and finish open ones, and change nothing else. */
  predicate Extends(caps: seq<Cap>, out: seq<Cap>) {
    |caps| <= |out| && forall i :: 0 <= i < |caps| ==> Later(caps[i], out[i])
  }

  predicate Later(c: Cap, d: Cap) { d.init == c.init && (c.len != UNFINISHED ==> d == c) }

  lemma ExtendsTrans(a: seq<Cap>, b: seq<Cap>, c: seq<Cap>)
    requires Extends(a, b) && Extends(b, c)
    ensures Extends(a, c)
  {
    forall i | 0 <= i < |a| ensures Later(a[i], c[i]) {
      assert Later(a[i], b[i]) && Later(b[i], c[i]);
    }
  }

  lemma CapsLater(caps: seq<Cap>, s: nat, e: nat)
    requires CapsIn(caps, s) && s <= e
    ensures CapsIn(caps, e)
  {
  }

  lemma Opened(caps: seq<Cap>, si: nat, what: int)
    requires CapsIn(caps, si) && |caps| < MAXCAPTURES && (what == UNFINISHED || what == POSITION)
    ensures CapsIn(caps + [Cap(si, what)], si) && Extends(caps, caps + [Cap(si, what)])
  {
  }

  lemma Finished(caps: seq<Cap>, si: nat, l: nat)
    requires CapsIn(caps, si) && l < |caps| && caps[l].len == UNFINISHED
    ensures var cs := caps[l := Cap(caps[l].init, si - caps[l].init)];
      CapsIn(cs, si) && Extends(caps, cs) && cs[l].len >= 0
  {
    assert CapIn(caps[l], si);
  }

  /** A match lies behind its start, its captures lie within it, and it has changed no capture
      that was finished before. */
  lemma {:induction false} DerivesInside(src: Str, pat: Str, si: nat, pi: nat, caps: seq<Cap>, o: Out)
    requires si <= |src| && CapsIn(caps, si) && Derives(src, pat, si, pi, caps, o) && o.Ok?
    ensures si <= o.e <= |src| && CapsIn(o.caps, o.e) && Extends(caps, o.caps)
    decreases |pat| - pi
  {
    hide CapsIn, Extends, ClassEnd, Frontier, Repeats, Referred, ToClose, ClosesAt;
    var c := At(pat, pi);
    if c == 0 {
      ExtendsSame(caps);
    } else if c == '(' as int {
      var what := if Is(pat, pi + 1, ')') then POSITION else UNFINISHED;
      Opened(caps, si, what);
      DerivesInside(src, pat, si, if Is(pat, pi + 1, ')') then pi + 2 else pi + 1, caps + [Cap(si, what)], o);
      ExtendsTrans(caps, caps + [Cap(si, what)], o.caps);
    } else if c == ')' as int {
      var l := ToClose(caps).value;
      Finished(caps, si, l);
      DerivesInside(src, pat, si, pi + 1, caps[l := Cap(caps[l].init, si - caps[l].init)], o);
      ExtendsTrans(caps, caps[l := Cap(caps[l].init, si - caps[l].init)], o.caps);
    } else if Item(pat, pi) {
      ItemDerives(src, pat, si, pi, caps, o);
      var ep := ClassEnd(pat, pi).ep;
      var x: nat :| Spans(src, si, x, pat, pi, ep) && Often(pat, ep, x - si) && Derives(src, pat, x, Rest(pat, ep), caps, o);
      SpanBounds(src, si, x, pat, pi, ep);
      NextInside(pat, ep);
      CapsLater(caps, si, x);
      DerivesInside(src, pat, x, Rest(pat, ep), caps, o);
    } else if c == '$' as int {
      ExtendsSame(caps);
    } else {
      EscapeInside(src, pat, si, pi, caps, o);
    }
  }

  lemma ExtendsSame(caps: seq<Cap>)
    ensures Extends(caps, caps)
  {
  }

  lemma SpanBounds(src: Str, si: nat, x: int, pat: Str, pi: nat, ep: nat)
    requires ep > 0 && Spans(src, si, x, pat, pi, ep)
    ensures si <= x <= |src|
  {
  }

  lemma {:induction false} EscapeInside(src: Str, pat: Str, si: nat, pi: nat, caps: seq<Cap>, o: Out)
    requires si <= |src| && CapsIn(caps, si) && Derives(src, pat, si, pi, caps, o) && o.Ok?
    requires At(pat, pi) == ESC && !Item(pat, pi)
    ensures si <= o.e <= |src| && CapsIn(o.caps, o.e) && Extends(caps, o.caps)
    decreases |pat| - pi, 0
  {
    hide CapsIn, Extends, Derives, Frontier, Referred, Balanced, ClassEnd;
    if Is(pat, pi + 1, 'b') {
      BalanceDerives(src, pat, si, pi, caps, o);
      var r := Balanced(src, si + 1, At(pat, pi + 2), At(pat, pi + 3), 1);
      CapsLater(caps, si, r.value);
      DerivesInside(src, pat, r.value, pi + 4, caps, o);
    } else if Is(pat, pi + 1, 'f') {
      FrontierDerives(src, pat, si, pi, caps, o);
      DerivesInside(src, pat, si, ClassEnd(pat, pi + 2).ep, caps, o);
    } else {
      QuoteDerives(src, pat, si, pi, caps, o);
      var l := Referred(caps, At(pat, pi + 1)).value;
      CapsLater(caps, si, si + caps[l].len);
      DerivesInside(src, pat, si + caps[l].len, pi + 2, caps, o);
    }
  }

  /** The same for what the matcher returns. */
  lemma ResultsInside(src: Str, pat: Str, si: nat, o: Out)
    ensures si <= |src| && o in Results(src, pat, si, 0, []) && o.Ok? ==> si <= o.e <= |src| && CapsIn(o.caps, o.e)
  {
    if si <= |src| && o in Results(src, pat, si, 0, []) && o.Ok? {
      ResultsExact(src, pat, si, 0, [], o);
      DerivesInside(src, pat, si, 0, [], o);
    }
  }

  // ---- Patterns without errors -------------------------------------------------------------------------

  /** Which captures are finished, or mark a position. */
  function Done(caps: seq<Cap>): seq<bool> {
    seq(|caps|, i requires 0 <= i < |caps| => caps[i].len != UNFINISHED)
  }

  function LastOpen(done: seq<bool>): (r: Option<nat>)
    ensures r.Some? ==> r.value < |done| && !done[r.value]
    ensures r.Some? ==> forall i :: r.value < i < |done| ==> done[i]
    ensures r.None? ==> forall i :: 0 <= i < |done| ==> done[i]
  {
    if done == [] then None
    else if !done[|done| - 1] then Some(|done| - 1)
    else LastOpen(done[..|done| - 1])
  }

  /** Checked on the pattern alone: items end, captures close in order, are at most 32, and are
      referred to only when they are finished. */
  predicate WellFormed(pat: Str, pi: nat, done: seq<bool>)
    decreases |pat| - pi
  {
    var c := At(pat, pi);
    if c == 0 then true
    else if c == '(' as int then
      var position := Is(pat, pi + 1, ')');
      |done| < MAXCAPTURES && WellFormed(pat, if position then pi + 2 else pi + 1, done + [position])
    else if c == ')' as int then
      LastOpen(done).Some? && WellFormed(pat, pi + 1, done[LastOpen(done).value := true])
    else if c == ESC && Is(pat, pi + 1, 'b') then
      At(pat, pi + 2) != 0 && At(pat, pi + 3) != 0 && WellFormed(pat, pi + 4, done)
    else if c == ESC && Is(pat, pi + 1, 'f') then
      Is(pat, pi + 2, '[') && ClassEnd(pat, pi + 2).Ends? && WellFormed(pat, ClassEnd(pat, pi + 2).ep, done)
    else if c == ESC && Digit(At(pat, pi + 1)) then
      var l := At(pat, pi + 1) - '1' as int;
      0 <= l < |done| && done[l] && WellFormed(pat, pi + 2, done)
    else if c == '$' as int && At(pat, pi + 1) == 0 then true
    else ClassEnd(pat, pi).Ends? && WellFormed(pat, Rest(pat, ClassEnd(pat, pi).ep), done)
  }

  ghost predicate NoError(src: Str, pat: Str, si: nat, pi: nat, caps: seq<Cap>)
    requires si <= |src|
  {
    forall o :: o in Results(src, pat, si, pi, caps) ==> o.Ok?
  }

  lemma DoneClose(caps: seq<Cap>, si: nat)
    requires CapsIn(caps, si)
    ensures ToClose(caps) == LastOpen(Done(caps))
    ensures ToClose(caps).Some? ==>
      var l := ToClose(caps).value;
      Done(caps[l := Cap(caps[l].init, si - caps[l].init)]) == Done(caps)[l := true]
  {
    hide ToClose, LastOpen, Done;
    DoneLength(caps);
    if ToClose(caps).Some? {
      var l := ToClose(caps).value;
      assert CapIn(caps[l], si) && !Done(caps)[l];
      DoneLength(caps[l := Cap(caps[l].init, si - caps[l].init)]);
      assert Done(caps[l := Cap(caps[l].init, si - caps[l].init)]) == Done(caps)[l := true];
    }
  }

  lemma DoneOpen(caps: seq<Cap>, si: nat, position: bool)
    ensures Done(caps + [Cap(si, if position then POSITION else UNFINISHED)]) == Done(caps) + [position]
  {
  }

  /** On a well-formed pattern no way of matching meets an error, whatever the string. */
  lemma {:induction false} WellFormedNoError(src: Str, pat: Str, si: nat, pi: nat, caps: seq<Cap>)
    requires si <= |src| && CapsIn(caps, si) && WellFormed(pat, pi, Done(caps))
    ensures NoError(src, pat, si, pi, caps)
    decreases |pat| - pi
  {
    hide Results, CapsIn, ClassEnd, Frontier, Repeats, Referred, ToClose, LastOpen, Balanced, Done;
    var c := At(pat, pi);
    if c == 0 {
      AtEnd(src, pat, si, pi, caps);
    } else if c == '(' as int {
      AtOpen(src, pat, si, pi, caps);
      var position := Is(pat, pi + 1, ')');
      DoneLength(caps);
      DoneOpen(caps, si, position);
      Opened(caps, si, if position then POSITION else UNFINISHED);
      WellFormedNoError(src, pat, si, if position then pi + 2 else pi + 1, caps + [Cap(si, if position then POSITION else UNFINISHED)]);
    } else if c == ')' as int {
      AtClose(src, pat, si, pi, caps);
      DoneClose(caps, si);
      var l := ToClose(caps).value;
      Finished(caps, si, l);
      WellFormedNoError(src, pat, si, pi + 1, caps[l := Cap(caps[l].init, si - caps[l].init)]);
    } else if Item(pat, pi) {
      var ep := ClassEnd(pat, pi).ep;
      NextInside(pat, ep);
      forall x: nat | si <= x <= |src| ensures NoError(src, pat, x, Rest(pat, ep), caps) {
        CapsLater(caps, si, x);
        WellFormedNoError(src, pat, x, Rest(pat, ep), caps);
      }
      ItemNoError(src, pat, si, pi, ep, caps);
    } else if c == '$' as int {
      AtDollar(src, pat, si, pi, caps);
    } else {
      EscapeNoError(src, pat, si, pi, caps);
    }
  }

  lemma DoneLength(caps: seq<Cap>)
    ensures |Done(caps)| == |caps| && forall i :: 0 <= i < |caps| ==> Done(caps)[i] == (caps[i].len != UNFINISHED)
  {
  }

  lemma ItemNoError(src: Str, pat: Str, si: nat, pi: nat, ep: nat, caps: seq<Cap>)
    requires si <= |src| && Item(pat, pi) && ClassEnd(pat, pi) == Ends(ep)
    requires forall x: nat :: si <= x <= |src| ==> NoError(src, pat, x, Rest(pat, ep), caps)
    ensures NoError(src, pat, si, pi, caps)
  {
    hide Results, ClassEnd, Item;
    forall o | o in Results(src, pat, si, pi, caps) ensures o.Ok? {
      ItemInResults(src, pat, si, pi, ep, caps, o);
      var np := Rest(pat, ep);
      var x: nat :| Spans(src, si, x, pat, pi, ep) && Often(pat, ep, x - si) && o in Results(src, pat, x, np, caps);
      assert NoError(src, pat, x, Rest(pat, ep), caps);
    }
  }

  lemma {:induction false} EscapeNoError(src: Str, pat: Str, si: nat, pi: nat, caps: seq<Cap>)
    requires si <= |src| && CapsIn(caps, si) && WellFormed(pat, pi, Done(caps)) && At(pat, pi) == ESC && !Item(pat, pi)
    ensures NoError(src, pat, si, pi, caps)
    decreases |pat| - pi, 0
  {
    hide Results, CapsIn, Frontier, Balanced, Done;
    if Is(pat, pi + 1, 'b') {
      AtBalance(src, pat, si, pi, caps);
      if At(src, si) == At(pat, pi + 2) {
        var r := Balanced(src, si + 1, At(pat, pi + 2), At(pat, pi + 3), 1);
        if r.Some? {
          CapsLater(caps, si, r.value);
          WellFormedNoError(src, pat, r.value, pi + 4, caps);
        }
      }
    } else if Is(pat, pi + 1, 'f') {
      AtSet(src, pat, si, pi, caps);
      WellFormedNoError(src, pat, si, ClassEnd(pat, pi + 2).ep, caps);
    } else {
      AtReference(src, pat, si, pi, caps);
      DoneLength(caps);
      var l := Referred(caps, At(pat, pi + 1)).value;
      if Repeats(src, si, caps[l]) {
        CapsLater(caps, si, si + caps[l].len);
        WellFormedNoError(src, pat, si + caps[l].len, pi + 2, caps);
      }
    }
  }

  lemma GoodPatternsNeverFail(src: Str, pat: Str, si: nat)
    ensures si <= |src| && WellFormed(pat, 0, []) ==> forall o :: o in Results(src, pat, si, 0, []) ==> o.Ok?
  {
    if si <= |src| && WellFormed(pat, 0, []) {
      assert Done([]) == [];
      WellFormedNoError(src, pat, si, 0, []);
      hide Results;
    }
  }
}
