/** The backtracking matcher (lstrlib.c:186-440): one set of captures, changed on the way and
    put back when a way fails. */
module StrMatch {
  import opened Wrappers
  import opened StrPattern
  import opened StrSets

  datatype Match = Found(e: nat) | NoMatch | Fail(err: Error)

  /** What the first of all results tells. */
  predicate Answers(rs: seq<Out>, r: Match, before: seq<Cap>, after: seq<Cap>) {
    if rs == [] then r == NoMatch && after == before
    else match rs[0]
      case Ok(e, caps) => r == Found(e) && after == caps
      case Err(err) => r == Fail(err)
  }

  class Matcher {
    const src: Str
    const pat: Str
    var level: nat
    const capture: array<Cap>

    predicate Valid()
      reads this, capture
    {
      capture.Length == MAXCAPTURES && level <= MAXCAPTURES
    }

    function Caps(): seq<Cap>
      requires Valid()
      reads this, capture
    {
      capture[..level]
    }

    constructor (s: Str, p: Str)
      ensures Valid() && src == s && pat == p && level == 0 && fresh(capture)
    {
      src, pat, level := s, p, 0;
      capture := new Cap[MAXCAPTURES](_ => Cap(0, 0));
    }

    // ---- Parts of an item ---------------------------------------------------------------------

    /** classend */
    method FindClassEnd(pi: nat) returns (r: Class)
      requires At(pat, pi) != 0
      ensures r == ClassEnd(pat, pi)
      ensures if r.Ends? then ItemEnds(pat, pi, r.ep) else NeverEnds(pat, pi)
    {
      hide ItemEnds;
      ClassEndExact(pat, pi);
      if At(pat, pi) == ESC {
        if At(pat, pi + 1) == 0 { return Malformed(EndsWithPercent); }
        return Ends(pi + 2);
      }
      if !Is(pat, pi, '[') { return Ends(pi + 1); }
      var q := if Is(pat, pi + 1, '^') then pi + 2 else pi + 1;
      ghost var q0 := q;
      while true
        invariant SetEnd(pat, q) == SetEnd(pat, q0)
        decreases |pat| - q
      {
        if At(pat, q) == 0 { return Malformed(MissingBracket); }
        q := if At(pat, q) == ESC && At(pat, q + 1) != 0 then q + 2 else q + 1;
        if Is(pat, q, ']') { return Ends(q + 1); }
      }
    }

    /** matchbracketclass */
    method MatchSet(c: int, pi: nat, ec: nat) returns (r: bool)
      ensures r == InSet(c, pat, pi, ec)
      ensures r <==> SetHas(c, pat, pi, ec)
    {
      hide SetHas;
      SetExact(c, pat, pi, ec);
      var sig := true;
      var q := pi;
      if Is(pat, q + 1, '^') {
        sig := false;
        q := q + 1;
      }
      q := q + 1;
      ghost var q0 := q;
      while q < ec
        invariant Covers(c, pat, q, ec) == Covers(c, pat, q0, ec)
        decreases ec - q
      {
        if At(pat, q) == ESC {
          if InClass(c, At(pat, q + 1)) { return sig; }
          q := q + 2;
        } else if Is(pat, q + 1, '-') && q + 2 < ec {
          if At(pat, q) <= c <= At(pat, q + 2) { return sig; }
          q := q + 3;
        } else {
          if At(pat, q) == c { return sig; }
          q := q + 1;
        }
      }
      return !sig;
    }

    /** singlematch, at a place in the string */
    method SingleMatch(si: nat, pi: nat, ep: nat) returns (r: bool)
      requires ep > 0
      ensures r == Hits(src, si, pat, pi, ep)
      ensures r <==> si < |src| && Accepts(src[si], pat, pi, ep)
    {
      hide Accepts;
      if si < |src| { AcceptsExact(src[si], pat, pi, ep); }
      if si >= |src| { return false; }
      if Is(pat, pi, '.') { return true; }
      if At(pat, pi) == ESC { return InClass(src[si], At(pat, pi + 1)); }
      if Is(pat, pi, '[') {
        r := MatchSet(src[si], pi, ep - 1);
        return;
      }
      return At(pat, pi) == src[si];
    }

    /** matchbalance, behind the opening character */
    method MatchBalance(si: nat, b: int, e: int) returns (r: Option<nat>)
      requires si <= |src|
      ensures r.Some? ==> ClosesAt(src, si, r.value, b, e)
      ensures r.None? ==> forall x: nat :: !ClosesAt(src, si, x, b, e)
      ensures r == Balanced(src, si, b, e, 1)
    {
      BalancedExact(src, si, b, e);
      hide Balanced;
      var cont, s := 1, si;
      while s < |src|
        invariant si <= s <= |src| && cont == Depth(src, si, s, b, e)
        invariant forall y :: si <= y <= s ==> Depth(src, si, y, b, e) != 0
      {
        DepthNext(src, si, s, b, e);
        if src[s] == e {
          cont := cont - 1;
          if cont == 0 { return Some(s + 1); }
        } else if src[s] == b {
          cont := cont + 1;
        }
        s := s + 1;
      }
      return None;
    }

    /** capture_to_close */
    method CaptureToClose() returns (r: Option<nat>)
      requires Valid()
      ensures r == ToClose(Caps())
    {
      var l := level;
      while l > 0
        invariant 0 <= l <= level <= capture.Length && ToClose(capture[..l]) == ToClose(Caps())
      {
        l := l - 1;
        assert capture[..l + 1][..l] == capture[..l];
        if capture[l].len == UNFINISHED { return Some(l); }
      }
      return None;
    }

    /** The loop of str_find_aux: the leftmost place at which the pattern from `p' on matches, or
        meets an error. */
    method Search(init: nat, p: nat, anchor: bool) returns (start: nat, r: Match)
      requires Valid() && init <= |src|
      modifies this, capture
      ensures Valid() && init <= start
      ensures r != NoMatch ==> start <= |src| && Answers(Results(src, pat, start, p, []), r, [], Caps())
      ensures r != NoMatch ==> (anchor ==> start == init) && forall x :: init <= x < start ==> Results(src, pat, x, p, []) == []
      ensures r == NoMatch ==> forall x :: init <= x <= (if anchor then init else |src|) ==> Results(src, pat, x, p, []) == []
    {
      hide Results;
      start := init;
      while true
        invariant Valid() && init <= start <= |src| && (anchor ==> start == init)
        invariant forall x :: init <= x < start ==> Results(src, pat, x, p, []) == []
        decreases |src| - start
      {
        level := 0;
        r := DoMatch(start, p);
        if r != NoMatch || start == |src| || anchor { return; }
        start := start + 1;
      }
    }

    // ---- The matcher ------------------------------------------------------------------------------

    /** match: the first of all results, with the captures of that way; or none, with the captures
        as they were. */
    method DoMatch(s0: nat, p0: nat) returns (r: Match)
      requires Valid() && s0 <= |src|
      modifies this, capture
      ensures Valid() && Answers(Results(src, pat, s0, p0, old(Caps())), r, old(Caps()), Caps())
      ensures r.Found? ==> r.e <= |src|
      decreases |pat| - p0, 0
    {
      hide Results, Run, MostFirst, LeastFirst, Single, Hits, Frontier, ClassEnd, ToClose, Balanced, ClosesAt, Referred, Repeats, At, Is, Digit, Item, ItemEnds, NeverEnds, Accepts, Begins;
      var s, p := s0, p0;
      while true
        invariant Valid() && 0 <= s <= |src| && p0 <= p && Caps() == old(Caps()) && level == old(level)
        invariant Results(src, pat, s, p, old(Caps())) == Results(src, pat, s0, p0, old(Caps()))
        decreases |pat| - p
      {
        var c := At(pat, p);
        ghost var caps := old(Caps());
        if c == 0 {
          AtEnd(src, pat, s, p, caps);
          return Found(s);
        }
        if c == '(' as int {
          AtOpen(src, pat, s, p, caps);
          if Is(pat, p + 1, ')') {
            r := StartCapture(s, p + 2, POSITION);
          } else {
            r := StartCapture(s, p + 1, UNFINISHED);
          }
          return;
        }
        if c == ')' as int {
          AtClose(src, pat, s, p, caps);
          r := EndCapture(s, p + 1);
          return;
        }
        if c == ESC && Is(pat, p + 1, 'b') {
          AtBalance(src, pat, s, p, caps);
          if At(pat, p + 2) == 0 || At(pat, p + 3) == 0 { return Fail(Unbalanced); }
          if At(src, s) != At(pat, p + 2) { return NoMatch; }
          var e := MatchBalance(s + 1, At(pat, p + 2), At(pat, p + 3));
          if e.None? { return NoMatch; }
          s, p := e.value, p + 4;
        } else if c == ESC && Is(pat, p + 1, 'f') {
          AtSet(src, pat, s, p, caps);
          if !Is(pat, p + 2, '[') { return Fail(NoSetAfterF); }
          var ce := FindClassEnd(p + 2);
          if ce.Malformed? { return Fail(ce.err); }
          var here := AtFrontier(s, p + 2, ce.ep);
          if !here { return NoMatch; }
          p := ce.ep;
        } else if c == ESC && Digit(At(pat, p + 1)) {
          AtReference(src, pat, s, p, caps);
          var l := Referred(Caps(), At(pat, p + 1));
          if l.None? { return Fail(BadIndex); }
          if !Repeats(src, s, capture[l.value]) { return NoMatch; }
          s, p := s + capture[l.value].len, p + 2;
        } else if c == '$' as int && At(pat, p + 1) == 0 {
          AtDollar(src, pat, s, p, caps);
          return if s == |src| then Found(s) else NoMatch;
        } else {
          IsItem(pat, p);
          AtItem(src, pat, s, p, caps);
          var ce := FindClassEnd(p);
          if ce.Malformed? { return Fail(ce.err); }
          var ep := ce.ep;
          var m := SingleMatch(s, p, ep);
          if Is(pat, ep, '?') {
            if m {
              r := DoMatch(s + 1, ep + 1);
              FirstOf(Results(src, pat, s + 1, ep + 1, caps), Results(src, pat, s, ep + 1, caps), r, caps, Caps());
              if r != NoMatch { return; }
            } else {
              assert [] + Results(src, pat, s, ep + 1, caps) == Results(src, pat, s, ep + 1, caps);
            }
            p := ep + 1;
          } else if Is(pat, ep, '*') {
            r := MaxExpand(s, p, ep);
            return;
          } else if Is(pat, ep, '+') {
            if !m { return NoMatch; }
            r := MaxExpand(s + 1, p, ep);
            return;
          } else if Is(pat, ep, '-') {
            r := MinExpand(s, p, ep);
            return;
          } else {
            if !m { return NoMatch; }
            s, p := s + 1, ep;
          }
        }
      }
    }

    /** The test of %f. */
    method AtFrontier(s: nat, p: nat, ep: nat) returns (r: bool)
      requires ep > 0 && s <= |src|
      ensures r == Frontier(src, s, pat, p, ep)
      ensures r <==> Begins(src, s, pat, p, ep)
    {
      hide Begins, SetHas, InSet;
      FrontierExact(src, s, pat, p, ep);
      var inBefore := MatchSet(if s == 0 then 0 else At(src, s - 1), p, ep - 1);
      if inBefore { return false; }
      r := MatchSet(At(src, s), p, ep - 1);
    }

    /** max_expand */
    method MaxExpand(s: nat, p: nat, ep: nat) returns (r: Match)
      requires Valid() && s <= |src| && 0 < ep < |pat|
      modifies this, capture
      ensures Valid() && Answers(MostFirst(src, pat, s, ep + 1, old(Caps()), Run(src, s, pat, p, ep)), r, old(Caps()), Caps())
      ensures r.Found? ==> r.e <= |src|
      decreases |pat| - (ep + 1), 1
    {
      hide Hits, Results, Accepts;
      var i := 0;
      var m := SingleMatch(s, p, ep);
      while m
        invariant Valid() && Caps() == old(Caps()) && 0 <= i && s + i <= |src| && m == Hits(src, s + i, pat, p, ep)
        invariant i + Run(src, s + i, pat, p, ep) == Run(src, s, pat, p, ep)
        decreases |src| - i
      {
        HitInside(src, s + i, pat, p, ep);
        i := i + 1;
        m := SingleMatch(s + i, p, ep);
      }
      ghost var n := i;
      while true
        invariant Valid() && Caps() == old(Caps()) && 0 <= i <= n == Run(src, s, pat, p, ep) && s + n <= |src|
        invariant MostFirst(src, pat, s, ep + 1, old(Caps()), i) == MostFirst(src, pat, s, ep + 1, old(Caps()), n)
        decreases i
      {
        r := DoMatch(s + i, ep + 1);
        FirstOf(Results(src, pat, s + i, ep + 1, old(Caps())),
                if i == 0 then [] else MostFirst(src, pat, s, ep + 1, old(Caps()), i - 1), r, old(Caps()), Caps());
        if r != NoMatch || i == 0 { return; }
        i := i - 1;
      }
    }

    /** min_expand */
    method MinExpand(s0: nat, p: nat, ep: nat) returns (r: Match)
      requires Valid() && s0 <= |src| && 0 < ep < |pat|
      modifies this, capture
      ensures Valid() && Answers(LeastFirst(src, pat, s0, p, ep, old(Caps())), r, old(Caps()), Caps())
      ensures r.Found? ==> r.e <= |src|
      decreases |pat| - (ep + 1), 1
    {
      hide Hits, Results, Accepts;
      var s := s0;
      while true
        invariant Valid() && Caps() == old(Caps()) && s <= |src|
        invariant LeastFirst(src, pat, s, p, ep, old(Caps())) == LeastFirst(src, pat, s0, p, ep, old(Caps()))
        decreases |src| - s
      {
        r := DoMatch(s, ep + 1);
        var m := SingleMatch(s, p, ep);
        if m { HitInside(src, s, pat, p, ep); }
        FirstOf(Results(src, pat, s, ep + 1, old(Caps())),
                if m then LeastFirst(src, pat, s + 1, p, ep, old(Caps())) else [], r, old(Caps()), Caps());
        if r != NoMatch || !m { return; }
        s := s + 1;
      }
    }

    /** start_capture */
    method StartCapture(s: nat, p: nat, what: int) returns (r: Match)
      requires Valid() && s <= |src|
      modifies this, capture
      ensures Valid() && r.Found? ==> r.e <= |src|
      ensures Valid() && Answers(if |old(Caps())| >= MAXCAPTURES then [Err(TooManyCaptures)]
                                 else Results(src, pat, s, p, old(Caps()) + [Cap(s, what)]), r, old(Caps()), Caps())
      decreases |pat| - p, 1
    {
      if level >= MAXCAPTURES { return Fail(TooManyCaptures); }
      ghost var before := Caps();
      capture[level] := Cap(s, what);
      level := level + 1;
      assert Caps() == before + [Cap(s, what)];
      r := DoMatch(s, p);
      if r == NoMatch {
        level := level - 1;
        assert Caps() == (before + [Cap(s, what)])[..|before|];
      }
    }

    /** end_capture */
    method EndCapture(s: nat, p: nat) returns (r: Match)
      requires Valid() && s <= |src|
      modifies this, capture
      ensures Valid() && r.Found? ==> r.e <= |src|
      ensures Valid() && Answers(var l := ToClose(old(Caps()));
                                 if l.None? then [Err(NoneToClose)]
                                 else Results(src, pat, s, p, old(Caps())[l.value := Cap(old(Caps())[l.value].init, s - old(Caps())[l.value].init)]),
                                 r, old(Caps()), Caps())
      decreases |pat| - p, 1
    {
      var l := CaptureToClose();
      if l.None? { return Fail(NoneToClose); }
      ghost var before := Caps();
      var c := capture[l.value];
      capture[l.value] := Cap(c.init, s - c.init);
      assert Caps() == before[l.value := Cap(c.init, s - c.init)];
      r := DoMatch(s, p);
      if r == NoMatch {
        capture[l.value] := Cap(capture[l.value].init, UNFINISHED);
        assert Caps() == before;
      }
    }
  }

  lemma HitInside(src: Str, si: nat, pat: Str, pi: nat, ep: nat)
    requires ep > 0 && Hits(src, si, pat, pi, ep)
    ensures si < |src|
  {
  }

  /** The first of two lists of results. */
  lemma FirstOf(a: seq<Out>, b: seq<Out>, r: Match, before: seq<Cap>, after: seq<Cap>)
    requires Answers(a, r, before, after)
    ensures r != NoMatch || b == [] ==> Answers(a + b, r, before, after)
    ensures r == NoMatch ==> a == [] && a + b == b
  {
  }
}
