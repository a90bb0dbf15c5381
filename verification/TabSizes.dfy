/** Choosing the sizes of a table's two parts (ltable.c:189-260, 333-349). */
module TabSizes {
  import opened TabNodes
  import opened TabEntries

  const MAXBITS: nat := 26
  const MAXASIZE: nat := 0x400_0000

  function Pow2(i: nat): (p: nat)
    ensures p >= 1
  {
    if i == 0 then 1 else 2 * Pow2(i - 1)
  }

  /** ceillog2 */
  function CeilLog2(n: nat): (lg: nat) {
    if n <= 1 then 0 else 1 + CeilLog2((n + 1) / 2)
  }

  lemma {:induction false} CeilLog2Is(n: nat)
    ensures n <= Pow2(CeilLog2(n))
    ensures CeilLog2(n) > 0 ==> Pow2(CeilLog2(n) - 1) < n
  {
    if n > 1 {
      CeilLog2Is((n + 1) / 2);
      if CeilLog2((n + 1) / 2) > 0 {
        assert Pow2(CeilLog2((n + 1) / 2)) == 2 * Pow2(CeilLog2((n + 1) / 2) - 1);
      }
    }
  }

  lemma {:induction false} Pow2Monotone(i: nat, j: nat)
    requires i <= j
    ensures Pow2(i) <= Pow2(j) && (i < j ==> 2 * Pow2(i) <= Pow2(j))
    decreases j
  {
    if i < j { Pow2Monotone(i, j - 1); }
  }

  lemma Pow2Max()
    ensures Pow2(MAXBITS) == MAXASIZE
  {
    assert Pow2(10) == 0x400;
    assert Pow2(20) == 0x10_0000;
  }

  lemma LogBounds(n: nat, lg: nat)
    ensures n <= Pow2(lg) <==> CeilLog2(n) <= lg
  {
    CeilLog2Is(n);
    if CeilLog2(n) <= lg {
      Pow2Monotone(CeilLog2(n), lg);
    } else {
      Pow2Monotone(lg, CeilLog2(n) - 1);
    }
  }

  // ---- Counting by slices -----------------------------------------------------------------------

  /** Entries with an integer key in (2^(lg-1), 2^lg]. */
  function InSlice(es: seq<Entry>, lg: nat): int {
    CountIn(es, Pow2(lg)) - if lg == 0 then 0 else CountIn(es, Pow2(lg - 1))
  }

  predicate Counted(nums: seq<int>, es: seq<Entry>) {
    |nums| == MAXBITS + 1 && forall lg :: 0 <= lg <= MAXBITS ==> nums[lg] == InSlice(es, lg)
  }

  lemma SliceLast(es: seq<Entry>, e: Entry, lg: nat)
    ensures InSlice(es + [e], lg) == InSlice(es, lg) + if e.k.Int? && e.k.n >= 1 && CeilLog2(e.k.n) == lg then 1 else 0
  {
    CountLast(es, e, Pow2(lg));
    if lg > 0 { CountLast(es, e, Pow2(lg - 1)); }
    if e.k.Int? && e.k.n >= 1 {
      LogBounds(e.k.n, lg);
      if lg > 0 { LogBounds(e.k.n, lg - 1); }
    }
  }

  /** countint */
  method CountInt(k: Key, nums: array<int>, ghost es: seq<Entry>, ghost v: Value) returns (c: nat)
    requires Counted(nums[..], es)
    modifies nums
    ensures Counted(nums[..], es + [Entry(k, v)])
    ensures c == if InArray(k, MAXASIZE) then 1 else 0
  {
    forall lg | 0 <= lg <= MAXBITS
      ensures InSlice(es + [Entry(k, v)], lg) == InSlice(es, lg) + if k.Int? && k.n >= 1 && CeilLog2(k.n) == lg then 1 else 0
    {
      SliceLast(es, Entry(k, v), lg);
    }
    ghost var before := nums[..];
    if k.Int? && 0 < k.n <= MAXASIZE {
      Pow2Max();
      LogBounds(k.n, MAXBITS);
      nums[CeilLog2(k.n)] := nums[CeilLog2(k.n)] + 1;
      assert forall lg :: 0 <= lg <= MAXBITS ==> nums[..][lg] == before[lg] + if CeilLog2(k.n) == lg then 1 else 0;
      c := 1;
    } else {
      if k.Int? && k.n >= 1 { Pow2Max(); LogBounds(k.n, MAXBITS); }
      c := 0;
    }
  }

  // ---- The array part ------------------------------------------------------------------------------

  lemma ArrayNone(arr: seq<Value>, m: int)
    ensures CountIn(ArrayEntries(arr, 0), m) == 0 == |ArrayEntries(arr, 0)|
  {
  }

  lemma ArrayStep(arr: seq<Value>, n: nat, m: int)
    requires 0 < n <= |arr|
    ensures CountIn(ArrayEntries(arr, n), m) ==
      CountIn(ArrayEntries(arr, n - 1), m) + if arr[n - 1] != Nil && n <= m then 1 else 0
  {
    hide CountIn;
    if arr[n - 1] != Nil {
      CountLast(ArrayEntries(arr, n - 1), Entry(Int(n), arr[n - 1]), m);
    } else {
      assert ArrayEntries(arr, n - 1) + [] == ArrayEntries(arr, n - 1);
    }
  }

  lemma {:induction false} ArrayCount(arr: seq<Value>, n: nat, m: nat)
    requires n <= |arr|
    ensures CountIn(ArrayEntries(arr, n), m) == |ArrayEntries(arr, if m < n then m else n)|
  {
    hide CountIn, ArrayEntries;
    if n > 0 {
      ArrayCount(arr, n - 1, m);
      ArrayStep(arr, n, m);
      OneMore(arr, n);
    } else {
      ArrayNone(arr, m);
    }
  }

  function Least(a: nat, b: nat): nat { if a < b then a else b }

  lemma ArraySlice(arr: seq<Value>, lg: nat)
    ensures InSlice(ArrayEntries(arr, |arr|), lg) ==
      |ArrayEntries(arr, Least(Pow2(lg), |arr|))| - if lg == 0 then 0 else |ArrayEntries(arr, Least(Pow2(lg - 1), |arr|))|
  {
    ArrayCount(arr, |arr|, Pow2(lg));
    if lg > 0 { ArrayCount(arr, |arr|, Pow2(lg - 1)); }
  }

  lemma SliceBeyond(arr: seq<Value>, lg: nat, l: nat)
    requires 0 < lg <= l && |arr| <= Pow2(lg - 1)
    ensures InSlice(ArrayEntries(arr, |arr|), l) == 0
  {
    ArraySlice(arr, l);
    Pow2Monotone(lg - 1, l - 1);
    Pow2Monotone(lg - 1, l);
  }

  /** numusearray */
  method NumUseArray(arr: seq<Value>, nums: array<int>) returns (ause: nat)
    requires |arr| <= MAXASIZE && nums.Length == MAXBITS + 1 && forall l :: 0 <= l <= MAXBITS ==> nums[l] == 0
    modifies nums
    ensures Counted(nums[..], ArrayEntries(arr, |arr|)) && ause == |ArrayEntries(arr, |arr|)|
  {
    hide ArrayEntries, Pow2, InSlice;
    ghost var all := ArrayEntries(arr, |arr|);
    ause := 0;
    var i, lg, ttlg := 1, 0, 1;
    StartSlices(arr);
    while lg <= MAXBITS
      invariant lg <= MAXBITS + 1 && ttlg == Pow2(lg)
      invariant i - 1 == SliceStart(arr, lg) && ause == |ArrayEntries(arr, SliceStart(arr, lg))|
      invariant forall l :: 0 <= l < lg ==> nums[l] == InSlice(all, l)
      invariant forall l :: lg <= l <= MAXBITS ==> nums[l] == 0
    {
      var lc, lim := 0, ttlg;
      if lim > |arr| {
        lim := |arr|;
        if i > lim {
          forall l | lg <= l <= MAXBITS ensures InSlice(all, l) == 0 { NoMore(arr, lg, l); }
          break;
        }
      }
      SliceIs(arr, lg);
      ghost var i0, before := i, nums[..];
      while i <= lim
        invariant nums[..] == before
        invariant i0 <= i <= lim + 1 <= |arr| + 1
        invariant lc == |ArrayEntries(arr, i - 1)| - |ArrayEntries(arr, i0 - 1)|
      {
        OneMore(arr, i);
        if arr[i - 1] != Nil { lc := lc + 1; }
        i := i + 1;
      }
      assert before[lg] == 0 && forall l :: 0 <= l < lg ==> before[l] == InSlice(all, l);
      nums[lg] := nums[lg] + lc;
      assert forall l :: 0 <= l <= MAXBITS && l != lg ==> nums[l] == before[l];
      ause := ause + lc;
      NextSlice(arr, lg);
      lg := lg + 1;
      ttlg := ttlg * 2;
    }
    LastSlice(arr, lg);
  }

  /** Where slice `lg' of the array begins. */
  function SliceStart(arr: seq<Value>, lg: nat): nat {
    if lg == 0 then 0 else Least(Pow2(lg - 1), |arr|)
  }

  lemma StartSlices(arr: seq<Value>)
    ensures Pow2(0) == 1 && SliceStart(arr, 0) == 0 && |ArrayEntries(arr, 0)| == 0
  {
  }

  lemma NextSlice(arr: seq<Value>, lg: nat)
    ensures SliceStart(arr, lg + 1) == Least(Pow2(lg), |arr|) && Pow2(lg + 1) == 2 * Pow2(lg)
    ensures SliceStart(arr, lg) <= SliceStart(arr, lg + 1) <= |arr|
  {
  }

  lemma SliceIs(arr: seq<Value>, lg: nat)
    ensures SliceStart(arr, lg) <= Least(Pow2(lg), |arr|) <= |arr|
    ensures InSlice(ArrayEntries(arr, |arr|), lg)
      == |ArrayEntries(arr, Least(Pow2(lg), |arr|))| - |ArrayEntries(arr, SliceStart(arr, lg))|
  {
    ArraySlice(arr, lg);
  }

  lemma NoMore(arr: seq<Value>, lg: nat, l: nat)
    requires SliceStart(arr, lg) >= |arr| && |arr| < Pow2(lg) && lg <= l
    ensures InSlice(ArrayEntries(arr, |arr|), l) == 0
  {
    if lg == 0 {
      assert arr == [];
      ArraySlice(arr, l);
    } else {
      SliceBeyond(arr, lg, l);
    }
  }

  lemma LastSlice(arr: seq<Value>, lg: nat)
    requires |arr| <= MAXASIZE && (lg > MAXBITS || SliceStart(arr, lg) >= |arr|)
    ensures SliceStart(arr, lg) == |arr|
  {
    if lg > MAXBITS {
      Pow2Max();
      Pow2Monotone(MAXBITS, lg - 1);
    }
  }

  lemma OneMore(arr: seq<Value>, i: nat)
    requires 1 <= i <= |arr|
    ensures |ArrayEntries(arr, i)| == |ArrayEntries(arr, i - 1)| + if arr[i - 1] == Nil then 0 else 1
  {
  }

  // ---- The hash part -------------------------------------------------------------------------------

  /** numusehash */
  method NumUseHash(node: Nodes, nums: array<int>, ghost base: seq<Entry>) returns (totaluse: nat, ause: nat)
    requires Counted(nums[..], base) && Blank(node)
    modifies nums
    ensures Counted(nums[..], base + NodeEntries(node, 0))
    ensures totaluse == |NodeEntries(node, 0)| && ause == CountIn(NodeEntries(node, 0), MAXASIZE)
  {
    hide Counted, CountIn;
    totaluse, ause := 0, 0;
    var i := |node|;
    assert base + [] == base;
    CountEmptyIn(MAXASIZE);
    while i > 0
      invariant 0 <= i <= |node| && Counted(nums[..], base + NodeEntries(node, i))
      invariant totaluse == |NodeEntries(node, i)| && ause == CountIn(NodeEntries(node, i), MAXASIZE)
    {
      i := i - 1;
      ghost var es := NodeEntries(node, i + 1);
      if node[i].val != Nil {
        assert BlankAt(node[i]);
        var c := CountInt(node[i].key.k, nums, base + es, node[i].val);
        assert base + NodeEntries(node, i) == base + es + [Entry(node[i].key.k, node[i].val)];
        CountLast(es, Entry(node[i].key.k, node[i].val), MAXASIZE);
        ause := ause + c;
        totaluse := totaluse + 1;
      } else {
        assert es + [] == es;
      }
    }
  }

  lemma CountEmptyIn(m: int)
    ensures CountIn([], m) == 0
  {
  }

  // ---- The best array size --------------------------------------------------------------------------

  predicate DistinctKeys(es: seq<Entry>) {
    forall i, j :: 0 <= i < j < |es| ==> es[i].k != es[j].k
  }

  /** More than half of the slots 1..n would be in use. */
  predicate Filled(es: seq<Entry>, n: nat) { 2 * CountIn(es, n) > n }

  /** The largest power of two, up to 2^26, with more than half of its slots in use; or none. */
  ghost predicate Best(es: seq<Entry>, n: nat) {
    && (n == 0 || (exists i :: 0 <= i <= MAXBITS && n == Pow2(i) && Filled(es, Pow2(i))))
    && forall i :: 0 <= i <= MAXBITS && Pow2(i) > n ==> !Filled(es, Pow2(i))
  }

  /** With the best array, more than 2^26 entries would be left for the hash part. */
  ghost predicate Overflows(es: seq<Entry>) {
    exists n: nat :: Best(es, n) && CountOut(es, n) > MAXASIZE
  }

  lemma BestOne(es: seq<Entry>, n: nat, m: nat)
    requires Best(es, n) && Best(es, m)
    ensures n == m
  {
    hide Filled, Pow2;
  }

  lemma OverflowsIs(es: seq<Entry>, n: nat)
    requires Best(es, n)
    ensures Overflows(es) <==> !(CountOut(es, n) == 0 || CeilLog2(CountOut(es, n)) <= MAXBITS)
  {
    hide Best, CeilLog2;
    Pow2Max();
    LogBounds(CountOut(es, n), MAXBITS);
    if m: nat :| Best(es, m) && CountOut(es, m) > MAXASIZE { BestOne(es, n, m); }
  }

  /** So it takes more than 2^26 entries. */
  lemma OverflowsOnly(es: seq<Entry>)
    ensures Overflows(es) ==> |es| > MAXASIZE
  {
  }

  function IntsIn(es: seq<Entry>, m: int): set<int> {
    if es == [] then {}
    else IntsIn(es[..|es| - 1], m) + if InArray(es[|es| - 1].k, m) then {es[|es| - 1].k.n} else {}
  }

  lemma {:induction false} IntsAre(es: seq<Entry>, m: int, x: int)
    ensures x in IntsIn(es, m) <==> exists i :: 0 <= i < |es| && InArray(es[i].k, m) && es[i].k == Int(x)
  {
    if es != [] {
      var init, last := es[..|es| - 1], es[|es| - 1];
      IntsAre(init, m, x);
      if i :| 0 <= i < |es| && InArray(es[i].k, m) && es[i].k == Int(x) {
        if i < |es| - 1 { assert init[i] == es[i]; }
      }
    }
  }

  lemma {:induction false} IntsCount(es: seq<Entry>, m: int)
    requires DistinctKeys(es)
    ensures |IntsIn(es, m)| == CountIn(es, m)
  {
    if es != [] {
      var init, last := es[..|es| - 1], es[|es| - 1];
      IntsCount(init, m);
      if InArray(last.k, m) { IntsAre(init, m, last.k.n); }
    }
  }

  lemma {:induction false} Upto(m: nat) returns (s: set<int>)
    ensures |s| == m && forall x :: x in s <==> 1 <= x <= m
  {
    s := {};
    if m > 0 {
      s := Upto(m - 1);
      s := s + {m};
    }
  }

  lemma Subset(a: set<int>, b: set<int>)
    requires a <= b
    ensures |a| <= |b|
  {
    assert b == a + (b - a);
  }

  /** There are no more integer keys in 1..m than numbers. */
  lemma CountBound(es: seq<Entry>, m: nat)
    requires DistinctKeys(es)
    ensures CountIn(es, m) <= m
  {
    IntsCount(es, m);
    var s := Upto(m);
    forall x | x in IntsIn(es, m) ensures x in s { IntsAre(es, m, x); }
    Subset(IntsIn(es, m), s);
  }

  /** After the sizes up to 2^(i-1). */
  ghost predicate Scanned(es: seq<Entry>, i: nat, a: int, n: nat, na: int) {
    && a == (if i == 0 then 0 else CountIn(es, Pow2(i - 1))) && na == CountIn(es, n) && n <= MAXASIZE
    && (n == 0 || (exists j :: 0 <= j < i && n == Pow2(j) && Filled(es, Pow2(j))))
    && forall j :: 0 <= j < i && Pow2(j) > n ==> !Filled(es, Pow2(j))
  }

  lemma ScanStart(es: seq<Entry>)
    ensures Scanned(es, 0, 0, 0, 0) && Pow2(0) == 1
  {
    CountNone(es);
  }

  lemma ScanStep(es: seq<Entry>, i: nat, a: int, n: nat, na: int, c: int)
    requires Scanned(es, i, a, n, na) && DistinctKeys(es) && i <= MAXBITS && c == InSlice(es, i)
    ensures c >= 0 && Pow2(i + 1) == 2 * Pow2(i) && a + c == CountIn(es, Pow2(i))
    ensures c > 0 && a + c > Pow2(i) / 2 ==> Scanned(es, i + 1, a + c, Pow2(i), a + c)
    ensures !(c > 0 && a + c > Pow2(i) / 2) ==> Scanned(es, i + 1, a + c, n, na)
  {
    Pow2Max();
    Pow2Monotone(i, MAXBITS);
    assert a + c == CountIn(es, Pow2(i)) && c >= 0 by {
      if i > 0 { Pow2Monotone(i - 1, i); CountGrows(es, Pow2(i - 1), Pow2(i)); }
    }
    hide Pow2, CountIn;
    if c > 0 && a + c > Pow2(i) / 2 {
      forall j | 0 <= j < i + 1 && Pow2(j) > Pow2(i) ensures false { Pow2Monotone(j, i); }
      assert Filled(es, Pow2(i));
    } else {
      NotFilled(es, i, c);
    }
  }

  lemma NotFilled(es: seq<Entry>, i: nat, c: int)
    requires DistinctKeys(es) && c == InSlice(es, i) && (c <= 0 || CountIn(es, Pow2(i)) <= Pow2(i) / 2)
    ensures !Filled(es, Pow2(i))
  {
    if c <= 0 && i > 0 { CountBound(es, Pow2(i - 1)); }
  }

  /** All integer keys have been counted. */
  lemma ScanDone(es: seq<Entry>, i: nat, a: int, n: nat, na: int)
    requires Scanned(es, i, a, n, na) && DistinctKeys(es) && 0 < i && a == CountIn(es, MAXASIZE)
    ensures Best(es, n)
  {
    hide Pow2, CountIn, DistinctKeys, Best;
    forall j | 0 <= j <= MAXBITS && Pow2(j) > n ensures !Filled(es, Pow2(j)) {
      if j >= i {
        Pow2Max();
        Pow2Monotone(j, MAXBITS);
        Pow2Monotone(i - 1, j);
        CountGrows(es, Pow2(j), MAXASIZE);
        CountBound(es, Pow2(i - 1));
      }
    }
    BestFrom(es, i, a, n, na);
  }

  lemma BestFrom(es: seq<Entry>, i: nat, a: int, n: nat, na: int)
    requires Scanned(es, i, a, n, na)
    requires forall j :: 0 <= j <= MAXBITS && Pow2(j) > n ==> !Filled(es, Pow2(j))
    ensures Best(es, n)
  {
    Pow2Max();
    hide Pow2, Filled, CountIn;
    if n != 0 {
      var j :| 0 <= j < i && n == Pow2(j) && Filled(es, Pow2(j));
      if j > MAXBITS {
        Pow2Monotone(MAXBITS, j);
        assert false;
      }
    }
  }

  /** Larger sizes cannot be half full. */
  lemma ScanOut(es: seq<Entry>, i: nat, a: int, n: nat, na: int)
    requires Scanned(es, i, a, n, na) && Pow2(i) / 2 >= CountIn(es, MAXASIZE)
    ensures Best(es, n)
  {
    forall j | 0 <= j <= MAXBITS && Pow2(j) > n ensures !Filled(es, Pow2(j)) {
      if j >= i {
        Pow2Max();
        Pow2Monotone(j, MAXBITS);
        Pow2Monotone(i, j);
        CountGrows(es, Pow2(j), MAXASIZE);
      }
    }
    BestFrom(es, i, a, n, na);
  }

  lemma IndexBound(es: seq<Entry>, i: nat)
    requires DistinctKeys(es) && i <= MAXBITS + 1 && Pow2(i) / 2 < CountIn(es, MAXASIZE)
    ensures i <= MAXBITS
  {
    CountBound(es, MAXASIZE);
    Pow2Max();
    assert Pow2(MAXBITS + 1) == 2 * Pow2(MAXBITS);
  }

  /** computesizes */
  method ComputeSizes(nums: array<int>, narray: nat, ghost es: seq<Entry>) returns (n: nat, na: int)
    requires Counted(nums[..], es) && DistinctKeys(es) && narray == CountIn(es, MAXASIZE)
    ensures Best(es, n) && n <= MAXASIZE && na == CountIn(es, n)
  {
    hide CountIn, DistinctKeys, Filled, Pow2, Best, InSlice;
    var a, i, twotoi := 0, 0, 1;
    n, na := 0, 0;
    ScanStart(es);
    while twotoi / 2 < narray
      invariant i <= MAXBITS + 1 && twotoi == Pow2(i) && Scanned(es, i, a, n, na)
      decreases MAXBITS + 1 - i
    {
      IndexBound(es, i);
      assert nums[..][i] == InSlice(es, i);
      ScanStep(es, i, a, n, na, nums[i]);
      if nums[i] > 0 {
        a := a + nums[i];
        if a > twotoi / 2 {
          n := twotoi;
          na := a;
        }
      }
      i := i + 1;
      if a == narray {
        ScanDone(es, i, a, n, na);
        return;
      }
      twotoi := twotoi * 2;
    }
    ScanOut(es, i, a, n, na);
  }
}
