/** The latency histogram (internal/stats/latency.go). */
module Latency {
  import opened Common

  const BINS: nat := 464

  /** Number of significant bits. */
  function Len(x: nat): (r: nat)
    ensures r == 0 <==> x == 0
  {
    if x == 0 then 0 else 1 + Len(x / 2)
  }

  lemma {:induction false} PowStep(n: nat)
    ensures Pow2(n + 1) == 2 * Pow2(n)
  {
  }

  lemma {:induction false} LenStep(x: nat)
    requires x > 1
    ensures Len(x) == 1 + Len(x / 2) && Len(x / 2) > 0
  {
  }

  lemma {:induction false} LenBounds(x: nat)
    requires x > 0
    ensures Pow2(Len(x) - 1) <= x < Pow2(Len(x))
  {
    if x == 1 {
      assert Len(1) == 1;
    } else {
      hide Len, Pow2;
      LenBounds(x / 2);
      LenStep(x);
      PowStep(Len(x / 2));
      PowStep(Len(x / 2) - 1);
    }
  }

  lemma {:induction false} PowMonotone(a: nat, b: nat)
    requires a <= b
    ensures Pow2(a) <= Pow2(b)
  {
    if a < b {
      PowMonotone(a, b - 1);
    }
  }

  lemma {:induction false} Doubles(x: nat, y: nat)
    ensures 2 * (x * y) == 2 * x * y
  {
  }

  lemma {:induction false} PowSum(a: nat, b: nat)
    ensures Pow2(a + b) == Pow2(a) * Pow2(b)
  {
    if a > 0 {
      PowSum(a - 1, b);
      Doubles(Pow2(a - 1), Pow2(b));
    }
  }

  // ---- bins ----

  function Shift(micros: nat): nat { if micros < 32 || Len(micros) < 5 then 0 else Len(micros) - 5 }

  function Index(micros: uint32): nat {
    if micros < 32 then micros else Shift(micros) * 16 + micros / Pow2(Shift(micros))
  }

  function Lower(index: nat): nat {
    if index < 16 then index else (16 + (index - 16) % 16) * Pow2((index - 16) / 16)
  }

  function Upper(index: nat): nat {
    if index < 16 then index else (17 + (index - 16) % 16) * Pow2((index - 16) / 16) - 1
  }

  // ---- a little arithmetic ----

  lemma {:induction false} MulMonotone(a: nat, b: nat, d: nat)
    requires a <= b
    ensures a * d <= b * d
  {
  }

  lemma {:induction false} Divides(x: nat, d: nat)
    requires d > 0
    ensures x / d * d <= x < x / d * d + d
  {
    assert x == x / d * d + x % d;
  }

  lemma {:induction false} Quotient(x: nat, d: nat, lo: nat, hi: nat)
    requires d > 0 && lo * d <= x < hi * d
    ensures lo <= x / d < hi
  {
    var q := x / d;
    Divides(x, d);
    if q < lo {
      MulMonotone(q + 1, lo, d);
    } else if q >= hi {
      MulMonotone(hi, q, d);
    }
  }

  lemma {:induction false} Powers()
    ensures Pow2(4) == 16 && Pow2(5) == 32 && Pow2(32) == 0x1_0000_0000
  {
    assert Pow2(8) == 256;
    assert Pow2(16) == 65536 by { PowSum(8, 8); }
    assert Pow2(32) == 65536 * 65536 by { PowSum(16, 16); }
  }

  /** From 32 on a duration has 6 to 32 significant bits. */
  lemma {:induction false} LenRange(micros: uint32)
    requires micros >= 32
    ensures 6 <= Len(micros) <= 32
  {
    hide Pow2, Len;
    LenBounds(micros);
    Powers();
    if Len(micros) <= 5 {
      PowMonotone(Len(micros), 5);
    } else if Len(micros) > 32 {
      PowMonotone(32, Len(micros) - 1);
    }
  }

  /** From 32 on the leading five bits select the bin within its power of two. */
  lemma {:induction false} TopBits(micros: uint32)
    requires micros >= 32
    ensures 1 <= Shift(micros) <= 27 && 16 <= micros / Pow2(Shift(micros)) < 32
  {
    hide Pow2, Len;
    LenRange(micros);
    LenBounds(micros);
    var s := Len(micros) - 5;
    Powers();
    PowSum(4, s);
    PowSum(5, s);
    Quotient(micros, Pow2(s), 16, 32);
  }

  lemma {:induction false} IndexParts(s: nat, q: nat)
    requires 16 <= q < 32
    ensures (s * 16 + q - 16) / 16 == s && (s * 16 + q - 16) % 16 == q - 16
  {
  }

  /** From 32 on a bin is the run of values that share their shift and leading bits. */
  lemma {:induction false} BinParts(micros: uint32)
    requires micros >= 32
    ensures var i, d := Index(micros), Pow2(Shift(micros));
      && 32 <= i < BINS && d > 0 && 16 * d <= Lower(i) <= micros <= Upper(i) && Upper(i) == Lower(i) + d - 1
  {
    hide Pow2, Shift;
    TopBits(micros);
    var d := Pow2(Shift(micros));
    var q := micros / d;
    IndexParts(Shift(micros), q);
    Divides(micros, d);
    MulMonotone(16, q, d);
    OneMore(q, d);
  }

  lemma {:induction false} OneMore(q: nat, d: nat)
    ensures (q + 1) * d == q * d + d
  {
  }

  lemma {:induction false} SmallBins(micros: nat)
    requires micros < 32
    ensures Lower(micros) == Upper(micros) == micros
  {
    if micros >= 16 {
      assert (micros - 16) / 16 == 0 && (micros - 16) % 16 == micros - 16;
      assert Pow2(0) == 1;
    }
  }

  /** Every duration lies in its own bin, and there are 464 bins. */
  lemma {:induction false} BinContains(micros: uint32)
    ensures Index(micros) < BINS && Lower(Index(micros)) <= micros <= Upper(Index(micros))
  {
    hide Lower, Upper;
    if micros >= 32 {
      hide Index, Shift;
      BinParts(micros);
    } else {
      SmallBins(micros);
    }
  }

  /** The position of the next bin: the same power of two, or the start of the next one. */
  lemma {:induction false} NextBin(i: nat)
    ensures var s, j := i / 16, i % 16;
      if j == 15 then (i + 1) / 16 == s + 1 && (i + 1) % 16 == 0 else (i + 1) / 16 == s && (i + 1) % 16 == j + 1
  {
  }

  /** Bins follow one another without gap or overlap. */
  lemma {:induction false} BinsAdjoin(index: nat)
    ensures Lower(index + 1) == Upper(index) + 1 && Lower(index) <= Upper(index)
  {
    if index >= 16 {
      var s, j := (index - 16) / 16, (index - 16) % 16;
      NextBin(index - 16);
      assert Pow2(s + 1) == 2 * Pow2(s);
      hide Pow2;
      OneMore(16 + j, Pow2(s));
      if j == 15 {
        Doubles(16, Pow2(s));
      }
    } else if index == 15 {
      SmallBins(16);
    }
  }

  lemma {:induction false} LowerMonotone(a: nat, b: nat)
    requires a < b
    ensures Upper(a) < Lower(b)
  {
    hide Lower, Upper;
    BinsAdjoin(b - 1);
    if a < b - 1 {
      LowerMonotone(a, b - 1);
    }
  }

  /** The last bin ends at the greatest 32-bit duration, so no bound is cut off when it is stored in 32 bits. */
  lemma {:induction false} BoundsFit(index: nat)
    requires index < BINS
    ensures Lower(index) <= Upper(index) < 0x1_0000_0000 && Lower(0) == 0 && Upper(BINS - 1) == 0xFFFF_FFFF
  {
    LastBin();
    hide Lower, Upper;
    BinsAdjoin(index);
    if index < BINS - 1 {
      LowerMonotone(index, BINS - 1);
      BinsAdjoin(BINS - 1);
    }
  }

  lemma {:induction false} LastBin()
    ensures Lower(0) == 0 && Upper(BINS - 1) == 0xFFFF_FFFF
  {
    Powers();
    PowSum(5, 27);
    assert (BINS - 1 - 16) / 16 == 27 && (BINS - 1 - 16) % 16 == 15;
  }

  /** A duration lies in no other bin. */
  lemma {:induction false} BinUnique(micros: uint32, index: nat)
    requires Lower(index) <= micros <= Upper(index)
    ensures index == Index(micros)
  {
    hide Lower, Upper, Index;
    BinContains(micros);
    if index < Index(micros) { LowerMonotone(index, Index(micros)); }
    if index > Index(micros) { LowerMonotone(Index(micros), index); }
  }

  lemma {:induction false} IndexMonotone(a: uint32, b: uint32)
    requires a <= b
    ensures Index(a) <= Index(b)
  {
    hide Lower, Upper, Index;
    BinContains(a);
    BinContains(b);
    if Index(b) < Index(a) { LowerMonotone(Index(b), Index(a)); }
  }

  function Middle(index: nat): nat { Lower(index) + (Upper(index) - Lower(index)) / 2 }

  /** The middle of a bin is within a thirty-second of each of its values, and exact below 32. */
  lemma {:induction false} MiddleClose(micros: uint32)
    ensures var m := Middle(Index(micros)); 32 * (m - micros) <= micros && 32 * (micros - m) <= micros
    ensures micros < 32 ==> Middle(Index(micros)) == micros
  {
    hide Lower, Upper;
    if micros < 32 {
      SmallBins(micros);
    } else {
      hide Index, Shift;
      BinParts(micros);
    }
  }

  // ---- counting ----

  type Histogram = h: seq<nat> | |h| == BINS witness seq(BINS, _ => 0)

  /** How many of the values fall into a bin. */
  function InBin(vs: seq<uint32>, i: nat): nat {
    if vs == [] then 0 else InBin(vs[1..], i) + if Index(vs[0]) == i then 1 else 0
  }

  /** How many fall into the first n bins. */
  function Below(vs: seq<uint32>, n: nat): nat {
    if vs == [] then 0 else Below(vs[1..], n) + if Index(vs[0]) < n then 1 else 0
  }

  ghost predicate Records(h: Histogram, vs: seq<uint32>) { forall i | 0 <= i < BINS :: h[i] == InBin(vs, i) }

  lemma {:induction false} BelowStep(vs: seq<uint32>, n: nat)
    ensures Below(vs, n + 1) == Below(vs, n) + InBin(vs, n)
  {
    if vs != [] {
      BelowStep(vs[1..], n);
    }
  }

  lemma {:induction false} BelowEnds(vs: seq<uint32>)
    ensures Below(vs, 0) == 0 && Below(vs, BINS) == |vs|
  {
    hide Index;
    if vs != [] {
      BelowEnds(vs[1..]);
      BinContains(vs[0]);
    }
  }

  /** The total is the number of recorded values. */
  method Count(h: Histogram, ghost vs: seq<uint32>) returns (n: nat)
    requires Records(h, vs)
    ensures n == |vs|
  {
    n := 0;
    BelowEnds(vs);
    for i := 0 to BINS
      invariant n == Below(vs, i)
    {
      BelowStep(vs, i);
      n := n + h[i];
    }
  }

  // ---- percentiles ----

  predicate Sorted(vs: seq<uint32>) { forall i, j | 0 <= i < j < |vs| :: vs[i] <= vs[j] }

  /** The nearest rank, rounded up. */
  function Rank(n: nat, percent: nat): nat { n / 100 * percent + (n % 100 * percent + 99) / 100 }

  /** The split formula is the ceiling of n times percent over 100. */
  lemma {:induction false} RankIsCeiling(n: nat, percent: nat)
    requires n > 0 && 1 <= percent <= 100
    ensures Rank(n, percent) == (n * percent + 99) / 100 && 1 <= Rank(n, percent) <= n
  {
    var q, r := n / 100, n % 100;
    Spread(q, r, percent);
    var a, b := q * percent, r * percent;
    assert n * percent == 100 * a + b;
    assert (100 * a + b + 99) / 100 == a + (b + 99) / 100;
    MulMonotone(1, percent, n);
    MulMonotone(percent, 100, n);
    Within(n, percent);
  }

  lemma {:induction false} Spread(q: nat, r: nat, p: nat)
    ensures (100 * q + r) * p == 100 * (q * p) + r * p
  {
  }

  lemma {:induction false} Within(n: nat, percent: nat)
    requires n > 0 && 1 * n <= percent * n <= 100 * n
    ensures 1 <= (n * percent + 99) / 100 <= n
  {
    var x := percent * n;
    assert n * percent == x;
  }

  /** In a sorted list the values below a bin come first. */
  lemma {:induction false} BelowIsPrefix(vs: seq<uint32>, n: nat, r: nat)
    requires Sorted(vs) && r < |vs|
    ensures Index(vs[r]) < n <==> r < Below(vs, n)
    decreases |vs|
  {
    hide Index;
    var rest := vs[1..];
    assert forall i | 0 <= i < |rest| :: rest[i] == vs[i + 1];
    if Index(vs[0]) >= n {
      NoneBelow(vs, n);
      IndexMonotone(vs[0], vs[r]);
    } else if r > 0 {
      BelowIsPrefix(rest, n, r - 1);
    }
  }

  lemma {:induction false} NoneBelow(vs: seq<uint32>, n: nat)
    requires Sorted(vs) && vs != [] && Index(vs[0]) >= n
    ensures Below(vs, n) == 0
    decreases |vs|
  {
    hide Index;
    var rest := vs[1..];
    if rest != [] {
      assert forall i | 0 <= i < |rest| :: rest[i] == vs[i + 1];
      IndexMonotone(vs[0], rest[0]);
      NoneBelow(rest, n);
    }
  }

  /** Order does not matter to a histogram. */
  lemma {:induction false} BelowOfMultiset(vs: seq<uint32>, ws: seq<uint32>, n: nat)
    requires multiset(vs) == multiset(ws)
    ensures Below(vs, n) == Below(ws, n)
    decreases |vs|
  {
    if vs == [] {
      assert |multiset(ws)| == 0;
    } else {
      var k := Locate(vs, ws);
      BelowWithout(ws, k, n);
      BelowOfMultiset(vs[1..], ws[..k] + ws[k + 1..], n);
    }
  }

  lemma {:induction false} Locate(vs: seq<uint32>, ws: seq<uint32>) returns (k: nat)
    requires vs != [] && multiset(vs) == multiset(ws)
    ensures k < |ws| && ws[k] == vs[0] && multiset(vs[1..]) == multiset(ws[..k] + ws[k + 1..])
  {
    var v := vs[0];
    assert v in multiset(ws);
    k :| k < |ws| && ws[k] == v;
    assert ws == ws[..k] + [v] + ws[k + 1..];
    assert vs == [v] + vs[1..];
    assert multiset(ws) == multiset(ws[..k]) + multiset{v} + multiset(ws[k + 1..]);
    assert multiset(vs) == multiset{v} + multiset(vs[1..]);
    var rest := ws[..k] + ws[k + 1..];
    assert multiset(rest) == multiset(ws[..k]) + multiset(ws[k + 1..]);
    assert multiset(ws) - multiset{v} == multiset(rest) && multiset(vs) - multiset{v} == multiset(vs[1..]);
  }

  lemma {:induction false} BelowWithout(vs: seq<uint32>, k: nat, n: nat)
    requires k < |vs|
    ensures Below(vs, n) == Below(vs[..k] + vs[k + 1..], n) + if Index(vs[k]) < n then 1 else 0
    decreases |vs|
  {
    hide Index;
    var rest := vs[..k] + vs[k + 1..];
    if k == 0 {
      assert rest == vs[1..];
    } else {
      BelowWithout(vs[1..], k - 1, n);
      assert rest[0] == vs[0] && rest[1..] == vs[1..][..k - 1] + vs[1..][k..];
    }
  }

  /**
   The reported percentile is the middle of the bin that holds the true nearest-rank value, so it
   is within a thirty-second of it, and exact below 32. vs are the recorded values in any order.
   */
  method Percentile(h: Histogram, percent: nat, ghost vs: seq<uint32>, ghost sorted: seq<uint32>) returns (r: Option<nat>)
    requires Records(h, vs) && Sorted(sorted) && multiset(sorted) == multiset(vs)
    ensures r.None? <==> vs == [] || percent == 0 || percent > 100
    ensures r.Some? ==>
      && |sorted| == |vs| && 1 <= Rank(|vs|, percent) <= |vs|
      && var exact := sorted[Rank(|vs|, percent) - 1];
         && r.value == Middle(Index(exact))
         && 32 * (r.value - exact) <= exact && 32 * (exact - r.value) <= exact && (exact < 32 ==> r.value == exact)
  {
    hide Index, Middle, Rank, Sorted;
    var n := Count(h, vs);
    if n == 0 || percent == 0 || percent > 100 {
      return None;
    }
    RankIsCeiling(n, percent);
    SameSize(vs, sorted);
    var rank := Rank(n, percent);
    ghost var exact := sorted[rank - 1];
    var seen := 0;
    BelowEnds(vs);
    for i := 0 to BINS
      invariant seen == Below(vs, i) < rank
    {
      BelowStep(vs, i);
      seen := seen + h[i];
      BelowOfMultiset(vs, sorted, i);
      BelowOfMultiset(vs, sorted, i + 1);
      BelowIsPrefix(sorted, i, rank - 1);
      BelowIsPrefix(sorted, i + 1, rank - 1);
      if seen >= rank {
        MiddleClose(exact);
        return Some(Middle(i));
      }
    }
    assert false;
  }

  lemma {:induction false} SameSize(a: seq<uint32>, b: seq<uint32>)
    requires multiset(a) == multiset(b)
    ensures |a| == |b|
  {
    assert |multiset(a)| == |a| && |multiset(b)| == |b|;
  }
}
