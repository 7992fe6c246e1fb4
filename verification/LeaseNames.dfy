/** Labels of lease names (internal/localdns/leases.go): decimal labels, address labels, fallbacks. */
module LeaseNames {
  import opened Common

  type IPv4 = uint32

  // ---- decimals ----

  function Digit(n: nat): char
    requires n < 10
  {
    '0' + n as char
  }

  function Dec(n: nat): (s: string)
    ensures |s| > 0 && '-' !in s
  {
    if n < 10 then [Digit(n)] else Dec(n / 10) + [Digit(n % 10)]
  }

  lemma {:induction false} DigitInjective(a: nat, b: nat)
    requires a < 10 && b < 10 && Digit(a) == Digit(b)
    ensures a == b
  {
  }

  lemma {:induction false} DecInjective(a: nat, b: nat)
    requires Dec(a) == Dec(b)
    ensures a == b
  {
    var s := Dec(a);
    assert s[|s| - 1] == Digit(a % 10) == Digit(b % 10);
    DigitInjective(a % 10, b % 10);
    if a >= 10 && b >= 10 {
      assert s[..|s| - 1] == Dec(a / 10) == Dec(b / 10);
      DecInjective(a / 10, b / 10);
    }
  }

  predicate IsDigit(c: char) { '0' <= c <= '9' }

  lemma {:induction false} DecDigits(n: nat)
    ensures forall i | 0 <= i < |Dec(n)| :: IsDigit(Dec(n)[i])
    ensures n < 1000 ==> |Dec(n)| <= 3
  {
    if n >= 10 {
      DecDigits(n / 10);
      if n < 1000 { DecWidth(n); }
      assert forall i | 0 <= i < |Dec(n)| - 1 :: Dec(n)[i] == Dec(n / 10)[i];
    }
  }

  lemma {:induction false} DecWidth(n: nat)
    requires 10 <= n < 1000
    ensures |Dec(n / 10)| <= 2
  {
    assert n / 10 >= 10 ==> |Dec(n / 10 / 10)| == 1;
  }

  // ---- parts between dashes ----

  function Split(s: string): (r: seq<string>)
    ensures |r| > 0
  {
    if s == [] then [[]]
    else
      var rest := Split(s[1..]);
      if s[0] == '-' then [[]] + rest else [[s[0]] + rest[0]] + rest[1..]
  }

  function Join(parts: seq<string>): string
    requires |parts| > 0
  {
    if |parts| == 1 then parts[0] else parts[0] + ['-'] + Join(parts[1..])
  }

  ghost predicate Dashless(parts: seq<string>) { |parts| > 0 && forall i | 0 <= i < |parts| :: '-' !in parts[i] }

  lemma {:induction false} SplitWord(w: string, rest: string)
    requires '-' !in w
    ensures Split(w) == [w] && Split(w + ['-'] + rest) == [w] + Split(rest)
  {
    if w == [] {
      assert w + ['-'] + rest == ['-'] + rest;
      assert (['-'] + rest)[1..] == rest;
    } else {
      assert forall c :: c in w[1..] ==> c in w;
      SplitWord(w[1..], rest);
      var s := w + ['-'] + rest;
      assert s[0] == w[0] && s[1..] == w[1..] + ['-'] + rest;
      assert w[0] in w && [w[0]] + w[1..] == w;
    }
  }

  lemma {:induction false} SplitJoin(parts: seq<string>)
    requires Dashless(parts)
    ensures Split(Join(parts)) == parts
  {
    if |parts| == 1 {
      SplitWord(parts[0], []);
      assert parts == [parts[0]];
    } else {
      SplitJoin(parts[1..]);
      SplitWord(parts[0], Join(parts[1..]));
      assert parts == [parts[0]] + parts[1..];
    }
  }

  lemma {:induction false} JoinMore(parts: seq<string>, last: string)
    requires |parts| > 0
    ensures Join(parts + [last]) == Join(parts) + ['-'] + last
  {
    var all := parts + [last];
    if |parts| == 1 {
      assert all[1..] == [last] && parts == [parts[0]];
    } else {
      JoinMore(parts[1..], last);
      assert all[1..] == parts[1..] + [last] && all[0] == parts[0];
    }
  }

  // ---- address labels ----

  function Octets(a: IPv4): (r: seq<nat>)
    ensures |r| == 4 && forall i | 0 <= i < 4 :: r[i] < 256
  {
    [a / 0x100_0000, a / 0x1_0000 % 256, a / 256 % 256, a % 256]
  }

  lemma {:induction false} OctetsInjective(a: IPv4, b: IPv4)
    requires Octets(a) == Octets(b)
    ensures a == b
  {
    assert Octets(a)[0] == Octets(b)[0] && Octets(a)[1] == Octets(b)[1] && Octets(a)[2] == Octets(b)[2] && Octets(a)[3] == Octets(b)[3];
    Digits4(a);
    Digits4(b);
  }

  lemma {:induction false} Digits4(a: IPv4)
    ensures a == ((a / 0x100_0000 * 256 + a / 0x1_0000 % 256) * 256 + a / 256 % 256) * 256 + a % 256
  {
    var x := a / 256;
    var y := x / 256;
    assert y == a / 0x1_0000 && y / 256 == a / 0x100_0000;
  }

  function Parts(a: IPv4): (r: seq<string>)
    ensures |r| == 4 && forall i | 0 <= i < 4 :: r[i] == Dec(Octets(a)[i])
  {
    [Dec(Octets(a)[0]), Dec(Octets(a)[1]), Dec(Octets(a)[2]), Dec(Octets(a)[3])]
  }

  /** The fallback label of an address. */
  function Base(a: IPv4): string { "host-" + Join(Parts(a)) }

  /** The i-th variant of a label. */
  function Numbered(base: string, i: nat): string { if i == 0 then base else base + "-" + Dec(i) }

  function VariantParts(a: IPv4, i: nat): (r: seq<string>)
    ensures |r| >= 4 && Dashless(r) && forall k | 0 <= k < 4 :: r[k] == Parts(a)[k]
  {
    if i == 0 then Parts(a) else Parts(a) + [Dec(i)]
  }

  predicate IsOctet(s: string) { exists n: nat | n < 256 :: Dec(n) == s }

  /** host- and four octets, perhaps with more behind them. */
  predicate AddressLabel(s: string) {
    |s| >= 5 && s[..5] == "host-" && |Split(s[5..])| >= 4 && forall k | 0 <= k < 4 :: IsOctet(Split(s[5..])[k])
  }

  lemma {:induction false} VariantSplit(a: IPv4, i: nat)
    ensures var s := Numbered(Base(a), i); |s| >= 5 && s[..5] == "host-" && Split(s[5..]) == VariantParts(a, i)
  {
    hide Dec, Split, Join;
    SplitJoin(VariantParts(a, i));
    if i > 0 {
      JoinMore(Parts(a), Dec(i));
      assert Numbered(Base(a), i) == "host-" + (Join(Parts(a)) + ['-'] + Dec(i));
    }
    assert Numbered(Base(a), i)[5..] == Join(VariantParts(a, i));
  }

  /** Every fallback is an address label, so no name a client chose can equal it. */
  lemma {:induction false} VariantIsAddress(a: IPv4, i: nat)
    ensures AddressLabel(Numbered(Base(a), i))
  {
    hide Dec, Split, Join, Octets, Base;
    VariantSplit(a, i);
    forall k | 0 <= k < 4 ensures IsOctet(VariantParts(a, i)[k]) {
      assert Dec(Octets(a)[k]) == Parts(a)[k];
    }
  }

  /** Fallbacks of different addresses, or different variants, differ. */
  lemma {:induction false} VariantInjective(a: IPv4, i: nat, b: IPv4, j: nat)
    requires Numbered(Base(a), i) == Numbered(Base(b), j)
    ensures a == b && i == j
  {
    hide Dec, Split, Join, Octets, Base, Numbered;
    VariantSplit(a, i);
    VariantSplit(b, j);
    assert VariantParts(a, i) == VariantParts(b, j);
    forall k | 0 <= k < 4 ensures Octets(a)[k] == Octets(b)[k] {
      assert Parts(a)[k] == VariantParts(a, i)[k] == VariantParts(b, j)[k] == Parts(b)[k];
      DecInjective(Octets(a)[k], Octets(b)[k]);
    }
    OctetsInjective(a, b);
    if i > 0 && j > 0 {
      assert VariantParts(a, i)[4] == VariantParts(b, j)[4];
      DecInjective(i, j);
    }
  }

  // ---- choosing a fallback ----

  /** The first variant that nobody else owns. */
  ghost predicate IsFallback(a: IPv4, blocked: set<string>, s: string) {
    s !in blocked && exists i: nat :: FirstFree(a, blocked, s, i)
  }

  ghost predicate FirstFree(a: IPv4, blocked: set<string>, s: string, i: nat) {
    s == Numbered(Base(a), i) && forall j: nat | j < i :: Numbered(Base(a), j) in blocked
  }

  lemma {:induction false} FallbackUnique(a: IPv4, blocked: set<string>, s: string, t: string)
    requires IsFallback(a, blocked, s) && IsFallback(a, blocked, t)
    ensures s == t
  {
    hide Numbered, Base;
    var i: nat :| FirstFree(a, blocked, s, i);
    var j: nat :| FirstFree(a, blocked, t, j);
  }

  lemma {:induction false} FallbacksDiffer(a: IPv4, b: IPv4, blocked: set<string>, s: string)
    requires IsFallback(a, blocked, s) && IsFallback(b, blocked, s)
    ensures a == b
  {
    hide Numbered, Base;
    var i: nat :| FirstFree(a, blocked, s, i);
    var j: nat :| FirstFree(b, blocked, s, j);
    VariantInjective(a, i, b, j);
  }

  lemma {:induction false} FallbackIsAddress(a: IPv4, blocked: set<string>, s: string)
    requires IsFallback(a, blocked, s)
    ensures AddressLabel(s)
  {
    hide Numbered, Base, AddressLabel;
    var i: nat :| FirstFree(a, blocked, s, i);
    VariantIsAddress(a, i);
  }

  /** Finitely many variants are owned, so one is free. */
  lemma {:induction false} FreeVariant(a: IPv4, blocked: set<string>) returns (n: nat)
    ensures FirstFree(a, blocked, Numbered(Base(a), n), n) && Numbered(Base(a), n) !in blocked
  {
    hide Base, Numbered;
    var tried: set<string> := {};
    n := 0;
    while Numbered(Base(a), n) in blocked
      invariant forall j: nat | j < n :: Numbered(Base(a), j) in blocked
      invariant tried <= blocked && forall t :: t in tried ==> exists j: nat :: j < n && t == Numbered(Base(a), j)
      decreases |blocked - tried|
    {
      NotTried(a, tried, n);
      var left := blocked - tried;
      tried := tried + {Numbered(Base(a), n)};
      Shrinks(blocked, tried, left, Numbered(Base(a), n));
      n := n + 1;
    }
  }

  /** Tries variants until one is free. */
  method ChooseFallback(a: IPv4, blocked: set<string>) returns (s: string)
    ensures IsFallback(a, blocked, s)
  {
    hide Base, Numbered;
    var base := Base(a);
    s := base;
    var i: nat := 1;
    ghost var free := FreeVariant(a, blocked);
    FirstVariant(base);
    while s in blocked
      invariant s == Numbered(base, i - 1) && 1 <= i <= free + 1
      invariant forall j: nat | j < i - 1 :: Numbered(base, j) in blocked
      decreases free + 1 - i
    {
      s := Variant(base, i);
      i := i + 1;
    }
    assert FirstFree(a, blocked, s, i - 1);
  }

  function Variant(base: string, i: nat): string
    requires i > 0
    ensures Variant(base, i) == Numbered(base, i)
  {
    base + "-" + Dec(i)
  }

  lemma {:induction false} FirstVariant(base: string)
    ensures Numbered(base, 0) == base
  {
  }

  lemma {:induction false} NotTried(a: IPv4, tried: set<string>, i: nat)
    requires forall t :: t in tried ==> exists j: nat :: j < i && t == Numbered(Base(a), j)
    ensures Numbered(Base(a), i) !in tried
  {
    hide Base, Numbered;
    var s := Numbered(Base(a), i);
    if s in tried {
      var j: nat :| j < i && s == Numbered(Base(a), j);
      VariantInjective(a, i, a, j);
    }
  }

  lemma {:induction false} Shrinks(blocked: set<string>, tried: set<string>, left: set<string>, s: string)
    requires s in blocked && s in left && tried <= blocked && blocked - tried == left - {s}
    ensures |blocked - tried| < |left|
  {
  }
}
