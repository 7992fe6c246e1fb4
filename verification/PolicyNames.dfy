/** Canonical names of the policy engine (internal/policy/normalize.go): labels, wire form, reversal. */
module PolicyNames {
  import opened Common
  import opened DnsName

  type Label = seq<byte>

  predicate GoodLabel(l: Label) { 1 <= |l| <= 63 }
  predicate GoodLabels(ls: seq<Label>) { forall i | 0 <= i < |ls| :: GoodLabel(ls[i]) }

  /** Length-prefixed labels, without the root. */
  function Encode(ls: seq<Label>): seq<byte>
    requires GoodLabels(ls)
  {
    if ls == [] then [] else [|ls[0]|] + ls[0] + Encode(ls[1..])
  }

  predicate Wire(w: seq<byte>)
    decreases |w|
  {
    w == [] || (1 <= w[0] <= 63 && 1 + w[0] <= |w| && Wire(w[1 + w[0]..]))
  }

  /** A stored name: at most 254 octets of labels; the root is empty. */
  predicate ValidName(w: seq<byte>) { Wire(w) && |w| <= 254 }

  function LabelsOf(w: seq<byte>): (ls: seq<Label>)
    requires Wire(w)
    ensures GoodLabels(ls)
    decreases |w|
  {
    if w == [] then [] else [w[1..1 + w[0]]] + LabelsOf(w[1 + w[0]..])
  }

  lemma {:induction false} EncodeCons(l: Label, ls: seq<Label>)
    requires GoodLabel(l) && GoodLabels(ls)
    ensures GoodLabels([l] + ls) && Encode([l] + ls) == [|l|] + l + Encode(ls)
  {
    assert ([l] + ls)[1..] == ls;
  }

  /** The first label and the rest of a stored name. */
  lemma {:induction false} FirstLabel(w: seq<byte>)
    requires Wire(w) && w != []
    ensures var n: nat := 1 + w[0] as int;
      && n <= |w| && Wire(w[n..]) && |w[1..n]| == w[0] && GoodLabel(w[1..n]) && LabelsOf(w) == [w[1..n]] + LabelsOf(w[n..])
  {
  }

  lemma {:induction false} EncodeLabels(w: seq<byte>)
    requires Wire(w)
    ensures Encode(LabelsOf(w)) == w
    decreases |w|
  {
    if w != [] {
      hide Encode, LabelsOf, Wire, GoodLabels, GoodLabel;
      FirstLabel(w);
      var n: nat := 1 + w[0] as int;
      EncodeLabels(w[n..]);
      EncodeCons(w[1..n], LabelsOf(w[n..]));
      assert w == [w[0]] + w[1..n] + w[n..];
    }
  }

  lemma {:induction false} LabelsEncode(ls: seq<Label>)
    requires GoodLabels(ls)
    ensures Wire(Encode(ls)) && LabelsOf(Encode(ls)) == ls
  {
    if ls != [] {
      LabelsEncode(ls[1..]);
      var w, rest := Encode(ls), Encode(ls[1..]);
      var n: nat := 1 + |ls[0]|;
      assert w[0] == |ls[0]| && w[n..] == rest && w[1..n] == ls[0];
      assert ls == [ls[0]] + ls[1..];
    }
  }

  /** The wire form tells names apart. */
  lemma {:induction false} EncodeInjective(a: seq<Label>, b: seq<Label>)
    requires GoodLabels(a) && GoodLabels(b) && Encode(a) == Encode(b)
    ensures a == b
  {
    LabelsEncode(a);
    LabelsEncode(b);
  }

  lemma {:induction false} GoodAppend(a: seq<Label>, b: seq<Label>)
    requires GoodLabels(a) && GoodLabels(b)
    ensures GoodLabels(a + b)
  {
    hide GoodLabel;
  }

  lemma {:induction false} EncodeAppend(a: seq<Label>, b: seq<Label>)
    requires GoodLabels(a) && GoodLabels(b)
    ensures GoodLabels(a + b) && Encode(a + b) == Encode(a) + Encode(b)
  {
    GoodAppend(a, b);
    if a == [] {
      EncodeNone();
      hide Encode, GoodLabels;
      assert a + b == b;
    } else {
      hide Encode, GoodLabels, GoodLabel;
      var rest := a[1..];
      FirstGood(a);
      EncodeAppend(rest, b);
      EncodeCons(a[0], rest + b);
      EncodeCons(a[0], rest);
      assert a + b == [a[0]] + (rest + b) && a == [a[0]] + rest;
    }
  }

  lemma {:induction false} FirstGood(a: seq<Label>)
    requires GoodLabels(a) && a != []
    ensures GoodLabels(a[1..]) && GoodLabel(a[0])
  {
    hide GoodLabel;
  }

  lemma {:induction false} EncodeSize(ls: seq<Label>)
    requires GoodLabels(ls)
    ensures |Encode(ls)| >= 2 * |ls|
  {
    if ls != [] {
      EncodeSize(ls[1..]);
    }
  }

  /** A name has at most 127 labels. */
  lemma {:induction false} FewLabels(w: seq<byte>)
    requires ValidName(w)
    ensures |LabelsOf(w)| <= 127
  {
    EncodeLabels(w);
    EncodeSize(LabelsOf(w));
  }

  // ---- reading and reversing ----

  function Rev<T>(s: seq<T>): (r: seq<T>)
    ensures |r| == |s|
    ensures forall i | 0 <= i < |s| :: r[i] == s[|s| - 1 - i]
  {
    seq(|s|, i requires 0 <= i < |s| => s[|s| - 1 - i])
  }

  lemma {:induction false} RevGood(ls: seq<Label>)
    requires GoodLabels(ls)
    ensures GoodLabels(Rev(ls))
  {
  }

  /** Labels in reverse order, root side first. */
  function Reversed(w: seq<byte>): seq<byte>
    requires Wire(w)
  {
    RevGood(LabelsOf(w));
    Encode(Rev(LabelsOf(w)))
  }

  /** One more label, read from a suffix. */
  lemma {:induction false} LabelsStep(w: seq<byte>, i: nat)
    requires i < |w| && Wire(w[i..])
    ensures var n: nat := 1 + w[i] as int;
      1 < n <= |w| - i && Wire(w[i + n..]) && LabelsOf(w[i..]) == [w[i + 1..i + n]] + LabelsOf(w[i + n..])
  {
    var n: nat := 1 + w[i] as int;
    var s := w[i..];
    assert s[0] == w[i] && |s| == |w| - i;
    assert LabelsOf(s) == [s[1..n]] + LabelsOf(s[n..]);
    hide LabelsOf;
    assert s[n..] == w[i + n..] && s[1..n] == w[i + 1..i + n];
  }

  method ReadLabels(w: seq<byte>) returns (ls: seq<Label>)
    requires Wire(w)
    ensures ls == LabelsOf(w)
  {
    hide LabelsOf, Wire;
    ls := [];
    var i: nat := 0;
    assert w[0..] == w;
    while i < |w|
      invariant i <= |w| && Wire(w[i..]) && LabelsOf(w) == ls + LabelsOf(w[i..])
      decreases |w| - i
    {
      LabelsStep(w, i);
      var end: nat := i + 1 + w[i];
      ls := ls + [w[i + 1..end]];
      i := end;
    }
    LabelsNone();
    assert w[i..] == [];
  }

  lemma {:induction false} LabelsNone()
    ensures Wire([]) && LabelsOf([]) == []
  {
  }

  /** The offsets hold where each label starts. */
  ghost predicate StartsOf(w: seq<byte>, offsets: seq<nat>, ls: seq<Label>) {
    |offsets| == |ls| && forall k | 0 <= k < |ls| ::
      offsets[k] < |w| && w[offsets[k]] == |ls[k]| && offsets[k] + 1 + |ls[k]| <= |w| && w[offsets[k] + 1..offsets[k] + 1 + |ls[k]|] == ls[k]
  }

  method LabelStarts(w: seq<byte>) returns (offsets: seq<nat>)
    requires Wire(w)
    ensures StartsOf(w, offsets, LabelsOf(w))
  {
    hide LabelsOf, Wire;
    offsets := [];
    ghost var ls: seq<Label> := [];
    var i: nat := 0;
    assert w[0..] == w;
    while i < |w|
      invariant i <= |w| && Wire(w[i..]) && LabelsOf(w) == ls + LabelsOf(w[i..]) && StartsOf(w, offsets, ls)
      decreases |w| - i
    {
      LabelsStep(w, i);
      var end: nat := i + 1 + w[i];
      offsets, ls := offsets + [i], ls + [w[i + 1..end]];
      i := end;
    }
    LabelsNone();
    assert w[i..] == [] && ls == LabelsOf(w);
  }

  /** Collects the label offsets, then copies the labels from the last to the first. */
  method ReverseName(w: seq<byte>) returns (r: seq<byte>)
    requires Wire(w)
    ensures r == Reversed(w)
  {
    hide LabelsOf, Wire, Encode, StartsOf;
    var offsets := LabelStarts(w);
    ghost var ls := LabelsOf(w);
    StartCount(w, offsets, ls);
    var n := |offsets|;
    r := [];
    RevGood(ls);
    EncodeNone();
    for k := 0 to n
      invariant r == Encode(Rev(ls)[..k])
    {
      StartAt(w, offsets, ls, n - 1 - k);
      var start := offsets[n - 1 - k];
      EncodeAppend(Rev(ls)[..k], [ls[n - 1 - k]]);
      EncodeOne(ls[n - 1 - k]);
      assert Rev(ls)[..k + 1] == Rev(ls)[..k] + [ls[n - 1 - k]];
      r := r + w[start..start + 1 + w[start]];
    }
    assert Rev(ls)[..n] == Rev(ls);
  }

  lemma {:induction false} StartCount(w: seq<byte>, offsets: seq<nat>, ls: seq<Label>)
    requires StartsOf(w, offsets, ls)
    ensures |offsets| == |ls|
  {
  }

  lemma {:induction false} StartAt(w: seq<byte>, offsets: seq<nat>, ls: seq<Label>, k: nat)
    requires StartsOf(w, offsets, ls) && GoodLabels(ls) && k < |ls|
    ensures k < |offsets| && offsets[k] < |w| && offsets[k] + 1 + w[offsets[k]] <= |w|
    ensures w[offsets[k]..offsets[k] + 1 + w[offsets[k]]] == [|ls[k]|] + ls[k]
  {
    var o := offsets[k];
    assert w[o..o + 1 + w[o]] == [w[o]] + w[o + 1..o + 1 + w[o]];
  }

  lemma {:induction false} EncodeNone()
    ensures Encode([]) == []
  {
  }

  lemma {:induction false} EncodeOne(l: Label)
    requires GoodLabel(l)
    ensures Encode([l]) == [|l|] + l
  {
    assert [l][1..] == [];
    assert [|l|] + l + [] == [|l|] + l;
  }

  // ---- label suffixes ----

  /** The last labels of a name are those of another. */
  predicate LabelSuffix(name: seq<Label>, suffix: seq<Label>) {
    |suffix| <= |name| && name[|name| - |suffix|..] == suffix
  }

  /** The k labels next to the root, in reverse order. */
  function Top(name: seq<byte>, k: nat): seq<byte>
    requires Wire(name) && k <= |LabelsOf(name)|
  {
    RevGood(LabelsOf(name));
    Encode(Rev(LabelsOf(name))[..k])
  }

  /** Reversed keys meet exactly where label suffixes do. */
  lemma {:induction false} SuffixKeys(name: seq<byte>, suffix: seq<byte>, k: nat)
    requires Wire(name) && Wire(suffix) && k <= |LabelsOf(name)|
    ensures Top(name, k) == Reversed(suffix) <==> |LabelsOf(suffix)| == k && LabelSuffix(LabelsOf(name), LabelsOf(suffix))
  {
    hide LabelsOf, Encode, LabelSuffix;
    var a, b := LabelsOf(name), LabelsOf(suffix);
    RevGood(a);
    RevGood(b);
    RevSuffix(a, b, k);
    if Top(name, k) == Reversed(suffix) {
      EncodeInjective(Rev(a)[..k], Rev(b));
    }
  }

  lemma {:induction false} RevSuffix(a: seq<Label>, b: seq<Label>, k: nat)
    requires k <= |a|
    ensures Rev(a)[..k] == Rev(b) <==> |b| == k && LabelSuffix(a, b)
  {
    if Rev(a)[..k] == Rev(b) {
      forall i | 0 <= i < k ensures a[|a| - k + i] == b[i] {
        assert Rev(a)[..k][k - 1 - i] == Rev(b)[k - 1 - i];
      }
      assert a[|a| - k..] == b;
    }
    if |b| == k && LabelSuffix(a, b) {
      forall i | 0 <= i < k ensures Rev(a)[..k][i] == Rev(b)[i] {
        assert a[|a| - k..][k - 1 - i] == b[k - 1 - i];
      }
      assert Rev(a)[..k] == Rev(b);
    }
  }

  // ---- names from the wire ----

  /** A complete wire name, root included, becomes a stored name with case folded. */
  function FromWire(b: seq<byte>): Option<seq<byte>> {
    if ValidWire(b) then Some(Fold(b[..|b| - 1])) else None
  }

  lemma {:induction false} WireOfLabels(b: seq<byte>)
    requires Labels(b)
    ensures Wire(Fold(b[..|b| - 1]))
    decreases |b|
  {
    if b[0] != 0 {
      var n: nat := 1 + b[0] as int;
      var rest := b[n..];
      WireOfLabels(rest);
      var w := Fold(b[..|b| - 1]);
      assert w[0] == b[0];
      assert w[n..] == Fold(rest[..|rest| - 1]);
    }
  }

  lemma {:induction false} FromWireValid(b: seq<byte>)
    ensures FromWire(b).Some? ==> ValidName(FromWire(b).value)
  {
    if FromWire(b).Some? {
      WireOfLabels(b);
    }
  }

  /** Folds the octets of one label in place. */
  method FoldLabel(b: seq<byte>, from: seq<byte>, i: nat, n: nat) returns (out: seq<byte>)
    requires i + n <= |b| == |from|
    requires (forall k | 0 <= k < i :: from[k] == Lower(b[k])) && forall k | i <= k < |b| :: from[k] == b[k]
    ensures |out| == |b|
    ensures (forall k | 0 <= k < i + n :: out[k] == Lower(b[k])) && forall k | i + n <= k < |b| :: out[k] == b[k]
  {
    hide Lower;
    out := from;
    for j := i to i + n
      invariant |out| == |b|
      invariant (forall k | 0 <= k < j :: out[k] == Lower(b[k])) && forall k | j <= k < |b| :: out[k] == b[k]
    {
      out := out[j := Lower(out[j])];
    }
  }

  lemma {:induction false} LabelsFrom(b: seq<byte>, i: nat)
    requires i < |b|
    ensures b[i] == 0 ==> (Labels(b[i..]) <==> i == |b| - 1)
    ensures b[i] >= 64 || (b[i] > 0 && i + 1 + b[i] >= |b|) ==> !Labels(b[i..])
    ensures 0 < b[i] < 64 && i + 1 + b[i] < |b| ==> (Labels(b[i..]) <==> Labels(b[i + 1 + b[i]..]))
  {
    var s := b[i..];
    assert s[0] == b[i] && |s| == |b| - i;
    if 0 < b[i] < 64 && i + 1 + b[i] < |b| {
      var n: nat := 1 + b[i] as int;
      assert s[n..] == b[i + n..];
    }
  }

  /** The folding loop over a copy of the input. */
  method NameFromWire(b: seq<byte>) returns (r: Option<seq<byte>>)
    ensures r == FromWire(b)
    ensures r.Some? ==> ValidName(r.value)
  {
    FromWireValid(b);
    hide Labels, Lower, ValidName;
    if |b| == 0 || |b| > MAX_NAME {
      NoLabels();
      return None;
    }
    var out: seq<byte>, i: nat := b, 0;
    assert b[0..] == b;
    while i < |b|
      invariant i <= |b| == |out|
      invariant ValidWire(b) <==> i < |b| && Labels(b[i..])
      invariant (forall k | 0 <= k < i :: out[k] == Lower(b[k])) && forall k | i <= k < |b| :: out[k] == b[k]
      decreases |b| - i
    {
      LabelsFrom(b, i);
      var length: nat := out[i];
      if length == 0 {
        if i != |b| - 1 {
          return None;
        }
        assert out[..i] == Fold(b[..i]);
        return Some(out[..i]);
      }
      if length > 63 || i + 1 + length >= |b| {
        return None;
      }
      LengthFolds(b[i]);
      out := FoldLabel(b, out, i, 1 + length);
      i := i + 1 + length;
    }
    return None;
  }

  lemma {:induction false} NoLabels()
    ensures !Labels([])
  {
  }

  /** Length octets are below the letters. */
  lemma {:induction false} LengthFolds(b: byte)
    requires b < 64
    ensures Lower(b) == b
  {
  }
}
