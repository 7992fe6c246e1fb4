/** Printing and parsing observed names (internal/policy/normalize.go, presentation.go). */
module PolicyPresentation {
  import opened Common
  import opened DnsName
  import opened PolicyNames

  const DOT: byte := 46
  const BACKSLASH: byte := 92

  predicate Digit(c: byte) { 48 <= c <= 57 }
  /** Octets printed as themselves. */
  predicate Literal(c: byte) { 97 <= c <= 122 || Digit(c) || c == 45 || c == 95 }
  predicate Upper(c: byte) { 65 <= c <= 90 }

  // ---- printing ----

  function Show(c: byte): seq<byte> {
    if Literal(c) then [c] else [BACKSLASH, 48 + c / 100, 48 + c / 10 % 10, 48 + c % 10]
  }

  function ShowLabel(l: Label): seq<byte> {
    if l == [] then [] else Show(l[0]) + ShowLabel(l[1..])
  }

  function ShowLabels(ls: seq<Label>): seq<byte> {
    if ls == [] then [] else if |ls| == 1 then ShowLabel(ls[0]) else ShowLabel(ls[0]) + [DOT] + ShowLabels(ls[1..])
  }

  function Display(name: seq<byte>): seq<byte>
    requires Wire(name)
  {
    ShowLabels(LabelsOf(name))
  }

  lemma {:induction false} ShowLabelAppend(l: Label, c: byte)
    ensures ShowLabel(l + [c]) == ShowLabel(l) + Show(c)
  {
    hide Show;
    if l == [] {
      assert [c][1..] == [] && ShowLabel([c]) == Show(c) + [];
    } else {
      ShowLabelAppend(l[1..], c);
      assert (l + [c])[1..] == l[1..] + [c];
    }
  }

  /** Everything printed before a further label, with its dot. */
  function ShowMore(ls: seq<Label>): seq<byte> { if ls == [] then [] else ShowLabels(ls) + [DOT] }

  lemma {:induction false} ShowCons(l: Label, ls: seq<Label>)
    ensures ShowLabels([l] + ls) == if ls == [] then ShowLabel(l) else ShowLabel(l) + [DOT] + ShowLabels(ls)
  {
    hide ShowLabel;
    assert ([l] + ls)[1..] == ls;
  }

  lemma {:induction false} ShowLabelsAppend(ls: seq<Label>, l: Label)
    ensures ShowLabels(ls + [l]) == ShowMore(ls) + ShowLabel(l)
  {
    hide ShowLabel, ShowLabels;
    if ls == [] {
      ShowCons(l, []);
      assert ls + [l] == [l] + [];
    } else {
      var rest := ls[1..];
      ShowLabelsAppend(rest, l);
      ShowCons(ls[0], rest + [l]);
      ShowCons(ls[0], rest);
      assert ls + [l] == [ls[0]] + (rest + [l]) && ls == [ls[0]] + rest;
    }
  }

  /** The printing loop over the wire form. */
  method DisplayName(name: seq<byte>) returns (out: seq<byte>)
    requires Wire(name)
    ensures out == Display(name)
  {
    hide Wire, LabelsOf, ShowLabels, ShowLabel, Show;
    out := [];
    var i: nat := 0;
    ghost var ls: seq<Label> := [];
    assert name[0..] == name;
    ShowNothing();
    while i < |name|
      invariant i <= |name| && Wire(name[i..]) && LabelsOf(name) == ls + LabelsOf(name[i..])
      invariant out == ShowLabels(ls) && (i > 0 <==> ls != [])
      decreases |name| - i
    {
      LabelsStep(name, i);
      if i > 0 {
        out := out + [DOT];
      }
      var end: nat := i + 1 + name[i];
      ghost var l := name[i + 1..end];
      ShowLabelsAppend(ls, l);
      out := PrintLabel(name, i + 1, end, out);
      ls := ls + [l];
      i := end;
    }
    LabelsNone();
    assert name[i..] == [] && ls + [] == ls;
  }

  lemma {:induction false} ShowNothing()
    ensures ShowLabels([]) == [] && ShowLabel([]) == []
  {
  }

  method PrintLabel(name: seq<byte>, start: nat, end: nat, before: seq<byte>) returns (out: seq<byte>)
    requires start <= end <= |name|
    ensures out == before + ShowLabel(name[start..end])
  {
    hide ShowLabel;
    out := before;
    ShowNothing();
    assert name[start..start] == [];
    for j := start to end
      invariant out == before + ShowLabel(name[start..j])
    {
      ShowLabelAppend(name[start..j], name[j]);
      assert name[start..j + 1] == name[start..j] + [name[j]];
      var c := name[j];
      if Literal(c) {
        out := out + [c];
      } else {
        out := out + [BACKSLASH] + [48 + c / 100] + [48 + c / 10 % 10] + [48 + c % 10];
      }
    }
  }

  // ---- parsing ----

  datatype State = State(wire: seq<byte>, current: Label) | Bad

  /** Closing a label. */
  function Close(s: State): State {
    if s.Bad? || !(1 <= |s.current| <= 63) then Bad else State(s.wire + [|s.current|] + s.current, [])
  }

  function Fits(s: State): State {
    if s.State? && (|s.current| > 63 || |s.wire| + 1 + |s.current| > 254) then Bad else s
  }

  function Extend(s: State, c: byte): State {
    if s.Bad? then Bad else s.(current := s.current + [c])
  }

  function Number(a: byte, b: byte, c: byte): int { (a - 48) * 100 + (b - 48) * 10 + (c - 48) }

  /** How many characters the next token has. */
  function Width(v: seq<byte>): nat
    requires v != []
  {
    if v[0] == BACKSLASH then 4 else 1
  }

  function Token(s: State, v: seq<byte>): State
    requires v != []
  {
    if v[0] == DOT then Fits(Close(s))
    else if v[0] == BACKSLASH then
      if |v| < 4 || !Digit(v[1]) || !Digit(v[2]) || !Digit(v[3]) || Number(v[1], v[2], v[3]) > 255 then Bad
      else Fits(Extend(s, Number(v[1], v[2], v[3])))
    else if Literal(v[0]) || Upper(v[0]) then Fits(Extend(s, v[0]))
    else Bad
  }

  function Tokens(s: State, v: seq<byte>): State
    decreases |v|
  {
    if v == [] || s.Bad? then s
    else if |v| < Width(v) then Bad
    else Tokens(Token(s, v), v[Width(v)..])
  }

  function TrimDot(v: seq<byte>): seq<byte> { if v != [] && v[|v| - 1] == DOT then v[..|v| - 1] else v }

  predicate Ascii(v: seq<byte>) { forall i | 0 <= i < |v| :: v[i] < 128 }

  /** Unicode input goes to the configuration parser, which is not modelled. */
  function Parse(v: seq<byte>, configured: seq<byte> -> Option<seq<byte>>): Option<seq<byte>> {
    if !Ascii(v) then configured(v)
    else if v == [] || v == [DOT] then Some([])
    else
      var s := Close(Tokens(State([], []), TrimDot(v)));
      if s.Bad? then None else FromWire(s.wire + [0])
  }

  /** The parsing loop. */
  method ParseObservedName(value: seq<byte>, configured: seq<byte> -> Option<seq<byte>>) returns (r: Option<seq<byte>>)
    ensures r == Parse(value, configured)
  {
    hide FromWire;
    for i := 0 to |value|
      invariant forall k | 0 <= k < i :: value[k] < 128
    {
      if value[i] >= 128 {
        return configured(value);
      }
    }
    if value == [] || value == [DOT] {
      return Some([]);
    }
    var v := TrimDot(value);
    var s, i := State([], []), 0;
    assert v[0..] == v;
    while i < |v|
      invariant 0 <= i <= |v| && s.State? && Tokens(State([], []), v) == Tokens(s, v[i..])
      decreases |v| - i
    {
      var rest := v[i..];
      if |rest| < Width(rest) {
        return None;
      }
      s := Token(s, rest);
      assert rest[Width(rest)..] == v[i + Width(rest)..];
      i := i + Width(rest);
      if s.Bad? {
        return None;
      }
    }
    assert v[i..] == [];
    s := Close(s);
    if s.Bad? {
      return None;
    }
    r := NameFromWire(s.wire + [0]);
  }

  // ---- round trip ----

  lemma {:induction false} ShowReads(s: State, c: byte, rest: seq<byte>)
    requires s.State?
    ensures var v := Show(c) + rest;
      v != [] && Width(v) == |Show(c)| <= |v| && v[Width(v)..] == rest && Token(s, v) == Fits(Extend(s, c))
  {
    var v := Show(c) + rest;
    if !Literal(c) {
      assert v[0] == BACKSLASH && v[1] == 48 + c / 100 && v[2] == 48 + c / 10 % 10 && v[3] == 48 + c % 10;
      DigitsOf(c);
      assert v[4..] == rest;
    } else {
      assert v[0] == c && v[1..] == rest;
    }
  }

  lemma {:induction false} DigitsOf(c: byte)
    ensures Digit(48 + c / 100) && Digit(48 + c / 10 % 10) && Digit(48 + c % 10)
    ensures Number(48 + c / 100, 48 + c / 10 % 10, 48 + c % 10) == c
  {
  }

  /** A printed label is read back octet by octet. */
  lemma {:induction false} LabelReads(s: State, l: Label, rest: seq<byte>)
    requires s.State? && |s.current| + |l| <= 63 && |s.wire| + 1 + |s.current| + |l| <= 254
    ensures Tokens(s, ShowLabel(l) + rest) == Tokens(s.(current := s.current + l), rest)
    decreases |l|
  {
    hide Show, Token, Tokens;
    if l == [] {
      ShowNothing();
      assert s.current + l == s.current && [] + rest == rest;
    } else {
      var tail := ShowLabel(l[1..]) + rest;
      assert ShowLabel(l) + rest == Show(l[0]) + tail;
      ShowReads(s, l[0], tail);
      TokensStep(s, Show(l[0]) + tail);
      var t := s.(current := s.current + [l[0]]);
      LabelReads(t, l[1..], rest);
      assert t.current + l[1..] == s.current + l;
    }
  }

  lemma {:induction false} TokensStep(s: State, v: seq<byte>)
    requires s.State? && v != [] && Width(v) <= |v|
    ensures Tokens(s, v) == Tokens(Token(s, v), v[Width(v)..])
  {
  }

  lemma {:induction false} LastReads(wire: seq<byte>, l: Label)
    requires GoodLabel(l) && |wire| + 1 + |l| <= 254
    ensures Close(Tokens(State(wire, []), ShowLabel(l))) == State(wire + [|l|] + l, [])
  {
    hide ShowLabel, Tokens;
    LabelReads(State(wire, []), l, []);
    assert ShowLabel(l) + [] == ShowLabel(l) && [] + l == l;
    TokensEnd(State(wire, l));
  }

  lemma {:induction false} DotReads(wire: seq<byte>, l: Label, more: seq<byte>)
    requires GoodLabel(l) && |wire| + 1 + |l| < 254
    ensures Tokens(State(wire, []), ShowLabel(l) + [DOT] + more) == Tokens(State(wire + [|l|] + l, []), more)
  {
    hide ShowLabel, Tokens;
    LabelReads(State(wire, []), l, [DOT] + more);
    assert ShowLabel(l) + [DOT] + more == ShowLabel(l) + ([DOT] + more) && [] + l == l;
    TokensStep(State(wire, l), [DOT] + more);
    assert ([DOT] + more)[1..] == more;
  }

  /** Printed labels, separated by dots, are read back label by label. */
  lemma {:induction false} LabelsRead(wire: seq<byte>, ls: seq<Label>)
    requires GoodLabels(ls) && ls != [] && |wire| + |Encode(ls)| <= 254
    ensures Close(Tokens(State(wire, []), ShowLabels(ls))) == State(wire + Encode(ls), [])
    decreases |ls|
  {
    hide ShowLabel, Tokens, Close, Encode;
    var l := ls[0];
    EncodeFirst(wire, ls);
    if |ls| == 1 {
      LastReads(wire, l);
      EncodeNone();
      assert ls[1..] == [] && wire + [|l|] + l + [] == wire + [|l|] + l;
    } else {
      EncodeSize(ls[1..]);
      DotReads(wire, l, ShowLabels(ls[1..]));
      LabelsRead(wire + [|l|] + l, ls[1..]);
    }
  }

  lemma {:induction false} EncodeFirst(wire: seq<byte>, ls: seq<Label>)
    requires GoodLabels(ls) && ls != []
    ensures wire + Encode(ls) == wire + [|ls[0]|] + ls[0] + Encode(ls[1..])
    ensures |Encode(ls)| == 1 + |ls[0]| + |Encode(ls[1..])|
  {
  }

  lemma {:induction false} TokensEnd(s: State)
    ensures Tokens(s, []) == s
  {
  }

  lemma {:induction false} LabelAscii(l: Label)
    requires l != []
    ensures Ascii(ShowLabel(l)) && ShowLabel(l) != [] && ShowLabel(l)[|ShowLabel(l)| - 1] != DOT
    decreases |l|
  {
    assert Ascii(Show(l[0])) && Show(l[0]) != [] && Show(l[0])[|Show(l[0])| - 1] != DOT;
    hide Show;
    if |l| > 1 {
      LabelAscii(l[1..]);
    } else {
      ShowNothing();
      assert l[1..] == [] && ShowLabel(l) == Show(l[0]) + [];
    }
  }

  /** Printed names are ASCII and do not end in a dot. */
  lemma {:induction false} LabelsAscii(ls: seq<Label>)
    requires GoodLabels(ls) && ls != []
    ensures Ascii(ShowLabels(ls)) && ShowLabels(ls) != [] && ShowLabels(ls)[|ShowLabels(ls)| - 1] != DOT
    decreases |ls|
  {
    hide ShowLabel;
    LabelAscii(ls[0]);
    if |ls| > 1 {
      LabelsAscii(ls[1..]);
    }
  }

  lemma {:induction false} WireLabels(w: seq<byte>)
    requires Wire(w)
    ensures Labels(w + [0])
    decreases |w|
  {
    if w != [] {
      var n: nat := 1 + w[0] as int;
      WireLabels(w[n..]);
      assert (w + [0])[n..] == w[n..] + [0];
    }
  }

  /** Canonical names: valid, without upper-case letters. */
  predicate CanonicalName(name: seq<byte>) { ValidName(name) && Fold(name) == name }

  lemma {:induction false} FromWireCanonical(name: seq<byte>)
    requires CanonicalName(name)
    ensures FromWire(name + [0]) == Some(name)
  {
    hide Labels;
    WireLabels(name);
    assert (name + [0])[..|name|] == name;
  }

  /** Parsing what was printed gives back every canonical name, the root and arbitrary octets included. */
  lemma {:induction false} DisplayParses(name: seq<byte>, configured: seq<byte> -> Option<seq<byte>>)
    requires CanonicalName(name)
    ensures Parse(Display(name), configured) == Some(name)
  {
    hide FromWire, ShowLabels, Tokens, Wire, Fold, LabelsOf;
    if name == [] {
      LabelsNone();
      ShowNothing();
    } else {
      var ls := LabelsOf(name);
      EncodeLabels(name);
      if ls == [] { EncodeNone(); }
      LabelsAscii(ls);
      LabelsRead([], ls);
      assert [] + Encode(ls) == name;
      FromWireCanonical(name);
    }
  }

  /** So no two canonical names print alike. */
  lemma {:induction false} DisplayInjective(a: seq<byte>, b: seq<byte>)
    requires CanonicalName(a) && CanonicalName(b) && Display(a) == Display(b)
    ensures a == b
  {
    hide CanonicalName, Parse, Display;
    DisplayParses(a, v => None);
    DisplayParses(b, v => None);
  }
}
