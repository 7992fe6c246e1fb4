/** Domain names on the wire (internal/dnswire/name.go): labels, compression pointers, case folding. */
module DnsName {
  import opened Common

  const MAX_NAME: nat := 255
  const MAX_JUMPS: nat := 32
  const MAX_MESSAGE: nat := 65535

  datatype WireError =
    | ErrBounds | ErrLabel | ErrPointer | ErrNameTooLong
    | ErrQuestionCount | ErrRecord | ErrEDNS | ErrTrailing | ErrTemplate | ErrUnsupported

  datatype Result<+T> = Ok(value: T) | Err(error: WireError)

  /** An expanded name, the offset after its encoding, and whether a pointer was followed. */
  datatype Name = Name(wire: seq<byte>, end: nat, compressed: bool)

  function Lower(b: byte): byte { if 65 <= b <= 90 then b + 32 else b }

  function Fold(s: seq<byte>): (r: seq<byte>)
    ensures |r| == |s|
    ensures forall i | 0 <= i < |s| :: r[i] == Lower(s[i])
  {
    seq(|s|, i requires 0 <= i < |s| => Lower(s[i]))
  }

  function Canonical(n: Name): seq<byte> { Fold(n.wire) }

  /** The target of the pointer at off. */
  function Target(msg: seq<byte>, off: nat): nat
    requires off + 2 <= |msg|
  {
    (msg[off] as int) % 64 * 256 + msg[off + 1]
  }

  /**
   The name at off, after n octets and the pointers in visited: a literal label is followed by the
   name behind it, a pointer by the name at its target.
   */
  function Walk(msg: seq<byte>, off: nat, visited: seq<nat>, n: nat): Result<Name>
    requires |visited| <= MAX_JUMPS && n <= MAX_NAME
    decreases MAX_JUMPS - |visited|, MAX_NAME - n
  {
    if off >= |msg| then Err(ErrBounds)
    else if msg[off] >= 192 then
      if off + 1 >= |msg| then Err(ErrBounds)
      else if Target(msg, off) >= off || |visited| == MAX_JUMPS || off in visited then Err(ErrPointer)
      else Jump(off, Walk(msg, Target(msg, off), visited + [off], n))
    else if msg[off] >= 64 then Err(ErrLabel)
    else
      var next := off + 1 + msg[off];
      var size := n + 1 + msg[off];
      if next > |msg| then Err(ErrBounds)
      else if size > MAX_NAME || (msg[off] != 0 && size == MAX_NAME) then Err(ErrNameTooLong)
      else if msg[off] == 0 then Ok(Name([0], next, false))
      else Prepend(msg[off..next], Walk(msg, next, visited, size))
  }

  function Jump(off: nat, r: Result<Name>): Result<Name> {
    if r.Ok? then Ok(Name(r.value.wire, off + 2, true)) else r
  }

  function Prepend(head: seq<byte>, r: Result<Name>): Result<Name> {
    if r.Ok? then Ok(r.value.(wire := head + r.value.wire)) else r
  }

  function Decode(msg: seq<byte>, off: nat): Result<Name> {
    if |msg| > MAX_MESSAGE then Err(ErrBounds) else Walk(msg, off, [], 0)
  }

  /** What a loop that has read a prefix, and perhaps its first pointer, makes of the rest. */
  function Resume(prefix: seq<byte>, end: Option<nat>, r: Result<Name>): Result<Name> {
    if r.Err? then r
    else Ok(Name(prefix + r.value.wire, if end.Some? then end.value else r.value.end, end.Some? || r.value.compressed))
  }

  /** The decoding loop; it also folds case as it copies. */
  method DecodeName(msg: seq<byte>, start: nat) returns (r: Result<Name>, canonical: seq<byte>)
    ensures r == Decode(msg, start)
    ensures r.Ok? ==> canonical == Canonical(r.value)
  {
    hide Walk, Resume, Fold, Prepend, Jump;
    canonical := [];
    FoldNothing();
    if |msg| > MAX_MESSAGE {
      return Err(ErrBounds), [];
    }
    var off: nat, end: Option<nat> := start, None;
    var wire: seq<byte>, visited: seq<nat> := [], [];
    ResumeNothing(Walk(msg, start, [], 0));
    while true
      invariant |visited| <= MAX_JUMPS && |wire| <= MAX_NAME && (end.Some? <==> visited != [])
      invariant Walk(msg, start, [], 0) == Resume(wire, end, Walk(msg, off, visited, |wire|))
      invariant canonical == Fold(wire)
      decreases MAX_JUMPS - |visited|, MAX_NAME - |wire|
    {
      WalkStops(msg, off, visited, |wire|);
      ResumeStops(wire, end, Walk(msg, off, visited, |wire|));
      if off >= |msg| {
        return Err(ErrBounds), [];
      }
      var c := msg[off];
      if c >= 192 {
        if off + 1 >= |msg| {
          return Err(ErrBounds), [];
        }
        WalkPointer(msg, off, visited, |wire|);
        if Target(msg, off) >= off || |visited| == MAX_JUMPS || off in visited {
          return Err(ErrPointer), [];
        }
        ResumeJump(wire, end, off, Walk(msg, Target(msg, off), visited + [off], |wire|));
        if end == None {
          end := Some(off + 2);
        }
        visited, off := visited + [off], Target(msg, off);
      } else if c < 64 {
        if off + 1 + c > |msg| {
          return Err(ErrBounds), [];
        }
        if |wire| + 1 + c > MAX_NAME || (c != 0 && |wire| + 1 + c == MAX_NAME) {
          return Err(ErrNameTooLong), [];
        }
        ghost var before := wire;
        wire, canonical := AppendLabel(msg, off, wire, canonical);
        off := off + 1 + c;
        if c == 0 {
          WalkRoot(msg, off - 1, visited, |before|);
          assert wire == before + [0];
          ResumeRoot(before, end, off);
          return Ok(Name(wire, if end.Some? then end.value else off, end.Some?)), canonical;
        }
        WalkLabel(msg, off - 1 - c, visited, |before|);
        ResumePrepend(before, end, msg[off - 1 - c..off], Walk(msg, off, visited, |wire|));
      } else {
        return Err(ErrLabel), [];
      }
    }
  }

  /** Copies the label at off, folding case into the second copy. */
  method AppendLabel(msg: seq<byte>, off: nat, wire: seq<byte>, canonical: seq<byte>) returns (wire': seq<byte>, canonical': seq<byte>)
    requires off < |msg| && msg[off] < 64 && off + 1 + msg[off] <= |msg| && canonical == Fold(wire)
    ensures wire' == wire + msg[off..off + 1 + msg[off]] && canonical' == Fold(wire')
  {
    wire', canonical' := wire + [msg[off]], canonical + [msg[off]];
    for i := off + 1 to off + 1 + msg[off]
      invariant wire' == wire + msg[off..i] && canonical' == Fold(wire')
    {
      wire', canonical' := wire' + [msg[i]], canonical' + [Lower(msg[i])];
    }
  }

  lemma {:induction false} FoldNothing()
    ensures Fold([]) == []
  {
  }

  lemma {:induction false} ResumeStops(prefix: seq<byte>, end: Option<nat>, r: Result<Name>)
    ensures r.Err? ==> Resume(prefix, end, r) == r
  {
  }

  lemma {:induction false} ResumeJump(prefix: seq<byte>, end: Option<nat>, off: nat, r: Result<Name>)
    ensures Resume(prefix, end, Jump(off, r)) == Resume(prefix, if end == None then Some(off + 2) else end, r)
  {
  }

  lemma {:induction false} ResumeRoot(prefix: seq<byte>, end: Option<nat>, next: nat)
    ensures Resume(prefix, end, Ok(Name([0], next, false))) == Ok(Name(prefix + [0], if end.Some? then end.value else next, end.Some?))
  {
  }

  lemma {:induction false} ResumeNothing(r: Result<Name>)
    ensures Resume([], None, r) == r
  {
    if r.Ok? {
      assert [] + r.value.wire == r.value.wire;
    }
  }

  lemma {:induction false} ResumePrepend(prefix: seq<byte>, end: Option<nat>, head: seq<byte>, r: Result<Name>)
    ensures Resume(prefix, end, Prepend(head, r)) == Resume(prefix + head, end, r)
  {
    if r.Ok? {
      assert prefix + (head + r.value.wire) == prefix + head + r.value.wire;
    }
  }

  // ---- what a decoded name looks like ----

  /** Length-prefixed labels of 1 to 63 octets, closed by the root. */
  predicate Labels(w: seq<byte>)
    decreases |w|
  {
    && |w| > 0
    && (if w[0] == 0 then |w| == 1 else w[0] < 64 && 1 + w[0] < |w| && Labels(w[1 + w[0]..]))
  }

  predicate ValidWire(w: seq<byte>) { Labels(w) && |w| <= MAX_NAME }

  lemma {:induction false} WalkLabel(msg: seq<byte>, off: nat, visited: seq<nat>, n: nat)
    requires |visited| <= MAX_JUMPS && off < |msg| && 0 < msg[off] < 64 && off + 1 + msg[off] <= |msg| && n + 1 + msg[off] < MAX_NAME
    ensures Walk(msg, off, visited, n) == Prepend(msg[off..off + 1 + msg[off]], Walk(msg, off + 1 + msg[off], visited, n + 1 + msg[off]))
  {
  }

  /** When a walk stops at off. */
  lemma {:induction false} WalkStops(msg: seq<byte>, off: nat, visited: seq<nat>, n: nat)
    requires |visited| <= MAX_JUMPS && n <= MAX_NAME
    ensures off >= |msg| ==> Walk(msg, off, visited, n) == Err(ErrBounds)
    ensures off < |msg| && msg[off] >= 192 && off + 1 >= |msg| ==> Walk(msg, off, visited, n) == Err(ErrBounds)
    ensures off < |msg| && 64 <= msg[off] < 192 ==> Walk(msg, off, visited, n) == Err(ErrLabel)
    ensures off < |msg| && msg[off] < 64 && off + 1 + msg[off] > |msg| ==> Walk(msg, off, visited, n) == Err(ErrBounds)
    ensures off < |msg| && msg[off] < 64 && off + 1 + msg[off] <= |msg| && n + 1 + msg[off] >= MAX_NAME + (if msg[off] == 0 then 1 else 0) ==>
              Walk(msg, off, visited, n) == Err(ErrNameTooLong)
  {
  }

  lemma {:induction false} WalkPointer(msg: seq<byte>, off: nat, visited: seq<nat>, n: nat)
    requires |visited| <= MAX_JUMPS && n <= MAX_NAME && off + 1 < |msg| && msg[off] >= 192
    ensures Walk(msg, off, visited, n) ==
      if Target(msg, off) >= off || |visited| == MAX_JUMPS || off in visited then Err(ErrPointer)
      else Jump(off, Walk(msg, Target(msg, off), visited + [off], n))
  {
  }

  lemma {:induction false} WalkRoot(msg: seq<byte>, off: nat, visited: seq<nat>, n: nat)
    requires |visited| <= MAX_JUMPS && off < |msg| && msg[off] == 0 && n < MAX_NAME
    ensures Walk(msg, off, visited, n) == Ok(Name([0], off + 1, false))
  {
  }

  lemma {:induction false} WalkShape(msg: seq<byte>, off: nat, visited: seq<nat>, n: nat)
    requires |visited| <= MAX_JUMPS && n <= MAX_NAME && Walk(msg, off, visited, n).Ok?
    ensures var r := Walk(msg, off, visited, n).value;
      && Labels(r.wire) && n + |r.wire| <= MAX_NAME && off < r.end <= |msg|
      && (!r.compressed ==> r.end == off + |r.wire| && msg[off..r.end] == r.wire)
    decreases MAX_JUMPS - |visited|, MAX_NAME - n
  {
    hide Labels;
    if msg[off] >= 192 {
      WalkShape(msg, Target(msg, off), visited + [off], n);
    } else if msg[off] != 0 {
      var next := off + 1 + msg[off];
      WalkShape(msg, next, visited, n + 1 + msg[off]);
      var rest := Walk(msg, next, visited, n + 1 + msg[off]).value;
      LabelsCons(msg[off..next], rest.wire);
      if !rest.compressed {
        assert msg[off..rest.end] == msg[off..next] + msg[next..rest.end];
      }
    } else {
      LabelsRoot();
    }
  }

  lemma {:induction false} LabelsRoot()
    ensures Labels([0])
  {
  }

  lemma {:induction false} LabelsCons(head: seq<byte>, rest: seq<byte>)
    requires |head| > 1 && head[0] < 64 && |head| == 1 + head[0] && Labels(rest)
    ensures Labels(head + rest)
  {
    assert (head + rest)[1 + head[0]..] == rest;
  }

  /** Every decoded name is a valid name; an uncompressed one is the bytes it was read from. */
  lemma {:induction false} DecodedNames(msg: seq<byte>, off: nat)
    requires Decode(msg, off).Ok?
    ensures var r := Decode(msg, off).value;
      && ValidWire(r.wire) && off < r.end <= |msg|
      && (!r.compressed ==> r.end == off + |r.wire| && msg[off..r.end] == r.wire)
  {
    WalkShape(msg, off, [], 0);
  }

  /** A valid uncompressed name written anywhere in a message decodes to itself. */
  lemma {:induction false} PlainWalk(msg: seq<byte>, off: nat, w: seq<byte>, visited: seq<nat>, n: nat)
    requires |visited| <= MAX_JUMPS && Labels(w) && n + |w| <= MAX_NAME && off + |w| <= |msg| && msg[off..off + |w|] == w
    ensures Walk(msg, off, visited, n) == Ok(Name(w, off + |w|, false))
    decreases |w|
  {
    hide Walk;
    SliceAt(msg, off, w, 0);
    if w[0] == 0 {
      WalkRoot(msg, off, visited, n);
      assert w == [0];
    } else {
      var k: nat := 1 + w[0];
      assert Labels(w[k..]) && k < |w|;
      hide Labels;
      SliceTail(msg, off, w, k);
      PlainWalk(msg, off + k, w[k..], visited, n + k);
      WalkLabel(msg, off, visited, n);
      SliceHead(msg, off, w, k);
      assert w == w[..k] + w[k..];
    }
  }

  lemma {:induction false} SliceAt(msg: seq<byte>, off: nat, w: seq<byte>, k: nat)
    requires off + |w| <= |msg| && msg[off..off + |w|] == w && k < |w|
    ensures msg[off + k] == w[k]
  {
    assert msg[off..off + |w|][k] == msg[off + k];
  }

  lemma {:induction false} SliceTail(msg: seq<byte>, off: nat, w: seq<byte>, k: nat)
    requires off + |w| <= |msg| && msg[off..off + |w|] == w && k <= |w|
    ensures msg[off + k..off + |w|] == w[k..]
  {
    assert msg[off..off + |w|][k..] == msg[off + k..off + |w|];
  }

  lemma {:induction false} SliceHead(msg: seq<byte>, off: nat, w: seq<byte>, k: nat)
    requires off + |w| <= |msg| && msg[off..off + |w|] == w && k <= |w|
    ensures msg[off..off + k] == w[..k]
  {
    assert msg[off..off + |w|][..k] == msg[off..off + k];
  }
}
