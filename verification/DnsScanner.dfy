/** The scanner as it runs: loops over offsets, a bitmap of marks, checks of record data. */
module DnsScanner {
  import opened Common
  import opened WireBytes
  import opened DnsName
  import opened DnsRecords

  const BITS: nat := 65536

  ghost function Marked(names: array<bool>): set<nat>
    reads names
  {
    set i: nat | i < names.Length && names[i]
  }

  /** The bitmap is optional. */
  ghost function NamesOf(names: array?<bool>): Names
    reads names
  {
    if names == null then None else Some(Marked(names))
  }

  ghost predicate Bitmap(names: array?<bool>) { names != null ==> names.Length == BITS }

  // ---- names ----

  /** Marks the label starts of a name that has been decoded. */
  method Mark(names: array<bool>, msg: seq<byte>, start: nat) returns (ok: bool)
    requires names.Length == BITS && Decode(msg, start).Ok?
    modifies names
    ensures ok == AddMarks(msg, start, old(Marked(names))).Some?
    ensures ok ==> Marked(names) == AddMarks(msg, start, old(Marked(names))).value
  {
    hide Walk;
    var off: nat, n: nat := start, 0;
    while true
      invariant |msg| <= MAX_MESSAGE && n <= MAX_NAME && Walk(msg, off, [], n).Ok?
      invariant AddMarks(msg, start, old(Marked(names))) == AddMarks(msg, off, Marked(names))
      decreases |msg| - off
    {
      ghost var before := Marked(names);
      WalkNext(msg, off, n);
      var b := msg[off];
      if b >= 192 {
        if !names[Target(msg, off)] {
          return false;
        }
        names[off] := true;
        assert Marked(names) == before + {off};
        return true;
      }
      names[off] := true;
      assert Marked(names) == before + {off};
      if b == 0 {
        return true;
      }
      off, n := off + 1 + b, n + 1 + b;
    }
  }

  lemma {:induction false} WalkNext(msg: seq<byte>, off: nat, n: nat)
    requires n <= MAX_NAME && Walk(msg, off, [], n).Ok?
    ensures off < |msg| && (msg[off] < 64 || (msg[off] >= 192 && off + 1 < |msg|))
    ensures 0 < msg[off] < 64 ==> n + 1 + msg[off] <= MAX_NAME && Walk(msg, off + 1 + msg[off], [], n + 1 + msg[off]).Ok?
  {
  }

  method DecodeChecked(msg: seq<byte>, off: nat, names: array?<bool>) returns (r: Result<Name>)
    requires Bitmap(names)
    modifies names
    ensures r == NameOnly(CheckedName(msg, off, old(NamesOf(names))))
    ensures r.Ok? ==> NamesOf(names) == CheckedName(msg, off, old(NamesOf(names))).value.names
  {
    hide Decode, AddMarks;
    var canonical;
    r, canonical := DecodeName(msg, off);
    if r.Ok? && names != null {
      var ok := Mark(names, msg, off);
      if !ok {
        r := Err(ErrTemplate);
      }
    }
  }

  function NameOnly(r: Result<Checked>): Result<Name> { if r.Ok? then Ok(r.value.name) else Err(r.error) }

  // ---- record data ----

  lemma {:induction false} SliceStep(msg: seq<byte>, off: nat, end: nat, k: nat)
    requires off + k <= end <= |msg|
    ensures msg[off..end][k..] == msg[off + k..end]
    ensures forall i | 0 <= i < end - off :: msg[off..end][i] == msg[off + i]
  {
  }

  lemma {:induction false} SliceEmpty(msg: seq<byte>, off: nat, end: nat)
    requires off <= end <= |msg|
    ensures msg[off..end] == [] <==> off == end
  {
    assert |msg[off..end]| == end - off;
  }

  method CheckStrings(msg: seq<byte>, start: nat, end: nat) returns (ok: bool)
    requires start <= end <= |msg|
    ensures ok == Strings(msg[start..end])
  {
    var off: nat := start;
    while off < end
      invariant off <= end && Strings(msg[start..end]) == Strings(msg[off..end])
      decreases end - off
    {
      if off + 1 + msg[off] > end {
        SliceStep(msg, off, end, 0);
        return false;
      }
      var n: nat := 1 + msg[off] as int;
      SliceStep(msg, off, end, n);
      off := off + n;
    }
    SliceEmpty(msg, off, end);
    return true;
  }

  method CheckParams(msg: seq<byte>, start: nat, end: nat) returns (ok: bool)
    requires start <= end <= |msg|
    ensures ok == Params(msg[start..end], -1)
  {
    hide Params, U16;
    var next: nat, last: int := start, -1;
    while next < end
      invariant next <= end && Params(msg[start..end], -1) == Params(msg[next..end], last)
      decreases end - next
    {
      ParamStep(msg, next, end, last);
      if end - next < 4 {
        return false;
      }
      var key: int, n: nat := U16(msg, next), U16(msg, next + 2);
      if key <= last || n > end - next - 4 {
        return false;
      }
      last, next := key, next + 4 + n;
    }
    ParamsEnd(msg, next, last);
    return true;
  }

  lemma {:induction false} ParamsEnd(msg: seq<byte>, end: nat, last: int)
    requires end <= |msg|
    ensures Params(msg[end..end], last)
  {
    SliceEmpty(msg, end, end);
  }

  /** One parameter at the front of a slice. */
  lemma {:induction false} ParamStep(msg: seq<byte>, off: nat, end: nat, last: int)
    requires off < end <= |msg|
    ensures Params(msg[off..end], last) <==>
      && end - off >= 4 && last < U16(msg, off) && off + 4 + U16(msg, off + 2) <= end
      && Params(msg[off + 4 + U16(msg, off + 2)..end], U16(msg, off))
  {
    hide U16;
    SliceEmpty(msg, off, end);
    assert |msg[off..end]| == end - off;
    if end - off >= 4 {
      WordStep(msg, off, end, 0);
      WordStep(msg, off, end, 2);
      if off + 4 + U16(msg, off + 2) <= end {
        SliceStep(msg, off, end, 4 + U16(msg, off + 2));
      }
    }
  }

  lemma {:induction false} WordStep(msg: seq<byte>, off: nat, end: nat, k: nat)
    requires off + k + 2 <= end <= |msg|
    ensures U16(msg[off..end], k) == U16(msg, off + k)
  {
  }

  method CheckWindows(msg: seq<byte>, start: nat, end: nat) returns (ok: bool)
    requires start <= end <= |msg|
    ensures ok == Windows(msg[start..end], -1)
  {
    hide Windows;
    var next: nat, last: int := start, -1;
    while next < end
      invariant next <= end && Windows(msg[start..end], -1) == Windows(msg[next..end], last)
      decreases end - next
    {
      WindowStep(msg, next, end, last);
      if end - next < 2 {
        return false;
      }
      var window: int, n: nat := msg[next], msg[next + 1];
      if window <= last || n < 1 || n > 32 || n > end - next - 2 {
        return false;
      }
      if msg[next + 1 + n] == 0 {
        return false;
      }
      last, next := window, next + 2 + n;
    }
    WindowsEnd(msg, next, last);
    return true;
  }

  lemma {:induction false} WindowsEnd(msg: seq<byte>, end: nat, last: int)
    requires end <= |msg|
    ensures Windows(msg[end..end], last)
  {
    SliceEmpty(msg, end, end);
  }

  /** One window at the front of a slice. */
  lemma {:induction false} WindowStep(msg: seq<byte>, off: nat, end: nat, last: int)
    requires off < end <= |msg|
    ensures Windows(msg[off..end], last) <==>
      && end - off >= 2 && last < msg[off] && 1 <= msg[off + 1] <= 32 && off + 2 + msg[off + 1] <= end
      && msg[off + 1 + msg[off + 1]] != 0 && Windows(msg[off + 2 + msg[off + 1]..end], msg[off])
  {
    var d := msg[off..end];
    SliceEmpty(msg, off, end);
    assert d[0] == msg[off];
    if end - off >= 2 {
      var n: nat := msg[off + 1];
      assert d[1] == n;
      if off + 2 + n <= end {
        SliceStep(msg, off, end, 2 + n);
        assert d[1 + n] == msg[off + 1 + n];
      }
    }
  }

  method CheckOptions(msg: seq<byte>, start: nat, end: nat) returns (ok: bool)
    requires start <= end <= |msg|
    ensures ok == Options(msg[start..end])
  {
    var off: nat := start;
    while off < end
      invariant off <= end && Options(msg[start..end]) == Options(msg[off..end])
      decreases end - off
    {
      if end - off < 4 {
        SliceStep(msg, off, end, 0);
        return false;
      }
      var n: nat := U16(msg, off + 2);
      WordStep(msg, off, end, 2);
      if off + 4 + n > end {
        return false;
      }
      SliceStep(msg, off, end, 4 + n);
      off := off + 4 + n;
    }
    SliceEmpty(msg, off, end);
    return true;
  }

  /** One name inside record data. */
  method ReadName(msg: seq<byte>, off: nat, end: nat, compression: bool, names: array?<bool>) returns (r: Result<Name>)
    requires Bitmap(names)
    modifies names
    ensures var one := ReadNames(msg, off, end, 1, compression, old(NamesOf(names)));
      && r.Ok? == one.Ok? && (r.Err? ==> one == Err(r.error))
      && (r.Ok? ==> one.value == Embedded([r.value], NamesOf(names), r.value.end))
  {
    hide CheckedName;
    ghost var before := NamesOf(names);
    if off >= end {
      return Err(ErrRecord);
    }
    r := DecodeChecked(msg, off, names);
    if r.Err? {
      return;
    }
    ghost var rest := ReadNames(msg, r.value.end, end, 0, compression, NamesOf(names));
    assert rest == Ok(Embedded([], NamesOf(names), r.value.end));
    if r.value.end > end || (!compression && r.value.compressed) {
      return Err(ErrRecord);
    }
  }

  /** Two names are one name and then another. */
  lemma {:induction false} TwoNames(msg: seq<byte>, off: nat, end: nat, compression: bool, names: Names)
    ensures var one, two := ReadNames(msg, off, end, 1, compression, names), ReadNames(msg, off, end, 2, compression, names);
      && (one.Err? ==> two == Err(one.error))
      && (one.Ok? ==>
            var next := ReadNames(msg, one.value.next, end, 1, compression, one.value.names);
            two == if next.Err? then next else Ok(Embedded(one.value.list + next.value.list, next.value.names, next.value.next)))
  {
    hide CheckedName;
    if off < end && CheckedName(msg, off, names).Ok? {
      var n := CheckedName(msg, off, names).value;
      assert ReadNames(msg, n.name.end, end, 0, compression, n.names) == Ok(Embedded([], n.names, n.name.end));
      assert [n.name] + [] == [n.name];
    }
  }

  /** The names of record data, one after another. */
  method ReadAllNames(msg: seq<byte>, start: nat, end: nat, count: nat, compression: bool, names: array?<bool>) returns (r: Result<seq<Name>>, next: nat)
    requires Bitmap(names) && 1 <= count <= 2
    modifies names
    ensures var all := ReadNames(msg, start, end, count, compression, old(NamesOf(names)));
      && r.Ok? == all.Ok? && (r.Err? ==> all == Err(r.error))
      && (r.Ok? ==> all.value == Embedded(r.value, NamesOf(names), next))
  {
    hide ReadNames;
    next := start;
    TwoNames(msg, start, end, compression, NamesOf(names));
    var first := ReadName(msg, start, end, compression, names);
    if first.Err? {
      return Err(first.error), next;
    }
    r, next := Ok([first.value]), first.value.end;
    if count == 2 {
      var second := ReadName(msg, next, end, compression, names);
      if second.Err? {
        return Err(second.error), next;
      }
      r, next := Ok([first.value, second.value]), second.value.end;
    }
  }

  method CheckTail(msg: seq<byte>, kind: uint16, off: nat, end: nat) returns (ok: bool)
    requires off <= end <= |msg|
    ensures ok == TailOK(kind, msg[off..end])
  {
    hide Params, Windows;
    SliceEmpty(msg, off, end);
    if kind == SOA {
      return end - off == 20;
    } else if kind == 64 || kind == 65 {
      ok := CheckParams(msg, off, end);
    } else if kind == 46 {
      return off < end;
    } else if kind == 47 {
      ok := CheckWindows(msg, off, end);
      return off < end && ok;
    } else {
      return off == end;
    }
  }

  method CheckPlain(msg: seq<byte>, kind: uint16, off: nat, end: nat) returns (ok: bool)
    requires off <= end <= |msg|
    ensures ok == PlainOK(kind, msg[off..end])
  {
    hide Strings;
    SliceEmpty(msg, off, end);
    if kind == A {
      return end - off == 4;
    } else if kind == 28 {
      return end - off == 16;
    } else if kind == 16 {
      ok := CheckStrings(msg, off, end);
      return off < end && ok;
    } else {
      return true;
    }
  }

  method ValidateData(msg: seq<byte>, kind: uint16, off: nat, end: nat, names: array?<bool>) returns (r: Result<seq<Name>>)
    requires off <= end <= |msg| && Bitmap(names)
    modifies names
    ensures var all := ReadData(msg, kind, off, end, old(NamesOf(names)));
      && r.Ok? == all.Ok? && (r.Err? ==> all == Err(r.error))
      && (r.Ok? ==> all.value.list == r.value && all.value.names == NamesOf(names))
  {
    hide ReadNames, PlainOK, TailOK;
    var shape := ShapeOf(kind);
    if shape.None? {
      var fine := CheckPlain(msg, kind, off, end);
      return if fine then Ok([]) else Err(ErrRecord);
    }
    var s := shape.value;
    if end - off < s.minimum {
      return Err(ErrRecord);
    }
    ghost var before := NamesOf(names);
    var next;
    r, next := ReadAllNames(msg, off + s.prefix, end, s.count, s.compression, names);
    if r.Err? {
      return;
    }
    ReadNamesOrder(msg, off + s.prefix, end, s.count, s.compression, before);
    var fine := CheckTail(msg, kind, next, end);
    if !fine {
      return Err(ErrRecord);
    }
  }

  // ---- the scanner ----

  class Scanner {
    var msg: seq<byte>
    var question: Option<Question>
    var edns: Option<Edns>
    var off: nat
    var counts: seq<nat>
    var section: nat
    var err: Option<WireError>

    ghost predicate Valid()
      reads this
    {
      |counts| == 3 && section <= 3
    }

    function At(): Cursor
      reads this
    {
      Cursor(off, section, counts, edns)
    }

    constructor ()
      ensures Valid()
    {
      msg, question, edns, off, counts, section, err := [], None, None, 0, [0, 0, 0], 0, None;
    }

    method Init(m: seq<byte>) returns (ok: bool)
      requires Valid()
      modifies this
      ensures Valid() && msg == m && ok == ParseQuestion(m).Ok? && (err.None? == ok)
      ensures ok ==> |m| >= 12 && question == Some(ParseQuestion(m).value) && At() == Start(m, question.value)
      ensures !ok ==> err == Some(ParseQuestion(m).error)
    {
      hide Decode;
      msg, question, edns, off, counts, section, err := m, None, None, 0, [0, 0, 0], 0, None;
      var q := ParseQuestion(m);
      if q.Err? {
        err := Some(q.error);
        return false;
      }
      question, counts, off := Some(q.value), [U16(m, 6), U16(m, 8), U16(m, 10)], q.value.end;
      return true;
    }

    /** One record; at the end or on an error nothing, and the error stays. */
    method NextRecord(names: array?<bool>) returns (r: Option<Record>)
      requires Valid() && err.None? && Bitmap(names)
      modifies this, names
      ensures Valid() && msg == old(msg) && question == old(question)
      ensures match Next(msg, old(At()), old(NamesOf(names)))
        case Done => r.None? && err.None? && edns == old(edns)
        case Fail(e) => r.None? && err == Some(e)
        case Got(record, cursor, marks) => r == Some(record) && err.None? && At() == cursor && NamesOf(names) == marks
    {
      hide Options, ReadData, CheckedName, U16, U32;
      ghost var start := At();
      ghost var before := NamesOf(names);
      while section <= ADDITIONAL && counts[section] == 0
        invariant Valid() && section <= 3 && Skip(start.section, counts) == Skip(section, counts)
        invariant counts == start.counts && off == start.off && edns == start.edns && err.None? && msg == old(msg) && question == old(question)
        invariant NamesOf(names) == before
        decreases 3 - section
      {
        section := section + 1;
      }
      if section > ADDITIONAL {
        if off != |msg| {
          err := Some(ErrTrailing);
        }
        return None;
      }
      var owner := DecodeChecked(msg, off, names);
      if owner.Err? {
        err := Some(owner.error);
        return None;
      }
      r := ReadBody(owner.value, names, start);
    }

    method ReadBody(owner: Name, names: array?<bool>, ghost start: Cursor) returns (r: Option<Record>)
      requires Valid() && err.None? && Bitmap(names) && section < 3 && counts[section] > 0
      requires start.off == off && start.counts == counts && start.edns == edns && CursorOK(start)
      modifies this, names
      ensures Valid() && msg == old(msg) && question == old(question)
      ensures match Body(msg, start, old(section), owner, old(NamesOf(names)))
        case Done => false
        case Fail(e) => r.None? && err == Some(e)
        case Got(record, cursor, marks) => r == Some(record) && err.None? && At() == cursor && NamesOf(names) == marks
    {
      hide Options, ReadData, U16, U32;
      var at := owner.end;
      if |msg| < at + 10 {
        err := Some(ErrBounds);
        return None;
      }
      var data := at + 10;
      var end := data + U16(msg, at + 8);
      if end > |msg| {
        err := Some(ErrBounds);
        return None;
      }
      var record := Record(owner, U16(msg, at), U16(msg, at + 2), U32(msg, at + 4), section, off, Some(at + 4), data, end, []);
      if record.kind == OPT {
        record := record.(ttlOffset := None);
        var fine := CheckOptions(msg, data, end);
        if edns.Some? || section != ADDITIONAL || |owner.wire| != 1 || owner.compressed || !fine {
          err := Some(ErrEDNS);
          return None;
        }
        edns := Some(Edns(record.rrClass, record.ttl, off, msg[data..end]));
      } else {
        var list := ValidateData(msg, record.kind, data, end, names);
        if list.Err? {
          err := Some(list.error);
          return None;
        }
        record := record.(embedded := list.value);
      }
      off, counts := end, counts[section := counts[section] - 1];
      return Some(record);
    }
  }
}
