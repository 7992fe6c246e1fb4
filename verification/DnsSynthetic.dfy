/** Synthetic replies and their records (internal/dnswire/synthetic.go, relocate.go, build.go). */
module DnsSynthetic {
  import opened Common
  import opened WireBytes
  import opened DnsName
  import opened DnsRecords

  /** A record of independently encoded, uncompressed data. */
  datatype Synth = Synth(name: seq<byte>, kind: uint16, ttl: uint32, data: seq<byte>)

  /** What a reply needs from a parsed request; edns holds its DO bit. */
  datatype Request = Request(id: uint16, flags: uint16, name: seq<byte>, kind: uint16, rrClass: uint16, edns: Option<bool>)

  const UDP_CAP: nat := 1232

  // ---- encoding ----

  function EncodeFixed(kind: uint16, ttl: uint32, size: uint16): (r: seq<byte>)
    ensures |r| == 10
  {
    Be16(kind) + Be16(1) + Be32(ttl) + Be16(size)
  }

  function EncodeRecord(r: Synth): (s: seq<byte>)
    requires |r.data| <= 65535
    ensures |s| == |r.name| + 10 + |r.data|
  {
    r.name + EncodeFixed(r.kind, r.ttl, |r.data|) + r.data
  }

  predicate Short(rs: seq<Synth>) { forall i | 0 <= i < |rs| :: |rs[i].data| <= 65535 }

  function EncodeAll(rs: seq<Synth>): seq<byte>
    requires Short(rs)
  {
    if rs == [] then [] else EncodeRecord(rs[0]) + EncodeAll(rs[1..])
  }

  function ReplyFlags(flags: uint16, rcode: nat, authoritative: bool): uint16
    requires rcode <= 4095
  {
    0x8000 + flags / 0x800 % 16 * 0x800 + (if authoritative then 0x400 else 0) + flags / 0x100 % 2 * 0x100 + 0x80
    + flags / 0x10 % 2 * 0x10 + rcode % 16
  }

  /**
   The flags word of a reply, bit by bit: QR is set, opcode, RD and CD are the request's, AA, TC and RA as asked for,
   the reserved bit and AD clear, and the response code's low four bits are in place.
   */
  predicate ReplyBits(request: uint16, rcode: nat, authoritative: bool, truncated: bool, recursion: bool, v: uint16) {
    && v / 0x8000 == 1 && v / 0x800 % 0x10 == request / 0x800 % 0x10 && v % 0x10 == rcode % 0x10
    && v / 0x400 % 2 == (if authoritative then 1 else 0) && v / 0x200 % 2 == (if truncated then 1 else 0)
    && v / 0x100 % 2 == request / 0x100 % 2 && v / 0x80 % 2 == (if recursion then 1 else 0)
    && v / 0x20 % 4 == 0 && v / 0x10 % 2 == request / 0x10 % 2
  }

  /** A flags word from its fields. */
  function Word(op: nat, aa: nat, tc: nat, rd: nat, ra: nat, cd: nat, rc: nat): nat {
    0x8000 + op * 0x800 + aa * 0x400 + tc * 0x200 + rd * 0x100 + ra * 0x80 + cd * 0x10 + rc
  }

  lemma {:induction false} WordQuotients(op: nat, aa: nat, tc: nat, rd: nat, ra: nat, cd: nat, rc: nat)
    requires op < 16 && aa < 2 && tc < 2 && rd < 2 && ra < 2 && cd < 2 && rc < 16
    ensures var v := Word(op, aa, tc, rd, ra, cd, rc);
      && v < 0x1_0000 && v / 0x10 == 2 * (2 * (2 * (2 * (2 * (2 * (2 * (16 + op) + aa) + tc) + rd) + ra))) + cd && v % 0x10 == rc
  {
  }

  lemma {:induction false} Halved(a: nat, b: nat)
    requires b < 2
    ensures (2 * a + b) / 2 == a && (2 * a + b) % 2 == b
  {
  }

  lemma {:induction false} HalfOf(v: nat, d: nat)
    requires d > 0
    ensures v / (2 * d) == v / d / 2
  {
    var q := v / d;
    assert v == q * d + v % d;
    assert q == 2 * (q / 2) + q % 2;
    assert v == (q / 2) * (2 * d) + (q % 2) * d + v % d;
    assert (q % 2) * d + v % d < 2 * d;
    UniqueQuotient(v, 2 * d, q / 2, (q % 2) * d + v % d);
  }

  lemma {:induction false} UniqueQuotient(v: nat, d: nat, q: nat, r: nat)
    requires d > 0 && r < d && v == q * d + r
    ensures v / d == q
  {
    assert v == v / d * d + v % d;
    OrderedMultiples(v / d, q, d);
    OrderedMultiples(q, v / d, d);
  }

  lemma {:induction false} OrderedMultiples(a: nat, b: nat, d: nat)
    ensures a < b ==> a * d + d <= b * d
  {
    if a + 1 < b {
      OrderedMultiples(a, b - 1, d);
    }
    Successor(b, d);
  }

  lemma {:induction false} Successor(b: nat, d: nat)
    ensures b > 0 ==> b * d == (b - 1) * d + d
  {
  }

  /** A word's quotients by powers of two, from its quotient by sixteen. */
  lemma {:induction false} LowQuotients(v: nat, w4: nat, cd: nat)
    requires v / 0x10 == 2 * (2 * (2 * w4)) + cd && cd < 2
    ensures v / 0x10 % 2 == cd && v / 0x20 == 4 * w4 && v / 0x80 == w4
  {
    HalfOf(v, 0x10);
    Halved(4 * w4, cd);
    HalfOf(v, 0x20);
    Halved(2 * w4, 0);
    HalfOf(v, 0x40);
    Halved(w4, 0);
  }

  lemma {:induction false} NextBit(v: nat, d: nat, q: nat, b: nat)
    requires d > 0 && b < 2 && v / d == 2 * q + b
    ensures v / d % 2 == b && v / (2 * d) == q
  {
    HalfOf(v, d);
    Halved(q, b);
  }

  lemma {:induction false} WordReads(op: nat, aa: nat, tc: nat, rd: nat, ra: nat, cd: nat, rc: nat)
    requires op < 16 && aa < 2 && tc < 2 && rd < 2 && ra < 2 && cd < 2 && rc < 16
    ensures var v := Word(op, aa, tc, rd, ra, cd, rc);
      && v < 0x1_0000 && v / 0x8000 == 1 && v / 0x800 % 16 == op && v / 0x400 % 2 == aa && v / 0x200 % 2 == tc && v / 0x100 % 2 == rd
      && v / 0x80 % 2 == ra && v / 0x20 % 4 == 0 && v / 0x10 % 2 == cd && v % 0x10 == rc
  {
    WordQuotients(op, aa, tc, rd, ra, cd, rc);
    var v := Word(op, aa, tc, rd, ra, cd, rc);
    hide Word;
    var w1 := 2 * (16 + op) + aa;
    var w2 := 2 * w1 + tc;
    var w3 := 2 * w2 + rd;
    LowQuotients(v, 2 * w3 + ra, cd);
    FourTimes(2 * w3 + ra);
    NextBit(v, 0x80, w3, ra);
    NextBit(v, 0x100, w2, rd);
    NextBit(v, 0x200, w1, tc);
    NextBit(v, 0x400, 16 + op, aa);
    TopBit(v, op);
  }

  lemma {:induction false} FourTimes(n: nat)
    ensures 4 * n % 4 == 0
  {
  }

  lemma {:induction false} TopBit(v: nat, op: nat)
    requires v / 0x800 == 16 + op && op < 16
    ensures v / 0x8000 == 1 && v / 0x800 % 16 == op
  {
  }

  function Bit(b: bool): nat { if b then 1 else 0 }

  lemma {:induction false} FlagsRead(flags: uint16, rcode: nat, authoritative: bool)
    requires rcode <= 4095
    ensures ReplyBits(flags, rcode, authoritative, false, true, ReplyFlags(flags, rcode, authoritative))
  {
    WordReads(flags / 0x800 % 16, Bit(authoritative), 0, flags / 0x100 % 2, 1, flags / 0x10 % 2, rcode % 16);
    SameWord(flags, rcode, authoritative);
    hide ReplyFlags, Word;
  }

  lemma {:induction false} SameWord(flags: uint16, rcode: nat, authoritative: bool)
    requires rcode <= 4095
    ensures ReplyFlags(flags, rcode, authoritative) == Word(flags / 0x800 % 16, Bit(authoritative), 0, flags / 0x100 % 2, 1, flags / 0x10 % 2, rcode % 16)
  {
  }

  function Opt(cap: uint16, rcode: nat, dnssec: bool): (r: seq<byte>)
    requires rcode <= 4095
    ensures |r| == 11
  {
    [0] + Be16(OPT) + Be16(cap) + [rcode / 16, 0] + (if dnssec then [0x80, 0] else [0, 0]) + [0, 0]
  }

  function Header(q: Request, rcode: nat, authoritative: bool, answers: uint16, authority: uint16): (r: seq<byte>)
    requires rcode <= 4095
    ensures |r| == 12
  {
    Be16(q.id) + Be16(ReplyFlags(q.flags, rcode, authoritative)) + Be16(1) + Be16(answers) + Be16(authority)
    + Be16(if q.edns.Some? then 1 else 0)
  }

  /** What follows the records of a reply: an OPT if the request had one, offering a UDP size. */
  function TrailerFor(q: Request, rcode: nat, cap: uint16): seq<byte>
    requires rcode <= 4095
  {
    if q.edns.Some? then Opt(cap, rcode, q.edns.value) else []
  }

  function Trailer(q: Request, rcode: nat): seq<byte>
    requires rcode <= 4095
  {
    TrailerFor(q, rcode, UDP_CAP)
  }

  function QuestionBytes(q: Request): seq<byte> { q.name + Be16(q.kind) + Be16(q.rrClass) }

  /** The whole reply: header, question, answers, authority, and OPT last. */
  function Build(q: Request, rcode: nat, authoritative: bool, answers: seq<Synth>, authority: seq<Synth>): seq<byte>
    requires rcode <= 4095 && Short(answers) && Short(authority) && |answers| <= 65535 && |authority| <= 65535
  {
    Header(q, rcode, authoritative, |answers|, |authority|) + QuestionBytes(q) + EncodeAll(answers) + EncodeAll(authority) + Trailer(q, rcode)
  }

  // ---- reading back ----

  /** The names of a record's data, copied out uncompressed. */
  function CopyNames(msg: seq<byte>, off: nat, count: nat): Result<(seq<byte>, nat)>
    decreases count
  {
    if count == 0 then Ok(([], off))
    else
      var n := Decode(msg, off);
      if n.Err? then Err(n.error)
      else
        var rest := CopyNames(msg, n.value.end, count - 1);
        if rest.Err? then rest else Ok((n.value.wire + rest.value.0, rest.value.1))
  }

  datatype Copy = Whole | Named(prefix: nat, count: nat, tail: nat) | Foreign

  function CopyOf(kind: uint16): Copy {
    if kind in {1, 28, 16, 64, 65} then Whole
    else if kind in {2, 5, 12, 39} then Named(0, 1, 0)
    else if kind == 6 then Named(0, 2, 20)
    else if kind == 15 then Named(2, 1, 0)
    else if kind == 33 then Named(6, 1, 0)
    else Foreign
  }

  function Slice(msg: seq<byte>, a: nat, b: nat): seq<byte> { if a <= b <= |msg| then msg[a..b] else [] }

  /** A scanned record, re-encoded without compression. */
  function Reencode(msg: seq<byte>, r: Record): Result<Synth> {
    match CopyOf(r.kind)
    case Foreign => Err(ErrUnsupported)
    case Whole => Ok(Synth(r.owner.wire, r.kind, r.ttl, Slice(msg, r.data, r.end)))
    case Named(prefix, count, tail) =>
      var names := CopyNames(msg, r.data + prefix, count);
      if names.Err? then Err(names.error)
      else
        Ok(Synth(r.owner.wire, r.kind, r.ttl,
                 Slice(msg, r.data, r.data + prefix) + names.value.0 + Slice(msg, names.value.1, names.value.1 + tail)))
  }

  predicate Skipped(r: Record) { r.section == ADDITIONAL || r.kind in {46, 47, 50} }

  datatype Sections = Sections(answers: seq<Synth>, authority: seq<Synth>)

  function Put1(s: Sections, section: nat, r: Synth): Sections {
    if section == ANSWER then s.(answers := [r] + s.answers) else s.(authority := [r] + s.authority)
  }

  /** All answer and authority records from the cursor on. */
  function SectionsFrom(msg: seq<byte>, c: Cursor): Result<Sections>
    requires CursorOK(c)
    decreases Left(c)
  {
    var n := Next(msg, c, None);
    if n.Done? then Ok(Sections([], []))
    else if n.Fail? then Err(n.error)
    else if Skipped(n.record) then SectionsFrom(msg, n.cursor)
    else if n.record.rrClass != 1 then Err(ErrUnsupported)
    else
      var r := Reencode(msg, n.record);
      if r.Err? then Err(r.error)
      else
        var rest := SectionsFrom(msg, n.cursor);
        if rest.Err? then rest else Ok(Put1(rest.value, n.record.section, r.value))
  }

  function SyntheticSections(msg: seq<byte>): Result<Sections> {
    var q := ParseQuestion(msg);
    if q.Err? then Err(q.error) else SectionsFrom(msg, Start(msg, q.value))
  }

  // ---- well-formed records ----

  /** Data in parts: a fixed prefix, uncompressed names, a tail. */
  datatype Parts = Parts(prefix: seq<byte>, names: seq<seq<byte>>, tail: seq<byte>)

  function Flat(names: seq<seq<byte>>): seq<byte> { if names == [] then [] else names[0] + Flat(names[1..]) }

  ghost predicate PartsOK(kind: uint16, data: seq<byte>, p: Parts) {
    && ShapeOf(kind).Some? && |p.prefix| == ShapeOf(kind).value.prefix && |p.names| == ShapeOf(kind).value.count
    && (forall i | 0 <= i < |p.names| :: ValidWire(p.names[i]))
    && TailOK(kind, p.tail) && data == p.prefix + Flat(p.names) + p.tail
  }

  /** Data of an understood kind, valid for that kind and uncompressed. */
  ghost predicate DataOK(kind: uint16, data: seq<byte>) {
    && |data| <= 65535 && !CopyOf(kind).Foreign?
    && (ShapeOf(kind).None? ==> PlainOK(kind, data))
    && (ShapeOf(kind).Some? ==> exists p :: PartsOK(kind, data, p))
  }

  ghost predicate WellFormed(r: Synth) { ValidWire(r.name) && DataOK(r.kind, r.data) }

  // ---- bytes in place ----

  /** The message holds these bytes at an offset. */
  ghost predicate At(msg: seq<byte>, off: nat, s: seq<byte>) { off + |s| <= |msg| && msg[off..off + |s|] == s }

  lemma {:induction false} AtSplit(msg: seq<byte>, off: nat, a: seq<byte>, b: seq<byte>)
    requires At(msg, off, a + b)
    ensures At(msg, off, a) && At(msg, off + |a|, b)
  {
    var s := msg[off..off + |a + b|];
    assert s[..|a|] == a && s[|a|..] == b;
    assert msg[off..off + |a|] == s[..|a|];
    assert msg[off + |a|..off + |a| + |b|] == s[|a|..];
  }

  lemma {:induction false} AtWord(msg: seq<byte>, off: nat, v: uint16)
    requires At(msg, off, Be16(v))
    ensures off + 2 <= |msg| && U16(msg, off) == v
  {
    var s := msg[off..off + 2];
    assert s[0] == msg[off] && s[1] == msg[off + 1];
  }

  lemma {:induction false} AtLong(msg: seq<byte>, off: nat, v: uint32)
    requires At(msg, off, Be32(v))
    ensures off + 4 <= |msg| && U32(msg, off) == v
  {
    var s := msg[off..off + 4];
    assert s[0] == msg[off] && s[1] == msg[off + 1] && s[2] == msg[off + 2] && s[3] == msg[off + 3];
    Digits(v);
  }

  lemma {:induction false} AtName(msg: seq<byte>, off: nat, w: seq<byte>)
    requires At(msg, off, w) && ValidWire(w) && |msg| <= MAX_MESSAGE
    ensures Decode(msg, off) == Ok(Name(w, off + |w|, false))
    ensures CheckedName(msg, off, None) == Ok(Checked(Name(w, off + |w|, false), None))
  {
    PlainWalk(msg, off, w, [], 0);
  }

  lemma {:induction false} AtFixed(msg: seq<byte>, off: nat, kind: uint16, ttl: uint32, size: uint16)
    requires At(msg, off, EncodeFixed(kind, ttl, size))
    ensures off + 10 <= |msg| && U16(msg, off) == kind && U16(msg, off + 2) == 1 && U32(msg, off + 4) == ttl && U16(msg, off + 8) == size
  {
    hide Be16, Be32, U16, U32, At;
    AtSplit(msg, off, Be16(kind) + Be16(1) + Be32(ttl), Be16(size));
    AtSplit(msg, off, Be16(kind) + Be16(1), Be32(ttl));
    AtSplit(msg, off, Be16(kind), Be16(1));
    AtWord(msg, off, kind);
    AtWord(msg, off + 2, 1);
    AtLong(msg, off + 4, ttl);
    AtWord(msg, off + 8, size);
  }

  // ---- one record ----

  lemma {:induction false} AtNames(msg: seq<byte>, off: nat, end: nat, names: seq<seq<byte>>, compression: bool)
    requires At(msg, off, Flat(names)) && off + |Flat(names)| <= end && |msg| <= MAX_MESSAGE
    requires forall i | 0 <= i < |names| :: ValidWire(names[i])
    ensures var r := ReadNames(msg, off, end, |names|, compression, None);
      r.Ok? && r.value.next == off + |Flat(names)| && r.value.names == None
    ensures CopyNames(msg, off, |names|) == Ok((Flat(names), off + |Flat(names)|))
    decreases |names|
  {
    hide At, Decode, CheckedName, ValidWire;
    if names != [] {
      AtSplit(msg, off, names[0], Flat(names[1..]));
      AtName(msg, off, names[0]);
      WireSize(names[0]);
      AtNames(msg, off + |names[0]|, end, names[1..], compression);
    }
  }

  lemma {:induction false} WireSize(w: seq<byte>)
    requires ValidWire(w)
    ensures 1 <= |w| <= MAX_NAME
  {
  }

  lemma {:induction false} AtData(msg: seq<byte>, kind: uint16, off: nat, data: seq<byte>)
    requires At(msg, off, data) && DataOK(kind, data) && |msg| <= MAX_MESSAGE
    ensures var r := ReadData(msg, kind, off, off + |data|, None); r.Ok? && r.value.names == None
  {
    hide PlainOK, TailOK, ReadNames, ShapeOf, CopyOf, At, PartsOK;
    AtBounds(msg, off, data);
    if ShapeOf(kind).Some? {
      hide ReadData;
      var p :| PartsOK(kind, data, p);
      PartsRead(msg, kind, ShapeOf(kind).value, off, data, p);
    }
  }

  lemma {:induction false} PartsRead(msg: seq<byte>, kind: uint16, s: Shape, off: nat, data: seq<byte>, p: Parts)
    requires ShapeOf(kind) == Some(s) && !CopyOf(kind).Foreign? && At(msg, off, data) && PartsOK(kind, data, p) && |msg| <= MAX_MESSAGE
    ensures off + |data| <= |msg| && ReadData(msg, kind, off, off + |data|, None).Ok? && ReadData(msg, kind, off, off + |data|, None).value.names == None
  {
    hide TailOK, ReadNames, ShapeOf, CopyOf, At, PartsOK, Flat, CopyNames;
    AtBounds(msg, off, data);
    PartsLong(kind, data, p);
    AtParts(msg, kind, s, off, data, p);
    AtBounds(msg, off + s.prefix + |Flat(p.names)|, p.tail);
  }

  /** Where the parts of well-formed data are, and that they read back. */
  lemma {:induction false} AtParts(msg: seq<byte>, kind: uint16, s: Shape, off: nat, data: seq<byte>, p: Parts)
    requires ShapeOf(kind) == Some(s) && At(msg, off, data) && PartsOK(kind, data, p) && |msg| <= MAX_MESSAGE
    ensures |p.prefix| == s.prefix && off + s.prefix + |Flat(p.names)| + |p.tail| == off + |data| <= |msg|
    ensures At(msg, off, p.prefix) && At(msg, off + s.prefix + |Flat(p.names)|, p.tail) && TailOK(kind, p.tail)
    ensures ReadsTo(ReadNames(msg, off + s.prefix, off + |data|, s.count, s.compression, None), off + s.prefix + |Flat(p.names)|)
    ensures CopyNames(msg, off + s.prefix, s.count) == Ok((Flat(p.names), off + s.prefix + |Flat(p.names)|))
  {
    hide TailOK, ReadNames, ValidWire, ShapeOf, At, CopyNames, Flat;
    assert data == p.prefix + (Flat(p.names) + p.tail);
    AtBounds(msg, off, data);
    AtSplit(msg, off, p.prefix, Flat(p.names) + p.tail);
    AtSplit(msg, off + s.prefix, Flat(p.names), p.tail);
    AtNames(msg, off + s.prefix, off + |data|, p.names, s.compression);
  }

  ghost predicate ReadsTo(r: Result<Embedded>, next: nat) { r.Ok? && r.value.next == next && r.value.names == None }

  /** Parts are long enough for the kind's minimum. */
  lemma {:induction false} PartsLong(kind: uint16, data: seq<byte>, p: Parts)
    requires PartsOK(kind, data, p) && !CopyOf(kind).Foreign?
    ensures ShapeOf(kind).value.minimum <= |data|
  {
    hide TailOK;
    if p.names != [] {
      WireSize(p.names[0]);
      assert |Flat(p.names)| >= |p.names[0]|;
    }
  }

  /** What the scanner makes of an encoded record. */
  ghost predicate Scans(msg: seq<byte>, c: Cursor, section: nat, r: Synth)
    requires CursorOK(c)
  {
    var n := Next(msg, c, None);
    && n.Got? && n.names == None && section < 3 && c.counts[section] > 0
    && n.cursor == Cursor(c.off + |r.name| + 10 + |r.data|, section, c.counts[section := c.counts[section] - 1], c.edns)
    && n.record.kind == r.kind && n.record.rrClass == 1 && n.record.section == section && n.record.ttl == r.ttl
    && n.record.owner.wire == r.name && n.record.data == c.off + |r.name| + 10 && n.record.end == n.record.data + |r.data|
    && Reencode(msg, n.record) == Ok(r)
  }

  lemma {:induction false} RecordScans(msg: seq<byte>, c: Cursor, section: nat, r: Synth)
    requires CursorOK(c) && Skip(c.section, c.counts) == section < 3 && WellFormed(r)
    requires |r.data| <= 65535 && At(msg, c.off, EncodeRecord(r)) && |msg| <= MAX_MESSAGE
    ensures Scans(msg, c, section, r)
  {
    hide At, ValidWire, U16, U32, EncodeFixed, ReadData, CheckedName, CopyOf, Reencode, DataOK, Skip;
    var off := c.off + |r.name|;
    RecordAt(msg, c.off, r);
    NotOpt(r);
    ReencodeBack(msg, Next(msg, c, None).record, r);
  }

  /** The fields of an encoded record, where the scanner looks for them. */
  lemma {:induction false} RecordAt(msg: seq<byte>, start: nat, r: Synth)
    requires WellFormed(r) && |r.data| <= 65535 && At(msg, start, EncodeRecord(r)) && |msg| <= MAX_MESSAGE
    ensures start + |r.name| + 10 + |r.data| <= |msg|
    ensures CheckedName(msg, start, None) == Ok(Checked(Name(r.name, start + |r.name|, false), None))
    ensures At(msg, start + |r.name| + 10, r.data)
    ensures U16(msg, start + |r.name|) == r.kind && U16(msg, start + |r.name| + 2) == 1
    ensures U32(msg, start + |r.name| + 4) == r.ttl && U16(msg, start + |r.name| + 8) == |r.data|
    ensures var d := ReadData(msg, r.kind, start + |r.name| + 10, start + |r.name| + 10 + |r.data|, None); d.Ok? && d.value.names == None
  {
    hide At, ValidWire, U16, U32, EncodeFixed, ReadData, CheckedName, DataOK;
    var off, fixed := start + |r.name|, EncodeFixed(r.kind, r.ttl, |r.data|);
    AtSplit(msg, start, r.name + fixed, r.data);
    AtSplit(msg, start, r.name, fixed);
    AtName(msg, start, r.name);
    AtFixed(msg, off, r.kind, r.ttl, |r.data|);
    AtBounds(msg, off + 10, r.data);
    AtData(msg, r.kind, off + 10, r.data);
  }

  lemma {:induction false} AtBounds(msg: seq<byte>, off: nat, s: seq<byte>)
    requires At(msg, off, s)
    ensures off + |s| <= |msg| && msg[off..off + |s|] == s
  {
  }

  lemma {:induction false} NotOpt(r: Synth)
    requires WellFormed(r)
    ensures r.kind != OPT && r.kind !in {46, 47, 50} && !CopyOf(r.kind).Foreign?
  {
    hide PlainOK, ValidWire;
  }

  lemma {:induction false} ReencodeBack(msg: seq<byte>, x: Record, r: Synth)
    requires WellFormed(r) && x.kind == r.kind && x.ttl == r.ttl && x.owner.wire == r.name && x.end == x.data + |r.data|
    requires At(msg, x.data, r.data) && |msg| <= MAX_MESSAGE
    ensures Reencode(msg, x) == Ok(r)
  {
    hide ValidWire, PlainOK, At, PartsOK, ShapeOf, CopyOf, Reencode;
    if CopyOf(r.kind).Named? {
      NamedShape(r.kind);
      var p :| PartsOK(r.kind, r.data, p);
      NamedBack(msg, x, r, p);
    } else {
      WholeBack(msg, x, r);
    }
  }

  lemma {:induction false} WholeBack(msg: seq<byte>, x: Record, r: Synth)
    requires CopyOf(r.kind).Whole? && x.kind == r.kind && x.ttl == r.ttl && x.owner.wire == r.name && x.end == x.data + |r.data| && At(msg, x.data, r.data)
    ensures Reencode(msg, x) == Ok(r)
  {
    hide At, CopyOf;
    AtBounds(msg, x.data, r.data);
  }

  lemma {:induction false} SliceAt(msg: seq<byte>, off: nat, s: seq<byte>)
    requires At(msg, off, s)
    ensures Slice(msg, off, off + |s|) == s
  {
  }

  lemma {:induction false} NamedBack(msg: seq<byte>, x: Record, r: Synth, p: Parts)
    requires CopyOf(r.kind).Named? && ShapeOf(r.kind).Some? && PartsOK(r.kind, r.data, p)
    requires x.kind == r.kind && x.ttl == r.ttl && x.owner.wire == r.name && x.end == x.data + |r.data|
    requires At(msg, x.data, r.data) && |msg| <= MAX_MESSAGE
    ensures Reencode(msg, x) == Ok(r)
  {
    hide At, CopyOf, ShapeOf, PartsOK, CopyNames, Flat, Slice, TailOK, ReadNames;
    NamedShape(r.kind);
    AtParts(msg, r.kind, ShapeOf(r.kind).value, x.data, r.data, p);
    TailSize(r.kind, p.tail);
    PartsFlat(r.kind, r.data, p);
    SliceAt(msg, x.data, p.prefix);
    SliceAt(msg, x.data + |p.prefix| + |Flat(p.names)|, p.tail);
  }

  lemma {:induction false} PartsFlat(kind: uint16, data: seq<byte>, p: Parts)
    requires PartsOK(kind, data, p)
    ensures data == p.prefix + Flat(p.names) + p.tail
  {
  }

  lemma {:induction false} NamedShape(kind: uint16)
    requires CopyOf(kind).Named?
    ensures ShapeOf(kind).Some? && ShapeOf(kind).value.prefix == CopyOf(kind).prefix && ShapeOf(kind).value.count == CopyOf(kind).count
  {
  }

  lemma {:induction false} TailSize(kind: uint16, tail: seq<byte>)
    requires CopyOf(kind).Named? && TailOK(kind, tail)
    ensures |tail| == CopyOf(kind).tail
  {
  }

  // ---- whole messages ----

  ghost predicate AllWellFormed(rs: seq<Synth>) { forall i | 0 <= i < |rs| :: WellFormed(rs[i]) && |rs[i].data| <= 65535 }

  /** The cursor behind the records of a section. */
  function Behind(c: Cursor, section: nat, rs: seq<Synth>): Cursor
    requires CursorOK(c) && section < 3 && Short(rs)
  {
    if rs == [] then c else Cursor(c.off + |EncodeAll(rs)|, section, c.counts[section := 0], c.edns)
  }

  function Prepend(section: nat, rs: seq<Synth>, r: Result<Sections>): Result<Sections> {
    if r.Err? then r
    else if section == ANSWER then Ok(r.value.(answers := rs + r.value.answers))
    else Ok(r.value.(authority := rs + r.value.authority))
  }

  function Before(recs: seq<Record>, r: Result<Scan>): Result<Scan> {
    if r.Err? then r else Ok(r.value.(records := recs + r.value.records))
  }

  lemma {:induction false} BeforeBefore(a: seq<Record>, b: seq<Record>, r: Result<Scan>)
    ensures Before(a, Before(b, r)) == Before(a + b, r) && Before([], r) == r
  {
    if r.Ok? {
      assert a + (b + r.value.records) == a + b + r.value.records;
      assert [] + r.value.records == r.value.records;
    }
  }

  lemma {:induction false} PrependPrepend(section: nat, a: seq<Synth>, b: seq<Synth>, r: Result<Sections>)
    requires section < 2
    ensures Prepend(section, a, Prepend(section, b, r)) == Prepend(section, a + b, r) && Prepend(section, [], r) == r
  {
    if r.Ok? {
      assert a + (b + r.value.answers) == a + b + r.value.answers && a + (b + r.value.authority) == a + b + r.value.authority;
      assert [] + r.value.answers == r.value.answers && [] + r.value.authority == r.value.authority;
    }
  }

  /** One record in front. */
  lemma {:induction false} FirstScans(msg: seq<byte>, c: Cursor, section: nat, r: Synth)
    requires CursorOK(c) && section < 2 && WellFormed(r) && Scans(msg, c, section, r)
    ensures var n := Next(msg, c, None);
      && n.Got? && CursorOK(n.cursor)
      && SectionsFrom(msg, c) == Prepend(section, [r], SectionsFrom(msg, n.cursor))
      && ScanFrom(msg, c, None) == Before([n.record], ScanFrom(msg, n.cursor, None))
  {
    hide Reencode, CopyOf, DataOK, Next;
    assert Next(msg, c, None).Got?;
    NextOK(msg, c);
    NotOpt(r);
  }

  lemma {:induction false} NextOK(msg: seq<byte>, c: Cursor)
    requires CursorOK(c) && Next(msg, c, None).Got?
    ensures CursorOK(Next(msg, c, None).cursor) && Left(Next(msg, c, None).cursor) < Left(c)
  {
    hide Next;
  }

  ghost predicate SameKinds(recs: seq<Record>, rs: seq<Synth>, section: nat) {
    |recs| == |rs| && forall i | 0 <= i < |rs| :: recs[i].kind == rs[i].kind && recs[i].owner.wire == rs[i].name && recs[i].ttl == rs[i].ttl && recs[i].rrClass == 1 && recs[i].section == section
  }

  /** The records of one section are read back in order. */
  lemma {:induction false} SectionScans(msg: seq<byte>, c: Cursor, section: nat, rs: seq<Synth>) returns (recs: seq<Record>)
    requires CursorOK(c) && section < 2 && c.counts[section] == |rs| && c.section <= section && (forall i | c.section <= i < section :: c.counts[i] == 0)
    requires AllWellFormed(rs) && Short(rs) && At(msg, c.off, EncodeAll(rs)) && |msg| <= MAX_MESSAGE
    ensures SameKinds(recs, rs, section) && CursorOK(Behind(c, section, rs))
    ensures SectionsFrom(msg, c) == Prepend(section, rs, SectionsFrom(msg, Behind(c, section, rs)))
    ensures ScanFrom(msg, c, None) == Before(recs, ScanFrom(msg, Behind(c, section, rs), None))
    decreases |rs|
  {
    hide At, WellFormed, Next, SectionsFrom, ScanFrom, EncodeRecord, Prepend, Before, Reencode;
    if rs == [] {
      recs := [];
      PrependPrepend(section, [], [], SectionsFrom(msg, c));
      BeforeBefore([], [], ScanFrom(msg, c, None));
    } else {
      SkipTo(c, section);
      AtSplit(msg, c.off, EncodeRecord(rs[0]), EncodeAll(rs[1..]));
      RecordScans(msg, c, section, rs[0]);
      FirstScans(msg, c, section, rs[0]);
      var n := Next(msg, c, None);
      var rest := SectionScans(msg, n.cursor, section, rs[1..]);
      recs := [n.record] + rest;
      var d := Behind(n.cursor, section, rs[1..]);
      SameBehind(c, section, rs, n.cursor);
      PrependPrepend(section, [rs[0]], rs[1..], SectionsFrom(msg, d));
      BeforeBefore([n.record], rest, ScanFrom(msg, d, None));
      assert [rs[0]] + rs[1..] == rs;
    }
  }

  lemma {:induction false} SkipTo(c: Cursor, section: nat)
    requires CursorOK(c) && section < 3 && c.counts[section] > 0 && c.section <= section && (forall i | c.section <= i < section :: c.counts[i] == 0)
    ensures Skip(c.section, c.counts) == section
  {
  }

  lemma {:induction false} SameBehind(c: Cursor, section: nat, rs: seq<Synth>, d: Cursor)
    requires CursorOK(c) && section < 3 && rs != [] && Short(rs) && c.counts[section] == |rs|
    requires d == Cursor(c.off + |rs[0].name| + 10 + |rs[0].data|, section, c.counts[section := c.counts[section] - 1], c.edns)
    ensures CursorOK(d) && Behind(d, section, rs[1..]) == Behind(c, section, rs)
  {
    hide EncodeRecord;
    assert |EncodeAll(rs)| == |EncodeRecord(rs[0])| + |EncodeAll(rs[1..])|;
    if rs[1..] == [] {
      assert EncodeAll(rs[1..]) == [];
      assert c.counts[section := c.counts[section] - 1] == c.counts[section := 0];
    } else {
      assert d.counts[section := 0] == c.counts[section := 0];
    }
  }

  // ---- the trailing OPT ----

  lemma {:induction false} OptAt(msg: seq<byte>, off: nat, cap: uint16, rcode: nat, dnssec: bool)
    requires rcode <= 4095 && At(msg, off, Opt(cap, rcode, dnssec)) && |msg| <= MAX_MESSAGE
    ensures off + 11 <= |msg|
    ensures CheckedName(msg, off, None) == Ok(Checked(Name([0], off + 1, false), None))
    ensures U16(msg, off + 1) == OPT && U16(msg, off + 3) == cap && U16(msg, off + 9) == 0
    ensures U32(msg, off + 5) == rcode / 16 * 0x100_0000 + if dnssec then 0x8000 else 0
  {
    var o := Opt(cap, rcode, dnssec);
    OptBytes(cap, rcode, dnssec);
    hide Opt;
    assert msg[off..off + 11] == o;
    assert forall i | 0 <= i < 11 :: o[i] == msg[off + i];
    RootName();
    assert msg[off..off + 1] == [0];
    AtName(msg, off, [0]);
  }

  lemma {:induction false} OptBytes(cap: uint16, rcode: nat, dnssec: bool)
    requires rcode <= 4095
    ensures var o := Opt(cap, rcode, dnssec);
      && o[0] == 0 && o[1] == 0 && o[2] == 41 && o[3] == Be16(cap)[0] && o[4] == Be16(cap)[1] && o[5] == rcode / 16 && o[6] == 0
      && o[7] == (if dnssec then 0x80 else 0) && o[8] == 0 && o[9] == 0 && o[10] == 0
  {
  }

  lemma {:induction false} RootName()
    ensures ValidWire([0])
  {
  }

  /** EDNS data as the encoder writes it. */
  ghost predicate OptIs(e: Option<Edns>, cap: nat, rcode: nat, dnssec: bool) {
    && e.Some? && e.value.udpSize == cap && e.value.options == [] && ExtendedCode(e.value) == rcode / 16
    && Version(e.value) == 0 && EdnsFlags(e.value) == if dnssec then 0x8000 else 0
  }

  /** The end of a reply: nothing, or exactly one OPT. */
  lemma {:induction false} TrailerScans(msg: seq<byte>, c: Cursor, q: Request, rcode: nat, cap: uint16) returns (recs: seq<Record>)
    requires rcode <= 4095 && CursorOK(c) && c.section <= 2 && c.edns == None && At(msg, c.off, TrailerFor(q, rcode, cap)) && |msg| <= MAX_MESSAGE
    requires c.off + |TrailerFor(q, rcode, cap)| == |msg| && c.counts == [0, 0, if q.edns.Some? then 1 else 0]
    ensures SectionsFrom(msg, c) == Ok(Sections([], [])) && ScanFrom(msg, c, None).Ok? && ScanFrom(msg, c, None).value.records == recs
    ensures q.edns.None? ==> recs == [] && ScanFrom(msg, c, None).value.edns == None
    ensures q.edns.Some? ==>
      && |recs| == 1 && recs[0].kind == OPT && recs[0].end == |msg|
      && OptIs(ScanFrom(msg, c, None).value.edns, cap, rcode, q.edns.value)
  {
    if q.edns.None? {
      recs := [];
      EndDone(msg, c);
    } else {
      hide At, Opt, U16, U32, CheckedName;
      OptAt(msg, c.off, cap, rcode, q.edns.value);
      OptNext(msg, c, cap, rcode, q.edns.value);
      var n := Next(msg, c, None);
      EndDone(msg, n.cursor);
      hide Next;
      recs := [n.record];
      assert recs == [n.record] + [];
    }
  }

  lemma {:induction false} EndDone(msg: seq<byte>, c: Cursor)
    requires CursorOK(c) && c.counts == [0, 0, 0] && c.off == |msg|
    ensures Next(msg, c, None) == Done && SectionsFrom(msg, c) == Ok(Sections([], [])) && ScanFrom(msg, c, None) == Ok(Scan([], c.edns, None))
  {
  }

  lemma {:induction false} OptNext(msg: seq<byte>, c: Cursor, cap: uint16, rcode: nat, dnssec: bool)
    requires rcode <= 4095 && CursorOK(c) && c.section <= 2 && c.edns == None && c.counts == [0, 0, 1] && c.off + 11 == |msg|
    requires CheckedName(msg, c.off, None) == Ok(Checked(Name([0], c.off + 1, false), None))
    requires U16(msg, c.off + 1) == OPT && U16(msg, c.off + 3) == cap && U16(msg, c.off + 9) == 0
    requires U32(msg, c.off + 5) == rcode / 16 * 0x100_0000 + if dnssec then 0x8000 else 0
    ensures var n := Next(msg, c, None);
      && n.Got? && n.names == None && n.record.kind == OPT && n.record.section == ADDITIONAL && n.record.end == |msg|
      && n.cursor.off == |msg| && n.cursor.counts == [0, 0, 0] && CursorOK(n.cursor)
      && OptIs(n.cursor.edns, cap, rcode, dnssec)
  {
    hide U16, U32, CheckedName;
    SkipTo(c, 2);
    assert Options(msg[c.off + 11..c.off + 11]);
    assert c.counts[2 := 0] == [0, 0, 0];
  }

  // ---- the round trip ----

  lemma {:induction false} HeaderAt(msg: seq<byte>, q: Request, rcode: nat, authoritative: bool, answers: uint16, authority: uint16)
    requires rcode <= 4095 && At(msg, 0, Header(q, rcode, authoritative, answers, authority))
    ensures |msg| >= 12 && U16(msg, 4) == 1 && U16(msg, 6) == answers && U16(msg, 8) == authority && U16(msg, 10) == if q.edns.Some? then 1 else 0
    ensures U16(msg, 0) == q.id && U16(msg, 2) == ReplyFlags(q.flags, rcode, authoritative)
  {
    hide ReplyFlags;
    var h := Header(q, rcode, authoritative, answers, authority);
    var s := msg[0..12];
    assert forall i | 0 <= i < 12 :: s[i] == h[i] == msg[i];
  }

  lemma {:induction false} QuestionAt(msg: seq<byte>, q: Request)
    requires |msg| <= MAX_MESSAGE && |msg| >= 12 && U16(msg, 4) == 1 && ValidWire(q.name) && At(msg, 12, QuestionBytes(q))
    ensures ParseQuestion(msg) == Ok(Question(U16(msg, 2), Name(q.name, 12 + |q.name|, false), q.kind, q.rrClass, 12 + |q.name| + 4))
  {
    hide At, U16, ValidWire, Be16, Decode;
    AtSplit(msg, 12, q.name + Be16(q.kind), Be16(q.rrClass));
    AtSplit(msg, 12, q.name, Be16(q.kind));
    AtName(msg, 12, q.name);
    AtWord(msg, 12 + |q.name|, q.kind);
    AtWord(msg, 12 + |q.name| + 2, q.rrClass);
  }

  /**
   A built reply scans cleanly and gives back exactly the records it was built from; EDNS, if the
   request had it, is one OPT at the end.
   */
  lemma {:induction false} SyntheticRoundTrip(q: Request, rcode: nat, authoritative: bool, answers: seq<Synth>, authority: seq<Synth>)
    requires rcode <= 4095 && ValidWire(q.name) && AllWellFormed(answers) && AllWellFormed(authority) && Short(answers) && Short(authority)
    requires |answers| <= 65535 && |authority| <= 65535 && |Build(q, rcode, authoritative, answers, authority)| <= MAX_MESSAGE
    ensures var m := Build(q, rcode, authoritative, answers, authority);
      && SyntheticSections(m) == Ok(Sections(answers, authority))
      && |m| >= 12 && U16(m, 0) == q.id && ReplyBits(q.flags, rcode, authoritative, false, true, U16(m, 2))
      && ScanMessage(m).Ok?
      && var s := ScanMessage(m).value;
         && s.question.name.wire == q.name && s.question.kind == q.kind && s.question.rrClass == q.rrClass
         && |s.scan.records| == |answers| + |authority| + (if q.edns.Some? then 1 else 0)
         && (q.edns.None? ==> s.scan.edns == None)
         && (q.edns.Some? ==>
               && s.scan.records[|s.scan.records| - 1].kind == OPT && s.scan.records[|s.scan.records| - 1].end == |m|
               && OptIs(s.scan.edns, UDP_CAP, rcode, q.edns.value))
  {
    hide At, ValidWire, U16, Header, QuestionBytes, EncodeAll, SectionsFrom, ScanFrom, AllWellFormed, ParseQuestion, Trailer, TrailerFor, SameKinds, Prepend;
    TrailerLength(q, rcode, UDP_CAP);
    FlagsRead(q.flags, rcode, authoritative);
    hide ReplyBits, ReplyFlags;
    var m := Build(q, rcode, authoritative, answers, authority);
    var h, x, a, b, t := Header(q, rcode, authoritative, |answers|, |authority|), QuestionBytes(q), EncodeAll(answers), EncodeAll(authority), Trailer(q, rcode);
    LaidOut(m, h, x, a, b, t);
    HeaderAt(m, q, rcode, authoritative, |answers|, |authority|);
    QuestionAt(m, q);
    QuestionLength(q);
    var p := ParseQuestion(m).value;
    var c := Start(m, p);
    var r1 := SectionScans(m, c, ANSWER, answers);
    var c1 := Behind(c, ANSWER, answers);
    BehindAt(c, ANSWER, answers);
    var r2 := SectionScans(m, c1, AUTHORITY, authority);
    var c2 := Behind(c1, AUTHORITY, authority);
    BehindAt(c1, AUTHORITY, authority);
    var r3 := TrailerScans(m, c2, q, rcode, UDP_CAP);
    KindCount(r1, answers, ANSWER);
    KindCount(r2, authority, AUTHORITY);
    BothSections(answers, authority);
  }

  lemma {:induction false} TrailerLength(q: Request, rcode: nat, cap: uint16)
    requires rcode <= 4095
    ensures |TrailerFor(q, rcode, cap)| == if q.edns.Some? then 11 else 0
    ensures Trailer(q, rcode) == TrailerFor(q, rcode, UDP_CAP)
  {
  }

  lemma {:induction false} LaidOut(m: seq<byte>, h: seq<byte>, x: seq<byte>, a: seq<byte>, b: seq<byte>, t: seq<byte>)
    requires m == h + x + a + b + t
    ensures At(m, 0, h) && At(m, |h|, x) && At(m, |h| + |x|, a) && At(m, |h| + |x| + |a|, b) && At(m, |h| + |x| + |a| + |b|, t)
    ensures |m| == |h| + |x| + |a| + |b| + |t|
  {
  }

  lemma {:induction false} QuestionLength(q: Request)
    ensures |QuestionBytes(q)| == |q.name| + 4
  {
  }

  lemma {:induction false} BehindAt(c: Cursor, section: nat, rs: seq<Synth>)
    requires CursorOK(c) && section < 2 && Short(rs) && c.counts[section] == |rs| && c.section <= section
    ensures var d := Behind(c, section, rs);
      CursorOK(d) && d.off == c.off + |EncodeAll(rs)| && d.section <= section && d.counts == c.counts[section := 0] && d.edns == c.edns
  {
  }

  lemma {:induction false} KindCount(recs: seq<Record>, rs: seq<Synth>, section: nat)
    requires SameKinds(recs, rs, section)
    ensures |recs| == |rs|
  {
  }

  lemma {:induction false} BothSections(answers: seq<Synth>, authority: seq<Synth>)
    ensures Prepend(ANSWER, answers, Prepend(AUTHORITY, authority, Ok(Sections([], [])))) == Ok(Sections(answers, authority))
  {
    assert answers + [] == answers && authority + [] == authority;
  }

  // ---- negative answers ----

  const NS: seq<byte> := [2, 110, 115, 7, 105, 110, 118, 97, 108, 105, 100, 0]
  const HOSTMASTER: seq<byte> := [10, 104, 111, 115, 116, 109, 97, 115, 116, 101, 114, 7, 105, 110, 118, 97, 108, 105, 100, 0]

  /** A start of authority whose minimum is the negative lifetime. */
  function NegativeSOA(zone: seq<byte>, ttl: uint32): Synth {
    Synth(zone, SOA, ttl, NS + HOSTMASTER + (Be32(1) + Be32(3600) + Be32(600) + Be32(86400) + Be32(ttl)))
  }

  lemma {:induction false} FixedNames()
    ensures ValidWire(NS) && ValidWire(HOSTMASTER)
  {
    RootName();
    var invalid: seq<byte> := [7, 105, 110, 118, 97, 108, 105, 100, 0];
    assert invalid[8..] == [0];
    assert Labels(invalid);
    assert NS[3..] == invalid && HOSTMASTER[11..] == invalid;
  }

  /** The negative record is always well formed, also for the root, and its minimum is the given lifetime. */
  lemma {:induction false} NegativeSOAFits(zone: seq<byte>, ttl: uint32)
    requires ValidWire(zone)
    ensures WellFormed(NegativeSOA(zone, ttl))
    ensures var d := NegativeSOA(zone, ttl).data; U32(d, |d| - 4) == ttl
  {
    hide ValidWire, U32, Be32;
    FixedNames();
    var tail := Be32(1) + Be32(3600) + Be32(600) + Be32(86400) + Be32(ttl);
    var data := NegativeSOA(zone, ttl).data;
    var p := Parts([], [NS, HOSTMASTER], tail);
    assert Flat([HOSTMASTER]) == HOSTMASTER + Flat([HOSTMASTER][1..]) == HOSTMASTER;
    assert [NS, HOSTMASTER][1..] == [HOSTMASTER];
    assert Flat(p.names) == NS + HOSTMASTER;
    assert data == [] + Flat(p.names) + tail;
    assert PartsOK(SOA, data, p);
    assert At(data, |data| - 4, Be32(ttl));
    AtLong(data, |data| - 4, ttl);
  }
}
