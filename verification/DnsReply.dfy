/** Replies without data, with zero addresses or cut short (internal/dnswire/build.go, BuildReply). */
module DnsReply {
  import opened Common
  import opened WireBytes
  import opened DnsName
  import opened DnsRecords
  import opened DnsSynthetic

  // ---- windows of a buffer ----

  method PutBytes(dst: array<byte>, off: nat, s: seq<byte>)
    requires off + |s| <= dst.Length
    modifies dst
    ensures dst[..] == Put(old(dst[..]), off, s)
  {
    for i := 0 to |s|
      invariant forall k | 0 <= k < dst.Length :: dst[k] == if off <= k < off + i then s[k - off] else old(dst[k])
    {
      dst[off + i] := s[i];
    }
  }

  lemma {:induction false} PutAt(m: seq<byte>, off: nat, s: seq<byte>)
    requires off + |s| <= |m|
    ensures At(Put(m, off, s), off, s)
  {
    var r := Put(m, off, s);
    assert r[off..off + |s|] == s;
  }

  lemma {:induction false} PutElsewhere(m: seq<byte>, off: nat, s: seq<byte>, at: nat, t: seq<byte>)
    requires off + |s| <= |m| && At(m, at, t) && (at + |t| <= off || off + |s| <= at)
    ensures At(Put(m, off, s), at, t)
  {
    var r := Put(m, off, s);
    assert r[at..at + |t|] == m[at..at + |t|];
  }

  lemma {:induction false} AtJoin(m: seq<byte>, off: nat, a: seq<byte>, b: seq<byte>)
    requires At(m, off, a) && At(m, off + |a|, b)
    ensures At(m, off, a + b)
  {
    assert m[off..off + |a| + |b|] == m[off..off + |a|] + m[off + |a|..off + |a| + |b|];
  }

  lemma {:induction false} TwoPuts(m: seq<byte>, off: nat, a: seq<byte>, b: seq<byte>)
    requires off + |a| + |b| <= |m|
    ensures Put(Put(m, off, a), off + |a|, b) == Put(m, off, a + b)
  {
  }

  // ---- the specification ----

  /** What the caller asks for; zero wants a zero address for an address question. */
  datatype Reply = Reply(rcode: nat, zero: bool, ttl: uint32, recursion: bool, truncated: bool)

  predicate Refused(q: Request, rcode: nat) { |q.name| < 1 || |q.name| > 255 || rcode > 4095 || (rcode > 15 && q.edns.None?) }

  /** The length of the zero address in the answer, or nothing. */
  function ZeroLength(q: Request, reply: Reply): nat {
    if !reply.zero || reply.rcode != 0 || reply.truncated || q.rrClass != 1 then 0
    else if q.kind == 1 then 4
    else if q.kind == 28 then 16
    else 0
  }

  function Zeros(n: nat): (r: seq<byte>)
    ensures |r| == n && forall i | 0 <= i < n :: r[i] == 0
  {
    seq(n, _ => 0)
  }

  /** The answer's owner is a pointer to the question. */
  function ZeroAnswer(q: Request, reply: Reply): seq<byte> {
    var n := ZeroLength(q, reply);
    if n == 0 then [] else [0xC0, 0x0C] + EncodeFixed(q.kind, reply.ttl, n) + Zeros(n)
  }

  function FlagsFor(q: Request, reply: Reply): uint16 {
    0x8000 + q.flags / 0x800 % 16 * 0x800 + (if reply.truncated then 0x200 else 0) + q.flags / 0x100 % 2 * 0x100
    + (if reply.recursion then 0x80 else 0) + q.flags / 0x10 % 2 * 0x10 + reply.rcode % 16
  }

  function HeaderFor(q: Request, reply: Reply, answers: uint16): (r: seq<byte>)
    ensures |r| == 12
  {
    Be16(q.id) + Be16(FlagsFor(q, reply)) + Be16(1) + Be16(answers) + Be16(0) + Be16(if q.edns.Some? then 1 else 0)
  }

  function Built(q: Request, reply: Reply, cap: uint16): seq<byte>
    requires reply.rcode <= 4095
  {
    HeaderFor(q, reply, if ZeroLength(q, reply) > 0 then 1 else 0) + QuestionBytes(q) + ZeroAnswer(q, reply) + TrailerFor(q, reply.rcode, cap)
  }

  function BuiltSize(q: Request, reply: Reply): nat {
    16 + |q.name| + (if ZeroLength(q, reply) > 0 then 12 + ZeroLength(q, reply) else 0) + if q.edns.Some? then 11 else 0
  }

  lemma {:induction false} BuiltLength(q: Request, reply: Reply, cap: uint16)
    requires reply.rcode <= 4095
    ensures |Built(q, reply, cap)| == BuiltSize(q, reply)
  {
    hide EncodeFixed, HeaderFor, Opt;
    QuestionLength(q);
  }

  /** The cap on UDP sizes, kept within what the protocol allows. */
  function ServerCap(n: int): uint16 { if n < 512 then 512 else if n > 65535 then 65535 else n }

  // ---- the method ----

  /** Writes the reply into the buffer; nothing is written when it does not fit. */
  method BuildReply(dst: array<byte>, q: Request, reply: Reply, udpCap: int) returns (r: Result<nat>)
    modifies dst
    ensures Refused(q, reply.rcode) ==> r == Err(ErrRecord)
    ensures !Refused(q, reply.rcode) ==> r == if BuiltSize(q, reply) > dst.Length then Err(ErrBounds) else Ok(BuiltSize(q, reply))
    ensures r.Err? ==> dst[..] == old(dst[..])
    ensures r.Ok? ==>
      reply.rcode <= 4095 && |Built(q, reply, ServerCap(udpCap))| == r.value <= dst.Length && dst[..] == Put(old(dst[..]), 0, Built(q, reply, ServerCap(udpCap)))
  {
    hide EncodeFixed, HeaderFor, Opt, Put, QuestionBytes, ZeroAnswer, Zeros, Be16;
    if Refused(q, reply.rcode) {
      return Err(ErrRecord);
    }
    var end := 12 + |q.name| + 4;
    var size, data := end, 0;
    if reply.zero && reply.rcode == 0 && !reply.truncated && q.rrClass == 1 {
      if q.kind == 1 {
        data := 4;
      } else if q.kind == 28 {
        data := 16;
      }
    }
    if data > 0 {
      size := size + 12 + data;
    }
    if q.edns.Some? {
      size := size + 11;
    }
    if dst.Length < size {
      return Err(ErrBounds);
    }
    ghost var m, cap := dst[..], ServerCap(udpCap);
    ghost var h, x, z := HeaderFor(q, reply, if data > 0 then 1 else 0), QuestionBytes(q), ZeroAnswer(q, reply);
    BuiltLength(q, reply, cap);
    QuestionLength(q);
    assert |z| == if data > 0 then 12 + data else 0 by { ZeroSize(q, reply); }
    PutBytes(dst, 0, HeaderFor(q, reply, if data > 0 then 1 else 0));
    PutBytes(dst, 12, QuestionBytes(q));
    TwoPuts(m, 0, h, x);
    var off := end;
    if data > 0 {
      PutBytes(dst, off, ZeroAnswer(q, reply));
      off := off + 12 + data;
      TwoPuts(m, 0, h + x, z);
    } else {
      assert h + x + z == h + x;
    }
    if q.edns.Some? {
      PutBytes(dst, off, Opt(ServerCap(udpCap), reply.rcode, q.edns.value));
      TwoPuts(m, 0, h + x + z, Opt(cap, reply.rcode, q.edns.value));
    } else {
      assert h + x + z + [] == h + x + z;
    }
    return Ok(size);
  }

  lemma {:induction false} ZeroSize(q: Request, reply: Reply)
    ensures |ZeroAnswer(q, reply)| == if ZeroLength(q, reply) > 0 then 12 + ZeroLength(q, reply) else 0
  {
    hide EncodeFixed;
  }

  // ---- reading it back ----

  /** The owner of the answer is the question's name, read through the pointer. */
  lemma {:induction false} PointerReads(m: seq<byte>, q: Request, off: nat)
    requires ValidWire(q.name) && At(m, 12, q.name) && At(m, off, [0xC0, 0x0C]) && off == 16 + |q.name| && |m| <= MAX_MESSAGE
    ensures Decode(m, off) == Ok(Name(q.name, off + 2, true))
    ensures CheckedName(m, off, None) == Ok(Checked(Name(q.name, off + 2, true), None))
  {
    assert m[off] == m[off..off + 2][0] == 0xC0 && m[off + 1] == m[off..off + 2][1] == 0x0C;
    assert Target(m, off) == 12;
    PlainWalk(m, 12, q.name, [off], 0);
    hide Walk;
    WalkPointer(m, off, [], 0);
    assert [] + [off] == [off];
  }

  /** What the answer reads as. */
  function ZeroRecord(q: Request, reply: Reply): Synth { Synth(q.name, q.kind, reply.ttl, Zeros(ZeroLength(q, reply))) }

  lemma {:induction false} ZeroFields(m: seq<byte>, q: Request, reply: Reply, off: nat)
    requires ZeroLength(q, reply) > 0 && At(m, off, ZeroAnswer(q, reply)) && |m| <= MAX_MESSAGE
    ensures var n := ZeroLength(q, reply);
      && off + 12 + n <= |m| && At(m, off, [0xC0, 0x0C]) && At(m, off + 12, Zeros(n)) && At(m, off + 2, EncodeFixed(q.kind, reply.ttl, n))
  {
    hide At, EncodeFixed, Zeros;
    var n := ZeroLength(q, reply);
    var p: seq<byte> := [0xC0, 0x0C];
    AtSplit(m, off, p + EncodeFixed(q.kind, reply.ttl, n), Zeros(n));
    AtSplit(m, off, p, EncodeFixed(q.kind, reply.ttl, n));
    AtBounds(m, off + 12, Zeros(n));
  }

  /** The answer is the next record and reads back as a zero address under the question's name. */
  lemma {:induction false} ZeroScans(m: seq<byte>, c: Cursor, q: Request, reply: Reply)
    requires ValidWire(q.name) && ZeroLength(q, reply) > 0 && At(m, 12, q.name) && |m| <= MAX_MESSAGE
    requires CursorOK(c) && c.off == 16 + |q.name| && c.section == 0 && c.counts[0] == 1 && At(m, c.off, ZeroAnswer(q, reply))
    ensures var n := Next(m, c, None);
      && n.Got? && n.names == None && n.cursor == Cursor(c.off + 12 + ZeroLength(q, reply), 0, c.counts[0 := 0], c.edns)
      && n.record.kind == q.kind && n.record.rrClass == 1 && n.record.section == ANSWER && n.record.ttl == reply.ttl
      && n.record.owner == Name(q.name, c.off + 2, true)
      && Reencode(m, n.record) == Ok(ZeroRecord(q, reply))
  {
    hide At, ValidWire, U16, U32, EncodeFixed, CheckedName, Decode, ZeroAnswer, ReadData, CopyNames;
    ZeroFields(m, q, reply, c.off);
    var n := ZeroLength(q, reply);
    PointerReads(m, q, c.off);
    AtFixed(m, c.off + 2, q.kind, reply.ttl, n);
    ZeroData(m, q.kind, c.off + 12, n);
    AtBounds(m, c.off + 12, Zeros(n));
    assert Skip(0, c.counts) == 0;
  }

  lemma {:induction false} ZeroData(m: seq<byte>, kind: uint16, off: nat, n: nat)
    requires At(m, off, Zeros(n)) && ((kind == 1 && n == 4) || (kind == 28 && n == 16))
    ensures off + n <= |m| && ReadData(m, kind, off, off + n, None) == Ok(Embedded([], None, off + n))
  {
    hide Zeros;
  }

  lemma {:induction false} HeaderReads(m: seq<byte>, q: Request, reply: Reply, answers: uint16)
    requires At(m, 0, HeaderFor(q, reply, answers))
    ensures |m| >= 12 && U16(m, 0) == q.id && U16(m, 2) == FlagsFor(q, reply)
    ensures U16(m, 4) == 1 && U16(m, 6) == answers && U16(m, 8) == 0 && U16(m, 10) == if q.edns.Some? then 1 else 0
  {
    hide FlagsFor;
    var h := HeaderFor(q, reply, answers);
    var s := m[0..12];
    assert forall i | 0 <= i < 12 :: s[i] == h[i] == m[i];
  }

  lemma {:induction false} BuiltParts(q: Request, reply: Reply, cap: uint16)
    requires reply.rcode <= 4095
    ensures var m := Built(q, reply, cap);
      && At(m, 0, HeaderFor(q, reply, if ZeroLength(q, reply) > 0 then 1 else 0)) && At(m, 12, QuestionBytes(q)) && At(m, 12, q.name)
      && At(m, 16 + |q.name|, ZeroAnswer(q, reply)) && At(m, 16 + |q.name| + |ZeroAnswer(q, reply)|, TrailerFor(q, reply.rcode, cap))
  {
    var h, x, z, t := HeaderFor(q, reply, if ZeroLength(q, reply) > 0 then 1 else 0), QuestionBytes(q), ZeroAnswer(q, reply), TrailerFor(q, reply.rcode, cap);
    hide At, ZeroAnswer, TrailerFor, HeaderFor, Be16;
    QuestionLength(q);
    var m := Built(q, reply, cap);
    LaidOut(m, h, x, z, [], t);
    assert x == q.name + (Be16(q.kind) + Be16(q.rrClass));
    AtSplit(m, 12, q.name, Be16(q.kind) + Be16(q.rrClass));
  }

  /** The records of a built reply: the zero address, if it has one, and then the OPT, if the request had one. */
  ghost predicate ReadsAs(m: seq<byte>, q: Request, reply: Reply, cap: uint16) {
    var s := ScanMessage(m);
    && s.Ok? && s.value.question.name.wire == q.name && s.value.question.kind == q.kind && s.value.question.rrClass == q.rrClass
    && SyntheticSections(m) == Ok(Sections(if ZeroLength(q, reply) > 0 then [ZeroRecord(q, reply)] else [], []))
    && |s.value.scan.records| == (if ZeroLength(q, reply) > 0 then 1 else 0) + (if q.edns.Some? then 1 else 0)
    && (if q.edns.Some? then OptIs(s.value.scan.edns, cap, reply.rcode, q.edns.value) else s.value.scan.edns == None)
  }

  lemma {:induction false} FlagsForRead(q: Request, reply: Reply)
    ensures ReplyBits(q.flags, reply.rcode, false, reply.truncated, reply.recursion, FlagsFor(q, reply))
  {
    WordReads(q.flags / 0x800 % 16, 0, Bit(reply.truncated), q.flags / 0x100 % 2, Bit(reply.recursion), q.flags / 0x10 % 2, reply.rcode % 16);
    ReplyWord(q, reply);
    hide FlagsFor, Word;
  }

  lemma {:induction false} ReplyWord(q: Request, reply: Reply)
    ensures FlagsFor(q, reply) ==
      Word(q.flags / 0x800 % 16, 0, Bit(reply.truncated), q.flags / 0x100 % 2, Bit(reply.recursion), q.flags / 0x10 % 2, reply.rcode % 16)
  {
  }

  /**
   A built reply scans cleanly. It carries the request's ID, opcode, RD and CD and the truncation and recursion bits
   asked for, repeats the question, answers with a zero address exactly when one was asked for and fits the
   question, and ends in one OPT if the request had one.
   */
  lemma {:induction false} ReplyReads(q: Request, reply: Reply, cap: uint16)
    requires !Refused(q, reply.rcode) && ValidWire(q.name)
    ensures var m := Built(q, reply, cap);
      && |m| >= 12 && U16(m, 0) == q.id && ReplyBits(q.flags, reply.rcode, false, reply.truncated, reply.recursion, U16(m, 2)) && ReadsAs(m, q, reply, cap)
  {
    FlagsForRead(q, reply);
    hide At, ValidWire, U16, HeaderFor, FlagsFor, ReplyBits, QuestionBytes, ZeroAnswer, ParseQuestion, TrailerFor, SectionsFrom, ScanFrom;
    var m, n := Built(q, reply, cap), ZeroLength(q, reply);
    BuiltLength(q, reply, cap);
    BuiltParts(q, reply, cap);
    HeaderReads(m, q, reply, if n > 0 then 1 else 0);
    QuestionAt(m, q);
    var c := Start(m, ParseQuestion(m).value);
    ZeroSize(q, reply);
    TrailerLength(q, reply.rcode, cap);
    if n > 0 {
      ZeroScans(m, c, q, reply);
      var next := Next(m, c, None);
      hide Next, ZeroLength;
      assert next.cursor.counts == [0, 0, if q.edns.Some? then 1 else 0];
      var rest := TrailerScans(m, next.cursor, q, reply.rcode, cap);
      OneBefore(m, c, q, reply);
    } else {
      var rest := TrailerScans(m, c, q, reply.rcode, cap);
    }
  }

  lemma {:induction false} OneBefore(m: seq<byte>, c: Cursor, q: Request, reply: Reply)
    requires CursorOK(c) && Next(m, c, None).Got? && CursorOK(Next(m, c, None).cursor)
    requires var n := Next(m, c, None);
      && n.names == None && n.record.kind in {1, 28} && n.record.rrClass == 1 && n.record.section == ANSWER
      && Reencode(m, n.record) == Ok(ZeroRecord(q, reply))
      && SectionsFrom(m, n.cursor) == Ok(Sections([], [])) && ScanFrom(m, n.cursor, None).Ok?
    ensures SectionsFrom(m, c) == Ok(Sections([ZeroRecord(q, reply)], []))
    ensures var rest := ScanFrom(m, Next(m, c, None).cursor, None).value;
      ScanFrom(m, c, None) == Ok(rest.(records := [Next(m, c, None).record] + rest.records))
  {
    hide Next, Reencode, ZeroRecord;
    NextOK(m, c);
    var n := Next(m, c, None);
    assert n == Got(n.record, n.cursor, None) && !Skipped(n.record);
    assert [ZeroRecord(q, reply)] + [] == [ZeroRecord(q, reply)];
  }
}
