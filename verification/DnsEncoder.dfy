/** The synthetic encoder as it runs: writes into the caller's buffer (internal/dnswire/synthetic.go, build.go). */
module DnsEncoder {
  import opened Common
  import opened WireBytes
  import opened DnsName
  import opened DnsRecords
  import opened DnsScanner
  import opened DnsSynthetic
  import opened DnsReply

  // ---- sizes ----

  function Total(rs: seq<Synth>): nat { if rs == [] then 0 else Total(rs[..|rs| - 1]) + |rs[|rs| - 1].name| + 10 + |rs[|rs| - 1].data| }

  lemma {:induction false} TotalBounds(rs: seq<Synth>)
    ensures Total(rs) >= 10 * |rs| && forall i | 0 <= i < |rs| :: |rs[i].data| <= Total(rs)
  {
    if rs != [] {
      TotalBounds(rs[..|rs| - 1]);
      assert forall i | 0 <= i < |rs| - 1 :: rs[..|rs| - 1][i] == rs[i];
    }
  }

  lemma {:induction false} EncodeLast(rs: seq<Synth>, r: Synth)
    requires Short(rs) && |r.data| <= 65535
    ensures Short(rs + [r]) && EncodeAll(rs + [r]) == EncodeAll(rs) + EncodeRecord(r)
  {
    hide EncodeRecord;
    if rs == [] {
      assert rs + [r] == [r] && [r][1..] == [];
    } else {
      EncodeLast(rs[1..], r);
      assert (rs + [r])[1..] == rs[1..] + [r] && (rs + [r])[0] == rs[0];
    }
  }

  lemma {:induction false} EncodeTotal(rs: seq<Synth>)
    requires Short(rs)
    ensures |EncodeAll(rs)| == Total(rs)
  {
    hide EncodeRecord;
    if rs != [] {
      var n := |rs| - 1;
      EncodeTotal(rs[..n]);
      EncodeLast(rs[..n], rs[n]);
      assert rs[..n] + [rs[n]] == rs;
    }
  }

  // ---- pieces ----

  /** Header, question and OPT of a reply without records. */
  function Bare(rcode: nat): Reply { Reply(rcode, false, 0, true, false) }

  /** Where the parts of the bare reply stand. */
  lemma {:induction false} BareParts(m: seq<byte>, q: Request, rcode: nat)
    requires !Refused(q, rcode) && BuiltSize(q, Bare(rcode)) <= |m|
    ensures BuiltSize(q, Bare(rcode)) == 16 + |q.name| + |Trailer(q, rcode)|
    ensures var d := Put(m, 0, Built(q, Bare(rcode), UDP_CAP));
      At(d, 0, Header(q, rcode, false, 0, 0)) && At(d, 12, QuestionBytes(q)) && At(d, 16 + |q.name|, Trailer(q, rcode))
  {
    SameHeader(q, rcode);
    hide At, Header, QuestionBytes, TrailerFor, Put, HeaderFor;
    QuestionLength(q);
    var b := Built(q, Bare(rcode), UDP_CAP);
    var h, x, t := Header(q, rcode, false, 0, 0), QuestionBytes(q), TrailerFor(q, rcode, UDP_CAP);
    assert b == h + x + t;
    BuiltLength(q, Bare(rcode), UDP_CAP);
    PutAt(m, 0, b);
    AtSplit(Put(m, 0, b), 0, h + x, t);
    AtSplit(Put(m, 0, b), 0, h, x);
  }

  lemma {:induction false} SameHeader(q: Request, rcode: nat)
    requires rcode <= 4095
    ensures HeaderFor(q, Bare(rcode), 0) == Header(q, rcode, false, 0, 0)
  {
  }

  lemma {:induction false} RestSame(a: seq<byte>, b: seq<byte>, n: nat)
    requires |a| == |b| && n <= |a| && forall i | n <= i < |a| :: a[i] == b[i]
    ensures a[n..] == b[n..]
  {
  }

  method WriteRecord(dst: array<byte>, start: nat, r: Synth) returns (off: nat)
    requires |r.data| <= 65535 && start + |r.name| + 10 + |r.data| <= dst.Length
    modifies dst
    ensures off == start + |EncodeRecord(r)| && dst[..] == Put(old(dst[..]), start, EncodeRecord(r))
  {
    hide EncodeFixed;
    off := start;
    PutBytes(dst, off, r.name);
    off := off + |r.name|;
    PutBytes(dst, off, EncodeFixed(r.kind, r.ttl, |r.data|));
    off := off + 10;
    PutBytes(dst, off, r.data);
    off := off + |r.data|;
    ghost var e := EncodeRecord(r);
    ghost var m := old(dst[..]);
    assert dst[..] == Put(m, start, e) by { ThreePuts(m, start, r.name, EncodeFixed(r.kind, r.ttl, |r.data|), r.data); }
  }

  lemma {:induction false} ThreePuts(m: seq<byte>, off: nat, a: seq<byte>, b: seq<byte>, c: seq<byte>)
    requires off + |a| + |b| + |c| <= |m|
    ensures Put(Put(Put(m, off, a), off + |a|, b), off + |a| + |b|, c) == Put(m, off, a + b + c)
  {
  }

  /** Writes the records of one section one behind the other. */
  method WriteRecords(dst: array<byte>, start: nat, rs: seq<Synth>) returns (off: nat)
    requires Short(rs) && start + Total(rs) <= dst.Length
    modifies dst
    ensures off == start + |EncodeAll(rs)| && off == start + Total(rs) && dst[..] == Put(old(dst[..]), start, EncodeAll(rs))
  {
    hide EncodeRecord, EncodeAll, Total, Put;
    off := start;
    ghost var m := dst[..];
    NothingEncoded(m, start, rs);
    for i := 0 to |rs|
      invariant Short(rs[..i]) && off == start + |EncodeAll(rs[..i])| && |EncodeAll(rs[..i])| == Total(rs[..i]) <= Total(rs)
      invariant dst[..] == Put(m, start, EncodeAll(rs[..i]))
    {
      EncodeStep(rs, i);
      off := WriteRecord(dst, off, rs[i]);
      TwoPuts(m, start, EncodeAll(rs[..i]), EncodeRecord(rs[i]));
    }
    assert rs[..|rs|] == rs;
  }

  lemma {:induction false} NothingEncoded(m: seq<byte>, start: nat, rs: seq<Synth>)
    requires start <= |m|
    ensures Short(rs[..0]) && EncodeAll(rs[..0]) == [] && Total(rs[..0]) == 0 <= Total(rs) && Put(m, start, []) == m
  {
  }

  /** One more record. */
  lemma {:induction false} EncodeStep(rs: seq<Synth>, i: nat)
    requires Short(rs) && i < |rs|
    ensures Short(rs[..i]) && Short(rs[..i + 1]) && EncodeAll(rs[..i + 1]) == EncodeAll(rs[..i]) + EncodeRecord(rs[i])
    ensures |EncodeAll(rs[..i + 1])| == Total(rs[..i + 1]) <= Total(rs)
  {
    hide EncodeRecord, Total;
    EncodeLast(rs[..i], rs[i]);
    assert rs[..i] + [rs[i]] == rs[..i + 1];
    EncodeTotal(rs[..i + 1]);
    PrefixTotal(rs, i + 1);
  }

  lemma {:induction false} PrefixTotal(rs: seq<Synth>, n: nat)
    requires n <= |rs|
    ensures Total(rs[..n]) <= Total(rs)
    decreases |rs| - n
  {
    if n < |rs| {
      PrefixTotal(rs, n + 1);
      assert rs[..n + 1][..n] == rs[..n];
    } else {
      assert rs[..n] == rs;
    }
  }

  // ---- the reply ----

  function Size(q: Request, answers: seq<Synth>, authority: seq<Synth>): nat {
    16 + |q.name| + (if q.edns.Some? then 11 else 0) + Total(answers) + Total(authority)
  }

  /** Header, question and trailer are where a reply of this size has them. */
  ghost predicate Frame(m: seq<byte>, head: seq<byte>, q: Request, rcode: nat, size: nat)
    requires rcode <= 4095
  {
    |head| == 12 && At(m, 0, head) && At(m, 12, QuestionBytes(q)) && |Trailer(q, rcode)| <= size && At(m, size - |Trailer(q, rcode)|, Trailer(q, rcode))
  }

  lemma {:induction false} FrameStays(m: seq<byte>, head: seq<byte>, q: Request, rcode: nat, size: nat, off: nat, s: seq<byte>)
    requires rcode <= 4095 && Frame(m, head, q, rcode, size) && 12 + |QuestionBytes(q)| <= off && off + |s| + |Trailer(q, rcode)| <= size <= |m|
    ensures Frame(Put(m, off, s), head, q, rcode, size)
  {
    hide At, Put, QuestionBytes, Trailer;
    PutElsewhere(m, off, s, 0, head);
    PutElsewhere(m, off, s, 12, QuestionBytes(q));
    PutElsewhere(m, off, s, size - |Trailer(q, rcode)|, Trailer(q, rcode));
  }

  /** The OPT moves to the end of the finished reply. */
  method MoveTrailer(dst: array<byte>, q: Request, rcode: nat, size: nat)
    requires rcode <= 4095 && 16 + |q.name| + |Trailer(q, rcode)| <= size <= dst.Length
    requires At(dst[..], 0, Header(q, rcode, false, 0, 0)) && At(dst[..], 12, QuestionBytes(q)) && At(dst[..], 16 + |q.name|, Trailer(q, rcode))
    modifies dst
    ensures Frame(dst[..], Header(q, rcode, false, 0, 0), q, rcode, size) && forall i | size <= i < dst.Length :: dst[i] == old(dst[i])
  {
    hide At, Header, QuestionBytes, Opt, Put;
    QuestionLength(q);
    var off := 16 + |q.name|;
    ghost var m, head := dst[..], Header(q, rcode, false, 0, 0);
    if q.edns.Some? {
      var opt := dst[off..off + 11];
      AtBounds(m, off, Opt(UDP_CAP, rcode, q.edns.value));
      PutBytes(dst, size - 11, opt);
      PutElsewhere(m, size - 11, opt, 0, head);
      PutElsewhere(m, size - 11, opt, 12, QuestionBytes(q));
      PutAt(m, size - 11, opt);
    } else {
      EmptyAt(m, size);
    }
  }

  lemma {:induction false} EmptyAt(m: seq<byte>, off: nat)
    requires off <= |m|
    ensures At(m, off, [])
  {
  }

  /** Writes the counts and, if asked, the authoritative bit into the header. */
  method PatchHeader(dst: array<byte>, q: Request, rcode: nat, authoritative: bool, answers: uint16, authority: uint16)
    requires rcode <= 4095 && dst.Length >= 12 && At(dst[..], 0, Header(q, rcode, false, 0, 0))
    modifies dst
    ensures dst[..] == Put(old(dst[..]), 0, Header(q, rcode, authoritative, answers, authority))
  {
    hide ReplyFlags, Put;
    ghost var m := dst[..];
    AtBounds(m, 0, Header(q, rcode, false, 0, 0));
    PutBytes(dst, 6, Be16(answers));
    PutBytes(dst, 8, Be16(authority));
    if authoritative {
      PutBytes(dst, 2, Be16(ReplyFlags(q.flags, rcode, true)));
    }
    HeaderWords(m, q, rcode, authoritative, answers, authority);
  }

  lemma {:induction false} HeaderWords(m: seq<byte>, q: Request, rcode: nat, authoritative: bool, answers: uint16, authority: uint16)
    requires rcode <= 4095 && |m| >= 12 && m[0..12] == Header(q, rcode, false, 0, 0)
    ensures var p := Put(Put(m, 6, Be16(answers)), 8, Be16(authority));
      Put(m, 0, Header(q, rcode, authoritative, answers, authority)) ==
      if authoritative then Put(p, 2, Be16(ReplyFlags(q.flags, rcode, true))) else p
  {
    hide ReplyFlags, Be16;
    var h, h0 := Header(q, rcode, authoritative, answers, authority), Header(q, rcode, false, 0, 0);
    var f := Be16(ReplyFlags(q.flags, rcode, authoritative));
    HeaderBytes(q, rcode, authoritative, answers, authority);
    HeaderBytes(q, rcode, false, 0, 0);
    hide Header;
    assert forall i | 0 <= i < 12 :: m[i] == m[0..12][i] == h0[i];
  }

  lemma {:induction false} HeaderBytes(q: Request, rcode: nat, authoritative: bool, answers: uint16, authority: uint16)
    requires rcode <= 4095
    ensures var h := Header(q, rcode, authoritative, answers, authority);
      && h[0] == Be16(q.id)[0] && h[1] == Be16(q.id)[1]
      && h[2] == Be16(ReplyFlags(q.flags, rcode, authoritative))[0] && h[3] == Be16(ReplyFlags(q.flags, rcode, authoritative))[1]
      && h[4] == Be16(1)[0] && h[5] == Be16(1)[1] && h[6] == Be16(answers)[0] && h[7] == Be16(answers)[1]
      && h[8] == Be16(authority)[0] && h[9] == Be16(authority)[1]
      && h[10] == Be16(if q.edns.Some? then 1 else 0)[0] && h[11] == Be16(if q.edns.Some? then 1 else 0)[1]
  {
    hide ReplyFlags, Be16;
  }

  /** Builds the reply in place: the records go between the question and the OPT, which moves to the end. */
  method BuildSynthetic(dst: array<byte>, q: Request, rcode: nat, authoritative: bool, answers: seq<Synth>, authority: seq<Synth>) returns (r: Result<nat>)
    modifies dst
    ensures Refused(q, rcode) ==> r == Err(ErrRecord)
    ensures !Refused(q, rcode) ==>
      r == if Size(q, answers, authority) > dst.Length || Size(q, answers, authority) > MAX_MESSAGE then Err(ErrBounds) else Ok(Size(q, answers, authority))
    ensures r.Ok? ==>
      && rcode <= 4095 && Short(answers) && Short(authority) && |answers| <= 65535 && |authority| <= 65535 && r.value <= dst.Length
      && dst[..r.value] == Build(q, rcode, authoritative, answers, authority) && dst[r.value..] == old(dst[r.value..])
  {
    hide At, Header, QuestionBytes, Opt, Put, EncodeAll, Trailer, Total;
    ghost var m0 := dst[..];
    var reply := BuildReply(dst, q, Bare(rcode), UDP_CAP);
    if reply.Err? {
      return reply;
    }
    BareParts(m0, q, rcode);
    TrailerLength(q, rcode, UDP_CAP);
    var size := reply.value + Total(answers) + Total(authority);
    if size > dst.Length || size > MAX_MESSAGE {
      return Err(ErrBounds);
    }
    TotalBounds(answers);
    TotalBounds(authority);
    ghost var m := dst[..];
    FillReply(dst, q, rcode, authoritative, answers, authority, size);
    RestSame(old(dst[..]), dst[..], size);
    return Ok(size);
  }

  method FillReply(dst: array<byte>, q: Request, rcode: nat, authoritative: bool, answers: seq<Synth>, authority: seq<Synth>, size: nat)
    requires rcode <= 4095 && size == 16 + |q.name| + |Trailer(q, rcode)| + Total(answers) + Total(authority) <= dst.Length
    requires Short(answers) && Short(authority) && |answers| <= 65535 && |authority| <= 65535
    requires At(dst[..], 0, Header(q, rcode, false, 0, 0)) && At(dst[..], 12, QuestionBytes(q)) && At(dst[..], 16 + |q.name|, Trailer(q, rcode))
    modifies dst
    ensures dst[..size] == Build(q, rcode, authoritative, answers, authority) && forall i | size <= i < dst.Length :: dst[i] == old(dst[i])
  {
    hide At, Header, QuestionBytes, Opt, Put, EncodeAll, Trailer, Total, Frame;
    QuestionLength(q);
    EncodeTotal(answers);
    EncodeTotal(authority);
    var start := 16 + |q.name|;
    ghost var head := Header(q, rcode, false, 0, 0);
    MoveTrailer(dst, q, rcode, size);
    ghost var m1 := dst[..];
    var off := WriteRecords(dst, start, answers);
    FrameStays(m1, head, q, rcode, size, start, EncodeAll(answers));
    PutAt(m1, start, EncodeAll(answers));
    ghost var m2 := dst[..];
    off := WriteRecords(dst, off, authority);
    FrameStays(m2, head, q, rcode, size, start + Total(answers), EncodeAll(authority));
    PutElsewhere(m2, start + Total(answers), EncodeAll(authority), start, EncodeAll(answers));
    PutAt(m2, start + Total(answers), EncodeAll(authority));
    ghost var m3 := dst[..];
    FrameHead(m3, head, q, rcode, size);
    PatchHeader(dst, q, rcode, authoritative, |answers|, |authority|);
    Assembled(m3, head, q, rcode, authoritative, answers, authority, size);
  }

  lemma {:induction false} FrameHead(m: seq<byte>, head: seq<byte>, q: Request, rcode: nat, size: nat)
    requires rcode <= 4095 && Frame(m, head, q, rcode, size)
    ensures At(m, 0, head)
  {
  }

  /** All pieces are in place, one behind the other. */
  lemma {:induction false} Assembled(m: seq<byte>, before: seq<byte>, q: Request, rcode: nat, authoritative: bool, answers: seq<Synth>, authority: seq<Synth>, size: nat)
    requires rcode <= 4095 && Short(answers) && Short(authority) && |answers| <= 65535 && |authority| <= 65535 && Frame(m, before, q, rcode, size)
    requires size == 16 + |q.name| + |Trailer(q, rcode)| + |EncodeAll(answers)| + |EncodeAll(authority)| <= |m|
    requires At(m, 16 + |q.name|, EncodeAll(answers)) && At(m, 16 + |q.name| + |EncodeAll(answers)|, EncodeAll(authority))
    ensures Put(m, 0, Header(q, rcode, authoritative, |answers|, |authority|))[..size] == Build(q, rcode, authoritative, answers, authority)
  {
    hide At, Header, QuestionBytes, Put, EncodeAll, Trailer;
    QuestionLength(q);
    var head := Header(q, rcode, authoritative, |answers|, |authority|);
    var x, a, b, t := QuestionBytes(q), EncodeAll(answers), EncodeAll(authority), Trailer(q, rcode);
    var m4 := Put(m, 0, head);
    PutAt(m, 0, head);
    PutElsewhere(m, 0, head, 12, x);
    PutElsewhere(m, 0, head, 12 + |x|, a);
    PutElsewhere(m, 0, head, 12 + |x| + |a|, b);
    PutElsewhere(m, 0, head, 12 + |x| + |a| + |b|, t);
    PiecesJoin(m4, head, x, a, b, t);
    Whole(m4, head + x + a + b + t);
  }

  lemma {:induction false} PiecesJoin(m: seq<byte>, h: seq<byte>, x: seq<byte>, a: seq<byte>, b: seq<byte>, t: seq<byte>)
    requires At(m, 0, h) && At(m, |h|, x) && At(m, |h| + |x|, a) && At(m, |h| + |x| + |a|, b) && At(m, |h| + |x| + |a| + |b|, t)
    ensures At(m, 0, h + x + a + b + t)
  {
    hide At;
    AtJoin(m, 0, h, x);
    AtJoin(m, 0, h + x, a);
    AtJoin(m, 0, h + x + a, b);
    AtJoin(m, 0, h + x + a + b, t);
  }

  lemma {:induction false} Whole(m: seq<byte>, s: seq<byte>)
    requires At(m, 0, s)
    ensures |s| <= |m| && m[..|s|] == s
  {
  }

  // ---- reading sections back ----

  function CopiedAfter(before: seq<byte>, r: Result<(seq<byte>, nat)>): Result<(seq<byte>, nat)> {
    if r.Err? then r else Ok((before + r.value.0, r.value.1))
  }

  /** Copies the names of a record's data without compression. */
  method CopyAllNames(msg: seq<byte>, start: nat, count: nat) returns (r: Result<(seq<byte>, nat)>)
    ensures r == CopyNames(msg, start, count)
  {
    hide Decode;
    var data: seq<byte>, off: nat := [], start;
    CopiedNothing(CopyNames(msg, start, count));
    for i := 0 to count
      invariant CopyNames(msg, start, count) == CopiedAfter(data, CopyNames(msg, off, count - i))
    {
      var name, canonical := DecodeName(msg, off);
      if name.Err? {
        return Err(name.error);
      }
      CopiedMore(data, name.value.wire, CopyNames(msg, name.value.end, count - i - 1));
      data, off := data + name.value.wire, name.value.end;
    }
    assert data + [] == data;
    return Ok((data, off));
  }

  lemma {:induction false} CopiedNothing(r: Result<(seq<byte>, nat)>)
    ensures CopiedAfter([], r) == r
  {
    if r.Ok? {
      assert [] + r.value.0 == r.value.0;
    }
  }

  lemma {:induction false} CopiedMore(before: seq<byte>, one: seq<byte>, r: Result<(seq<byte>, nat)>)
    ensures CopiedAfter(before, CopiedAfter(one, r)) == CopiedAfter(before + one, r)
  {
    if r.Ok? {
      assert before + (one + r.value.0) == before + one + r.value.0;
    }
  }

  method ReencodeRecord(msg: seq<byte>, r: Record) returns (s: Result<Synth>)
    ensures s == Reencode(msg, r)
  {
    hide CopyNames, CopyOf;
    var copy := CopyOf(r.kind);
    if copy.Foreign? {
      return Err(ErrUnsupported);
    } else if copy.Whole? {
      return Ok(Synth(r.owner.wire, r.kind, r.ttl, Slice(msg, r.data, r.end)));
    }
    var data := Slice(msg, r.data, r.data + copy.prefix);
    var names := CopyAllNames(msg, r.data + copy.prefix, copy.count);
    if names.Err? {
      return Err(names.error);
    }
    data := data + names.value.0 + Slice(msg, names.value.1, names.value.1 + copy.tail);
    return Ok(Synth(r.owner.wire, r.kind, r.ttl, data));
  }

  function Joined(a: seq<Synth>, b: seq<Synth>, r: Result<Sections>): Result<Sections> {
    if r.Err? then r else Ok(Sections(a + r.value.answers, b + r.value.authority))
  }

  lemma {:induction false} JoinedMore(a: seq<Synth>, b: seq<Synth>, section: nat, s: Synth, r: Result<Sections>)
    ensures Joined(a, b, if r.Err? then r else Ok(Put1(r.value, section, s))) ==
      if section == ANSWER then Joined(a + [s], b, r) else Joined(a, b + [s], r)
    ensures Joined([], [], r) == r
  {
    if r.Ok? {
      assert a + ([s] + r.value.answers) == a + [s] + r.value.answers && b + ([s] + r.value.authority) == b + [s] + r.value.authority;
      assert [] + r.value.answers == r.value.answers && [] + r.value.authority == r.value.authority;
    }
  }

  /** The scanner loop that collects answer and authority records. */
  method CollectSections(msg: seq<byte>) returns (r: Result<Sections>)
    ensures r == SyntheticSections(msg)
  {
    hide Next, SectionsFrom, Reencode, Left, ParseQuestion, Start;
    var s := new Scanner();
    var ok := s.Init(msg);
    if !ok {
      return Err(s.err.value);
    }
    var answers: seq<Synth>, authority: seq<Synth> := [], [];
    JoinedMore([], [], 0, Synth([], 0, 0, []), SectionsFrom(msg, s.At()));
    while true
      invariant s.Valid() && s.msg == msg && s.err.None?
      invariant SyntheticSections(msg) == Joined(answers, authority, SectionsFrom(msg, s.At()))
      decreases Left(s.At())
    {
      ghost var c := s.At();
      SectionsStep(msg, c);
      var record := s.NextRecord(null);
      if record.None? {
        if s.err.Some? {
          return Err(s.err.value);
        }
        assert answers + [] == answers && authority + [] == authority;
        return Ok(Sections(answers, authority));
      }
      var rr := record.value;
      if rr.section == ADDITIONAL || rr.kind in {46, 47, 50} {
        continue;
      }
      if rr.rrClass != 1 {
        return Err(ErrUnsupported);
      }
      var one := ReencodeRecord(msg, rr);
      if one.Err? {
        return Err(one.error);
      }
      JoinedMore(answers, authority, rr.section, one.value, SectionsFrom(msg, s.At()));
      if rr.section == ANSWER {
        answers := answers + [one.value];
      } else {
        authority := authority + [one.value];
      }
    }
  }

  /** One step of the collection. */
  lemma {:induction false} SectionsStep(msg: seq<byte>, c: Cursor)
    requires CursorOK(c)
    ensures var n := Next(msg, c, None);
      && (n.Got? ==> CursorOK(n.cursor) && Left(n.cursor) < Left(c) && n.names == None)
      && SectionsFrom(msg, c) ==
         if n.Done? then Ok(Sections([], []))
         else if n.Fail? then Err(n.error)
         else if Skipped(n.record) then SectionsFrom(msg, n.cursor)
         else if n.record.rrClass != 1 then Err(ErrUnsupported)
         else
           var r, rest := Reencode(msg, n.record), SectionsFrom(msg, n.cursor);
           if r.Err? then Err(r.error) else if rest.Err? then rest else Ok(Put1(rest.value, n.record.section, r.value))
  {
    hide Next, Reencode;
    if Next(msg, c, None).Got? {
      NextOK(msg, c);
      NextWithoutNames(msg, c, None);
    }
  }
}
