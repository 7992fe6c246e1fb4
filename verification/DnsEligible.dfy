/** Which responses are accepted as cache templates (internal/dnswire/ttl.go, PrepareTemplate), said of the scanned message. */
module DnsEligible {
  import opened Common
  import opened WireBytes
  import opened DnsName
  import opened DnsRecords
  import opened DnsTemplate
  import opened DnsHit

  /** A standard response, complete, with no error or with NXDOMAIN, to an Internet question spelled out. */
  predicate PlainResponse(q: Question) {
    && q.flags >= 0x8000 && q.flags / 0x800 % 16 == 0 && q.flags / 0x200 % 2 == 0 && (q.flags % 16 == 0 || q.flags % 16 == 3)
    && q.rrClass == 1 && !q.name.compressed
  }

  /** No EDNS, or version 0 without extended code, unknown flags and options. */
  predicate PlainEdns(e: Option<Edns>) {
    e.Some? ==> e.value.ttl / 0x1_0000 == 0 && (e.value.ttl == 0 || e.value.ttl == 0x8000) && e.value.options == []
  }

  /** A record whose meaning does not depend on the moment: no transaction signature or key, of the Internet, aging if it has a TTL. */
  predicate PlainRecord(r: Record) {
    r.kind != 249 && r.kind != 250 && (r.kind == OPT || r.rrClass == 1) && (r.ttlOffset.Some? ==> 1 <= r.ttl <= 0x7fff_ffff)
  }

  predicate SignedAway(q: Question, rs: seq<Record>) { q.flags % 16 == 3 || NothingAnswers(q.kind, rs) }

  /** A negative answer names its authority, and neither policy nor a minimum gives it no time at all. */
  ghost predicate Backed(msg: seq<byte>, q: Question, rs: seq<Record>, maxNegative: uint32) {
    && maxNegative > 0 && Authority(q, rs) == Ok(true)
    && forall i | 0 <= i < |rs| && rs[i].section == AUTHORITY && rs[i].kind == SOA :: 4 <= rs[i].end <= |msg| && U32(msg, rs[i].end - 4) > 0
  }

  /** Every name leads through bytes that patching leaves alone. */
  ghost predicate Bounded(msg: seq<byte>) {
    && ParseQuestion(msg).Ok? && |msg| >= 12 && AddMarks(msg, 12, {}).Some?
    && ScanFrom(msg, Start(msg, QuestionOf(msg)), AddMarks(msg, 12, {})).Ok?
  }

  // ---- the second pass ----

  lemma {:induction false} EmitOkIff(msg: seq<byte>, rs: seq<Record>, negative: bool, maxNegative: uint32, room: nat)
    requires forall i | 0 <= i < |rs| && rs[i].ttlOffset.Some? :: rs[i].ttlOffset.value <= 65535
    ensures Emit(msg, rs, negative, maxNegative, room).Ok? <==>
      && 8 * |Timed(rs)| <= room
      && forall i | 0 <= i < |rs| && rs[i].ttlOffset.Some? :: Emits(msg, rs[i], negative, maxNegative)
  {
    hide Timed, Emits;
    if rs == [] {
      TimedNone();
    } else {
      var rest := rs[1..];
      TimedStep(rs);
      assert forall i | 0 <= i < |rest| :: rest[i] == rs[i + 1];
      EmitsMeans(msg, rs[0], negative, maxNegative);
      EmitOkIff(msg, rest, negative, maxNegative, if rs[0].ttlOffset.Some? && room >= 8 then room - 8 else room);
      AllEmit(msg, rs, negative, maxNegative);
    }
  }

  predicate Emits(msg: seq<byte>, r: Record, negative: bool, maxNegative: uint32) {
    0 < r.ttl <= MAX_TTL && KeptTTL(msg, r, negative, maxNegative) > 0
  }

  lemma {:induction false} EmitsMeans(msg: seq<byte>, r: Record, negative: bool, maxNegative: uint32)
    ensures Emits(msg, r, negative, maxNegative) <==> !(r.ttl == 0 || r.ttl > MAX_TTL || KeptTTL(msg, r, negative, maxNegative) == 0)
  {
    hide KeptTTL;
  }

  ghost predicate EmitsAll(msg: seq<byte>, rs: seq<Record>, negative: bool, maxNegative: uint32) {
    forall i | 0 <= i < |rs| && rs[i].ttlOffset.Some? :: Emits(msg, rs[i], negative, maxNegative)
  }

  lemma {:induction false} AllEmit(msg: seq<byte>, rs: seq<Record>, negative: bool, maxNegative: uint32)
    requires rs != []
    ensures EmitsAll(msg, rs, negative, maxNegative) <==>
      (rs[0].ttlOffset.Some? ==> Emits(msg, rs[0], negative, maxNegative)) && EmitsAll(msg, rs[1..], negative, maxNegative)
  {
    hide Emits;
    if (rs[0].ttlOffset.Some? ==> Emits(msg, rs[0], negative, maxNegative)) && EmitsAll(msg, rs[1..], negative, maxNegative) {
      forall i | 0 <= i < |rs| && rs[i].ttlOffset.Some? ensures Emits(msg, rs[i], negative, maxNegative) {
        if i > 0 { assert rs[1..][i - 1] == rs[i]; }
      }
    }
  }

  // ---- the first pass ----

  lemma {:induction false} FirstPassOkIff(msg: seq<byte>, c: Cursor, names: Names)
    requires CursorOK(c)
    ensures FirstPass(msg, c, names).Ok? <==>
      ScanFrom(msg, c, names).Ok? && forall i | 0 <= i < |ScanFrom(msg, c, names).value.records| :: !Refused(ScanFrom(msg, c, names).value.records[i])
    decreases Left(c)
  {
    hide Next, Left, Refused;
    if Next(msg, c, names).Got? {
      var n := Next(msg, c, names);
      NextLess(msg, c, names);
      FirstPassOkIff(msg, n.cursor, n.names);
      if ScanFrom(msg, n.cursor, n.names).Ok? {
        var rs, rest := ScanFrom(msg, c, names).value.records, ScanFrom(msg, n.cursor, n.names).value.records;
        assert rs == [n.record] + rest;
        NoneRefused(n.record, rest);
      }
    }
  }

  lemma {:induction false} NoneRefused(r: Record, rest: seq<Record>)
    ensures var rs := [r] + rest;
      (forall i | 0 <= i < |rs| :: !Refused(rs[i])) <==> !Refused(r) && forall i | 0 <= i < |rest| :: !Refused(rest[i])
  {
    hide Refused;
    var rs := [r] + rest;
    assert rs[0] == r && forall i | 0 <= i < |rest| :: rs[i + 1] == rest[i];
  }

  // ---- the whole ----

  lemma {:induction false} QuestionPlain(q: Question)
    ensures QuestionFits(q) <==> PlainResponse(q)
  {
  }

  lemma {:induction false} EdnsPlain(e: Option<Edns>)
    ensures EdnsFits(e) <==> PlainEdns(e)
  {
    if e.Some? {
      TTLParts(e.value.ttl);
    }
  }

  lemma {:induction false} TTLParts(ttl: uint32)
    ensures ttl / 0x1_0000 == 0 <==> ttl / 0x100_0000 == 0 && ttl / 0x1_0000 % 256 == 0
    ensures ttl / 0x1_0000 == 0 ==> ttl % 0x1_0000 == ttl
    ensures ttl % 0x1_0000 % 0x8000 == 0 <==> ttl % 0x1_0000 == 0 || ttl % 0x1_0000 == 0x8000
  {
    assert ttl / 0x100_0000 == ttl / 0x1_0000 / 256;
  }

  /** Records are accepted and emitted exactly when they are plain and, in a negative answer, authorities leave time. */
  lemma {:induction false} RecordsPlain(msg: seq<byte>, rs: seq<Record>, negative: bool, maxNegative: uint32)
    requires Ends(msg, rs) && forall i | 0 <= i < |rs| && rs[i].kind == SOA :: rs[i].ttlOffset.Some?
    ensures (forall i | 0 <= i < |rs| :: !Refused(rs[i])) && EmitsAll(msg, rs, negative, maxNegative) && (negative ==> maxNegative > 0)
      <==> (forall i | 0 <= i < |rs| :: PlainRecord(rs[i])) && (negative ==>
        && maxNegative > 0
        && forall i | 0 <= i < |rs| && rs[i].section == AUTHORITY && rs[i].kind == SOA :: 4 <= rs[i].end <= |msg| && U32(msg, rs[i].end - 4) > 0)
  {
    hide U32;
    forall i | 0 <= i < |rs|
      ensures negative ==> maxNegative > 0 ==>
        (!Refused(rs[i]) && (rs[i].ttlOffset.Some? ==> Emits(msg, rs[i], negative, maxNegative)) <==>
         PlainRecord(rs[i]) && (rs[i].section == AUTHORITY && rs[i].kind == SOA ==> U32(msg, rs[i].end - 4) > 0))
      ensures !negative ==>
        (!Refused(rs[i]) && (rs[i].ttlOffset.Some? ==> Emits(msg, rs[i], negative, maxNegative)) <==> PlainRecord(rs[i]))
    {
    }
  }

  lemma {:induction false} TimedSome(rs: seq<Record>)
    ensures Timed(rs) != [] <==> exists i :: 0 <= i < |rs| && rs[i].ttlOffset.Some?
  {
    hide Timed;
    forall r ensures r in Timed(rs) <==> r in rs && r.ttlOffset.Some? { TimedExact(rs, r); }
    if i :| 0 <= i < |rs| && rs[i].ttlOffset.Some? {
      assert rs[i] in Timed(rs);
    }
    if Timed(rs) != [] {
      assert Timed(rs)[0] in Timed(rs);
      assert Timed(rs)[0] in rs;
    }
  }

  /** What the scan of a bounded message knows of its records. */
  lemma {:induction false} BoundedScan(msg: seq<byte>)
    requires Bounded(msg)
    ensures ScanMessage(msg).Ok? && 12 <= |msg| <= MAX_MESSAGE
    ensures var q, s := QuestionOf(msg), ScanFrom(msg, Start(msg, QuestionOf(msg)), AddMarks(msg, 12, {})).value;
      && s.records == RecordsOf(msg) && s.edns == ScanMessage(msg).value.scan.edns
      && Ends(msg, s.records)
      && (forall i | 0 <= i < |s.records| && s.records[i].ttlOffset.Some? :: s.records[i].ttlOffset.value <= 65535)
      && (forall i | 0 <= i < |s.records| && s.records[i].kind == SOA :: s.records[i].ttlOffset.Some?)
  {
    hide ParseQuestion, ScanFrom, AddMarks, Placed;
    QuestionLong(msg);
    var q, marks := QuestionOf(msg), AddMarks(msg, 12, {});
    ScanWithoutNames(msg, Start(msg, q), marks);
    ScanPlaced(msg, Start(msg, q), marks);
    var rs := ScanFrom(msg, Start(msg, q), marks).value.records;
    PlacedEnds(msg, rs, q.end);
    forall i | 0 <= i < |rs|
      ensures rs[i].ttlOffset.Some? ==> rs[i].ttlOffset.value <= 65535
      ensures rs[i].kind == SOA ==> rs[i].ttlOffset.Some?
    {
      assert Placed(msg, rs[i], q.end);
      if rs[i].ttlOffset.Some? { TimedBounds(msg, rs[i], q.end); }
      if rs[i].kind == SOA { SOAIsTimed(msg, rs[i], q.end); }
    }
  }

  /**
   A response becomes a template if and only if it scans with all names bounded, is a plain response with plain EDNS
   data and plain records, at least one of which ages, the table has room for all that do, and a negative answer is backed.
   */
  lemma {:induction false} AcceptedIff(msg: seq<byte>, room: nat, maxNegative: uint32)
    ensures Prepare(msg, room, maxNegative).Ok? <==>
      && Bounded(msg) && ScanMessage(msg).Ok?
      && var q, rs := QuestionOf(msg), RecordsOf(msg);
         && PlainResponse(q) && PlainEdns(ScanMessage(msg).value.scan.edns)
         && (forall i | 0 <= i < |rs| :: PlainRecord(rs[i]))
         && (exists i :: 0 <= i < |rs| && rs[i].ttlOffset.Some?) && 8 * |Timed(rs)| <= room
         && (SignedAway(q, rs) ==> Backed(msg, q, rs, maxNegative))
  {
    hide ParseQuestion, ScanFrom, FirstPass, AddMarks, ScanMessage, QuestionFits, PlainResponse, EdnsFits, PlainEdns, Emit, Authority, Refused, PlainRecord, Timed, Ends;
    QuestionLong(msg);
    if ParseQuestion(msg).Ok? && AddMarks(msg, 12, {}).Some? {
      var q, marks := QuestionOf(msg), AddMarks(msg, 12, {});
      var c := Start(msg, q);
      FirstPassOkIff(msg, c, marks);
      QuestionPlain(q);
      if FirstPass(msg, c, marks).Ok? {
        FirstPassScans(msg, c, marks);
      }
      if ScanFrom(msg, c, marks).Ok? {
        BoundedScan(msg);
        EdnsPlain(ScanMessage(msg).value.scan.edns);
        FinishIff(msg, q, RecordsOf(msg), room, maxNegative);
      }
    }
  }

  lemma {:induction false} FinishIff(msg: seq<byte>, q: Question, rs: seq<Record>, room: nat, maxNegative: uint32)
    requires Ends(msg, rs) && forall i | 0 <= i < |rs| && rs[i].kind == SOA :: rs[i].ttlOffset.Some?
    requires forall i | 0 <= i < |rs| && rs[i].ttlOffset.Some? :: rs[i].ttlOffset.value <= 65535
    ensures (forall i | 0 <= i < |rs| :: !Refused(rs[i])) && Finish(msg, q, rs, room, maxNegative).Ok? <==>
      && (forall i | 0 <= i < |rs| :: PlainRecord(rs[i]))
      && (exists i :: 0 <= i < |rs| && rs[i].ttlOffset.Some?) && 8 * |Timed(rs)| <= room
      && (SignedAway(q, rs) ==> Backed(msg, q, rs, maxNegative))
  {
    hide Emit, Authority, Refused, PlainRecord, Timed, IsNegative, Lifetime, U32, NothingAnswers;
    NegativeMeans(q, rs);
    var negative := IsNegative(q, rs);
    RecordsPlain(msg, rs, negative, maxNegative);
    EmitOkIff(msg, rs, negative, maxNegative, room);
    TimedSome(rs);
    if Emit(msg, rs, negative, maxNegative, room).Ok? {
      EmitFacts(msg, rs, negative, maxNegative, room);
    }
  }
}
