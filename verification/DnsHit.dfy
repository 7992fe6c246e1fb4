/** A prepared template is what the cache needs, and a cache hit means what the upstream said. */
module DnsHit {
  import opened Common
  import opened WireBytes
  import opened CacheReply
  import opened DnsName
  import opened DnsRecords
  import opened DnsPatched
  import opened DnsTemplate

  // ---- the patch table ----

  lemma {:induction false} PatchReads(before: seq<byte>, p: Patch, after: seq<byte>)
    ensures var t := before + EncodePatch(p) + after; U16(t, |before|) == p.offset && U32(t, |before| + 4) == p.ttl
  {
    var t := before + EncodePatch(p) + after;
    assert forall i | 0 <= i < 8 :: t[|before| + i] == EncodePatch(p)[i];
    assert t[|before|] == p.offset / 256 && t[|before| + 1] == p.offset % 256;
    assert t[|before| + 4] == p.ttl / 0x100_0000 && t[|before| + 5] == p.ttl / 0x1_0000 % 256;
    assert t[|before| + 6] == p.ttl / 256 % 256 && t[|before| + 7] == p.ttl % 256;
    Digits(p.ttl);
  }

  /** The table decodes to the patches it was made from. */
  lemma {:induction false} TableReads(ps: seq<Patch>, j: nat)
    requires j < |ps|
    ensures PatchOffset(Table(ps), j) == ps[j].offset && PatchTTL(Table(ps), j) == ps[j].ttl
  {
    hide U16, U32, EncodePatch;
    var before, last := ps[..|ps| - 1], ps[|ps| - 1];
    if j == |ps| - 1 {
      PatchReads(Table(before), last, []);
      assert Table(ps) == Table(before) + EncodePatch(last) + [];
    } else {
      TableReads(before, j);
      PrefixReads(Table(before), EncodePatch(last), 8 * j);
      PrefixReads(Table(before), EncodePatch(last), 8 * j + 4);
    }
  }

  lemma {:induction false} PrefixReads(a: seq<byte>, b: seq<byte>, off: nat)
    requires off + 4 <= |a|
    ensures U16(a + b, off) == U16(a, off) && U32(a + b, off) == U32(a, off)
  {
  }

  // ---- patches and records ----

  /** Records with a TTL to age. */
  function Timed(rs: seq<Record>): seq<Record> {
    if rs == [] then [] else (if rs[0].ttlOffset.Some? then [rs[0]] else []) + Timed(rs[1..])
  }

  /**
   The TTL a template keeps for a record: its own, but in a negative answer the authority's is the least of its own,
   the last word of its data, and the configured bound (section 5 of RFC 2308).
   */
  predicate Keeps(msg: seq<byte>, r: Record, negative: bool, maxNegative: uint32, ttl: int) {
    if negative && r.kind == SOA && r.section == AUTHORITY then
      && 4 <= r.end <= |msg|
      && ttl <= r.ttl && ttl <= U32(msg, r.end - 4) && ttl <= maxNegative
      && (ttl == r.ttl || ttl == U32(msg, r.end - 4) || ttl == maxNegative)
    else ttl == r.ttl
  }

  /** Patch p is the TTL field of record r, with the TTL to keep. */
  predicate Ages(msg: seq<byte>, p: Patch, r: Record, negative: bool, maxNegative: uint32) {
    r.ttlOffset == Some(p.offset) && Keeps(msg, r, negative, maxNegative, p.ttl) && 1 <= p.ttl <= MAX_TTL
  }

  /** Records end inside the message, behind its header. */
  predicate Ends(msg: seq<byte>, rs: seq<Record>) { forall i | 0 <= i < |rs| :: 4 <= rs[i].end <= |msg| }

  lemma {:induction false} EmitFacts(msg: seq<byte>, rs: seq<Record>, negative: bool, maxNegative: uint32, room: nat)
    requires Emit(msg, rs, negative, maxNegative, room).Ok? && Ends(msg, rs)
    ensures var ps, ts := Emit(msg, rs, negative, maxNegative, room).value, Timed(rs);
      && |ps| == |ts| && 8 * |ps| <= room
      && forall j | 0 <= j < |ps| :: Ages(msg, ps[j], ts[j], negative, maxNegative)
  {
    hide Ages, Timed;
    if rs == [] {
      assert Timed(rs) == [] by { TimedNone(); }
    } else {
      var r := rs[0];
      TimedStep(rs);
      if r.ttlOffset.None? {
        EmitFacts(msg, rs[1..], negative, maxNegative, room);
      } else {
        EmitFacts(msg, rs[1..], negative, maxNegative, room - 8);
        FirstAges(msg, r, negative, maxNegative);
      }
    }
  }

  lemma {:induction false} TimedNone()
    ensures Timed([]) == []
  {
  }

  lemma {:induction false} FirstAges(msg: seq<byte>, r: Record, negative: bool, maxNegative: uint32)
    requires r.ttlOffset.Some? && r.ttlOffset.value <= 65535 && 0 < r.ttl <= MAX_TTL && KeptTTL(msg, r, negative, maxNegative) != 0
    requires 4 <= r.end <= |msg|
    ensures Ages(msg, Patch(r.ttlOffset.value, KeptTTL(msg, r, negative, maxNegative)), r, negative, maxNegative)
  {
    hide U32;
  }

  /** Timed records are records, in message order, and every aging record is among them. */
  lemma {:induction false} TimedOrder(rs: seq<Record>)
    requires forall i, j | 0 <= i < j < |rs| :: rs[i].end <= rs[j].start
    ensures forall j | 0 <= j < |Timed(rs)| :: Timed(rs)[j] in rs && Timed(rs)[j].ttlOffset.Some?
    ensures forall i, j | 0 <= i < j < |Timed(rs)| :: Timed(rs)[i].end <= Timed(rs)[j].start
    ensures forall i | 0 <= i < |rs| && rs[i].ttlOffset.Some? :: rs[i] in Timed(rs)
  {
    hide Timed;
    forall r ensures r in Timed(rs) <==> r in rs && r.ttlOffset.Some? { TimedExact(rs, r); }
    TimedSorted(rs);
  }

  lemma {:induction false} TimedExact(rs: seq<Record>, r: Record)
    ensures r in Timed(rs) <==> r in rs && r.ttlOffset.Some?
  {
    if rs != [] {
      TimedExact(rs[1..], r);
      assert rs == [rs[0]] + rs[1..];
    }
  }

  lemma {:induction false} TimedSorted(rs: seq<Record>)
    requires forall i, j | 0 <= i < j < |rs| :: rs[i].end <= rs[j].start
    ensures forall i, j | 0 <= i < j < |Timed(rs)| :: Timed(rs)[i].end <= Timed(rs)[j].start
  {
    if rs != [] {
      var rest := rs[1..];
      TimedSorted(rest);
      forall j | 0 <= j < |Timed(rest)| ensures rs[0].end <= Timed(rest)[j].start {
        TimedExact(rest, Timed(rest)[j]);
        var k :| 0 <= k < |rest| && rest[k] == Timed(rest)[j];
        assert rs[k + 1] == rest[k];
      }
      TimedStep(rs);
    }
  }

  lemma {:induction false} TimedStep(rs: seq<Record>)
    requires rs != []
    ensures var t := Timed(rs[1..]);
      Timed(rs) == if rs[0].ttlOffset.Some? then [rs[0]] + t else t
  {
  }

  lemma {:induction false} LifetimeIsLeast(ps: seq<Patch>)
    ensures forall j | 0 <= j < |ps| :: Lifetime(ps) <= ps[j].ttl
    ensures ps != [] ==> exists j :: 0 <= j < |ps| && ps[j].ttl == Lifetime(ps)
  {
    if ps != [] {
      var before := ps[..|ps| - 1];
      LifetimeIsLeast(before);
      assert forall j | 0 <= j < |before| :: before[j] == ps[j];
      if before == [] {
        assert Lifetime(before) == 0xffff_ffff;
      }
      if Lifetime(ps) != ps[|ps| - 1].ttl {
        var j :| 0 <= j < |before| && before[j].ttl == Lifetime(before);
        assert ps[j].ttl == Lifetime(ps);
      }
    }
  }

  // ---- what a template promises ----

  /** A template's patches are the timed records' TTL fields, each with the TTL to keep. */
  ghost predicate Describes(msg: seq<byte>, rs: seq<Record>, t: Template, maxNegative: uint32) {
    && |t.patches| == |Timed(rs)|
    && forall j | 0 <= j < |t.patches| :: Ages(msg, t.patches[j], Timed(rs)[j], t.negative, maxNegative)
  }

  /** No answer is of the type asked for. */
  predicate NothingAnswers(kind: uint16, rs: seq<Record>) {
    forall i | 0 <= i < |rs| :: !(rs[i].section == ANSWER && (rs[i].kind == kind || kind == 255))
  }

  lemma {:induction false} NegativeMeans(q: Question, rs: seq<Record>)
    ensures IsNegative(q, rs) <==> q.flags % 16 == 3 || NothingAnswers(q.kind, rs)
  {
  }

  lemma {:induction false} PlacedEnds(msg: seq<byte>, rs: seq<Record>, off: nat)
    requires forall i | 0 <= i < |rs| :: Placed(msg, rs[i], off)
    ensures Ends(msg, rs)
  {
    forall i | 0 <= i < |rs| ensures 4 <= rs[i].end <= |msg| {
      assert Placed(msg, rs[i], off);
    }
  }

  lemma {:induction false} PreparedDescribes(msg: seq<byte>, room: nat, maxNegative: uint32)
    requires Prepare(msg, room, maxNegative).Ok?
    ensures ScanMessage(msg).Ok? && ParseQuestion(msg).Ok?
    ensures var t := Prepare(msg, room, maxNegative).value;
      && Describes(msg, RecordsOf(msg), t, maxNegative) && t.patches != [] && t.lifetime == Lifetime(t.patches)
      && 8 * |t.patches| <= room
      && (t.negative <==> QuestionOf(msg).flags % 16 == 3 || NothingAnswers(QuestionOf(msg).kind, RecordsOf(msg)))
      && (t.negative ==> Authority(QuestionOf(msg), RecordsOf(msg)) == Ok(true) && maxNegative > 0)
  {
    hide Prepare, ScanMessage, ParseQuestion, Emit, Authority, IsNegative, Lifetime, Timed, Placed;
    PreparedOf(msg, room, maxNegative);
    PreparedPlaced(msg, room, maxNegative);
    var rs := RecordsOf(msg);
    NegativeMeans(QuestionOf(msg), rs);
    PlacedEnds(msg, rs, QuestionOf(msg).end);
    hide Ends, NothingAnswers;
    EmitFacts(msg, rs, IsNegative(QuestionOf(msg), rs), maxNegative, room);
  }

  /** Every record of a prepared message, where it is. */
  lemma {:induction false} PreparedPlaced(msg: seq<byte>, room: nat, maxNegative: uint32)
    requires Prepare(msg, room, maxNegative).Ok?
    ensures ScanMessage(msg).Ok? && ParseQuestion(msg).Ok?
    ensures var q, rs := QuestionOf(msg), RecordsOf(msg);
      && q.end == 12 + |q.name.wire| + 4 <= |msg| <= MAX_MESSAGE && msg[12..12 + |q.name.wire|] == q.name.wire
      && (forall i | 0 <= i < |rs| :: Placed(msg, rs[i], q.end))
      && (forall i, j | 0 <= i < j < |rs| :: rs[i].end <= rs[j].start)
  {
    hide Prepare, ParseQuestion, ScanFrom, QuestionFits, EdnsFits, Placed, AddMarks;
    PreparedOf(msg, room, maxNegative);
    var q := QuestionOf(msg);
    QuestionBounds(msg);
    var marks, s :| Prepared(msg, q, marks, s) && s.records == RecordsOf(msg) && s.edns == ScanMessage(msg).value.scan.edns && EdnsFits(s.edns);
    PlainQuestion(q);
    ScanPlaced(msg, Start(msg, q), Some(marks));
  }

  /** What the cache assumes of a stored template, it gets: patches in order, behind the question, inside the message. */
  lemma {:induction false} PreparedFits(msg: seq<byte>, room: nat, maxNegative: uint32)
    requires Prepare(msg, room, maxNegative).Ok?
    ensures ScanMessage(msg).Ok? && ParseQuestion(msg).Ok?
    ensures var t := Prepare(msg, room, maxNegative).value;
      && TableFits(msg, Table(t.patches), t.lifetime, |QuestionOf(msg).name.wire|)
      && Patches(Table(t.patches)) == |t.patches| && 1 <= t.lifetime <= MAX_TTL
  {
    hide Prepare, ScanMessage, ParseQuestion, Table, Placed, Keeps, PatchOffset, PatchTTL, Lifetime, Timed;
    PreparedDescribes(msg, room, maxNegative);
    PreparedPlaced(msg, room, maxNegative);
    var t, rs := Prepare(msg, room, maxNegative).value, RecordsOf(msg);
    var ps, ts, q := t.patches, Timed(rs), QuestionOf(msg);
    TimedOrder(rs);
    LifetimeIsLeast(ps);
    forall j: nat | j < |ps|
      ensures PatchOffset(Table(ps), j) == ps[j].offset && PatchTTL(Table(ps), j) == ps[j].ttl
      ensures q.end <= ts[j].start < ps[j].offset && ps[j].offset + 4 <= ts[j].end <= |msg|
    {
      TableReads(ps, j);
      assert ts[j] in rs;
      TimedBounds(msg, ts[j], q.end);
    }
    forall j: nat, k: nat | j < k < |ps| ensures PatchOffset(Table(ps), j) + 4 <= PatchOffset(Table(ps), k) {
      assert ts[j].end <= ts[k].start;
    }
  }

  lemma {:induction false} TimedBounds(msg: seq<byte>, r: Record, off: nat)
    requires Placed(msg, r, off) && r.ttlOffset.Some?
    ensures off <= r.start < r.ttlOffset.value && r.ttlOffset.value + 4 <= r.end <= |msg|
    ensures r.ttl == U32(msg, r.ttlOffset.value)
  {
  }

  /** A negative template has an authority, and never outlives the configured bound nor any authority's TTL and minimum. */
  lemma {:induction false} NegativeBounded(msg: seq<byte>, room: nat, maxNegative: uint32)
    requires Prepare(msg, room, maxNegative).Ok? && Prepare(msg, room, maxNegative).value.negative
    ensures ScanMessage(msg).Ok?
    ensures var t, rs := Prepare(msg, room, maxNegative).value, RecordsOf(msg);
      && t.lifetime <= maxNegative
      && (exists i :: 0 <= i < |rs| && rs[i].section == AUTHORITY && rs[i].kind == SOA)
      && forall i | 0 <= i < |rs| && rs[i].section == AUTHORITY && rs[i].kind == SOA ::
           4 <= rs[i].end <= |msg| && t.lifetime <= U32(msg, rs[i].end - 4) && t.lifetime <= rs[i].ttl
  {
    hide Prepare, ScanMessage, ParseQuestion, Placed, U32, Timed, Lifetime, Enclosing, Authority, NothingAnswers;
    PreparedDescribes(msg, room, maxNegative);
    PreparedPlaced(msg, room, maxNegative);
    var t, rs, q := Prepare(msg, room, maxNegative).value, RecordsOf(msg), QuestionOf(msg);
    AuthorityHasSOA(q, rs);
    forall i | 0 <= i < |rs| && rs[i].section == AUTHORITY && rs[i].kind == SOA
      ensures 4 <= rs[i].end <= |msg| && t.lifetime <= U32(msg, rs[i].end - 4) && t.lifetime <= rs[i].ttl && t.lifetime <= maxNegative
    {
      SOAIsTimed(msg, rs[i], q.end);
      var j := PatchFor(msg, room, maxNegative, i);
    }
  }

  /** The patch of an aging record; the template does not outlive it. */
  lemma {:induction false} PatchFor(msg: seq<byte>, room: nat, maxNegative: uint32, i: nat) returns (j: nat)
    requires Prepare(msg, room, maxNegative).Ok? && ScanMessage(msg).Ok? && i < |RecordsOf(msg)| && RecordsOf(msg)[i].ttlOffset.Some?
    ensures var t := Prepare(msg, room, maxNegative).value;
      && j < |t.patches| && Ages(msg, t.patches[j], RecordsOf(msg)[i], t.negative, maxNegative) && t.lifetime <= t.patches[j].ttl
  {
    hide Prepare, ScanMessage, ParseQuestion, Keeps, Placed, Timed, Lifetime, NothingAnswers;
    PreparedDescribes(msg, room, maxNegative);
    PreparedPlaced(msg, room, maxNegative);
    var t, rs := Prepare(msg, room, maxNegative).value, RecordsOf(msg);
    TimedOrder(rs);
    LifetimeIsLeast(t.patches);
    assert rs[i] in Timed(rs);
    j :| 0 <= j < |Timed(rs)| && Timed(rs)[j] == rs[i];
  }

  lemma {:induction false} SOAIsTimed(msg: seq<byte>, r: Record, off: nat)
    requires Placed(msg, r, off) && r.kind == SOA
    ensures r.ttlOffset.Some?
  {
  }

  lemma {:induction false} AuthorityHasSOA(q: Question, rs: seq<Record>)
    requires Authority(q, rs) == Ok(true)
    ensures exists i :: 0 <= i < |rs| && rs[i].section == AUTHORITY && rs[i].kind == SOA
  {
    hide NegativeAuthority, Enclosing;
    if exists i :: 0 <= i < |rs| && IsAlias(rs[i]) {
      ChainHasSOA(rs, Canonical(q.name), []);
    }
  }

  lemma {:induction false} ChainHasSOA(rs: seq<Record>, current: seq<byte>, seen: seq<nat>)
    requires |seen| <= MAX_LINKS && NegativeAuthority(rs, current, seen) == Ok(true)
    ensures exists i :: 0 <= i < |rs| && rs[i].section == AUTHORITY && rs[i].kind == SOA
    decreases MAX_LINKS - |seen|
  {
    hide Follow, Enclosing;
    if Follow(rs, current).Link? {
      ChainHasSOA(rs, Follow(rs, current).target, seen + [Follow(rs, current).start]);
    }
  }

  // ---- the reply of a cache hit ----

  /** Bytes outside all TTL fields are outside all patches. */
  lemma {:induction false} UnpatchedOutside(rs: seq<Record>, ps: seq<Patch>, i: nat)
    requires |ps| == |Timed(rs)| && forall j | 0 <= j < |ps| :: Timed(rs)[j].ttlOffset == Some(ps[j].offset) && Timed(rs)[j] in rs
    requires !InTTL(rs, i)
    ensures Unpatched(Table(ps), |ps|, i)
  {
    hide Timed, PatchOffset;
    forall j: nat | j < |ps| ensures !(PatchOffset(Table(ps), j) <= i < PatchOffset(Table(ps), j) + 4) {
      TableReads(ps, j);
      var k :| 0 <= k < |rs| && rs[k] == Timed(rs)[j];
      assert !CoversTTL(rs[k], i);
    }
  }

  /** The reply differs from the stored message only where a patch is allowed. */
  lemma {:induction false} HitIsPatch(msg: seq<byte>, room: nat, maxNegative: uint32, c: Client, elapsed: nat, stale: bool, staleTTL: uint32)
    requires Prepare(msg, room, maxNegative).Ok? && ScanMessage(msg).Ok? && ParseQuestion(msg).Ok?
    requires Fold(c.question) == Canonical(QuestionOf(msg).name)
    requires stale <==> elapsed >= Prepare(msg, room, maxNegative).value.lifetime
    ensures var t := Prepare(msg, room, maxNegative).value;
      && TableFits(msg, Table(t.patches), t.lifetime, |c.question|)
      && Patched(msg, Personal(msg, Table(t.patches), c, elapsed, stale, staleTTL), |QuestionOf(msg).name.wire|, RecordsOf(msg))
  {
    hide Prepare, ScanMessage, ParseQuestion, Table, Placed, Keeps, TableFits, Personal, ServedTTL, Timed, Unpatched, FlagsServed, U16, InTTL;
    PreparedFits(msg, room, maxNegative);
    PreparedDescribes(msg, room, maxNegative);
    PreparedPlaced(msg, room, maxNegative);
    var t, rs := Prepare(msg, room, maxNegative).value, RecordsOf(msg);
    HitReply(msg, Table(t.patches), t.lifetime, c, elapsed, stale, staleTTL);
    TimedOrder(rs);
    forall i: nat | !InTTL(rs, i) ensures Unpatched(Table(t.patches), |t.patches|, i) {
      UnpatchedOutside(rs, t.patches, i);
    }
  }

  /**
   A cache hit says what the upstream said: the reply scans, with the same response code, question, EDNS data,
   records and canonical names at the same offsets, and while fresh every TTL is the kept one less the age.
   */
  lemma {:induction false} HitKeepsMeaning(msg: seq<byte>, room: nat, maxNegative: uint32, c: Client, elapsed: nat, stale: bool, staleTTL: uint32)
    requires Prepare(msg, room, maxNegative).Ok? && ScanMessage(msg).Ok? && ParseQuestion(msg).Ok?
    requires Fold(c.question) == Canonical(QuestionOf(msg).name)
    requires stale <==> elapsed >= Prepare(msg, room, maxNegative).value.lifetime
    ensures var t := Prepare(msg, room, maxNegative).value;
      && TableFits(msg, Table(t.patches), t.lifetime, |c.question|)
      && var r := Personal(msg, Table(t.patches), c, elapsed, stale, staleTTL);
         && ScanMessage(r).Ok? && SameMessage(ScanMessage(msg).value, ScanMessage(r).value)
         && U16(r, 0) == c.id && FlagsServed(U16(msg, 2), ClientFlags(c.flagsHigh, c.flagsLow), U16(r, 2))
         && (forall i | 0 <= i < |RecordsOf(msg)| && RecordsOf(msg)[i].ttlOffset.Some? ::
               AgedTTL(msg, RecordsOf(msg)[i], t.negative, maxNegative, elapsed, stale, staleTTL, RecordsOf(r)[i].ttl))
  {
    hide Prepare, ScanMessage, ParseQuestion, Table, Placed, Keeps, Personal, Timed, Patched, SameRecord, Remaining, PatchOffset, PatchTTL, FlagsServed, ServedTTL, Unpatched, U16;
    HitIsPatch(msg, room, maxNegative, c, elapsed, stale, staleTTL);
    var t, rs := Prepare(msg, room, maxNegative).value, RecordsOf(msg);
    var r := Personal(msg, Table(t.patches), c, elapsed, stale, staleTTL);
    HitReply(msg, Table(t.patches), t.lifetime, c, elapsed, stale, staleTTL);
    PatchKeepsMeaning(msg, room, maxNegative, r);
    forall i | 0 <= i < |rs| && rs[i].ttlOffset.Some?
      ensures AgedTTL(msg, rs[i], t.negative, maxNegative, elapsed, stale, staleTTL, RecordsOf(r)[i].ttl)
    {
      assert SameRecord(rs[i], RecordsOf(r)[i]);
      SamePlaces(rs[i], RecordsOf(r)[i]);
      ScannedTTL(msg, i);
      ScannedTTL(r, i);
      HitTTL(msg, room, maxNegative, c, elapsed, stale, staleTTL, i);
    }
  }

  /** The TTL a client reads: while fresh at least one, and with the age what the template kept. */
  predicate AgedTTL(msg: seq<byte>, r: Record, negative: bool, maxNegative: uint32, elapsed: nat, stale: bool, staleTTL: uint32, ttl: uint32) {
    if stale then ttl == staleTTL else ttl >= 1 && Keeps(msg, r, negative, maxNegative, ttl + elapsed)
  }

  lemma {:induction false} SamePlaces(a: Record, b: Record)
    requires SameRecord(a, b)
    ensures a.ttlOffset == b.ttlOffset
  {
  }

  /** A scanned TTL is the word at its offset. */
  lemma {:induction false} ScannedTTL(msg: seq<byte>, i: nat)
    requires ScanMessage(msg).Ok? && i < |RecordsOf(msg)| && RecordsOf(msg)[i].ttlOffset.Some?
    ensures var r := RecordsOf(msg)[i]; r.ttlOffset.value + 4 <= |msg| && r.ttl == U32(msg, r.ttlOffset.value)
  {
    hide ParseQuestion, ScanFrom, Placed, U32;
    QuestionLong(msg);
    var q := QuestionOf(msg);
    ScanPlaced(msg, Start(msg, q), None);
    TimedBounds(msg, RecordsOf(msg)[i], q.end);
  }

  lemma {:induction false} HitTTL(msg: seq<byte>, room: nat, maxNegative: uint32, c: Client, elapsed: nat, stale: bool, staleTTL: uint32, i: nat)
    requires Prepare(msg, room, maxNegative).Ok? && ScanMessage(msg).Ok? && ParseQuestion(msg).Ok?
    requires TableFits(msg, Table(Prepare(msg, room, maxNegative).value.patches), Prepare(msg, room, maxNegative).value.lifetime, |c.question|)
    requires i < |RecordsOf(msg)| && RecordsOf(msg)[i].ttlOffset.Some? && RecordsOf(msg)[i].ttlOffset.value + 4 <= |msg|
    requires stale <==> elapsed >= Prepare(msg, room, maxNegative).value.lifetime
    ensures var t := Prepare(msg, room, maxNegative).value;
      AgedTTL(msg, RecordsOf(msg)[i], t.negative, maxNegative, elapsed, stale, staleTTL,
              U32(Personal(msg, Table(t.patches), c, elapsed, stale, staleTTL), RecordsOf(msg)[i].ttlOffset.value))
  {
    hide Prepare, ScanMessage, ParseQuestion, Table, Placed, Keeps, Timed, U32, Addressed, PatchFirst, PatchOffset, PatchTTL;
    PreparedFits(msg, room, maxNegative);
    var t := Prepare(msg, room, maxNegative).value;
    var j := PatchFor(msg, room, maxNegative, i);
    TableReads(t.patches, j);
    assert TableFits(Addressed(msg, c), Table(t.patches), t.lifetime, |c.question|);
    PatchedField(Addressed(msg, c), Table(t.patches), t.lifetime, |c.question|, |t.patches|, j, elapsed, stale, staleTTL);
  }
}
