/** The template builder as it runs (internal/dnswire/ttl.go): two passes over the records and a caller's table. */
module DnsBuilder {
  import opened Common
  import opened DnsName
  import opened DnsRecords
  import opened DnsTemplate
  import opened DnsScanner

  method EnclosingZone(name: seq<byte>, zone: seq<byte>) returns (found: bool)
    requires Labels(name)
    ensures found == Enclosing(name, zone)
  {
    var off: nat := 0;
    assert name[0..] == name;
    while off < |name|
      invariant off <= |name| && (off < |name| ==> Labels(name[off..]))
      invariant Enclosing(name, zone) == (off < |name| && Enclosing(name[off..], zone))
      decreases |name| - off
    {
      if name[off..] == zone {
        return true;
      }
      var n: nat := 1 + name[off] as int;
      assert name[off..][0] == name[off] && (off + n <= |name| ==> name[off..][n..] == name[off + n..]);
      off := off + n;
    }
    return false;
  }

  /** The result of a pass whose first records are already read. */
  function After(before: seq<Record>, r: Result<Scan>): Result<Scan> {
    if r.Err? then r else Ok(r.value.(records := before + r.value.records))
  }

  lemma {:induction false} AfterOne(before: seq<Record>, one: Record, r: Result<Scan>)
    ensures After(before, After([one], r)) == After(before + [one], r)
  {
    if r.Ok? {
      assert before + ([one] + r.value.records) == before + [one] + r.value.records;
    }
  }

  lemma {:induction false} AfterNothing(r: Result<Scan>)
    ensures After([], r) == r
  {
    if r.Ok? {
      assert [] + r.value.records == r.value.records;
    }
  }

  lemma {:induction false} FirstPassStep(msg: seq<byte>, c: Cursor, names: Names)
    requires CursorOK(c)
    ensures var n := Next(msg, c, names);
      FirstPass(msg, c, names) ==
      if n.Done? then Ok(Scan([], c.edns, names))
      else if n.Fail? then Err(n.error)
      else if Refused(n.record) then Err(ErrTemplate)
      else After([n.record], FirstPass(msg, n.cursor, n.names))
  {
  }

  lemma {:induction false} ScanStep(msg: seq<byte>, c: Cursor, names: Names)
    requires CursorOK(c)
    ensures var n := Next(msg, c, names);
      ScanFrom(msg, c, names) ==
      if n.Done? then Ok(Scan([], c.edns, names))
      else if n.Fail? then Err(n.error)
      else After([n.record], ScanFrom(msg, n.cursor, n.names))
  {
  }

  datatype Facts = Facts(positive: bool, cname: bool, soa: bool)

  /** What the first pass learns about the records it has seen. */
  predicate Learned(q: Question, rs: seq<Record>, f: Facts) {
    && (f.positive <==> exists i :: 0 <= i < |rs| && Answers(q, rs[i]))
    && (f.cname <==> exists i :: 0 <= i < |rs| && IsAlias(rs[i]))
    && (f.soa <==> HasAuthority(rs, Canonical(q.name)))
  }

  function Learn(q: Question, f: Facts, r: Record): Facts {
    Facts(f.positive || Answers(q, r), f.cname || IsAlias(r), f.soa || IsAuthority(r, Canonical(q.name)))
  }

  lemma {:induction false} LearnOne(q: Question, rs: seq<Record>, f: Facts, r: Record)
    requires Learned(q, rs, f)
    ensures Learned(q, rs + [r], Learn(q, f, r))
  {
    hide Answers, IsAlias, IsAuthority;
    var all := rs + [r];
    assert all[|rs|] == r && forall i | 0 <= i < |rs| :: all[i] == rs[i];
    assert forall i | 0 <= i < |all| :: all[i] == if i < |rs| then rs[i] else r;
  }

  lemma {:induction false} LearnNothing(q: Question)
    ensures Learned(q, [], Facts(false, false, false))
  {
  }

  /** First pass: validates every record and its names, and learns what kind of answer this is. */
  method Inspect(s: Scanner, q: Question, names: array<bool>) returns (r: Result<Facts>, ghost all: Result<Scan>)
    requires s.Valid() && s.err.None? && names.Length == BITS && Labels(Canonical(q.name))
    modifies s, names
    ensures s.Valid() && s.msg == old(s.msg) && all == FirstPass(s.msg, old(s.At()), old(NamesOf(names)))
    ensures r.Ok? == all.Ok? && (r.Err? ==> all == Err(r.error))
    ensures r.Ok? ==> Learned(q, all.value.records, r.value) && s.edns == all.value.edns
  {
    hide Next, FirstPass, Learned, Learn, Refused, NamesOf, Left;
    var f := Facts(false, false, false);
    ghost var seen: seq<Record> := [];
    all := FirstPass(s.msg, s.At(), NamesOf(names));
    AfterNothing(all);
    LearnNothing(q);
    while true
      invariant s.Valid() && s.msg == old(s.msg) && s.err.None?
      invariant all == After(seen, FirstPass(s.msg, s.At(), NamesOf(names))) && Learned(q, seen, f)
      decreases Left(s.At())
    {
      ghost var c, marks := s.At(), NamesOf(names);
      FirstPassStep(s.msg, c, marks);
      NextLess'(s.msg, c, marks);
      var record := s.NextRecord(names);
      if record.None? {
        if s.err.Some? {
          return Err(s.err.value), all;
        }
        assert seen + [] == seen;
        return Ok(f), all;
      }
      if Refused(record.value) {
        return Err(ErrTemplate), all;
      }
      AfterOne(seen, record.value, FirstPass(s.msg, s.At(), NamesOf(names)));
      LearnOne(q, seen, f, record.value);
      f := LearnRecord(q, f, record.value);
      seen := seen + [record.value];
    }
  }

  lemma {:induction false} NextLess'(msg: seq<byte>, c: Cursor, names: Names)
    requires CursorOK(c)
    ensures Next(msg, c, names).Got? ==> CursorOK(Next(msg, c, names).cursor) && Left(Next(msg, c, names).cursor) < Left(c)
  {
  }

  method LearnRecord(q: Question, f: Facts, r: Record) returns (g: Facts)
    requires Labels(Canonical(q.name))
    ensures g == Learn(q, f, r)
  {
    hide Enclosing, Labels;
    g := f;
    if r.section == ANSWER && (r.kind == q.kind || q.kind == 255) {
      g := g.(positive := true);
    }
    if r.section == ANSWER && r.kind == CNAME {
      g := g.(cname := true);
    }
    if r.section == AUTHORITY && r.kind == SOA {
      var found := EnclosingZone(Canonical(q.name), Canonical(r.owner));
      if found {
        g := g.(soa := true);
      }
    }
  }

  // ---- the alias chain ----

  lemma {:induction false} FoldLabels(w: seq<byte>)
    requires Labels(w)
    ensures Labels(Fold(w))
    decreases |w|
  {
    if w[0] != 0 {
      var n: nat := 1 + w[0] as int;
      FoldLabels(w[n..]);
      assert Fold(w)[0] == w[0];
      assert Fold(w)[n..] == Fold(w[n..]);
    } else {
      assert Fold(w)[0] == 0;
    }
  }

  lemma {:induction false} FollowOne(rs: seq<Record>, r: Record, name: seq<byte>)
    ensures Follow(rs + [r], name) ==
      var before := Follow(rs, name);
      if before.Ambiguous? || !AliasOf(r, name) then before
      else if before.NoLink? then Link(AliasTarget(r), r.start)
      else if before.target == AliasTarget(r) then before
      else Ambiguous
  {
    assert (rs + [r])[..|rs|] == rs;
  }

  lemma {:induction false} AuthorityOne(rs: seq<Record>, r: Record, name: seq<byte>)
    ensures HasAuthority(rs + [r], name) == (HasAuthority(rs, name) || IsAuthority(r, name))
  {
    hide IsAuthority;
    var all := rs + [r];
    assert all[|rs|] == r && forall i | 0 <= i < |rs| :: all[i] == rs[i];
    assert forall i | 0 <= i < |all| :: all[i] == if i < |rs| then rs[i] else r;
  }

  /** A disagreement among the first aliases is never repaired. */
  lemma {:induction false} AmbiguousStays(rs: seq<Record>, k: nat, name: seq<byte>)
    requires k <= |rs| && Follow(rs[..k], name).Ambiguous?
    ensures Follow(rs, name).Ambiguous?
    decreases |rs| - k
  {
    if k < |rs| {
      FollowOne(rs[..k], rs[k], name);
      assert rs[..k] + [rs[k]] == rs[..k + 1];
      AmbiguousStays(rs, k + 1, name);
    } else {
      assert rs[..k] == rs;
    }
  }

  lemma {:induction false} PlacedAlias(msg: seq<byte>, r: Record, off: nat, current: seq<byte>)
    requires Placed(msg, r, off)
    ensures AliasOf(r, current) <==> r.section == ANSWER && r.kind == CNAME && Canonical(r.owner) == current
    ensures r.kind == CNAME ==> |r.embedded| == 1 && Decode(msg, r.data) == Ok(r.embedded[0]) && Labels(AliasTarget(r))
  {
    hide Decode, Labels, Fold;
    if r.kind == CNAME {
      DecodedNames(msg, r.data);
      FoldLabels(r.embedded[0].wire);
    }
  }

  lemma {:induction false} NoLinkYet(current: seq<byte>)
    ensures Follow([], current) == NoLink && !HasAuthority([], current)
  {
  }

  /** One scan of the message for one name of the chain. */
  method FindLink(s: Scanner, msg: seq<byte>, current: seq<byte>, ghost rs: seq<Record>) returns (link: Link, soa: bool)
    requires s.Valid() && Labels(current)
    requires ScanMessage(msg).Ok? && rs == RecordsOf(msg)
    modifies s
    ensures s.Valid() && link == Follow(rs, current) && (!link.Ambiguous? ==> soa == HasAuthority(rs, current))
    ensures link.Link? ==> Labels(link.target)
  {
    hide Next, ScanFrom, Follow, HasAuthority, AliasOf, Labels, Enclosing, Left, ParseQuestion, Placed, Fold, Decode;
    var ok := s.Init(msg);
    ghost var c0 := s.At();
    link, soa := NoLink, false;
    ghost var seen: seq<Record> := [];
    ghost var all := ScanFrom(msg, c0, None);
    AfterNothing(all);
    NoLinkYet(current);
    ScanPlaced(msg, c0, None);
    while true
      invariant s.Valid() && s.msg == msg && s.err.None?
      invariant all == After(seen, ScanFrom(msg, s.At(), None))
      invariant link == Follow(seen, current) && soa == HasAuthority(seen, current) && !link.Ambiguous?
      invariant link.Link? ==> Labels(link.target)
      decreases Left(s.At())
    {
      ghost var c := s.At();
      ScanStep(msg, c, None);
      NextLess'(msg, c, None);
      var record := s.NextRecord(null);
      if record.None? {
        assert seen + [] == seen;
        return;
      }
      var r := record.value;
      AfterOne(seen, r, ScanFrom(msg, s.At(), None));
      seen := seen + [r];
      AfterHas(seen, all, ScanFrom(msg, s.At(), None));
      PlacedAlias(msg, r, c0.off, current);
      link, soa := UseRecord(msg, current, r, link, soa, seen[..|seen| - 1]);
      assert seen[..|seen| - 1] + [r] == seen;
      if link.Ambiguous? {
        AmbiguousStays(rs, |seen|, current);
        return;
      }
    }
  }

  lemma {:induction false} AfterHas(seen: seq<Record>, all: Result<Scan>, rest: Result<Scan>)
    requires all.Ok? && all == After(seen, rest) && seen != []
    ensures |seen| <= |all.value.records| && all.value.records[..|seen|] == seen && all.value.records[|seen| - 1] == seen[|seen| - 1]
  {
  }

  /** What one record adds to the search. */
  method UseRecord(msg: seq<byte>, current: seq<byte>, r: Record, link0: Link, soa0: bool, ghost seen: seq<Record>) returns (link: Link, soa: bool)
    requires Labels(current) && link0 == Follow(seen, current) && soa0 == HasAuthority(seen, current) && !link0.Ambiguous?
    requires AliasOf(r, current) <==> r.section == ANSWER && r.kind == CNAME && Canonical(r.owner) == current
    requires r.kind == CNAME ==> |r.embedded| == 1 && Decode(msg, r.data) == Ok(r.embedded[0]) && Labels(AliasTarget(r))
    requires link0.Link? ==> Labels(link0.target)
    ensures link == Follow(seen + [r], current) && soa == HasAuthority(seen + [r], current)
    ensures link.Link? ==> Labels(link.target)
  {
    hide Follow, HasAuthority, Labels, Enclosing, Decode, Fold;
    FollowOne(seen, r, current);
    AuthorityOne(seen, r, current);
    link, soa := link0, soa0;
    if r.section == AUTHORITY && r.kind == SOA {
      var found := EnclosingZone(current, Canonical(r.owner));
      if found {
        soa := true;
      }
    }
    if r.section == ANSWER && r.kind == CNAME && Canonical(r.owner) == current {
      var target, canonical := DecodeName(msg, r.data);
      if link.Link? {
        if link.target != canonical {
          link := Ambiguous;
        }
      } else {
        link := Link(canonical, r.start);
      }
    }
  }

  /** The whole chain, one scan per link. */
  method FollowAliases(msg: seq<byte>, name: seq<byte>, ghost rs: seq<Record>) returns (r: Result<bool>)
    requires Labels(name) && ScanMessage(msg).Ok? && rs == RecordsOf(msg)
    ensures r == NegativeAuthority(rs, name, [])
  {
    hide Follow, HasAuthority, Labels, ScanMessage;
    var s := new Scanner();
    var current: seq<byte>, seen: seq<nat> := name, [];
    while true
      invariant s.Valid() && fresh(s) && |seen| <= MAX_LINKS && Labels(current)
      invariant NegativeAuthority(rs, name, []) == NegativeAuthority(rs, current, seen)
      decreases MAX_LINKS - |seen|
    {
      var link, soa := FindLink(s, msg, current, rs);
      if link.Ambiguous? {
        return Err(ErrTemplate);
      }
      if link.NoLink? {
        return Ok(soa);
      }
      if |seen| == MAX_LINKS || link.start in seen {
        return Err(ErrTemplate);
      }
      seen, current := seen + [link.start], link.target;
    }
  }

  // ---- the patch table ----

  function EmitAfter(done: seq<Patch>, r: Result<seq<Patch>>): Result<seq<Patch>> {
    if r.Err? then r else Ok(done + r.value)
  }

  lemma {:induction false} EmitStep(msg: seq<byte>, r: Record, rest: seq<Record>, negative: bool, maxNegative: uint32, room: nat, done: seq<Patch>)
    ensures EmitAfter(done, Emit(msg, [r] + rest, negative, maxNegative, room)) ==
      if r.ttlOffset.None? then EmitAfter(done, Emit(msg, rest, negative, maxNegative, room))
      else if r.ttl == 0 || r.ttl > MAX_TTL || KeptTTL(msg, r, negative, maxNegative) == 0 then Err(ErrTemplate)
      else if room < 8 || r.ttlOffset.value > 65535 then Err(ErrBounds)
      else EmitAfter(done + [Patch(r.ttlOffset.value, KeptTTL(msg, r, negative, maxNegative))], Emit(msg, rest, negative, maxNegative, room - 8))
  {
    hide KeptTTL;
    var rs := [r] + rest;
    assert rs[0] == r && rs[1..] == rest;
    if r.ttlOffset.Some? && r.ttlOffset.value <= 65535 && room >= 8 {
      var p := Patch(r.ttlOffset.value, KeptTTL(msg, r, negative, maxNegative));
      var tail := Emit(msg, rest, negative, maxNegative, room - 8);
      if tail.Ok? {
        assert done + ([p] + tail.value) == done + [p] + tail.value;
      }
    }
  }

  method PutPatch(patches: array<byte>, at: nat, p: Patch)
    requires at + 8 <= patches.Length
    modifies patches
    ensures patches[..at + 8] == old(patches[..at]) + EncodePatch(p)
  {
    patches[at], patches[at + 1], patches[at + 2], patches[at + 3] := p.offset / 256, p.offset % 256, 0, 0;
    patches[at + 4], patches[at + 5], patches[at + 6], patches[at + 7] :=
      p.ttl / 0x100_0000, p.ttl / 0x1_0000 % 256, p.ttl / 256 % 256, p.ttl % 256;
    ghost var e := EncodePatch(p);
    assert patches[at..at + 8] == e;
    assert patches[..at + 8] == patches[..at] + patches[at..at + 8];
    assert patches[..at] == old(patches[..at]);
  }

  lemma {:induction false} TableOne(ps: seq<Patch>, p: Patch)
    ensures Table(ps + [p]) == Table(ps) + EncodePatch(p) && Lifetime(ps + [p]) == Least(Lifetime(ps), p.ttl)
  {
    assert (ps + [p])[..|ps|] == ps;
  }

  /** With these patches done, the records from the cursor on decide the rest. */
  ghost predicate Emitting(msg: seq<byte>, rs: seq<Record>, c: Cursor, done: seq<Patch>, negative: bool, maxNegative: uint32, room: nat) {
    && CursorOK(c) && 8 * |done| <= room && ScanFrom(msg, c, None).Ok?
    && Emit(msg, rs, negative, maxNegative, room) ==
       EmitAfter(done, Emit(msg, ScanFrom(msg, c, None).value.records, negative, maxNegative, room - 8 * |done|))
  }

  lemma {:induction false} EmittingStart(msg: seq<byte>, q: Question, rs: seq<Record>, negative: bool, maxNegative: uint32, room: nat)
    requires ScanMessage(msg).Ok? && rs == RecordsOf(msg) && ParseQuestion(msg) == Ok(q) && |msg| >= 12
    ensures Emitting(msg, rs, Start(msg, q), [], negative, maxNegative, room)
  {
    hide ParseQuestion, ScanFrom, Emit;
    EmitStart(msg, rs, negative, maxNegative, room);
  }

  lemma {:induction false} EmittingNext(msg: seq<byte>, rs: seq<Record>, c: Cursor, done: seq<Patch>, negative: bool, maxNegative: uint32, room: nat)
    requires Emitting(msg, rs, c, done, negative, maxNegative, room) && |msg| <= MAX_MESSAGE
    ensures var n, all := Next(msg, c, None), Emit(msg, rs, negative, maxNegative, room);
      && !n.Fail? && (n.Done? ==> all == Ok(done))
      && (n.Got? && n.record.ttlOffset.None? ==> Emitting(msg, rs, n.cursor, done, negative, maxNegative, room))
      && (n.Got? && n.record.ttlOffset.Some? ==>
            && n.record.ttlOffset.value <= 65535
            && var ttl := KeptTTL(msg, n.record, negative, maxNegative);
               if n.record.ttl == 0 || n.record.ttl > MAX_TTL || ttl == 0 then all == Err(ErrTemplate)
               else if room - 8 * |done| < 8 then all == Err(ErrBounds)
               else Emitting(msg, rs, n.cursor, done + [Patch(n.record.ttlOffset.value, ttl)], negative, maxNegative, room))
  {
    hide Next, ScanFrom, Emit, EmitAfter, KeptTTL, Placed;
    ScanStep(msg, c, None);
    NextLess'(msg, c, None);
    var n, left := Next(msg, c, None), room - 8 * |done|;
    if n.Done? {
      EmitEnd(msg, negative, maxNegative, left, done);
    } else {
      NextPlaced(msg, c, None);
      NamesStay(msg, c);
      PlacedOffset(msg, n.record, c.off);
      EmitStep(msg, n.record, ScanFrom(msg, n.cursor, None).value.records, negative, maxNegative, left, done);
    }
  }

  lemma {:induction false} NamesStay(msg: seq<byte>, c: Cursor)
    requires CursorOK(c) && Next(msg, c, None).Got?
    ensures Next(msg, c, None).names == None
  {
    hide Next;
    NextWithoutNames(msg, c, None);
  }

  /** Second pass: emits the patches and folds the lifetime. */
  method WritePatches(s: Scanner, msg: seq<byte>, patches: array<byte>, negative: bool, maxNegative: uint32, ghost rs: seq<Record>)
    returns (r: Result<uint32>, done: seq<Patch>)
    requires s.Valid() && ScanMessage(msg).Ok? && rs == RecordsOf(msg)
    modifies s, patches
    ensures r.Err? ==> Emit(msg, rs, negative, maxNegative, patches.Length) == Err(r.error)
    ensures r.Ok? ==>
      && Emit(msg, rs, negative, maxNegative, patches.Length) == Ok(done) && r.value == Lifetime(done)
      && 8 * |done| <= patches.Length && patches[..8 * |done|] == Table(done)
  {
    hide Next, Emit, Left, ParseQuestion, Table, Lifetime, EncodePatch, KeptTTL, Emitting, Start, RecordsOf;
    QuestionSize(msg);
    var ok := s.Init(msg);
    done := [];
    var lifetime: uint32 := 0xffff_ffff;
    var count: nat := 0;
    EmitStart(msg, rs, negative, maxNegative, patches.Length);
    EmittingStart(msg, s.question.value, rs, negative, maxNegative, patches.Length);
    hide ScanMessage, ScanFrom;
    while true
      invariant s.Valid() && s.msg == msg && s.err.None? && count == |done| && lifetime == Lifetime(done)
      invariant Emitting(msg, rs, s.At(), done, negative, maxNegative, patches.Length)
      invariant 8 * count <= patches.Length && patches[..8 * count] == Table(done)
      decreases Left(s.At())
    {
      EmittingNext(msg, rs, s.At(), done, negative, maxNegative, patches.Length);
      NextLess'(msg, s.At(), None);
      var record := s.NextRecord(null);
      if record.None? {
        return Ok(lifetime), done;
      }
      if record.value.ttlOffset.None? {
        continue;
      }
      var p := OnePatch(msg, record.value, patches, 8 * count, negative, maxNegative);
      if p.Err? {
        return Err(p.error), done;
      }
      TableOne(done, p.value);
      done, count, lifetime := done + [p.value], count + 1, Least(lifetime, p.value.ttl);
    }
  }

  /** Checks one TTL and writes its patch. */
  method OnePatch(msg: seq<byte>, rr: Record, patches: array<byte>, at: nat, negative: bool, maxNegative: uint32) returns (p: Result<Patch>)
    requires rr.ttlOffset.Some? && rr.ttlOffset.value <= 65535 && at <= patches.Length
    modifies patches
    ensures var ttl := KeptTTL(msg, rr, negative, maxNegative);
      p == if rr.ttl == 0 || rr.ttl > MAX_TTL || ttl == 0 then Err(ErrTemplate)
      else if patches.Length - at < 8 then Err(ErrBounds)
      else Ok(Patch(rr.ttlOffset.value, ttl))
    ensures p.Ok? ==> at + 8 <= patches.Length && patches[..at + 8] == old(patches[..at]) + EncodePatch(p.value)
  {
    hide EncodePatch;
    var ttl := rr.ttl;
    if ttl == 0 || ttl > MAX_TTL {
      return Err(ErrTemplate);
    }
    if negative && rr.kind == SOA && rr.section == AUTHORITY {
      ttl := Least(Least(ttl, Minimum(msg, rr)), maxNegative);
      if ttl == 0 {
        return Err(ErrTemplate);
      }
    }
    if patches.Length - at < 8 {
      return Err(ErrBounds);
    }
    p := Ok(Patch(rr.ttlOffset.value, ttl));
    PutPatch(patches, at, p.value);
  }

  lemma {:induction false} QuestionSize(msg: seq<byte>)
    requires ScanMessage(msg).Ok?
    ensures 12 <= |msg| <= MAX_MESSAGE
  {
  }

  lemma {:induction false} PlacedOffset(msg: seq<byte>, r: Record, off: nat)
    requires Placed(msg, r, off) && |msg| <= MAX_MESSAGE
    ensures r.ttlOffset.Some? ==> r.ttlOffset.value <= 65535
  {
  }

  lemma {:induction false} EmitStart(msg: seq<byte>, rs: seq<Record>, negative: bool, maxNegative: uint32, room: nat)
    ensures EmitAfter([], Emit(msg, rs, negative, maxNegative, room)) == Emit(msg, rs, negative, maxNegative, room)
    ensures Table([]) == [] && Lifetime([]) == 0xffff_ffff
  {
    var r := Emit(msg, rs, negative, maxNegative, room);
    if r.Ok? {
      assert [] + r.value == r.value;
    }
  }

  lemma {:induction false} EmitEnd(msg: seq<byte>, negative: bool, maxNegative: uint32, room: nat, done: seq<Patch>)
    ensures EmitAfter(done, Emit(msg, [], negative, maxNegative, room)) == Ok(done)
  {
    assert done + [] == done;
  }

  // ---- the builder ----

  /** Accepts or refuses a response as a template and fills the caller's table. */
  method PrepareTemplate(msg: seq<byte>, patches: array<byte>, maxNegative: uint32) returns (r: Result<Template>)
    modifies patches
    ensures r.Err? ==> Prepare(msg, patches.Length, maxNegative) == r
    ensures r.Ok? ==>
      && r == Prepare(msg, patches.Length, maxNegative)
      && 8 * |r.value.patches| <= patches.Length && patches[..8 * |r.value.patches|] == Table(r.value.patches)
  {
    hide ParseQuestion, AddMarks, FirstPass, QuestionFits, EdnsFits, Emit, Authority, IsNegative, Decode, Table, Lifetime, Fold, Labels;
    var s := new Scanner();
    var ok := s.Init(msg);
    if !ok {
      return Err(s.err.value);
    }
    var q := s.question.value;
    if !QuestionFits(q) {
      return Err(ErrTemplate);
    }
    QuestionName(msg);
    var names := new bool[BITS](_ => false);
    assert Marked(names) == {};
    ok := Mark(names, msg, 12);
    if !ok {
      return Err(ErrTemplate);
    }
    var facts, all := Inspect(s, q, names);
    if facts.Err? {
      return Err(facts.error);
    }
    if !EdnsFits(s.edns) {
      return Err(ErrTemplate);
    }
    r := Conclude(s, msg, q, facts.value, patches, maxNegative, all.value);
  }

  lemma {:induction false} QuestionName(msg: seq<byte>)
    requires ParseQuestion(msg).Ok?
    ensures Decode(msg, 12).Ok? && Labels(Canonical(ParseQuestion(msg).value.name))
  {
    hide Decode, Labels;
    DecodedNames(msg, 12);
    FoldLabels(ParseQuestion(msg).value.name.wire);
  }

  method Conclude(s: Scanner, msg: seq<byte>, q: Question, facts: Facts, patches: array<byte>, maxNegative: uint32, ghost scan: Scan)
    returns (r: Result<Template>)
    requires s.Valid() && ParseQuestion(msg) == Ok(q) && Labels(Canonical(q.name)) && Learned(q, scan.records, facts)
    requires |msg| >= 12 && exists marks :: FirstPass(msg, Start(msg, q), Some(marks)) == Ok(scan)
    modifies s, patches
    ensures r.Err? ==> Finish(msg, q, scan.records, patches.Length, maxNegative) == r
    ensures r.Ok? ==>
      && r == Finish(msg, q, scan.records, patches.Length, maxNegative)
      && 8 * |r.value.patches| <= patches.Length && patches[..8 * |r.value.patches|] == Table(r.value.patches)
  {
    hide ParseQuestion, FirstPass, Emit, Table, Lifetime, Fold, Labels, HasAuthority, NegativeAuthority, Answers, IsAlias, Start;
    ghost var rs := scan.records;
    FirstPassRecords(msg, q, scan);
    var negative := q.flags % 16 == 3 || !facts.positive;
    assert negative == IsNegative(q, rs);
    var soa := facts.soa;
    if negative && facts.cname {
      var chain := FollowAliases(msg, Canonical(q.name), rs);
      if chain.Err? {
        return Err(chain.error);
      }
      soa := chain.value;
    }
    assert negative ==> Authority(q, rs) == Ok(soa);
    if negative && (!soa || maxNegative == 0) {
      return Err(ErrTemplate);
    }
    var lifetime, done := WritePatches(s, msg, patches, negative, maxNegative, rs);
    if lifetime.Err? {
      return Err(lifetime.error);
    }
    if done == [] {
      return Err(ErrTemplate);
    }
    r := Ok(Template(lifetime.value, done, negative));
  }

  lemma {:induction false} FirstPassRecords(msg: seq<byte>, q: Question, scan: Scan)
    requires |msg| >= 12 && ParseQuestion(msg) == Ok(q) && exists marks :: FirstPass(msg, Start(msg, q), Some(marks)) == Ok(scan)
    ensures ScanMessage(msg).Ok? && RecordsOf(msg) == scan.records
  {
    hide FirstPass, ScanFrom, ParseQuestion, Start;
    var marks :| FirstPass(msg, Start(msg, q), Some(marks)) == Ok(scan);
    FirstPassScans(msg, Start(msg, q), Some(marks));
    ScanWithoutNames(msg, Start(msg, q), Some(marks));
  }
}
