/** Personalising an uncached reply (internal/dnswire/personalize.go). */
module DnsPersonal {
  import opened Common
  import opened WireBytes
  import opened CacheReply
  import opened DnsName
  import opened DnsRecords
  import opened DnsPatched
  import opened DnsTemplate
  import opened DnsScanner

  /** The client's question, as parsed. */
  datatype Want = Want(id: uint16, flagsHigh: byte, flagsLow: byte, name: seq<byte>, kind: uint16, rrClass: uint16)

  // ---- names compared with the original ----

  /** A name means the same in both messages. */
  predicate Kept(msg: seq<byte>, ref: seq<byte>, off: nat) {
    var a, b := Decode(msg, off), Decode(ref, off);
    a.Ok? && b.Ok? && a.value.end == b.value.end && |a.value.wire| == |b.value.wire| && Canonical(a.value) == Canonical(b.value)
  }

  /** So do count names one behind the other. */
  predicate AllKept(msg: seq<byte>, ref: seq<byte>, off: nat, count: nat)
    decreases count
  {
    count == 0 || (Kept(msg, ref, off) && AllKept(msg, ref, Decode(msg, off).value.end, count - 1))
  }

  function NamesIn(r: Record): nat { if ShapeOf(r.kind).Some? && r.kind != OPT then ShapeOf(r.kind).value.count else 0 }
  function FirstName(r: Record): nat { r.data + if ShapeOf(r.kind).Some? then ShapeOf(r.kind).value.prefix else 0 }

  predicate RecordKept(msg: seq<byte>, ref: seq<byte>, r: Record) { Kept(msg, ref, r.start) && AllKept(msg, ref, FirstName(r), NamesIn(r)) }

  /** The scan of the candidate, each name compared with the original. */
  predicate ScansLike(msg: seq<byte>, ref: seq<byte>, c: Cursor)
    requires CursorOK(c)
    decreases Left(c)
  {
    var n := Next(msg, c, None);
    n.Done? || (n.Got? && RecordKept(msg, ref, n.record) && ScansLike(msg, ref, n.cursor))
  }

  // ---- the candidate ----

  /** Copies the client's spelling over the literal labels of the encoded question, up to a root or a pointer. */
  function PatchLabels(m: seq<byte>, acc: seq<byte>, off: nat, w: seq<byte>, at: nat): (r: seq<byte>)
    requires |acc| == |m|
    ensures |r| == |m|
    decreases |m| - off
  {
    if Stops(m, off, w, at) then acc
    else PatchLabels(m, Put(acc, off + 1, w[at + 1..at + 1 + m[off]]), off + 1 + m[off], w, at + 1 + m[off])
  }

  predicate Stops(m: seq<byte>, off: nat, w: seq<byte>, at: nat) {
    off >= |m| || m[off] == 0 || m[off] >= 64 || off + 1 + m[off] > |m| || at + 1 + m[off] > |w|
  }

  /** The original with the client's ID and flag bits. */
  function WithHeader(m: seq<byte>, want: Want): (r: seq<byte>)
    requires |m| >= 12
    ensures |r| == |m|
  {
    Put(Put(m, 0, Be16(want.id)), 2, [FlagsHigh(m[2], want.flagsHigh), FlagsLow(m[3], want.flagsLow)])
  }

  function Candidate(m: seq<byte>, want: Want): (r: seq<byte>)
    requires |m| >= 12
    ensures |r| == |m|
  {
    PatchLabels(m, WithHeader(m, want), 12, want.name, 0)
  }

  /** A reply without records is rebuilt with the client's question written out. */
  function Rebuilt(m: seq<byte>, want: Want): seq<byte>
    requires |m| >= 12
  {
    WithHeader(m[..12], want) + want.name + Be16(want.kind) + Be16(want.rrClass)
  }

  predicate NoRecords(m: seq<byte>)
    requires |m| >= 12
  {
    U16(m, 6) == 0 && U16(m, 8) == 0 && U16(m, 10) == 0
  }

  /** The personalised reply for a buffer of this room, if there is one; kinds of failure are not told apart. */
  function Personalize(m: seq<byte>, want: Want, room: nat): Option<seq<byte>> {
    if ScanMessage(m).Err? || ParseQuestion(m).Err? || |m| < 12 then None
    else
      var q := ParseQuestion(m).value;
      if q.flags / 0x8000 == 0 || q.kind != want.kind || q.rrClass != want.rrClass || |q.name.wire| != |want.name| || Canonical(q.name) != Fold(want.name) then None
      else if q.name.compressed && NoRecords(m) then
        if room < 16 + |want.name| then None else Some(Rebuilt(m, want))
      else if room < |m| then None
      else
        var c := Candidate(m, want);
        var p := ParseQuestion(c);
        if p.Ok? && p.value.name.wire == want.name && ScansLike(c, m, Start(c, p.value)) then Some(c) else None
  }

  // ---- what patching leaves alone ----

  /** Label starts and pointers of the name at off are the same in both messages. */
  predicate SameSkeleton(m: seq<byte>, c: seq<byte>, off: nat)
    decreases |m| - off
  {
    && off < |m| == |c| && m[off] == c[off]
    && (m[off] >= 192 && off + 1 < |m| ==> m[off + 1] == c[off + 1])
    && (0 < m[off] < 64 && off + 1 + m[off] < |m| ==> SameSkeleton(m, c, off + 1 + m[off]))
  }

  /** Names with the same skeleton end at the same place and are compressed alike. */
  lemma {:induction false} EndsSame(m: seq<byte>, c: seq<byte>, off: nat, n: nat)
    requires n <= MAX_NAME && SameSkeleton(m, c, off) && Walk(m, off, [], n).Ok? && Walk(c, off, [], n).Ok?
    ensures Walk(m, off, [], n).value.end == Walk(c, off, [], n).value.end && Walk(m, off, [], n).value.compressed == Walk(c, off, [], n).value.compressed
    decreases |m| - off
  {
    hide Walk;
    WalkFirst(m, off, n);
    WalkFirst(c, off, n);
    if 0 < m[off] < 64 {
      WalkFirst(m, off + 1 + m[off], n + 1 + m[off]);
      EndsSame(m, c, off + 1 + m[off], n + 1 + m[off]);
    }
  }

  /** Patching touches only label contents between off and the end of the name. */
  lemma {:induction false} PatchedSkeleton(m: seq<byte>, acc: seq<byte>, off: nat, w: seq<byte>, at: nat, n: nat)
    requires n <= MAX_NAME && Walk(m, off, [], n).Ok? && |acc| == |m| && forall i | off <= i < |m| :: acc[i] == m[i]
    ensures var r, end := PatchLabels(m, acc, off, w, at), Walk(m, off, [], n).value.end;
      && (forall i | 0 <= i <= off && i < |m| :: r[i] == acc[i]) && (forall i | end <= i < |m| :: r[i] == m[i]) && SameSkeleton(m, r, off)
    decreases |m| - off
  {
    hide Walk, Put;
    WalkFirst(m, off, n);
    if Stops(m, off, w, at) {
      SkeletonReflexive(m, off);
      SkeletonBehind(m, m, acc, off);
    } else {
      var next: nat := off + 1 + m[off];
      WalkFirst(m, next, n + 1 + m[off]);
      var more := Put(acc, off + 1, w[at + 1..at + 1 + m[off]]);
      PatchedSkeleton(m, more, next, w, at + 1 + m[off], n + 1 + m[off]);
    }
  }

  lemma {:induction false} SkeletonReflexive(m: seq<byte>, off: nat)
    requires off < |m|
    ensures SameSkeleton(m, m, off)
    decreases |m| - off
  {
    if 0 < m[off] < 64 && off + 1 + m[off] < |m| {
      SkeletonReflexive(m, off + 1 + m[off]);
    }
  }

  lemma {:induction false} SkeletonBehind(m: seq<byte>, c: seq<byte>, d: seq<byte>, off: nat)
    requires SameSkeleton(m, c, off) && |d| == |c| && forall i | off <= i < |c| :: d[i] == c[i]
    ensures SameSkeleton(m, d, off)
    decreases |m| - off
  {
    if 0 < m[off] < 64 && off + 1 + m[off] < |m| {
      SkeletonBehind(m, c, d, off + 1 + m[off]);
    }
  }

  /** The candidate equals the original but for ID, flags and question labels. */
  lemma {:induction false} CandidateBytes(m: seq<byte>, want: Want)
    requires ParseQuestion(m).Ok? && |m| >= 12
    ensures var c, q := Candidate(m, want), ParseQuestion(m).value;
      && (forall i | 0 <= i < |m| && 4 <= i && (i <= 12 || q.name.end <= i) :: c[i] == m[i]) && SameSkeleton(m, c, 12)
  {
    hide ParseQuestion, Put, Walk, FlagsHigh, FlagsLow, Be16, PatchLabels;
    QuestionBounds(m);
    PatchedSkeleton(m, WithHeader(m, want), 12, want.name, 0, 0);
  }

  // ---- the scans agree ----

  ghost predicate SameNext(msg: seq<byte>, ref: seq<byte>, c: Cursor)
    requires CursorOK(c)
  {
    var n, o := Next(msg, c, None), Next(ref, c, None);
    && n.Got? && o.Got? && n.cursor == o.cursor && n.record.start == o.record.start && n.record.kind == o.record.kind && n.record.rrClass == o.record.rrClass
    && n.record.ttl == o.record.ttl && n.record.section == o.record.section && n.record.data == o.record.data && n.record.end == o.record.end
    && n.record.ttlOffset == o.record.ttlOffset && Canonical(n.record.owner) == Canonical(o.record.owner)
    && |n.record.embedded| == |o.record.embedded|
    && forall i | 0 <= i < |n.record.embedded| :: Canonical(n.record.embedded[i]) == Canonical(o.record.embedded[i])
  }

  lemma {:induction false} NamesAgree(msg: seq<byte>, ref: seq<byte>, off: nat, end: nat, count: nat, compression: bool)
    requires ReadNames(msg, off, end, count, compression, None).Ok? && ReadNames(ref, off, end, count, compression, None).Ok? && AllKept(msg, ref, off, count)
    ensures var a, b := ReadNames(msg, off, end, count, compression, None).value, ReadNames(ref, off, end, count, compression, None).value;
      a.next == b.next && |a.list| == |b.list| == count && forall i | 0 <= i < count :: Canonical(a.list[i]) == Canonical(b.list[i])
    decreases count
  {
    hide Decode, Canonical;
    if count > 0 {
      NamesAgree(msg, ref, Decode(msg, off).value.end, end, count - 1, compression);
    }
  }

  lemma {:induction false} DataAgrees(msg: seq<byte>, ref: seq<byte>, kind: uint16, off: nat, end: nat)
    requires off <= end <= |msg| == |ref| && ReadData(msg, kind, off, end, None).Ok? && ReadData(ref, kind, off, end, None).Ok?
    requires ShapeOf(kind).Some? ==> AllKept(msg, ref, off + ShapeOf(kind).value.prefix, ShapeOf(kind).value.count)
    ensures var a, b := ReadData(msg, kind, off, end, None).value, ReadData(ref, kind, off, end, None).value;
      |a.list| == |b.list| && forall i | 0 <= i < |a.list| :: Canonical(a.list[i]) == Canonical(b.list[i])
  {
    hide PlainOK, TailOK, ReadNames, ShapeOf, Canonical, AllKept;
    if ShapeOf(kind).Some? {
      var s := ShapeOf(kind).value;
      NamesAgree(msg, ref, off + s.prefix, end, s.count, s.compression);
    }
  }

  /** Records behind unchanged bytes, with kept names, are the same records. */
  lemma {:induction false} NextAgrees(msg: seq<byte>, ref: seq<byte>, c: Cursor)
    requires CursorOK(c) && Next(msg, c, None).Got? && Next(ref, c, None).Got? && RecordKept(msg, ref, Next(msg, c, None).record)
    requires |msg| == |ref| && forall i | c.off <= i < |ref| :: msg[i] == ref[i]
    ensures SameNext(msg, ref, c)
  {
    hide U16, U32, CheckedName, Skip, Options, ReadData, Canonical, ReadNames, Decode, ShapeOf, AllKept;
    NextPlaced(msg, c, None);
    NextPlaced(ref, c, None);
    var n, o := Next(msg, c, None).record, Next(ref, c, None).record;
    OwnerOf(msg, c);
    OwnerOf(ref, c);
    var off := n.owner.end;
    EqualFrom(msg, ref, c.off, off);
    SameWords(ref, msg, off, |ref|, off);
    SameWords(ref, msg, off, |ref|, off + 2);
    SameWords(ref, msg, off, |ref|, off + 4);
    SameWords(ref, msg, off, |ref|, off + 8);
    hide Placed;
    if n.kind == OPT {
      EqualSlice(ref, msg, n.data, n.end);
    } else {
      DataAgrees(msg, ref, n.kind, n.data, n.end);
    }
  }

  lemma {:induction false} EqualFrom(msg: seq<byte>, ref: seq<byte>, start: nat, off: nat)
    requires |msg| == |ref| && start <= off <= |ref| && forall i | start <= i < |ref| :: msg[i] == ref[i]
    ensures forall a: nat, b: nat | off <= a <= b <= |ref| :: Equal(ref, msg, a, b)
  {
  }

  lemma {:induction false} OwnerOf(msg: seq<byte>, c: Cursor)
    requires CursorOK(c) && Next(msg, c, None).Got?
    ensures var r := Next(msg, c, None).record; CheckedName(msg, c.off, None) == Ok(Checked(r.owner, None)) && r.start == c.off && Decode(msg, c.off) == Ok(r.owner)
  {
    hide U16, U32, Decode, Options, ReadData;
    NextPlaced(msg, c, None);
  }

  ghost predicate SameMeaning(a: Record, b: Record) {
    && a.start == b.start && a.kind == b.kind && a.rrClass == b.rrClass && a.ttl == b.ttl && a.section == b.section
    && a.data == b.data && a.end == b.end && a.ttlOffset == b.ttlOffset && Canonical(a.owner) == Canonical(b.owner)
    && |a.embedded| == |b.embedded| && forall i | 0 <= i < |a.embedded| :: Canonical(a.embedded[i]) == Canonical(b.embedded[i])
  }

  ghost predicate AllSame(a: seq<Record>, b: seq<Record>) { |a| == |b| && forall i | 0 <= i < |a| :: SameMeaning(a[i], b[i]) }

  lemma {:induction false} ScansAgree(msg: seq<byte>, ref: seq<byte>, c: Cursor)
    requires CursorOK(c) && ScanFrom(ref, c, None).Ok? && ScansLike(msg, ref, c)
    requires |msg| == |ref| && forall i | c.off <= i < |ref| :: msg[i] == ref[i]
    ensures ScanFrom(msg, c, None).Ok? && ScanFrom(msg, c, None).value.edns == ScanFrom(ref, c, None).value.edns
    ensures AllSame(ScanFrom(msg, c, None).value.records, ScanFrom(ref, c, None).value.records)
    decreases Left(c)
  {
    hide Next, RecordKept, SameMeaning, Left;
    NextBoth(msg, ref, c);
    if Next(msg, c, None).Got? {
      NextAgrees(msg, ref, c);
      MeaningOf(msg, ref, c);
      NextLess(msg, c, None);
      NextPlaced(msg, c, None);
      NoMarks(msg, c);
      NoMarks(ref, c);
      hide Placed;
      var n := Next(msg, c, None);
      Further(msg, c);
      ScansAgree(msg, ref, n.cursor);
    }
  }

  lemma {:induction false} Further(msg: seq<byte>, c: Cursor)
    requires CursorOK(c) && Next(msg, c, None).Got?
    ensures Next(msg, c, None).cursor.off >= c.off
  {
    hide Next;
    NextPlaced(msg, c, None);
  }

  lemma {:induction false} NoMarks(msg: seq<byte>, c: Cursor)
    requires CursorOK(c) && Next(msg, c, None).Got?
    ensures Next(msg, c, None).names == None
  {
    hide Next;
    NextWithoutNames(msg, c, None);
  }

  lemma {:induction false} MeaningOf(msg: seq<byte>, ref: seq<byte>, c: Cursor)
    requires CursorOK(c) && SameNext(msg, ref, c)
    ensures Next(ref, c, None).Got? && Next(msg, c, None).cursor == Next(ref, c, None).cursor
    ensures SameMeaning(Next(msg, c, None).record, Next(ref, c, None).record)
  {
    hide Next, Canonical;
  }

  /** Whether records are left depends on the cursor alone. */
  lemma {:induction false} NextBoth(msg: seq<byte>, ref: seq<byte>, c: Cursor)
    requires CursorOK(c) && |msg| == |ref| && !Next(msg, c, None).Fail? && !Next(ref, c, None).Fail?
    ensures Next(msg, c, None).Got? <==> Next(ref, c, None).Got?
  {
    hide CheckedName, U16, U32, ReadData, Options;
  }

  // ---- the guarantee ----

  lemma {:induction false} QuestionsAlign(m: seq<byte>, want: Want)
    requires |m| >= 12 && ParseQuestion(m).Ok? && ParseQuestion(Candidate(m, want)).Ok?
    ensures var c := Candidate(m, want);
      && Start(c, ParseQuestion(c).value) == Start(m, ParseQuestion(m).value)
      && ParseQuestion(c).value.kind == ParseQuestion(m).value.kind && ParseQuestion(c).value.rrClass == ParseQuestion(m).value.rrClass
      && forall i | ParseQuestion(m).value.end <= i < |m| :: c[i] == m[i]
  {
    hide U16, Walk, Candidate, SameSkeleton;
    var c := Candidate(m, want);
    CandidateBytes(m, want);
    QuestionBounds(m);
    QuestionBounds(c);
    EndsSame(m, c, 12, 0);
    var end := ParseQuestion(m).value.name.end;
    assert Equal(m, c, 4, 12) && Equal(m, c, end, end + 4);
    hide ParseQuestion;
    SameWords(m, c, 4, 12, 6);
    SameWords(m, c, 4, 12, 8);
    SameWords(m, c, 4, 12, 10);
    SameWords(m, c, end, end + 4, end);
    SameWords(m, c, end, end + 4, end + 2);
    QuestionFields(m);
    QuestionFields(c);
  }

  lemma {:induction false} QuestionFields(m: seq<byte>)
    requires ParseQuestion(m).Ok?
    ensures var q := ParseQuestion(m).value;
      |m| >= 12 && q.end == q.name.end + 4 <= |m| && q.kind == U16(m, q.name.end) && q.rrClass == U16(m, q.name.end + 2)
  {
    hide U16, Decode;
  }

  /**
   A personalised reply carries the client's question as the client spelled it and otherwise says
   what the upstream said: the same records at the same offsets, the same EDNS data, and the same
   canonical owner and embedded names.
   */
  lemma {:induction false} PersonalizeKeepsMeaning(m: seq<byte>, want: Want, room: nat)
    requires Personalize(m, want, room).Some? && ValidWire(want.name)
    ensures ScanMessage(m).Ok? && ScanMessage(Personalize(m, want, room).value).Ok?
    ensures var a, b := ScanMessage(m).value, ScanMessage(Personalize(m, want, room).value).value;
      && b.question.name.wire == want.name && Canonical(a.question.name) == Canonical(b.question.name)
      && b.question.kind == a.question.kind && b.question.rrClass == a.question.rrClass
      && b.scan.edns == a.scan.edns && AllSame(b.scan.records, a.scan.records)
    ensures var r := Personalize(m, want, room).value;
      && 4 <= |m| && 4 <= |r| && U16(r, 0) == want.id
      && FlagsServed(U16(m, 2), ClientFlags(want.flagsHigh, want.flagsLow), U16(r, 2))
  {
    hide ParseQuestion, ScanFrom, ScansLike, Candidate, FlagsServed, U16, Rebuilt, ValidWire, NoRecords, AllSame, Canonical, Fold;
    var q := ParseQuestion(m).value;
    QuestionLong(m);
    if q.name.compressed && NoRecords(m) {
      RebuiltScans(m, want);
      RebuiltHead(m, want);
    } else {
      var c := Candidate(m, want);
      CandidateHead(m, want);
      QuestionsAlign(m, want);
      ScansAgree(c, m, Start(m, q));
      SameWire(q.name, ParseQuestion(c).value.name, want.name);
    }
  }

  /** The header carries the client's ID and the merged flags. */
  lemma {:induction false} HeadServed(m: seq<byte>, want: Want, r: seq<byte>)
    requires 12 <= |m| && 4 <= |r| && forall i | 0 <= i < 4 :: r[i] == WithHeader(m[..12], want)[i]
    ensures U16(r, 0) == want.id && FlagsServed(U16(m, 2), ClientFlags(want.flagsHigh, want.flagsLow), U16(r, 2))
  {
    hide FlagsServed, FlagsHigh, FlagsLow, ClientFlags, U16;
    FlagsMerge(m[2], m[3], want.flagsHigh, want.flagsLow);
    HeadBytes(m, want);
    Word(m, 2);
    Word(r, 2);
    IdReads(r, want.id);
  }

  lemma {:induction false} HeadBytes(m: seq<byte>, want: Want)
    requires 12 <= |m|
    ensures var h := WithHeader(m[..12], want);
      h[0] == Be16(want.id)[0] && h[1] == Be16(want.id)[1] && h[2] == FlagsHigh(m[2], want.flagsHigh) && h[3] == FlagsLow(m[3], want.flagsLow)
  {
    hide FlagsHigh, FlagsLow, Be16;
    assert m[..12][2] == m[2] && m[..12][3] == m[3];
  }

  lemma {:induction false} Word(s: seq<byte>, off: nat)
    requires off + 2 <= |s|
    ensures U16(s, off) == s[off] as int * 256 + s[off + 1] as int
  {
  }

  lemma {:induction false} IdReads(s: seq<byte>, id: uint16)
    requires 2 <= |s| && s[0] == Be16(id)[0] && s[1] == Be16(id)[1]
    ensures U16(s, 0) == id
  {
  }

  lemma {:induction false} RebuiltHead(m: seq<byte>, want: Want)
    requires 12 <= |m|
    ensures var r := Rebuilt(m, want); 4 <= |r| && U16(r, 0) == want.id && FlagsServed(U16(m, 2), ClientFlags(want.flagsHigh, want.flagsLow), U16(r, 2))
  {
    hide WithHeader, FlagsServed, U16;
    HeadServed(m, want, Rebuilt(m, want));
  }

  lemma {:induction false} CandidateHead(m: seq<byte>, want: Want)
    requires 12 <= |m|
    ensures var c := Candidate(m, want); U16(c, 0) == want.id && FlagsServed(U16(m, 2), ClientFlags(want.flagsHigh, want.flagsLow), U16(c, 2))
  {
    hide WithHeader, FlagsServed, U16;
    PatchedBehind(m, WithHeader(m, want), 12, want.name, 0);
    SameHead(m, want);
    HeadServed(m, want, Candidate(m, want));
  }

  lemma {:induction false} SameHead(m: seq<byte>, want: Want)
    requires 12 <= |m|
    ensures forall i | 0 <= i < 4 :: WithHeader(m, want)[i] == WithHeader(m[..12], want)[i]
  {
    hide FlagsHigh, FlagsLow, Be16;
  }

  /** Patching leaves everything before the first label alone. */
  lemma {:induction false} PatchedBehind(m: seq<byte>, acc: seq<byte>, off: nat, w: seq<byte>, at: nat)
    requires |acc| == |m|
    ensures forall i | 0 <= i < off && i < |m| :: PatchLabels(m, acc, off, w, at)[i] == acc[i]
    decreases |m| - off
  {
    if !Stops(m, off, w, at) {
      PatchedBehind(m, Put(acc, off + 1, w[at + 1..at + 1 + m[off]]), off + 1 + m[off], w, at + 1 + m[off]);
    }
  }

  lemma {:induction false} SameWire(a: Name, b: Name, w: seq<byte>)
    requires Canonical(a) == Fold(w) && b.wire == w
    ensures Canonical(a) == Canonical(b)
  {
  }

  /** The rebuilt reply scans: its question is written out and nothing follows it. */
  lemma {:induction false} RebuiltScans(m: seq<byte>, want: Want)
    requires |m| >= 12 && ScanMessage(m).Ok? && ParseQuestion(m).Ok? && NoRecords(m) && ValidWire(want.name)
    requires want.kind == ParseQuestion(m).value.kind && want.rrClass == ParseQuestion(m).value.rrClass && Canonical(ParseQuestion(m).value.name) == Fold(want.name)
    ensures ScanMessage(Rebuilt(m, want)).Ok?
    ensures var a, b := ScanMessage(m).value, ScanMessage(Rebuilt(m, want)).value;
      && b.question.name.wire == want.name && Canonical(a.question.name) == Canonical(b.question.name)
      && b.question.kind == a.question.kind && b.question.rrClass == a.question.rrClass
      && b.scan.edns == a.scan.edns && AllSame(b.scan.records, a.scan.records)
  {
    hide Walk, U16, Fold, Labels;
    var r := Rebuilt(m, want);
    RebuiltFields(m, want);
    PlainWalk(r, 12, want.name, [], 0);
    assert Decode(r, 12) == Ok(Name(want.name, 12 + |want.name|, false));
    var q, p := ParseQuestion(m).value, ParseQuestion(r).value;
    NothingFollows(m, Start(m, q));
    NothingFollows(r, Start(r, p));
    SameWire(q.name, p.name, want.name);
  }

  lemma {:induction false} NothingFollows(m: seq<byte>, c: Cursor)
    requires CursorOK(c) && c.counts == [0, 0, 0]
    ensures ScanFrom(m, c, None) == if c.off == |m| then Ok(Scan([], c.edns, None)) else Err(ErrTrailing)
  {
  }

  lemma {:induction false} RebuiltFields(m: seq<byte>, want: Want)
    requires |m| >= 12 && ParseQuestion(m).Ok? && NoRecords(m)
    ensures var r := Rebuilt(m, want);
      && |r| == 16 + |want.name| && U16(r, 4) == 1 && U16(r, 6) == 0 && U16(r, 8) == 0 && U16(r, 10) == 0
      && r[12..12 + |want.name|] == want.name && U16(r, 12 + |want.name|) == want.kind && U16(r, 12 + |want.name| + 2) == want.rrClass
  {
    hide FlagsHigh, FlagsLow, Decode;
    var r := Rebuilt(m, want);
    assert forall i | 4 <= i < 12 :: r[i] == m[i];
    assert U16(m, 4) == 1;
    var k := 12 + |want.name|;
    assert r[k] == Be16(want.kind)[0] && r[k + 1] == Be16(want.kind)[1] && r[k + 2] == Be16(want.rrClass)[0] && r[k + 3] == Be16(want.rrClass)[1];
  }

  // ---- as it runs ----

  /** A complete scan. */
  method ScanOK(msg: seq<byte>) returns (ok: bool)
    ensures ok == ScanMessage(msg).Ok?
  {
    hide Next, ScanFrom, Left, ParseQuestion, Start;
    var s := new Scanner();
    var fine := s.Init(msg);
    if !fine {
      return false;
    }
    while true
      invariant s.Valid() && s.msg == msg && s.err.None? && ScanMessage(msg).Ok? == ScanFrom(msg, s.At(), None).Ok?
      decreases Left(s.At())
    {
      ScanOne(msg, s.At());
      var record := s.NextRecord(null);
      if record.None? {
        return s.err.None?;
      }
    }
  }

  lemma {:induction false} ScanOne(msg: seq<byte>, c: Cursor)
    requires CursorOK(c)
    ensures var n := Next(msg, c, None);
      && (n.Got? ==> CursorOK(n.cursor) && Left(n.cursor) < Left(c) && n.names == None)
      && (ScanFrom(msg, c, None).Ok? <==> n.Done? || (n.Got? && ScanFrom(msg, n.cursor, None).Ok?))
  {
    hide Next;
    if Next(msg, c, None).Got? {
      NextLess(msg, c, None);
      NoMarks(msg, c);
    }
  }

  method NameKept(msg: seq<byte>, ref: seq<byte>, off: nat) returns (ok: bool, end: nat)
    ensures ok == Kept(msg, ref, off) && (ok ==> end == Decode(msg, off).value.end)
  {
    hide Decode;
    end := 0;
    var a, x := DecodeName(msg, off);
    if a.Err? {
      return false, 0;
    }
    var b, y := DecodeName(ref, off);
    if b.Err? || a.value.end != b.value.end || |a.value.wire| != |b.value.wire| || x != y {
      return false, 0;
    }
    return true, a.value.end;
  }

  method RecordNamesKept(msg: seq<byte>, ref: seq<byte>, r: Record) returns (ok: bool)
    ensures ok == RecordKept(msg, ref, r)
  {
    hide Kept, Decode;
    var end;
    ok, end := NameKept(msg, ref, r.start);
    if !ok {
      return false;
    }
    var off := FirstName(r);
    for i := 0 to NamesIn(r)
      invariant AllKept(msg, ref, FirstName(r), NamesIn(r)) == AllKept(msg, ref, off, NamesIn(r) - i)
    {
      ok, end := NameKept(msg, ref, off);
      if !ok {
        return false;
      }
      off := end;
    }
    return true;
  }

  /** The scan that compares every name with the original. */
  method ScanAgainst(s: Scanner, msg: seq<byte>, ref: seq<byte>) returns (ok: bool)
    requires s.Valid() && s.msg == msg && s.err.None?
    modifies s
    ensures ok == ScansLike(msg, ref, old(s.At()))
  {
    hide Next, Left, RecordKept;
    ghost var start := s.At();
    while true
      invariant s.Valid() && s.msg == msg && s.err.None? && ScansLike(msg, ref, start) == ScansLike(msg, ref, s.At())
      decreases Left(s.At())
    {
      ScanOne(msg, s.At());
      var record := s.NextRecord(null);
      if record.None? {
        return s.err.None?;
      }
      var kept := RecordNamesKept(msg, ref, record.value);
      if !kept {
        return false;
      }
    }
  }

  /** Patches a copy of the response and accepts it only if the whole copy still means the same. */
  method PersonalizeReply(dst: array<byte>, m: seq<byte>, want: Want) returns (r: Option<nat>)
    modifies dst
    ensures r.None? <==> Personalize(m, want, dst.Length).None?
    ensures r.None? ==> dst[..] == old(dst[..])
    ensures r.Some? ==> r.value <= dst.Length && dst[..r.value] == Personalize(m, want, dst.Length).value && dst[r.value..] == old(dst[r.value..])
  {
    hide Personalize;
    var reply := PersonalReply(m, want, dst.Length);
    if reply.None? {
      return None;
    }
    ReplyFits(m, want, dst.Length);
    for i := 0 to |reply.value|
      invariant forall k | 0 <= k < dst.Length :: dst[k] == if k < i then reply.value[k] else old(dst[k])
    {
      dst[i] := reply.value[i];
    }
    return Some(|reply.value|);
  }

  lemma {:induction false} ReplyFits(m: seq<byte>, want: Want, room: nat)
    requires Personalize(m, want, room).Some?
    ensures |Personalize(m, want, room).value| <= room
  {
    hide ScanMessage, ParseQuestion, ScansLike, Start, Fold, PatchLabels;
  }

  method PersonalReply(m: seq<byte>, want: Want, room: nat) returns (r: Option<seq<byte>>)
    ensures r == Personalize(m, want, room)
  {
    hide ScanMessage, ParseQuestion, ScansLike, Start, Decode, Fold, WithHeader, Rebuilt;
    var fine := ScanOK(m);
    if !fine {
      return None;
    }
    var s := new Scanner();
    fine := s.Init(m);
    if !fine || |m| < 12 {
      return None;
    }
    var q := s.question.value;
    if q.flags / 0x8000 == 0 || q.kind != want.kind || q.rrClass != want.rrClass || |q.name.wire| != |want.name| || Canonical(q.name) != Fold(want.name) {
      return None;
    }
    if q.name.compressed && NoRecords(m) {
      return if room < 16 + |want.name| then None else Some(Rebuilt(m, want));
    }
    if room < |m| {
      return None;
    }
    var candidate := WithHeader(m, want);
    var off: nat, at: nat := 12, 0;
    while !Stops(m, off, want.name, at)
      invariant |candidate| == |m| && Candidate(m, want) == PatchLabels(m, candidate, off, want.name, at)
      decreases |m| - off
    {
      candidate := Put(candidate, off + 1, want.name[at + 1..at + 1 + m[off]]);
      off, at := off + 1 + m[off], at + 1 + m[off];
    }
    fine := s.Init(candidate);
    if !fine || s.question.value.name.wire != want.name {
      return None;
    }
    fine := ScanAgainst(s, candidate, m);
    return if fine then Some(candidate) else None;
  }
}
