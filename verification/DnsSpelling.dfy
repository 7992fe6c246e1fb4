/** Uncached replies that are always personalised (internal/dnswire/personalize.go): those whose names never depend on other bytes. */
module DnsSpelling {
  import opened Common
  import opened WireBytes
  import opened DnsName
  import opened DnsRecords
  import opened DnsPatched
  import opened DnsTemplate
  import opened DnsEligible
  import opened DnsPersonal

  // ---- the question is respelled ----

  /** Literal labels from one offset to another, up to a root. */
  predicate Literal(m: seq<byte>, off: nat, end: nat)
    decreases end - off
  {
    && off < end <= |m|
    && if m[off] == 0 then end == off + 1 else 0 < m[off] < 64 && off + 1 + m[off] < end && Literal(m, off + 1 + m[off], end)
  }

  lemma {:induction false} LabelsLiteral(m: seq<byte>, off: nat, s: seq<byte>)
    requires Labels(s) && off + |s| <= |m| && m[off..off + |s|] == s
    ensures Literal(m, off, off + |s|)
    decreases |s|
  {
    SliceAt(m, off, s, 0);
    if s[0] != 0 {
      var n: nat := 1 + s[0] as int;
      SliceTail(m, off, s, n);
      LabelsLiteral(m, off + n, s[n..]);
    }
  }

  /** The spelling w of the labels at 12 folds like them. */
  ghost predicate Alike(m: seq<byte>, off: nat, end: nat, w: seq<byte>) {
    12 <= off && end <= |m| && end <= 12 + |w| && forall j | off <= j < end :: Lower(m[j]) == Lower(w[j - 12])
  }

  ghost predicate Spells(r: seq<byte>, off: nat, end: nat, w: seq<byte>) {
    12 <= off && end <= |r| && end <= 12 + |w| && forall j | off <= j < end :: r[j] == w[j - 12]
  }

  /** A length octet has no other spelling. */
  lemma {:induction false} LengthAlike(a: byte, b: byte)
    requires Lower(a) == Lower(b) && a < 64
    ensures b == a
  {
  }

  /** Over literal labels that fold alike, patching leaves exactly the new spelling. */
  lemma {:induction false} PatchSpells(m: seq<byte>, acc: seq<byte>, off: nat, end: nat, w: seq<byte>)
    requires |acc| == |m| && Literal(m, off, end) && end == 12 + |w| && Alike(m, off, end, w)
    requires forall i | off <= i < |m| :: acc[i] == m[i]
    ensures Spells(PatchLabels(m, acc, off, w, off - 12), off, end, w)
    decreases end - off
  {
    hide Put, PatchLabels, Lower;
    assert Lower(m[off]) == Lower(w[off - 12]);
    LengthAlike(m[off], w[off - 12]);
    if m[off] == 0 {
      RootStays(m, acc, off, w, off - 12);
    } else {
      var next: nat := off + 1 + m[off] as int;
      PatchStep(m, acc, off, next, w);
      var more := Put(acc, off + 1, w[off - 11..next - 12]);
      PutLabel(m, acc, off, next, w);
      hide Stops;
      PatchSpells(m, more, next, end, w);
      PatchedBehind(m, more, next, w, next - 12);
    }
  }

  lemma {:induction false} RootStays(m: seq<byte>, acc: seq<byte>, off: nat, w: seq<byte>, at: nat)
    requires |acc| == |m| && off < |m| && m[off] == 0
    ensures PatchLabels(m, acc, off, w, at) == acc
  {
  }

  lemma {:induction false} PatchStep(m: seq<byte>, acc: seq<byte>, off: nat, next: nat, w: seq<byte>)
    requires |acc| == |m| && 12 <= off < next <= |m| && next <= 12 + |w| && 0 < m[off] < 64 && next == off + 1 + m[off]
    ensures PatchLabels(m, acc, off, w, off - 12) == PatchLabels(m, Put(acc, off + 1, w[off - 11..next - 12]), next, w, next - 12)
  {
    hide Put;
  }

  lemma {:induction false} PutLabel(m: seq<byte>, acc: seq<byte>, off: nat, next: nat, w: seq<byte>)
    requires |acc| == |m| && 12 <= off < next <= |m| && next <= 12 + |w| && acc[off] == w[off - 12] && forall i | off <= i < |m| :: acc[i] == m[i]
    ensures var more := Put(acc, off + 1, w[off - 11..next - 12]);
      Spells(more, off, next, w) && forall i | next <= i < |m| :: more[i] == m[i]
  {
    hide Put;
    var more := Put(acc, off + 1, w[off - 11..next - 12]);
    forall j | off <= j < next ensures more[j] == w[j - 12] {
      if j > off { assert more[j] == w[off - 11..next - 12][j - off - 1]; }
    }
  }

  lemma {:induction false} SpellsSlice(r: seq<byte>, w: seq<byte>)
    requires Spells(r, 12, 12 + |w|, w)
    ensures r[12..12 + |w|] == w
  {
  }

  lemma {:induction false} FoldAlike(m: seq<byte>, w: seq<byte>, s: seq<byte>)
    requires Fold(s) == Fold(w) && 12 + |s| <= |m| && m[12..12 + |s|] == s
    ensures |s| == |w| && Alike(m, 12, 12 + |w|, w)
  {
    hide Lower;
    assert |Fold(s)| == |s| && |Fold(w)| == |w|;
    forall j | 12 <= j < 12 + |w| ensures Lower(m[j]) == Lower(w[j - 12]) {
      assert m[12..12 + |s|][j - 12] == m[j];
      assert Fold(s)[j - 12] == Fold(w)[j - 12];
    }
  }

  // ---- names compared one by one ----

  lemma {:induction false} SameIsKept(m: seq<byte>, c: seq<byte>, off: nat, a: Name, b: Name)
    requires Decode(m, off) == Ok(a) && Decode(c, off) == Ok(b) && SameName(a, b)
    ensures Kept(c, m, off) && b.end == a.end
  {
  }

  lemma {:induction false} CheckedDecodes(msg: seq<byte>, off: nat, names: Names)
    requires CheckedName(msg, off, names).Ok?
    ensures Decode(msg, off) == Ok(CheckedName(msg, off, names).value.name)
  {
    hide Decode, AddMarks;
  }

  lemma {:induction false} ListKept(m: seq<byte>, c: seq<byte>, off: nat, end: nat, count: nat, compression: bool, names: Names, names': Names)
    requires ReadNames(m, off, end, count, compression, names).Ok? && ReadNames(c, off, end, count, compression, names').Ok?
    requires SameNames(ReadNames(m, off, end, count, compression, names).value.list, ReadNames(c, off, end, count, compression, names').value.list)
    ensures AllKept(c, m, off, count)
    decreases count
  {
    hide CheckedName, Decode, Kept, SameName;
    if count > 0 {
      var x, y := CheckedName(m, off, names).value, CheckedName(c, off, names').value;
      CheckedDecodes(m, off, names);
      CheckedDecodes(c, off, names');
      var a, b := ReadNames(m, off, end, count, compression, names).value.list, ReadNames(c, off, end, count, compression, names').value.list;
      var rest, rest' := ReadNames(m, x.name.end, end, count - 1, compression, x.names).value.list, ReadNames(c, y.name.end, end, count - 1, compression, y.names).value.list;
      assert a == [x.name] + rest && b == [y.name] + rest';
      assert a[0] == x.name && b[0] == y.name;
      SameIsKept(m, c, off, x.name, y.name);
      forall i | 0 <= i < |rest| ensures SameName(rest[i], rest'[i]) { assert a[i + 1] == rest[i] && b[i + 1] == rest'[i]; }
      ListKept(m, c, x.name.end, end, count - 1, compression, x.names, y.names);
    }
  }

  /** What the embedded names of a scanned record are. */
  lemma {:induction false} EmbeddedOf(msg: seq<byte>, cur: Cursor, names: Names)
    requires CursorOK(cur) && Next(msg, cur, names).Got?
    ensures var r := Next(msg, cur, names).record;
      && Decode(msg, cur.off) == Ok(r.owner) && r.start == cur.off
      && (NamesIn(r) > 0 ==>
            exists before: Names :: ReadNames(msg, FirstName(r), r.end, NamesIn(r), ShapeOf(r.kind).value.compression, before).Ok?
              && ReadNames(msg, FirstName(r), r.end, NamesIn(r), ShapeOf(r.kind).value.compression, before).value.list == r.embedded)
  {
    hide U16, U32, Options, PlainOK, TailOK, ShapeOf, ReadNames, CheckedName, Decode, Skip;
    var owner := CheckedName(msg, cur.off, names).value;
    CheckedDecodes(msg, cur.off, names);
    var r := Next(msg, cur, names).record;
    if NamesIn(r) > 0 {
      DataNames(msg, r.kind, r.data, r.end, owner.names);
      assert ReadNames(msg, FirstName(r), r.end, NamesIn(r), ShapeOf(r.kind).value.compression, owner.names).Ok?;
    }
  }

  lemma {:induction false} DataNames(msg: seq<byte>, kind: uint16, off: nat, end: nat, names: Names)
    requires off <= end <= |msg| && ReadData(msg, kind, off, end, names).Ok? && ShapeOf(kind).Some?
    ensures ReadNames(msg, off + ShapeOf(kind).value.prefix, end, ShapeOf(kind).value.count, ShapeOf(kind).value.compression, names) == ReadData(msg, kind, off, end, names)
  {
    hide ReadNames, ShapeOf, TailOK;
  }

  lemma {:induction false} RecordStays(m: seq<byte>, c: seq<byte>, cur: Cursor, marks: set<nat>)
    requires CursorOK(cur) && Next(m, cur, Some(marks)).Got? && Next(c, cur, None).Got?
    requires SameRecord(Next(m, cur, Some(marks)).record, Next(c, cur, None).record)
    ensures RecordKept(c, m, Next(c, cur, None).record)
  {
    hide Next, Kept, AllKept, ReadNames, Decode, SameName, ShapeOf;
    var a, b := Next(m, cur, Some(marks)).record, Next(c, cur, None).record;
    EmbeddedOf(m, cur, Some(marks));
    EmbeddedOf(c, cur, None);
    SameIsKept(m, c, cur.off, a.owner, b.owner);
    if NamesIn(b) > 0 {
      var compression, n := ShapeOf(b.kind).value.compression, NamesIn(b);
      var x: Names :| ReadNames(m, FirstName(b), b.end, n, compression, x).Ok? && ReadNames(m, FirstName(b), b.end, n, compression, x).value.list == a.embedded;
      var y: Names :| ReadNames(c, FirstName(b), b.end, n, compression, y).Ok? && ReadNames(c, FirstName(b), b.end, n, compression, y).value.list == b.embedded;
      ListKept(m, c, FirstName(b), b.end, n, compression, x, y);
    } else {
      NoneKept(c, m, FirstName(b));
    }
  }

  lemma {:induction false} NoneKept(c: seq<byte>, m: seq<byte>, off: nat)
    ensures AllKept(c, m, off, 0)
  {
  }

  /** The comparing scan of a message that is patched within bounds succeeds. */
  lemma {:induction false} LikeKeeps(m: seq<byte>, c: seq<byte>, cur: Cursor, marks: set<nat>)
    requires CursorOK(cur) && SameMarks(m, c, marks) && ScanFrom(m, cur, Some(marks)).Ok?
    requires PatchedFrom(m, c, cur.off, ScanFrom(m, cur, Some(marks)).value.records)
    ensures ScansLike(c, m, cur)
    decreases Left(cur)
  {
    hide SameMarks, Next, PatchedFrom, AroundTTL, Placed, SameRecord, Left, RecordKept;
    var rs := ScanFrom(m, cur, Some(marks)).value.records;
    ScanPlaced(m, cur, Some(marks));
    if Next(m, cur, Some(marks)).Got? {
      var s := Next(m, cur, Some(marks));
      assert rs[0] == s.record && rs[1..] == ScanFrom(m, s.cursor, s.names).value.records;
      FirstPatched(m, c, cur.off, rs);
      NextPlaced(m, cur, Some(marks));
      NextKeeps(m, c, cur, marks);
      RecordStays(m, c, cur, marks);
      NextOver(m, cur, Some(marks));
      LikeKeeps(m, c, s.cursor, s.names.value);
    } else {
      PatchedSize(m, c, cur.off, rs);
      DoneKeeps(m, c, cur, Some(marks));
    }
  }

  lemma {:induction false} NextOver(msg: seq<byte>, c: Cursor, names: Names)
    requires CursorOK(c) && Next(msg, c, names).Got?
    ensures CursorOK(Next(msg, c, names).cursor) && Left(Next(msg, c, names).cursor) < Left(c)
  {
    hide Next;
  }

  // ---- the guarantee ----

  /** The response answers the client's question. */
  ghost predicate AnswersTo(q: Question, want: Want) {
    && q.flags >= 0x8000 && q.kind == want.kind && q.rrClass == want.rrClass
    && Canonical(q.name) == Fold(want.name)
  }

  /** The question of the candidate is the client's, to the letter. */
  lemma {:induction false} CandidateAsks(m: seq<byte>, want: Want)
    requires ParseQuestion(m).Ok? && 12 <= |m| <= MAX_MESSAGE
    requires !QuestionOf(m).name.compressed && Canonical(QuestionOf(m).name) == Fold(want.name)
    ensures var c, n := Candidate(m, want), |want.name|;
      && |QuestionOf(m).name.wire| == n && 12 + n <= |m| && c[12..12 + n] == want.name
  {
    hide ParseQuestion, Walk, WithHeader, PatchLabels, Labels, Fold, Decode;
    QuestionBounds(m);
    DecodedNames(m, 12);
    var w := QuestionOf(m).name.wire;
    WireLabels(w);
    HeaderOnly(m, want);
    FoldAlike(m, want.name, w);
    LabelsLiteral(m, 12, w);
    PatchSpells(m, WithHeader(m, want), 12, 12 + |w|, want.name);
    SpellsSlice(Candidate(m, want), want.name);
  }

  lemma {:induction false} WireLabels(w: seq<byte>)
    requires ValidWire(w)
    ensures Labels(w)
  {
  }

  lemma {:induction false} HeaderOnly(m: seq<byte>, want: Want)
    requires 12 <= |m|
    ensures forall i | 12 <= i < |m| :: WithHeader(m, want)[i] == m[i]
  {
  }

  /**
   A response to the client's question that spells the question out and whose names all lead through bytes that patching
   leaves alone is personalised whenever the buffer has room for it.
   */
  lemma {:induction false} PersonalizeAccepts(m: seq<byte>, want: Want, room: nat)
    requires Bounded(m) && ScanMessage(m).Ok? && !QuestionOf(m).name.compressed && AnswersTo(QuestionOf(m), want) && |m| <= room
    ensures Personalize(m, want, room) == Some(Candidate(m, want))
  {
    hide ParseQuestion, ScanFrom, AddMarks, Candidate, Labels, Fold, ScansLike, PatchedFrom, Agree, Equal, SameMarks;
    var q, c, marks := QuestionOf(m), Candidate(m, want), AddMarks(m, 12, {}).value;
    QuestionLong(m);
    QuestionBounds(m);
    CandidateAsks(m, want);
    CandidateChanges(m, want);
    ScanPlaced(m, Start(m, q), Some(marks));
    var rs := ScanFrom(m, Start(m, q), Some(marks)).value.records;
    PatchedBytes(m, c, q, rs);
    QuestionKeeps(m, c, q, marks);
    LikeKeeps(m, c, Start(m, q), marks);
    SpelledName(m, c, want);
    SetBit(q.flags);
  }

  lemma {:induction false} SetBit(flags: uint16)
    ensures flags >= 0x8000 ==> flags / 0x8000 != 0
  {
  }

  /** Only ID, flags and the question's spelling differ. */
  lemma {:induction false} CandidateChanges(m: seq<byte>, want: Want)
    requires ParseQuestion(m).Ok? && 12 <= |m| <= MAX_MESSAGE
    requires !QuestionOf(m).name.compressed && Canonical(QuestionOf(m).name) == Fold(want.name)
    ensures forall rs: seq<Record> :: Patched(m, Candidate(m, want), |QuestionOf(m).name.wire|, rs)
  {
    hide ParseQuestion, Fold, Candidate, SameSkeleton, InTTL, Decode;
    QuestionBounds(m);
    CandidateAsks(m, want);
    CandidateBytes(m, want);
  }

  lemma {:induction false} SpelledName(m: seq<byte>, c: seq<byte>, want: Want)
    requires ParseQuestion(m).Ok? && ParseQuestion(c).Ok? && !QuestionOf(m).name.compressed
    requires SameName(QuestionOf(m).name, QuestionOf(c).name)
    requires |QuestionOf(m).name.wire| == |want.name| && 12 + |want.name| <= |c| && c[12..12 + |want.name|] == want.name
    ensures QuestionOf(c).name.wire == want.name
  {
    hide ParseQuestion, Decode;
    QuestionBounds(c);
    QuestionBounds(m);
  }
}
