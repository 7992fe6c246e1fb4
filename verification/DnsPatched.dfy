/**
 Patching a message without reading it again (internal/dnswire/ttl.go): if every name leads only
 through marked label starts, then changing ID, flags, TTLs and the case of the question leaves
 every record where it was and every name with its meaning.
 */
module DnsPatched {
  import opened Common
  import opened WireBytes
  import opened DnsName
  import opened DnsRecords

  // ---- names that lead through marks ----

  /** What follows the label or pointer at m is marked too. */
  ghost predicate Leads(msg: seq<byte>, marks: set<nat>, m: nat) {
    && m < |msg|
    && (msg[m] >= 192 ==> m + 1 < |msg| && Target(msg, m) in marks)
    && (0 < msg[m] < 64 ==> m + 1 + msg[m] in marks)
  }

  ghost predicate Closed(msg: seq<byte>, marks: set<nat>) { forall m :: m in marks ==> Leads(msg, marks, m) }

  /** Both messages hold the same pointer, or the same label up to case, at m. */
  ghost predicate SameAt(msg: seq<byte>, msg': seq<byte>, m: nat) {
    && m < |msg| == |msg'| && msg'[m] == msg[m]
    && (msg[m] >= 192 && m + 1 < |msg| ==> msg'[m + 1] == msg[m + 1])
    && (msg[m] < 64 && m + 1 + msg[m] <= |msg| ==> Fold(msg'[m..m + 1 + msg[m]]) == Fold(msg[m..m + 1 + msg[m]]))
  }

  ghost predicate SameMarks(msg: seq<byte>, msg': seq<byte>, marks: set<nat>) {
    Closed(msg, marks) && forall m :: m in marks ==> SameAt(msg, msg', m)
  }

  ghost predicate SameName(a: Name, b: Name) {
    Canonical(a) == Canonical(b) && |a.wire| == |b.wire| && a.end == b.end && a.compressed == b.compressed
  }

  ghost predicate SameResult(a: Result<Name>, b: Result<Name>) {
    if a.Ok? then b.Ok? && SameName(a.value, b.value) else a == b
  }

  lemma {:induction false} FoldAppend(a: seq<byte>, b: seq<byte>)
    ensures Fold(a + b) == Fold(a) + Fold(b)
  {
  }

  /** The walk from a mark does not tell the two messages apart, whatever came before it. */
  lemma {:induction false} WalkSame(msg: seq<byte>, msg': seq<byte>, marks: set<nat>, m: nat, visited: seq<nat>, n: nat)
    requires SameMarks(msg, msg', marks) && m in marks && |visited| <= MAX_JUMPS && n <= MAX_NAME
    ensures SameResult(Walk(msg, m, visited, n), Walk(msg', m, visited, n))
    decreases MAX_JUMPS - |visited|, MAX_NAME - n
  {
    hide Fold, Walk, Canonical;
    assert Leads(msg, marks, m) && SameAt(msg, msg', m);
    WalkStops(msg, m, visited, n);
    WalkStops(msg', m, visited, n);
    if msg[m] >= 192 {
      WalkPointer(msg, m, visited, n);
      WalkPointer(msg', m, visited, n);
      assert Target(msg, m) == Target(msg', m);
      if !(Target(msg, m) >= m || |visited| == MAX_JUMPS || m in visited) {
        WalkSame(msg, msg', marks, Target(msg, m), visited + [m], n);
        JumpSame(m, Walk(msg, Target(msg, m), visited + [m], n), Walk(msg', Target(msg, m), visited + [m], n));
      }
    } else if 0 < msg[m] < 64 && m + 1 + msg[m] <= |msg| && n + 1 + msg[m] < MAX_NAME {
      var next, size := m + 1 + msg[m], n + 1 + msg[m];
      WalkLabel(msg, m, visited, n);
      WalkLabel(msg', m, visited, n);
      WalkSame(msg, msg', marks, next, visited, size);
      PrependSame(msg[m..next], msg'[m..next], Walk(msg, next, visited, size), Walk(msg', next, visited, size));
    } else if msg[m] == 0 && n < MAX_NAME {
      WalkRoot(msg, m, visited, n);
      WalkRoot(msg', m, visited, n);
    }
  }

  lemma {:induction false} JumpSame(off: nat, r: Result<Name>, s: Result<Name>)
    requires SameResult(r, s)
    ensures SameResult(Jump(off, r), Jump(off, s))
  {
  }

  lemma {:induction false} PrependSame(a: seq<byte>, b: seq<byte>, r: Result<Name>, s: Result<Name>)
    requires |a| == |b| && Fold(a) == Fold(b) && SameResult(r, s)
    ensures SameResult(Prepend(a, r), Prepend(b, s))
  {
    if r.Ok? {
      FoldAppend(a, r.value.wire);
      FoldAppend(b, s.value.wire);
    }
  }

  // ---- adding a name ----

  /** The encodings agree on [off, end): up to case, or exactly if a pointer is among them. */
  ghost predicate Agree(msg: seq<byte>, msg': seq<byte>, off: nat, n: Name) {
    && |msg'| == |msg| && n.end <= |msg|
    && (forall i | off <= i < n.end :: Lower(msg'[i]) == Lower(msg[i]))
    && (n.compressed ==> forall i | off <= i < n.end :: msg'[i] == msg[i])
  }

  lemma {:induction false} LowerDecides(a: byte, b: byte)
    requires a < 64 && Lower(a) == Lower(b)
    ensures a == b
  {
  }

  /** Everything marked leads on, except that off itself is still to come. */
  ghost predicate AlmostSame(msg: seq<byte>, msg': seq<byte>, marks: set<nat>, off: nat) {
    forall m :: m in marks ==> Leads(msg, marks + {off}, m) && SameAt(msg, msg', m)
  }

  lemma {:induction false} AddKeeps(msg: seq<byte>, msg': seq<byte>, off: nat, n: nat, marks: set<nat>)
    requires n <= MAX_NAME && Walk(msg, off, [], n).Ok? && AddMarks(msg, off, marks).Some?
    requires Agree(msg, msg', off, Walk(msg, off, [], n).value) && AlmostSame(msg, msg', marks, off)
    ensures SameMarks(msg, msg', AddMarks(msg, off, marks).value) && off in AddMarks(msg, off, marks).value
    decreases |msg| - off
  {
    hide SameAt, AlmostSame, SameMarks, Agree, Walk;
    WalkFirst(msg, off, n);
    AgreeFirst(msg, msg', off, n);
    if msg[off] >= 192 || msg[off] == 0 {
      AddLast(msg, msg', marks, off);
    } else {
      var next := off + 1 + msg[off];
      AddLabel(msg, msg', marks, off);
      AgreeRest(msg, msg', off, next, Walk(msg, off, [], n).value, Walk(msg, next, [], n + 1 + msg[off]).value);
      AddKeeps(msg, msg', next, n + 1 + msg[off], marks + {off});
      AddMore(msg, next, marks + {off});
    }
  }

  /** How a successful walk starts. */
  lemma {:induction false} WalkFirst(msg: seq<byte>, off: nat, n: nat)
    requires n <= MAX_NAME && Walk(msg, off, [], n).Ok?
    ensures off < |msg| && (msg[off] < 64 || msg[off] >= 192)
    ensures var w := Walk(msg, off, [], n).value;
      && (msg[off] >= 192 ==> w.compressed && w.end == off + 2)
      && (msg[off] == 0 ==> w.end == off + 1 && !w.compressed)
      && (0 < msg[off] < 64 ==>
            && n + 1 + msg[off] <= MAX_NAME && Walk(msg, off + 1 + msg[off], [], n + 1 + msg[off]).Ok?
            && var v := Walk(msg, off + 1 + msg[off], [], n + 1 + msg[off]).value;
               v.end == w.end && v.compressed == w.compressed && off + 1 + msg[off] <= v.end)
  {
    if 0 < msg[off] < 64 {
      WalkShape(msg, off + 1 + msg[off], [], n + 1 + msg[off]);
    }
  }

  lemma {:induction false} AgreeFirst(msg: seq<byte>, msg': seq<byte>, off: nat, n: nat)
    requires n <= MAX_NAME && Walk(msg, off, [], n).Ok? && Agree(msg, msg', off, Walk(msg, off, [], n).value)
    ensures SameAt(msg, msg', off)
  {
    hide Walk, Fold, Lower;
    WalkFirst(msg, off, n);
    if msg[off] < 64 {
      WalkEnds(msg, off, n);
      LowerDecides(msg[off], msg'[off]);
      FoldsEqual(msg, msg', off, off + 1 + msg[off]);
    }
  }

  lemma {:induction false} WalkEnds(msg: seq<byte>, off: nat, n: nat)
    requires n <= MAX_NAME && Walk(msg, off, [], n).Ok? && msg[off] < 64
    ensures off + 1 + msg[off] <= Walk(msg, off, [], n).value.end
  {
    hide Walk;
    WalkFirst(msg, off, n);
  }

  lemma {:induction false} AgreeRest(msg: seq<byte>, msg': seq<byte>, off: nat, next: nat, w: Name, v: Name)
    requires Agree(msg, msg', off, w) && off <= next && v.end == w.end && v.compressed == w.compressed
    ensures Agree(msg, msg', next, v)
  {
    hide Lower;
  }

  lemma {:induction false} FoldsEqual(msg: seq<byte>, msg': seq<byte>, a: nat, b: nat)
    requires a <= b <= |msg| == |msg'| && forall i | a <= i < b :: Lower(msg'[i]) == Lower(msg[i])
    ensures Fold(msg'[a..b]) == Fold(msg[a..b])
  {
    assert forall k | 0 <= k < b - a :: Fold(msg'[a..b])[k] == Fold(msg[a..b])[k];
  }

  lemma {:induction false} AddMore(msg: seq<byte>, off: nat, marks: set<nat>)
    requires AddMarks(msg, off, marks).Some?
    ensures marks <= AddMarks(msg, off, marks).value
    decreases |msg| - off
  {
    if off < |msg| && 0 < msg[off] < 192 {
      AddMore(msg, off + 1 + msg[off], marks + {off});
    }
  }

  lemma {:induction false} AddLast(msg: seq<byte>, msg': seq<byte>, marks: set<nat>, off: nat)
    requires AlmostSame(msg, msg', marks, off) && SameAt(msg, msg', off)
    requires msg[off] == 0 || (msg[off] >= 192 && off + 1 < |msg| && Target(msg, off) in marks)
    ensures SameMarks(msg, msg', marks + {off})
  {
    assert off < |msg|;
    hide SameAt;
    assert Leads(msg, marks + {off}, off);
  }

  lemma {:induction false} AddLabel(msg: seq<byte>, msg': seq<byte>, marks: set<nat>, off: nat)
    requires AlmostSame(msg, msg', marks, off) && SameAt(msg, msg', off) && 0 < msg[off] < 64
    ensures AlmostSame(msg, msg', marks + {off}, off + 1 + msg[off])
  {
    assert off < |msg|;
    hide SameAt;
    var more := marks + {off} + {off + 1 + msg[off]};
    assert Leads(msg, more, off);
    assert forall m :: m in marks ==> Leads(msg, more, m);
  }

  /** A name accepted by the boundary check keeps its meaning, and so do all names that may point into it. */
  lemma {:induction false} NameKeeps(msg: seq<byte>, msg': seq<byte>, off: nat, marks: set<nat>)
    requires CheckedName(msg, off, Some(marks)).Ok? && SameMarks(msg, msg', marks)
    requires Agree(msg, msg', off, CheckedName(msg, off, Some(marks)).value.name)
    ensures var c := CheckedName(msg, off, Some(marks)).value;
      && c.names.Some? && SameMarks(msg, msg', c.names.value)
      && CheckedName(msg', off, None).Ok? && SameName(c.name, CheckedName(msg', off, None).value.name)
      && CheckedName(msg', off, None).value.names == None
  {
    hide Walk, Fold;
    assert AlmostSame(msg, msg', marks, off);
    AddKeeps(msg, msg', off, 0, marks);
    WalkSame(msg, msg', AddMarks(msg, off, marks).value, off, [], 0);
  }

  // ---- record data ----

  /** Both messages hold the same bytes in [a, b). */
  ghost predicate Equal(msg: seq<byte>, msg': seq<byte>, a: nat, b: nat) {
    a <= b <= |msg| == |msg'| && forall i | a <= i < b :: msg'[i] == msg[i]
  }

  lemma {:induction false} EqualSlice(msg: seq<byte>, msg': seq<byte>, a: nat, b: nat)
    requires Equal(msg, msg', a, b)
    ensures msg'[a..b] == msg[a..b]
  {
  }

  lemma {:induction false} EqualAgree(msg: seq<byte>, msg': seq<byte>, off: nat, end: nat, n: Name)
    requires Equal(msg, msg', off, end) && n.end <= end
    ensures Agree(msg, msg', off, n)
  {
    hide Lower;
  }

  ghost predicate SameNames(a: seq<Name>, b: seq<Name>) {
    |a| == |b| && forall i | 0 <= i < |a| :: SameName(a[i], b[i])
  }

  ghost predicate SameEmbedded(msg: seq<byte>, msg': seq<byte>, a: Result<Embedded>, b: Result<Embedded>) {
    && a.Ok? && b.Ok? && a.value.next == b.value.next && SameNames(a.value.list, b.value.list)
    && b.value.names == None && a.value.names.Some? && SameMarks(msg, msg', a.value.names.value)
  }

  lemma {:induction false} NamesKeep(msg: seq<byte>, msg': seq<byte>, off: nat, end: nat, count: nat, compression: bool, marks: set<nat>)
    requires ReadNames(msg, off, end, count, compression, Some(marks)).Ok? && SameMarks(msg, msg', marks)
    requires off <= end && Equal(msg, msg', off, end)
    ensures SameEmbedded(msg, msg', ReadNames(msg, off, end, count, compression, Some(marks)), ReadNames(msg', off, end, count, compression, None))
    decreases count
  {
    hide SameMarks, CheckedName, SameName, Canonical;
    if count > 0 {
      var n := CheckedName(msg, off, Some(marks)).value;
      CheckedBounds(msg, off, Some(marks));
      EqualAgree(msg, msg', off, end, n.name);
      NameKeeps(msg, msg', off, marks);
      SameEnds(n.name, CheckedName(msg', off, None).value.name);
      NamesKeep(msg, msg', n.name.end, end, count - 1, compression, n.names.value);
    }
  }

  lemma {:induction false} SameEnds(a: Name, b: Name)
    requires SameName(a, b)
    ensures a.end == b.end && a.compressed == b.compressed && |a.wire| == |b.wire|
  {
  }

  lemma {:induction false} CheckedBounds(msg: seq<byte>, off: nat, names: Names)
    requires CheckedName(msg, off, names).Ok?
    ensures off < CheckedName(msg, off, names).value.name.end <= |msg|
  {
    hide Decode;
    DecodedNames(msg, off);
  }

  lemma {:induction false} DataKeeps(msg: seq<byte>, msg': seq<byte>, kind: uint16, off: nat, end: nat, marks: set<nat>)
    requires Equal(msg, msg', off, end)
    requires ReadData(msg, kind, off, end, Some(marks)).Ok? && SameMarks(msg, msg', marks)
    ensures SameEmbedded(msg, msg', ReadData(msg, kind, off, end, Some(marks)), ReadData(msg', kind, off, end, None))
  {
    hide PlainOK, TailOK, ReadNames, SameMarks, ShapeOf, SameName;
    EqualSlice(msg, msg', off, end);
    if ShapeOf(kind).Some? {
      var s := ShapeOf(kind).value;
      PrefixFits(kind);
      NamesKeep(msg, msg', off + s.prefix, end, s.count, s.compression, marks);
      ReadNamesOrder(msg, off + s.prefix, end, s.count, s.compression, Some(marks));
      EqualSlice(msg, msg', ReadNames(msg, off + s.prefix, end, s.count, s.compression, Some(marks)).value.next, end);
    }
  }

  lemma {:induction false} PrefixFits(kind: uint16)
    ensures ShapeOf(kind).Some? ==> ShapeOf(kind).value.prefix <= ShapeOf(kind).value.minimum
  {
  }

  // ---- records ----

  /** The same record: only TTL and the case of names may differ; a pseudo-record is untouched. */
  ghost predicate SameRecord(a: Record, b: Record) {
    && b == a.(owner := b.owner, ttl := b.ttl, embedded := b.embedded)
    && SameName(a.owner, b.owner) && SameNames(a.embedded, b.embedded)
    && (a.kind == OPT ==> b.ttl == a.ttl)
  }

  /** All bytes of the record agree, but for its TTL. */
  ghost predicate AroundTTL(msg: seq<byte>, msg': seq<byte>, r: Record) {
    && r.start <= r.owner.end && r.owner.end + 10 <= r.end
    && Equal(msg, msg', r.start, r.owner.end + 4)
    && Equal(msg, msg', r.owner.end + 8, r.end)
    && (r.ttlOffset.None? ==> Equal(msg, msg', r.start, r.end))
  }

  lemma {:induction false} SameWords(msg: seq<byte>, msg': seq<byte>, a: nat, b: nat, off: nat)
    requires Equal(msg, msg', a, b) && a <= off
    ensures off + 2 <= b ==> U16(msg', off) == U16(msg, off)
    ensures off + 4 <= b ==> U32(msg', off) == U32(msg, off)
  {
  }

  lemma {:induction false} EqualWithin(msg: seq<byte>, msg': seq<byte>, a: nat, b: nat, c: nat, d: nat)
    requires Equal(msg, msg', a, b) && a <= c <= d <= b
    ensures Equal(msg, msg', c, d)
  {
  }

  /** Behind its owner, a record reads the same. */
  lemma {:induction false} BodyKeeps(msg: seq<byte>, msg': seq<byte>, c: Cursor, section: nat, owner: Name, owner': Name, marks: set<nat>)
    requires CursorOK(c) && section < 3 && c.counts[section] > 0 && SameName(owner, owner') && SameMarks(msg, msg', marks)
    requires c.off <= owner.end && Body(msg, c, section, owner, Some(marks)).Got? && AroundTTL(msg, msg', Body(msg, c, section, owner, Some(marks)).record)
    ensures var s, t := Body(msg, c, section, owner, Some(marks)), Body(msg', c, section, owner', None);
      && s.names.Some? && SameMarks(msg, msg', s.names.value)
      && t.Got? && t.cursor == s.cursor && t.names == None && SameRecord(s.record, t.record)
  {
    hide SameMarks, U16, U32, Options, ReadData, Equal, SameName, SameNames;
    var r, off := Body(msg, c, section, owner, Some(marks)).record, owner.end;
    SameEnds(owner, owner');
    EqualSizes(msg, msg', off + 8, r.end);
    SameWords(msg, msg', r.start, off + 4, off);
    SameWords(msg, msg', r.start, off + 4, off + 2);
    SameWords(msg, msg', off + 8, r.end, off + 8);
    EqualWithin(msg, msg', off + 8, r.end, r.data, r.end);
    if r.kind == OPT {
      SameWords(msg, msg', r.start, r.end, off + 4);
      EqualSlice(msg, msg', r.data, r.end);
      NoNames();
    } else {
      DataKeeps(msg, msg', r.kind, r.data, r.end, marks);
    }
  }

  lemma {:induction false} NextKeeps(msg: seq<byte>, msg': seq<byte>, c: Cursor, marks: set<nat>)
    requires CursorOK(c) && SameMarks(msg, msg', marks) && Next(msg, c, Some(marks)).Got?
    requires AroundTTL(msg, msg', Next(msg, c, Some(marks)).record)
    ensures var s, t := Next(msg, c, Some(marks)), Next(msg', c, None);
      && s.names.Some? && SameMarks(msg, msg', s.names.value)
      && t.Got? && t.cursor == s.cursor && t.names == None && SameRecord(s.record, t.record)
  {
    hide SameMarks, CheckedName, Skip, Body, Equal, SameName, SameNames, SameRecord;
    NextPlaced(msg, c, Some(marks));
    var r, section := Next(msg, c, Some(marks)).record, Skip(c.section, c.counts);
    var owner := CheckedName(msg, c.off, Some(marks)).value;
    BodyOwner(msg, c, section, owner.name, owner.names);
    EqualAgree(msg, msg', r.start, owner.name.end + 4, r.owner);
    NameKeeps(msg, msg', c.off, marks);
    BodyKeeps(msg, msg', c, section, owner.name, CheckedName(msg', c.off, None).value.name, owner.names.value);
  }

  lemma {:induction false} BodyOwner(msg: seq<byte>, c: Cursor, section: nat, owner: Name, names: Names)
    requires CursorOK(c) && section < 3 && c.counts[section] > 0 && Body(msg, c, section, owner, names).Got?
    ensures Body(msg, c, section, owner, names).record.owner == owner && Body(msg, c, section, owner, names).record.start == c.off
  {
    hide U16, U32, Options, ReadData;
  }

  lemma {:induction false} NoNames()
    ensures SameNames([], [])
  {
  }

  lemma {:induction false} EqualSizes(msg: seq<byte>, msg': seq<byte>, a: nat, b: nat)
    requires Equal(msg, msg', a, b)
    ensures |msg| == |msg'| && b <= |msg|
  {
  }

  // ---- whole messages ----

  /** Byte i is part of a record's TTL field. */
  ghost predicate InTTL(rs: seq<Record>, i: nat) {
    exists k :: 0 <= k < |rs| && CoversTTL(rs[k], i)
  }

  predicate CoversTTL(r: Record, i: nat) { r.ttlOffset.Some? && r.ttlOffset.value <= i < r.ttlOffset.value + 4 }

  /** From off on the messages differ at most in the TTLs of these records. */
  ghost predicate PatchedFrom(msg: seq<byte>, msg': seq<byte>, off: nat, rs: seq<Record>) {
    |msg'| == |msg| && forall i: nat | off <= i < |msg| && !InTTL(rs, i) :: msg'[i] == msg[i]
  }

  ghost predicate SameRecords(a: seq<Record>, b: seq<Record>) {
    |a| == |b| && forall i | 0 <= i < |a| :: SameRecord(a[i], b[i])
  }

  /** The first record is untouched but for its TTL, and so is everything behind it. */
  lemma {:induction false} FirstPatched(msg: seq<byte>, msg': seq<byte>, off: nat, rs: seq<Record>)
    requires rs != [] && PatchedFrom(msg, msg', off, rs)
    requires forall i | 0 <= i < |rs| :: Placed(msg, rs[i], off)
    requires forall i, j | 0 <= i < j < |rs| :: rs[i].end <= rs[j].start
    ensures AroundTTL(msg, msg', rs[0]) && PatchedFrom(msg, msg', rs[0].end, rs[1..])
  {
    var r := rs[0];
    assert Placed(msg, r, off);
    forall i: nat | r.start <= i < r.end && !CoversTTL(r, i) ensures msg'[i] == msg[i] {
      forall k | 0 <= k < |rs| ensures !CoversTTL(rs[k], i) { assert Placed(msg, rs[k], off); }
      assert !InTTL(rs, i);
    }
    forall i: nat | r.end <= i < |msg| && !InTTL(rs[1..], i) ensures msg'[i] == msg[i] {
      forall k | 0 <= k < |rs| ensures !CoversTTL(rs[k], i) {
        if k > 0 {
          assert rs[k] == rs[1..][k - 1];
        }
      }
      assert !InTTL(rs, i);
    }
  }

  lemma {:induction false} ScanKeeps(msg: seq<byte>, msg': seq<byte>, c: Cursor, marks: set<nat>)
    requires CursorOK(c) && SameMarks(msg, msg', marks) && ScanFrom(msg, c, Some(marks)).Ok?
    requires PatchedFrom(msg, msg', c.off, ScanFrom(msg, c, Some(marks)).value.records)
    ensures var s, t := ScanFrom(msg, c, Some(marks)).value, ScanFrom(msg', c, None);
      t.Ok? && t.value.edns == s.edns && SameRecords(s.records, t.value.records)
    decreases Left(c)
  {
    hide SameMarks, Next, PatchedFrom, AroundTTL, Placed, SameRecord, Left;
    var rs := ScanFrom(msg, c, Some(marks)).value.records;
    ScanPlaced(msg, c, Some(marks));
    if Next(msg, c, Some(marks)).Got? {
      var s := Next(msg, c, Some(marks));
      assert rs[0] == s.record && rs[1..] == ScanFrom(msg, s.cursor, s.names).value.records;
      FirstPatched(msg, msg', c.off, rs);
      NextPlaced(msg, c, Some(marks));
      NextKeeps(msg, msg', c, marks);
      ScanKeeps(msg, msg', s.cursor, s.names.value);
    } else {
      PatchedSize(msg, msg', c.off, rs);
      DoneKeeps(msg, msg', c, Some(marks));
    }
  }

  lemma {:induction false} PatchedSize(msg: seq<byte>, msg': seq<byte>, off: nat, rs: seq<Record>)
    requires PatchedFrom(msg, msg', off, rs)
    ensures |msg'| == |msg|
  {
  }

  lemma {:induction false} DoneKeeps(msg: seq<byte>, msg': seq<byte>, c: Cursor, names: Names)
    requires CursorOK(c) && Next(msg, c, names).Done? && |msg'| == |msg|
    ensures Next(msg', c, None).Done?
  {
  }
}
