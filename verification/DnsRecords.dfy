/** Questions, resource records and the record scanner (internal/dnswire/question.go, records.go). */
module DnsRecords {
  import opened Common
  import opened WireBytes
  import opened DnsName

  const ANSWER: nat := 0
  const AUTHORITY: nat := 1
  const ADDITIONAL: nat := 2

  const A: nat := 1
  const CNAME: nat := 5
  const SOA: nat := 6
  const OPT: nat := 41

  datatype Question = Question(flags: uint16, name: Name, kind: uint16, rrClass: uint16, end: nat)

  function ParseQuestion(msg: seq<byte>): Result<Question> {
    if |msg| < 12 || |msg| > MAX_MESSAGE then Err(ErrBounds)
    else if U16(msg, 4) != 1 then Err(ErrQuestionCount)
    else
      var name := Decode(msg, 12);
      if name.Err? then Err(name.error)
      else if |msg| < name.value.end + 4 then Err(ErrBounds)
      else
        var off := name.value.end;
        Ok(Question(U16(msg, 2), name.value, U16(msg, off), U16(msg, off + 2), off + 4))
  }

  // ---- name boundaries ----

  /**
   Marks every label start of the name at off. A pointer is accepted only if its target is already
   marked, so names lead through names and never through other fields.
   */
  function AddMarks(msg: seq<byte>, off: nat, marks: set<nat>): Option<set<nat>>
    decreases |msg| - off
  {
    if off >= |msg| then None
    else if msg[off] >= 192 then
      if off + 1 < |msg| && Target(msg, off) in marks then Some(marks + {off}) else None
    else if msg[off] == 0 then Some(marks + {off})
    else AddMarks(msg, off + 1 + msg[off], marks + {off})
  }

  /** Marks are kept only while a template is prepared. */
  type Names = Option<set<nat>>

  datatype Checked = Checked(name: Name, names: Names)

  function CheckedName(msg: seq<byte>, off: nat, names: Names): Result<Checked> {
    var n := Decode(msg, off);
    if n.Err? then Err(n.error)
    else if names.None? then Ok(Checked(n.value, None))
    else
      var marks := AddMarks(msg, off, names.value);
      if marks.None? then Err(ErrTemplate) else Ok(Checked(n.value, marks))
  }

  // ---- record data ----

  /** Record data that holds names: a fixed prefix, the names, and a tail. */
  datatype Shape = Shape(minimum: nat, prefix: nat, count: nat, compression: bool)

  function ShapeOf(kind: uint16): Option<Shape> {
    match kind
    case 2 => Some(Shape(0, 0, 1, true))
    case 5 => Some(Shape(0, 0, 1, true))
    case 12 => Some(Shape(0, 0, 1, true))
    case 39 => Some(Shape(0, 0, 1, false))
    case 15 => Some(Shape(2, 2, 1, true))
    case 33 => Some(Shape(6, 6, 1, false))
    case 6 => Some(Shape(0, 0, 2, true))
    case 64 => Some(Shape(3, 2, 1, false))
    case 65 => Some(Shape(3, 2, 1, false))
    case 46 => Some(Shape(20, 18, 1, false))
    case 47 => Some(Shape(0, 0, 1, false))
    case _ => None
  }

  /** What may follow the names. */
  predicate TailOK(kind: uint16, tail: seq<byte>) {
    match kind
    case 6 => |tail| == 20
    case 64 => Params(tail, -1)
    case 65 => Params(tail, -1)
    case 46 => tail != []
    case 47 => tail != [] && Windows(tail, -1)
    case _ => tail == []
  }

  /** Record data without names; unknown kinds are opaque. */
  predicate PlainOK(kind: uint16, data: seq<byte>) {
    match kind
    case 1 => |data| == 4
    case 28 => |data| == 16
    case 16 => data != [] && Strings(data)
    case _ => true
  }

  /** Length-prefixed strings that fill the data exactly. */
  predicate Strings(d: seq<byte>)
    decreases |d|
  {
    d == [] || (1 + d[0] <= |d| && Strings(d[1 + d[0]..]))
  }

  /** Service parameters with increasing keys. */
  predicate Params(d: seq<byte>, last: int)
    decreases |d|
  {
    d == [] || (|d| >= 4 && last < U16(d, 0) && 4 + U16(d, 2) <= |d| && Params(d[4 + U16(d, 2)..], U16(d, 0)))
  }

  /** Type bitmap windows in increasing order, without trailing zero octets. */
  predicate Windows(d: seq<byte>, last: int)
    decreases |d|
  {
    d == [] || (|d| >= 2 && last < d[0] && 1 <= d[1] <= 32 && 2 + d[1] <= |d| && d[1 + d[1]] != 0 && Windows(d[2 + d[1]..], d[0]))
  }

  /** EDNS options fill the data exactly. */
  predicate Options(d: seq<byte>)
    decreases |d|
  {
    d == [] || (|d| >= 4 && 4 + U16(d, 2) <= |d| && Options(d[4 + U16(d, 2)..]))
  }

  datatype Embedded = Embedded(list: seq<Name>, names: Names, next: nat)

  /** The names of record data, each inside [off, end). */
  function ReadNames(msg: seq<byte>, off: nat, end: nat, count: nat, compression: bool, names: Names): Result<Embedded>
    decreases count
  {
    if count == 0 then Ok(Embedded([], names, off))
    else if off >= end then Err(ErrRecord)
    else
      var n := CheckedName(msg, off, names);
      if n.Err? then Err(n.error)
      else if n.value.name.end > end || (!compression && n.value.name.compressed) then Err(ErrRecord)
      else
        var rest := ReadNames(msg, n.value.name.end, end, count - 1, compression, n.value.names);
        if rest.Err? then rest else Ok(rest.value.(list := [n.value.name] + rest.value.list))
  }

  function ReadData(msg: seq<byte>, kind: uint16, off: nat, end: nat, names: Names): Result<Embedded>
    requires off <= end <= |msg|
  {
    var shape := ShapeOf(kind);
    if shape.None? then
      if PlainOK(kind, msg[off..end]) then Ok(Embedded([], names, end)) else Err(ErrRecord)
    else if end - off < shape.value.minimum then Err(ErrRecord)
    else
      var r := ReadNames(msg, off + shape.value.prefix, end, shape.value.count, shape.value.compression, names);
      if r.Err? then r
      else if r.value.next <= end && TailOK(kind, msg[r.value.next..end]) then r
      else Err(ErrRecord)
  }

  // ---- records ----

  datatype Record = Record(
    owner: Name, kind: uint16, rrClass: uint16, ttl: uint32, section: nat,
    start: nat, ttlOffset: Option<nat>, data: nat, end: nat, embedded: seq<Name>)

  datatype Edns = Edns(udpSize: uint16, ttl: uint32, offset: nat, options: seq<byte>)

  function Version(e: Edns): nat { e.ttl / 0x1_0000 % 256 }
  function ExtendedCode(e: Edns): nat { e.ttl / 0x100_0000 }
  function EdnsFlags(e: Edns): nat { e.ttl % 0x1_0000 }

  datatype Cursor = Cursor(off: nat, section: nat, counts: seq<nat>, edns: Option<Edns>)

  predicate CursorOK(c: Cursor) { |c.counts| == 3 && c.section <= 3 }

  /** The first section from s on with records left. */
  function Skip(s: nat, counts: seq<nat>): (r: nat)
    requires |counts| == 3 && s <= 3
    ensures s <= r <= 3 && (r < 3 ==> counts[r] > 0)
    ensures forall i | s <= i < r :: counts[i] == 0
    decreases 3 - s
  {
    if s < 3 && counts[s] == 0 then Skip(s + 1, counts) else s
  }

  function Left(c: Cursor): nat
    requires CursorOK(c)
  {
    c.counts[0] + c.counts[1] + c.counts[2]
  }

  datatype Step = Done | Fail(error: WireError) | Got(record: Record, cursor: Cursor, names: Names)

  /** The scanner's next record, with its owner already decoded. */
  function Body(msg: seq<byte>, c: Cursor, section: nat, owner: Name, names: Names): Step
    requires CursorOK(c) && section < 3 && c.counts[section] > 0
  {
    var off := owner.end;
    if |msg| < off + 10 then Fail(ErrBounds)
    else
      var data := off + 10;
      var end := data + U16(msg, off + 8);
      if end > |msg| then Fail(ErrBounds)
      else
        var r := Record(owner, U16(msg, off), U16(msg, off + 2), U32(msg, off + 4), section, c.off, Some(off + 4), data, end, []);
        var counts := c.counts[section := c.counts[section] - 1];
        if r.kind == OPT then
          if c.edns.Some? || section != ADDITIONAL || |owner.wire| != 1 || owner.compressed || !Options(msg[data..end]) then Fail(ErrEDNS)
          else
            Got(r.(ttlOffset := None), Cursor(end, section, counts, Some(Edns(r.rrClass, r.ttl, c.off, msg[data..end]))), names)
        else
          var e := ReadData(msg, r.kind, data, end, names);
          if e.Err? then Fail(e.error)
          else Got(r.(embedded := e.value.list), Cursor(end, section, counts, c.edns), e.value.names)
  }

  function Next(msg: seq<byte>, c: Cursor, names: Names): (s: Step)
    requires CursorOK(c)
    ensures s.Got? ==> CursorOK(s.cursor) && Left(s.cursor) < Left(c)
  {
    var section := Skip(c.section, c.counts);
    if section == 3 then
      if c.off != |msg| then Fail(ErrTrailing) else Done
    else
      var owner := CheckedName(msg, c.off, names);
      if owner.Err? then Fail(owner.error) else Body(msg, c, section, owner.value.name, owner.value.names)
  }

  datatype Scan = Scan(records: seq<Record>, edns: Option<Edns>, names: Names)

  /** All remaining records. */
  function ScanFrom(msg: seq<byte>, c: Cursor, names: Names): Result<Scan>
    requires CursorOK(c)
    decreases Left(c)
  {
    match Next(msg, c, names)
    case Done => Ok(Scan([], c.edns, names))
    case Fail(e) => Err(e)
    case Got(r, c', names') =>
      var rest := ScanFrom(msg, c', names');
      if rest.Err? then rest else Ok(rest.value.(records := [r] + rest.value.records))
  }

  function Start(msg: seq<byte>, q: Question): (c: Cursor)
    requires |msg| >= 12
    ensures CursorOK(c)
  {
    Cursor(q.end, 0, [U16(msg, 6), U16(msg, 8), U16(msg, 10)], None)
  }

  datatype Message = Message(question: Question, scan: Scan)

  /** The whole message: question, records, nothing behind them. */
  function ScanMessage(msg: seq<byte>): Result<Message> {
    var q := ParseQuestion(msg);
    if q.Err? then Err(q.error)
    else
      var s := ScanFrom(msg, Start(msg, q.value), None);
      if s.Err? then Err(s.error) else Ok(Message(q.value, s.value))
  }

  // ---- facts about scanned records ----

  /** A record lies in [off, end of message), its TTL between its name and its data. */
  ghost predicate Placed(msg: seq<byte>, r: Record, off: nat) {
    && off <= r.start < r.owner.end && r.data == r.owner.end + 10 && r.data <= r.end <= |msg|
    && (r.ttlOffset == if r.kind == OPT then None else Some(r.owner.end + 4))
    && r.ttl == U32(msg, r.owner.end + 4)
    && Decode(msg, r.start) == Ok(r.owner)
    && (r.kind == CNAME ==> |r.embedded| == 1 && Decode(msg, r.data) == Ok(r.embedded[0]))
    && (r.kind == SOA ==> r.data + 20 <= r.end)
    && r.section < 3
  }

  lemma {:induction false} ReadNamesOrder(msg: seq<byte>, off: nat, end: nat, count: nat, compression: bool, names: Names)
    requires ReadNames(msg, off, end, count, compression, names).Ok? && off <= end
    ensures var e := ReadNames(msg, off, end, count, compression, names).value;
      off <= e.next <= end && |e.list| == count && (count > 0 ==> Decode(msg, off) == Ok(e.list[0]))
    decreases count
  {
    hide Decode, AddMarks;
    if count > 0 {
      DecodedNames(msg, off);
      var n := CheckedName(msg, off, names).value;
      ReadNamesOrder(msg, n.name.end, end, count - 1, compression, n.names);
    }
  }

  /** The two kinds whose data the template code reads again. */
  lemma {:induction false} ReadDataFacts(msg: seq<byte>, kind: uint16, off: nat, end: nat, names: Names)
    requires off <= end <= |msg| && ReadData(msg, kind, off, end, names).Ok?
    ensures kind == CNAME ==> var e := ReadData(msg, kind, off, end, names).value; |e.list| == 1 && Decode(msg, off) == Ok(e.list[0])
    ensures kind == SOA ==> off + 20 <= end
  {
    hide Decode, ReadNames, Params, Windows;
    if kind == CNAME || kind == SOA {
      var s := ShapeOf(kind).value;
      ReadNamesOrder(msg, off + s.prefix, end, s.count, s.compression, names);
    }
  }

  lemma {:induction false} NextPlaced(msg: seq<byte>, c: Cursor, names: Names)
    requires CursorOK(c) && Next(msg, c, names).Got?
    ensures var s := Next(msg, c, names);
      Placed(msg, s.record, c.off) && s.record.start == c.off && s.cursor.off == s.record.end
  {
    hide U16, U32, Options, AddMarks, Decode, Skip, ReadData;
    DecodedNames(msg, c.off);
    var r := Next(msg, c, names).record;
    if r.kind != OPT {
      ReadDataFacts(msg, r.kind, r.data, r.end, CheckedName(msg, c.off, names).value.names);
    }
  }

  lemma {:induction false} ScanPlaced(msg: seq<byte>, c: Cursor, names: Names)
    requires CursorOK(c) && ScanFrom(msg, c, names).Ok?
    ensures var rs := ScanFrom(msg, c, names).value.records;
      && (forall i | 0 <= i < |rs| :: Placed(msg, rs[i], c.off))
      && (forall i, j | 0 <= i < j < |rs| :: rs[i].end <= rs[j].start)
    decreases Left(c)
  {
    hide Next, Placed;
    if Next(msg, c, names).Got? {
      var s := Next(msg, c, names);
      NextPlaced(msg, c, names);
      ScanPlaced(msg, s.cursor, s.names);
      var rs, rest := ScanFrom(msg, c, names).value.records, ScanFrom(msg, s.cursor, s.names).value.records;
      forall i | 0 <= i < |rs| ensures Placed(msg, rs[i], c.off) && (i > 0 ==> rs[0].end <= rs[i].start) {
        PlacedBounds(msg, rs[0], c.off);
        if i > 0 {
          assert rs[i] == rest[i - 1];
          PlacedBounds(msg, rs[i], s.cursor.off);
        }
      }
      forall i, j | 0 <= i < j < |rs| ensures rs[i].end <= rs[j].start {
        if i > 0 {
          assert rs[i] == rest[i - 1] && rs[j] == rest[j - 1];
        }
      }
    }
  }

  lemma {:induction false} PlacedBounds(msg: seq<byte>, r: Record, off: nat)
    requires Placed(msg, r, off)
    ensures off <= r.start < r.end && forall o: nat | o <= off :: Placed(msg, r, o)
  {
  }

  /** Boundary checks only refuse more: without them the same records are read. */
  lemma {:induction false} NextWithoutNames(msg: seq<byte>, c: Cursor, names: Names)
    requires CursorOK(c) && Next(msg, c, names).Got?
    ensures var s := Next(msg, c, names); Next(msg, c, None) == Got(s.record, s.cursor, None)
  {
    hide U16, U32, Options, AddMarks, Decode, Skip, ReadData;
    var r := Next(msg, c, names).record;
    if r.kind != OPT {
      DataWithoutMarks(msg, r.kind, r.data, r.end, CheckedName(msg, c.off, names).value.names);
    }
  }

  lemma {:induction false} DataWithoutMarks(msg: seq<byte>, kind: uint16, off: nat, end: nat, names: Names)
    requires off <= end <= |msg| && ReadData(msg, kind, off, end, names).Ok?
    ensures var e := ReadData(msg, kind, off, end, names).value; ReadData(msg, kind, off, end, None) == Ok(e.(names := None))
  {
    hide PlainOK, TailOK, ReadNames, ShapeOf;
    if ShapeOf(kind).Some? {
      var s := ShapeOf(kind).value;
      NamesWithoutMarks(msg, off + s.prefix, end, s.count, s.compression, names);
    }
  }

  lemma {:induction false} NamesWithoutMarks(msg: seq<byte>, off: nat, end: nat, count: nat, compression: bool, names: Names)
    requires ReadNames(msg, off, end, count, compression, names).Ok?
    ensures var e := ReadNames(msg, off, end, count, compression, names).value;
      ReadNames(msg, off, end, count, compression, None) == Ok(e.(names := None))
    decreases count
  {
    hide Decode, AddMarks;
    if count > 0 {
      var n := CheckedName(msg, off, names).value;
      NamesWithoutMarks(msg, n.name.end, end, count - 1, compression, n.names);
    }
  }

  lemma {:induction false} ScanWithoutNames(msg: seq<byte>, c: Cursor, names: Names)
    requires CursorOK(c) && ScanFrom(msg, c, names).Ok?
    ensures var s := ScanFrom(msg, c, names).value; ScanFrom(msg, c, None) == Ok(s.(names := None))
    decreases Left(c)
  {
    hide Next;
    if Next(msg, c, names).Got? {
      NextWithoutNames(msg, c, names);
      ScanWithoutNames(msg, Next(msg, c, names).cursor, Next(msg, c, names).names);
    } else {
      NextEnds(msg, c, names);
    }
  }

  lemma {:induction false} NextEnds(msg: seq<byte>, c: Cursor, names: Names)
    requires CursorOK(c) && Next(msg, c, names).Done?
    ensures Next(msg, c, None).Done?
  {
  }
}
