/** Which responses become cache templates, and with which TTLs (internal/dnswire/ttl.go). */
module DnsTemplate {
  import opened Common
  import opened WireBytes
  import opened DnsName
  import opened DnsRecords
  import opened DnsPatched

  const MAX_TTL: nat := 0x7fff_ffff
  const MAX_LINKS: nat := 16

  datatype Patch = Patch(offset: uint16, ttl: uint32)
  datatype Template = Template(lifetime: uint32, patches: seq<Patch>, negative: bool)

  // ---- eligibility ----

  /** A complete, plain response to an Internet question: no error but NXDOMAIN. */
  predicate QuestionFits(q: Question) {
    && !q.name.compressed && q.rrClass == 1
    && q.flags / 0x8000 == 1 && q.flags / 0x800 % 16 == 0 && q.flags / 0x200 % 2 == 0
    && q.flags % 16 in {0, 3}
  }

  predicate EdnsFits(e: Option<Edns>) {
    e.Some? ==> Version(e.value) == 0 && ExtendedCode(e.value) == 0 && EdnsFlags(e.value) % 0x8000 == 0 && e.value.options == []
  }

  predicate Refused(r: Record) { r.kind == 249 || r.kind == 250 || (r.kind != OPT && r.rrClass != 1) }

  /** The first pass: every record valid and acceptable, every name within boundaries. */
  function FirstPass(msg: seq<byte>, c: Cursor, names: Names): Result<Scan>
    requires CursorOK(c)
    decreases Left(c)
  {
    match Next(msg, c, names)
    case Done => Ok(Scan([], c.edns, names))
    case Fail(e) => Err(e)
    case Got(r, c', names') =>
      if Refused(r) then Err(ErrTemplate)
      else
        var rest := FirstPass(msg, c', names');
        if rest.Err? then rest else Ok(rest.value.(records := [r] + rest.value.records))
  }

  // ---- negative answers ----

  predicate Answers(q: Question, r: Record) { r.section == ANSWER && (r.kind == q.kind || q.kind == 255) }

  predicate IsAlias(r: Record) { r.section == ANSWER && r.kind == CNAME }

  /** zone is name itself or one of its parents, label by label. */
  predicate Enclosing(name: seq<byte>, zone: seq<byte>)
    decreases |name|
  {
    name != [] && (name == zone || (1 + name[0] < |name| && Enclosing(name[1 + name[0]..], zone)))
  }

  predicate HasAuthority(rs: seq<Record>, name: seq<byte>) {
    exists i :: 0 <= i < |rs| && IsAuthority(rs[i], name)
  }

  predicate IsAuthority(r: Record, name: seq<byte>) {
    r.section == AUTHORITY && r.kind == SOA && Enclosing(name, Canonical(r.owner))
  }

  predicate AliasOf(r: Record, name: seq<byte>) { IsAlias(r) && Canonical(r.owner) == name && |r.embedded| == 1 }

  function AliasTarget(r: Record): seq<byte>
    requires |r.embedded| == 1
  {
    Canonical(r.embedded[0])
  }

  datatype Link = NoLink | Ambiguous | Link(target: seq<byte>, start: nat)

  /** The alias for a name: the first one; a second one must agree with it. */
  function Follow(rs: seq<Record>, name: seq<byte>): Link {
    if rs == [] then NoLink
    else
      var r := rs[|rs| - 1];
      var before := Follow(rs[..|rs| - 1], name);
      if before.Ambiguous? || !AliasOf(r, name) then before
      else if before.NoLink? then Link(AliasTarget(r), r.start)
      else if before.target == AliasTarget(r) then before
      else Ambiguous
  }

  /** Walks the alias chain to its end and asks whether a zone above that end is in authority. */
  function NegativeAuthority(rs: seq<Record>, current: seq<byte>, seen: seq<nat>): Result<bool>
    requires |seen| <= MAX_LINKS
    decreases MAX_LINKS - |seen|
  {
    match Follow(rs, current)
    case Ambiguous => Err(ErrTemplate)
    case NoLink => Ok(HasAuthority(rs, current))
    case Link(target, start) =>
      if |seen| == MAX_LINKS || start in seen then Err(ErrTemplate)
      else NegativeAuthority(rs, target, seen + [start])
  }

  predicate IsNegative(q: Question, rs: seq<Record>) {
    q.flags % 16 == 3 || forall i | 0 <= i < |rs| :: !Answers(q, rs[i])
  }

  function Authority(q: Question, rs: seq<Record>): Result<bool> {
    if exists i :: 0 <= i < |rs| && IsAlias(rs[i]) then NegativeAuthority(rs, Canonical(q.name), [])
    else Ok(HasAuthority(rs, Canonical(q.name)))
  }

  // ---- TTL patches ----

  /** The last word of a start-of-authority record: its minimum. */
  function Minimum(msg: seq<byte>, r: Record): uint32 {
    if 4 <= r.end <= |msg| then U32(msg, r.end - 4) else 0
  }

  function Least(a: uint32, b: uint32): uint32 { if a < b then a else b }

  /** The TTL to keep: in a negative answer that of the authority is bounded by its minimum and by policy. */
  function KeptTTL(msg: seq<byte>, r: Record, negative: bool, maxNegative: uint32): uint32 {
    if negative && r.kind == SOA && r.section == AUTHORITY then Least(Least(r.ttl, Minimum(msg, r)), maxNegative) else r.ttl
  }

  /** The second pass: one patch per TTL, in order; room counts bytes left for the table. */
  function Emit(msg: seq<byte>, rs: seq<Record>, negative: bool, maxNegative: uint32, room: nat): Result<seq<Patch>> {
    if rs == [] then Ok([])
    else
      var r := rs[0];
      if r.ttlOffset.None? then Emit(msg, rs[1..], negative, maxNegative, room)
      else if r.ttl == 0 || r.ttl > MAX_TTL || KeptTTL(msg, r, negative, maxNegative) == 0 then Err(ErrTemplate)
      else if room < 8 || r.ttlOffset.value > 65535 then Err(ErrBounds)
      else
        var rest := Emit(msg, rs[1..], negative, maxNegative, room - 8);
        if rest.Err? then rest else Ok([Patch(r.ttlOffset.value, KeptTTL(msg, r, negative, maxNegative))] + rest.value)
  }

  function Lifetime(ps: seq<Patch>): uint32 {
    if ps == [] then 0xffff_ffff else Least(Lifetime(ps[..|ps| - 1]), ps[|ps| - 1].ttl)
  }

  function EncodePatch(p: Patch): (r: seq<byte>)
    ensures |r| == 8
  {
    Be16(p.offset) + [0, 0] + Be32(p.ttl)
  }

  function Table(ps: seq<Patch>): (r: seq<byte>)
    ensures |r| == 8 * |ps|
  {
    if ps == [] then [] else Table(ps[..|ps| - 1]) + EncodePatch(ps[|ps| - 1])
  }

  function Prepare(msg: seq<byte>, room: nat, maxNegative: uint32): Result<Template> {
    var q := ParseQuestion(msg);
    if q.Err? then Err(q.error)
    else if !QuestionFits(q.value) then Err(ErrTemplate)
    else
      var marks := AddMarks(msg, 12, {});
      if marks.None? then Err(ErrTemplate)
      else
        var s := FirstPass(msg, Start(msg, q.value), marks);
        if s.Err? then Err(s.error)
        else if !EdnsFits(s.value.edns) then Err(ErrTemplate)
        else Finish(msg, q.value, s.value.records, room, maxNegative)
  }

  function Finish(msg: seq<byte>, q: Question, rs: seq<Record>, room: nat, maxNegative: uint32): Result<Template> {
    var negative := IsNegative(q, rs);
    var authority := Authority(q, rs);
    if negative && authority.Err? then Err(authority.error)
    else if negative && (!authority.value || maxNegative == 0) then Err(ErrTemplate)
    else
      var ps := Emit(msg, rs, negative, maxNegative, room);
      if ps.Err? then Err(ps.error)
      else if ps.value == [] then Err(ErrTemplate)
      else Ok(Template(Lifetime(ps.value), ps.value, negative))
  }

  // ---- the first pass is a scan ----

  lemma {:induction false} FirstPassScans(msg: seq<byte>, c: Cursor, names: Names)
    requires CursorOK(c) && FirstPass(msg, c, names).Ok?
    ensures ScanFrom(msg, c, names) == FirstPass(msg, c, names)
    decreases Left(c)
  {
    hide Next, Left;
    if Next(msg, c, names).Got? {
      NextLess(msg, c, names);
      FirstPassScans(msg, Next(msg, c, names).cursor, Next(msg, c, names).names);
    }
  }

  lemma {:induction false} NextLess(msg: seq<byte>, c: Cursor, names: Names)
    requires CursorOK(c) && Next(msg, c, names).Got?
    ensures CursorOK(Next(msg, c, names).cursor) && Left(Next(msg, c, names).cursor) < Left(c)
  {
  }

  /** What a prepared message is: a valid message whose names all lead through marked boundaries. */
  ghost predicate Prepared(msg: seq<byte>, q: Question, marks: set<nat>, s: Scan) {
    && ParseQuestion(msg) == Ok(q) && QuestionFits(q)
    && AddMarks(msg, 12, {}) == Some(marks)
    && ScanFrom(msg, Start(msg, q), Some(marks)) == Ok(s)
  }

  function QuestionOf(msg: seq<byte>): Question
    requires ParseQuestion(msg).Ok?
  {
    ParseQuestion(msg).value
  }

  function RecordsOf(msg: seq<byte>): seq<Record>
    requires ScanMessage(msg).Ok?
  {
    ScanMessage(msg).value.scan.records
  }

  lemma {:induction false} PreparedOf(msg: seq<byte>, room: nat, maxNegative: uint32)
    requires Prepare(msg, room, maxNegative).Ok?
    ensures ScanMessage(msg).Ok? && ParseQuestion(msg).Ok?
    ensures exists marks, s ::
      && Prepared(msg, QuestionOf(msg), marks, s) && s.records == RecordsOf(msg)
      && s.edns == ScanMessage(msg).value.scan.edns && EdnsFits(s.edns)
    ensures Prepare(msg, room, maxNegative) == Finish(msg, QuestionOf(msg), RecordsOf(msg), room, maxNegative)
  {
    hide ParseQuestion, AddMarks, ScanFrom, FirstPass, Finish, QuestionFits, EdnsFits;
    QuestionLong(msg);
    var q := QuestionOf(msg);
    var marks := AddMarks(msg, 12, {});
    FirstPassScans(msg, Start(msg, q), marks);
    ScanWithoutNames(msg, Start(msg, q), marks);
    assert Prepared(msg, q, marks.value, FirstPass(msg, Start(msg, q), marks).value);
  }

  lemma {:induction false} QuestionLong(msg: seq<byte>)
    ensures ParseQuestion(msg).Ok? ==> 12 <= |msg| <= MAX_MESSAGE
  {
  }

  lemma {:induction false} QuestionBounds(msg: seq<byte>)
    requires ParseQuestion(msg).Ok?
    ensures var q := ParseQuestion(msg).value;
      && Decode(msg, 12) == Ok(q.name) && q.end == q.name.end + 4 <= |msg| && 12 <= |msg| <= MAX_MESSAGE && 12 < q.name.end
      && (!q.name.compressed ==> q.name.end == 12 + |q.name.wire| && msg[12..q.name.end] == q.name.wire)
  {
    hide Decode, U16;
    DecodedNames(msg, 12);
  }

  // ---- patching preserves meaning ----

  /** ID, flags, TTLs of the records and the spelling of the question may change, nothing else. */
  ghost predicate Patched(msg: seq<byte>, msg': seq<byte>, question: nat, rs: seq<Record>) {
    && |msg'| == |msg| && 12 + question <= |msg|
    && Fold(msg'[12..12 + question]) == Fold(msg[12..12 + question])
    && forall i: nat | 4 <= i < |msg| && !(12 <= i < 12 + question) && !InTTL(rs, i) :: msg'[i] == msg[i]
  }

  /** The same message to a reader that ignores case, TTLs, ID and flags. */
  ghost predicate SameMessage(a: Message, b: Message) {
    && SameName(a.question.name, b.question.name)
    && a.question.kind == b.question.kind && a.question.rrClass == b.question.rrClass && a.question.end == b.question.end
    && a.scan.edns == b.scan.edns && SameRecords(a.scan.records, b.scan.records)
  }

  lemma {:induction false} PatchedBytes(msg: seq<byte>, msg': seq<byte>, q: Question, rs: seq<Record>)
    requires ParseQuestion(msg) == Ok(q) && !q.name.compressed && Patched(msg, msg', |q.name.wire|, rs)
    requires forall i | 0 <= i < |rs| :: Placed(msg, rs[i], q.end)
    ensures Agree(msg, msg', 12, q.name) && PatchedFrom(msg, msg', q.end, rs)
    ensures Equal(msg, msg', 4, 12) && Equal(msg, msg', q.name.end, q.end)
  {
    hide Fold, Lower, Placed, InTTL, ParseQuestion;
    QuestionBounds(msg);
    forall i: nat | i < q.end ensures !InTTL(rs, i) { TTLsBehind(msg, q.end, rs, i); }
    FoldedBytes(msg, msg', 12, q.name.end);
  }

  lemma {:induction false} TTLsBehind(msg: seq<byte>, off: nat, rs: seq<Record>, i: nat)
    requires (forall k | 0 <= k < |rs| :: Placed(msg, rs[k], off)) && i < off
    ensures !InTTL(rs, i)
  {
    forall k | 0 <= k < |rs| ensures !CoversTTL(rs[k], i) { assert Placed(msg, rs[k], off); }
  }

  lemma {:induction false} FoldedBytes(msg: seq<byte>, msg': seq<byte>, a: nat, b: nat)
    requires a <= b <= |msg| == |msg'| && Fold(msg'[a..b]) == Fold(msg[a..b])
    ensures forall i | a <= i < b :: Lower(msg'[i]) == Lower(msg[i])
  {
    hide Lower;
    forall i | a <= i < b ensures Lower(msg'[i]) == Lower(msg[i]) {
      assert Fold(msg[a..b])[i - a] == Fold(msg'[a..b])[i - a];
    }
  }

  lemma {:induction false} QuestionKeeps(msg: seq<byte>, msg': seq<byte>, q: Question, marks: set<nat>)
    requires ParseQuestion(msg) == Ok(q) && AddMarks(msg, 12, {}) == Some(marks)
    requires Agree(msg, msg', 12, q.name) && Equal(msg, msg', 4, 12) && Equal(msg, msg', q.name.end, q.end)
    ensures SameMarks(msg, msg', marks) && ParseQuestion(msg').Ok?
    ensures var p := ParseQuestion(msg').value;
      && SameName(q.name, p.name) && p.kind == q.kind && p.rrClass == q.rrClass && p.end == q.end
      && Start(msg', p) == Start(msg, q)
  {
    hide AddMarks, SameMarks, U16, Agree;
    QuestionBounds(msg);
    EmptyMarks(msg, msg');
    hide SameName;
    NameKeeps(msg, msg', 12, {});
    SameEnds(q.name, CheckedName(msg', 12, None).value.name);
    EqualSizes(msg, msg', 4, 12);
    SameWords(msg, msg', 4, 12, 4);
    SameWords(msg, msg', 4, 12, 6);
    SameWords(msg, msg', 4, 12, 8);
    SameWords(msg, msg', 4, 12, 10);
    SameWords(msg, msg', q.name.end, q.end, q.name.end);
    SameWords(msg, msg', q.name.end, q.end, q.name.end + 2);
    hide Decode, Equal;
  }

  lemma {:induction false} EmptyMarks(msg: seq<byte>, msg': seq<byte>)
    ensures SameMarks(msg, msg', {})
  {
  }

  /**
   A message accepted as a template can be patched blindly: it scans again to the same records at
   the same offsets, with the same canonical owner and embedded names.
   */
  lemma {:induction false} PatchKeepsMeaning(msg: seq<byte>, room: nat, maxNegative: uint32, msg': seq<byte>)
    requires Prepare(msg, room, maxNegative).Ok? && ScanMessage(msg).Ok?
    requires Patched(msg, msg', |QuestionOf(msg).name.wire|, RecordsOf(msg))
    ensures ScanMessage(msg').Ok? && SameMessage(ScanMessage(msg).value, ScanMessage(msg').value)
  {
    hide Prepare, ParseQuestion, ScanFrom, Patched, QuestionFits, EdnsFits, PatchedFrom, SameMarks, AddMarks, Agree, Equal;
    PreparedOf(msg, room, maxNegative);
    var q := QuestionOf(msg);
    var marks, s :| Prepared(msg, q, marks, s) && s.records == RecordsOf(msg) && s.edns == ScanMessage(msg).value.scan.edns && EdnsFits(s.edns);
    QuestionLong(msg);
    ScanPlaced(msg, Start(msg, q), Some(marks));
    PlainQuestion(q);
    PatchedBytes(msg, msg', q, s.records);
    QuestionKeeps(msg, msg', q, marks);
    QuestionLong(msg');
    ScanKeeps(msg, msg', Start(msg, q), marks);
  }

  lemma {:induction false} PlainQuestion(q: Question)
    requires QuestionFits(q)
    ensures !q.name.compressed
  {
  }
}
