/**
 The lease engine as a function of its state: one packet, completion, tick or settings
 change at a time (internal/dhcp/engine.go).

 An entry is named by its address: `byIP` holds the entries, `byID` says which of them a
 client identity currently points to. The class in DhcpOwner updates the same state in place.
 */
module DhcpEngine {
  import opened Common
  import opened DhcpTypes
  import opened DhcpSettings

  datatype Entry = Entry(
    lease: Lease,
    timing: Deadlines,
    previousTiming: Deadlines,
    pendingTiming: Deadlines,
    request: Request,
    token: Token,
    deadline: int,
    attempts: int,
    durable: bool,
    committed: Lease,
    dirty: bool,
    previous: Lease,
    pending: Lease,
    mutation: MutationKind,
    lastACK: int,
    hasACK: bool)

  datatype Engine = Engine(
    settings: Settings,
    generation: nat,
    sequence: nat,
    last: Option<Sample>,
    suspended: bool,
    byIP: map<IPv4, Entry>,
    byID: map<Identity, IPv4>,
    reservations: map<Identity, IPv4>,
    reserved: map<IPv4, Identity>,
    bitmap: seq<bool>,
    start: IPv4,
    end: IPv4,
    probes: int)

  // ---- installation of settings ----

  function ReservationsOf(rs: seq<Reservation>): map<Identity, IPv4> {
    if rs == [] then map[]
    else
      var r := rs[|rs| - 1];
      var rest := ReservationsOf(rs[..|rs| - 1]);
      if ReservationKey(r).Some? && r.address.Value? then rest[ReservationKey(r).value := r.address.value] else rest
  }

  function ReservedOf(rs: seq<Reservation>): map<IPv4, Identity> {
    if rs == [] then map[]
    else
      var r := rs[|rs| - 1];
      var rest := ReservedOf(rs[..|rs| - 1]);
      if ReservationKey(r).Some? && r.address.Value? then rest[r.address.value := ReservationKey(r).value] else rest
  }

  predicate HasPool(s: Settings) { s.rangeStart.Value? && s.rangeEnd.Value? && s.rangeStart.value <= s.rangeEnd.value }

  /** One bit per pool address: set for reserved and for owned addresses. */
  function PoolBits(s: Settings, reserved: set<IPv4>, owned: set<IPv4>): seq<bool> {
    if HasPool(s) then
      seq(s.rangeEnd.value - s.rangeStart.value + 1,
          i requires 0 <= i < s.rangeEnd.value - s.rangeStart.value + 1 =>
            s.rangeStart.value + i in reserved || s.rangeStart.value + i in owned)
    else []
  }

  function Install(e: Engine, s: Settings, generation: nat): Engine {
    var reserved := ReservedOf(s.reservations);
    e.(settings := s, generation := generation,
       reservations := ReservationsOf(s.reservations), reserved := reserved,
       bitmap := PoolBits(s, reserved.Keys, e.byIP.Keys),
       start := if HasPool(s) then s.rangeStart.value else 0,
       end := if HasPool(s) then s.rangeEnd.value else 0)
  }

  /** A fresh engine; the caller has validated the settings. */
  function NewEngine(s: Settings, generation: nat): Engine {
    Install(Engine(s, 0, 0, None, false, map[], map[], map[], map[], [], 0, 0, 0), s, generation)
  }

  // ---- index primitives ----

  predicate InPool(e: Engine, ip: int) { |e.bitmap| > 0 && e.start <= ip <= e.end && ip - e.start < |e.bitmap| }

  function Mark(e: Engine, ip: IPv4, used: bool): Engine {
    if !InPool(e, ip) || (!used && ip in e.reserved) then e
    else e.(bitmap := e.bitmap[ip - e.start := used])
  }

  /** Forget an identity if it points at this entry. */
  function Detach(byID: map<Identity, IPv4>, id: Identity, ip: IPv4): map<Identity, IPv4> {
    if id in byID && byID[id] == ip then byID - {id} else byID
  }

  function Remove(e: Engine, ip: IPv4): Engine
    requires ip in e.byIP
  {
    Mark(e.(byIP := e.byIP - {ip}, byID := Detach(e.byID, e.byIP[ip].lease.identity, ip)), ip, false)
  }

  function Occupied(e: Engine): nat {
    |e.byIP.Keys + e.reserved.Keys|
  }

  // ---- clock ----

  function Now(e: Engine, s: Sample): (Engine, bool) {
    if e.last.Some? && s.wall < e.last.value.wall then (e.(suspended := true), false)
    else (e.(last := Some(s), suspended := false), true)
  }

  function NextToken(e: Engine): Token { Token(e.generation, e.sequence + 1) }

  // ---- address choice ----

  function ReservationFor(e: Engine, r: Request): Option<IPv4> {
    if r.clientId != "" && ClientId(r.clientId) in e.reservations then Some(e.reservations[ClientId(r.clientId)])
    else if MacId(r.mac) in e.reservations then Some(e.reservations[MacId(r.mac)])
    else None
  }

  predicate TopologyOK(s: Settings, ip: IPv4) {
    s.subnet.Value? && Usable(ip, s.subnet.value) && s.serverIP != Value(ip) && s.gateway != Value(ip)
  }

  predicate Eligible(e: Engine, r: Request, ip: IPv4) {
    && TopologyOK(e.settings, ip)
    && match ReservationFor(e, r)
       case Some(a) => ip == a
       case None => ip !in e.reserved && e.start <= ip <= e.end
  }

  /** First clear bit at or after position i. */
  function FirstFree(bits: seq<bool>, i: nat): (r: Option<nat>)
    requires i <= |bits|
    ensures r.Some? ==> i <= r.value < |bits| && !bits[r.value] && forall j | i <= j < r.value :: bits[j]
    ensures r.None? ==> forall j | i <= j < |bits| :: bits[j]
    decreases |bits| - i
  {
    if i == |bits| then None else if !bits[i] then Some(i) else FirstFree(bits, i + 1)
  }

  function Candidate(e: Engine, r: Request): Option<IPv4> {
    match ReservationFor(e, r)
    case Some(a) => if a in e.byIP then None else Some(a)
    case None =>
      if Occupied(e) >= Capacity(e.settings) then None
      else if r.requestedIP.V4? && InPool(e, r.requestedIP.ip) && !e.bitmap[r.requestedIP.ip - e.start] then
        Some(r.requestedIP.ip)
      else
        match FirstFree(e.bitmap, 0)
        case Some(i) => Some((e.start + i) % 0x1_0000_0000)
        case None => None
  }

  function CleanName(hostname: string): string {
    if ValidLabel(Lower(hostname)) then Lower(hostname) else ""
  }

  function ProbingEntry(e: Engine, r: Request, now: Sample, attempt: int, ip: IPv4): Entry {
    Entry(Lease(IdentityOf(r), r.mac, ip, CleanName(r.hostname), ZERO_STAMP, ZERO_STAMP, Probing),
          UNSET, UNSET, UNSET, r, NextToken(e), now.mono + PROBE_TIMEOUT, attempt,
          false, NO_LEASE, false, NO_LEASE, NO_LEASE, NoMutation, 0, false)
  }

  function DiscoverNew(e: Engine, r: Request, now: Sample, attempt: int): (Engine, Option<Probe>) {
    if e.probes >= 2 || attempt > 3 then (e, None)
    else
      match Candidate(e, r)
      case None => (e, None)
      case Some(n) =>
        if n !in e.byIP && Occupied(e) + (if n in e.reserved then 0 else 1) > Capacity(e.settings) then (e, None)
        else
          var v := ProbingEntry(e, r, now, attempt, n);
          var e1 := e.(sequence := e.sequence + 1, byIP := e.byIP[n := v], byID := e.byID[v.lease.identity := n]);
          (Mark(e1, n, true).(probes := e.probes + 1), Some(Probe(v.token, n, v.deadline)))
  }

  // ---- grants and durable mutations ----

  /** A grant never shortens the runtime hold. */
  function GrantTiming(v: Entry, now: Sample, duration: int): Deadlines {
    var until := now.mono + duration;
    Deadlines(until, if v.timing.hold > until then v.timing.hold else until)
  }

  /** The stored horizon is raised to the remaining runtime hold measured on today's wall clock. */
  function RaiseHold(target: Lease, timing: Deadlines, now: Sample): Lease {
    var hold := At(now, timing.hold - now.mono);
    if hold.wall > target.hold.wall then target.(hold := hold) else target
  }

  /** The entry with one write outstanding, remembering what to roll back to. */
  function Submitted(v: Entry, t: Token, kind: MutationKind, lease: Lease, timing: Deadlines, r: Request): Entry {
    v.(previous := v.lease, previousTiming := v.timing, pending := lease, pendingTiming := timing,
       lease := v.lease.(state := CommitPending), token := t, mutation := kind, request := r)
  }

  function Mutate(e: Engine, ip: IPv4, kind: MutationKind, target: Lease, timing: Deadlines, r: Request): (Engine, Mutation)
    requires ip in e.byIP && e.last.Some?
  {
    var lease := if kind == PutLease then RaiseHold(target, timing, e.last.value) else target;
    (e.(sequence := e.sequence + 1, byIP := e.byIP[ip := Submitted(e.byIP[ip], NextToken(e), kind, lease, timing, r)]),
     Mutation(NextToken(e), kind, lease))
  }

  /** A committed bound row still owns its identity until the quarantine row replaces it. */
  function Quarantine(e: Engine, ip: IPv4, now: Sample): (Engine, Mutation)
    requires ip in e.byIP && e.last.Some?
  {
    var v := e.byIP[ip];
    var byID := if !v.durable || v.committed.state != Bound then Detach(e.byID, v.lease.identity, ip) else e.byID;
    var target := v.lease.(expiry := At(now, CONFLICT_HOLD), state := Quarantined);
    var e1 := e.(byID := byID, byIP := e.byIP[ip := v.(dirty := true)]);
    Mutate(e1, ip, PutLease, target, GrantTiming(v, now, CONFLICT_HOLD), NO_REQUEST)
  }

  function MakeReply(e: Engine, kind: MessageType, address: Addr, r: Request): Reply {
    Reply(kind, address, r, if address == NoAddr then 0 else e.settings.leaseSeconds)
  }

  function AckOutcome(v: Entry, r: Request, now: Sample): Outcome {
    var seconds := (v.timing.expiry - now.mono) / SECOND;
    if seconds < 1 then SILENT else Answer(Reply(Ack, V4(v.lease.address), r, seconds))
  }

  // ---- packets ----

  function Lookup(e: Engine, id: Identity): Option<IPv4> {
    if id in e.byID && e.byID[id] in e.byIP then Some(e.byID[id]) else None
  }

  function Handle(e0: Engine, r: Request, now: Sample): (Engine, Outcome) {
    var (e, ok) := Now(e0, now);
    if !ok || !e.settings.enabled || !ValidRequest(r) then (e, SILENT)
    else if NonZero(r.serverID) && (!e.settings.serverIP.Value? || r.serverID != V4(e.settings.serverIP.value)) then (e, SILENT)
    else
      var found := Lookup(e, IdentityOf(r));
      if found.Some? && e.byIP[found.value].lease.state == CommitPending then (e, SILENT)
      else if found.Some? && e.byIP[found.value].lease.state in {Offered, Bound} && now.mono >= e.byIP[found.value].timing.hold then
        (e, SILENT)
      else
        match r.kind
        case Discover => HandleDiscover(e, r, now, found)
        case RequestMessage => HandleRequest(e, r, now, found)
        case Release => HandleRelease(e, r, found)
        case Decline => HandleDecline(e, r, now, found)
        case Inform => (e, if NonZero(r.ciaddr) then Answer(MakeReply(e, Ack, NoAddr, r)) else SILENT)
        case _ => (e, SILENT)
  }

  function ProbeOutcome(p: (Engine, Option<Probe>)): (Engine, Outcome) {
    (p.0, Outcome(None, p.1, None))
  }

  function MutationOutcome(p: (Engine, Mutation)): (Engine, Outcome) {
    (p.0, Outcome(None, None, Some(p.1)))
  }

  function HandleDiscover(e: Engine, r: Request, now: Sample, found: Option<IPv4>): (Engine, Outcome)
    requires e.last == Some(now)
    requires found.Some? ==> found.value in e.byIP
  {
    if found.None? then ProbeOutcome(DiscoverNew(e, r, now, 1))
    else
      var ip := found.value;
      var v := e.byIP[ip];
      match v.lease.state
      case Bound | Offered =>
        if !Eligible(e, r, ip) then
          if !v.durable then ProbeOutcome(DiscoverNew(Remove(e, ip), r, now, 1))
          else MutationOutcome(Mutate(e, ip, PutLease, v.lease.(state := Quarantined), v.timing, r))
        else
          (e.(byIP := e.byIP[ip := v.(request := r)]), Answer(MakeReply(e, Offer, V4(ip), r)))
      case Probing => (e.(byIP := e.byIP[ip := v.(request := r)]), SILENT)
      case _ => (e, SILENT)
  }

  /** The address a REQUEST is about, or None for a packet the engine ignores. */
  function RequestTarget(r: Request): Option<IPv4> {
    if NonZero(r.ciaddr) then
      if NonZero(r.requestedIP) || NonZero(r.serverID) || !r.ciaddr.V4? then None else Some(r.ciaddr.ip)
    else if NonZero(r.requestedIP) && r.requestedIP.V4? then Some(r.requestedIP.ip)
    else None
  }

  function NakOutcome(e: Engine, r: Request): Outcome { Answer(MakeReply(e, Nak, NoAddr, r)) }

  predicate Replayable(e: Engine, v: Entry, r: Request, now: Sample) {
    && v.lease.state == Bound && v.hasACK && v.lastACK == r.xid && v.request.ciaddr == r.ciaddr
    && now.mono < v.timing.expiry - e.settings.leaseSeconds * SECOND / 2
  }

  /** The bound lease a REQUEST asks for; an absent or invalid name keeps the last valid one. */
  function GrantTarget(v: Entry, r: Request, now: Sample, duration: int): Lease {
    v.lease.(expiry := At(now, duration), mac := r.mac, state := Bound,
             hostname := if ValidLabel(Lower(r.hostname)) then Lower(r.hostname) else v.lease.hostname)
  }

  function HandleRequest(e: Engine, r: Request, now: Sample, found: Option<IPv4>): (Engine, Outcome)
    requires e.last == Some(now)
    requires found.Some? ==> found.value in e.byIP
  {
    match RequestTarget(r)
    case None => (e, SILENT)
    case Some(addr) =>
      var id := IdentityOf(r);
      if !e.settings.subnet.Value? || !Contains(e.settings.subnet.value, addr) then (e, NakOutcome(e, r))
      else if addr in e.byIP && e.byIP[addr].lease.identity == id && !Eligible(e, r, addr) then (e, NakOutcome(e, r))
      else if found != Some(addr) || e.byIP[addr].lease.state !in {Bound, Offered} then
        if addr in e.byIP && e.byIP[addr].lease.identity != id then (e, NakOutcome(e, r)) else (e, SILENT)
      else
        var v := e.byIP[addr];
        if NonZero(r.serverID) && v.lease.state == Offered && v.request.xid != r.xid then (e, SILENT)
        else if !Eligible(e, r, addr) then (e, NakOutcome(e, r))
        else if v.lease.state == Offered && !NonZero(r.serverID) then (e, SILENT)
        else if Replayable(e, v, r, now) then (e, AckOutcome(v, r, now))
        else
          var duration := e.settings.leaseSeconds * SECOND;
          var (e1, m) := Mutate(e, addr, PutLease, GrantTarget(v, r, now, duration), GrantTiming(v, now, duration), r);
          (e1.(byIP := e1.byIP[addr := e1.byIP[addr].(deadline := now.mono + duration)]), Outcome(None, None, Some(m)))
  }

  function HandleRelease(e: Engine, r: Request, found: Option<IPv4>): (Engine, Outcome)
    requires e.last.Some?
    requires found.Some? ==> found.value in e.byIP
  {
    if found.None? || e.byIP[found.value].lease.state != Bound || r.ciaddr != V4(found.value) then (e, SILENT)
    else
      var v := e.byIP[found.value];
      MutationOutcome(Mutate(e, found.value, DeleteLease, v.committed, v.timing, r))
  }

  function HandleDecline(e: Engine, r: Request, now: Sample, found: Option<IPv4>): (Engine, Outcome)
    requires e.last == Some(now)
    requires found.Some? ==> found.value in e.byIP
  {
    if !e.settings.serverIP.Value? || r.serverID != V4(e.settings.serverIP.value) || found.None?
       || r.requestedIP != V4(found.value) || e.byIP[found.value].lease.state !in {Bound, Offered} then (e, SILENT)
    else MutationOutcome(Quarantine(e, found.value, now))
  }

  // ---- completions ----

  /** The entry that carries a token of the current generation; the engine keeps tokens unique. */
  ghost predicate HasToken(e: Engine, ip: IPv4, t: Token) {
    ip in e.byIP && e.byIP[ip].token == t && t.generation == e.generation
  }

  ghost function Find(e: Engine, t: Token): (r: Option<IPv4>)
    ensures r.Some? ==> HasToken(e, r.value, t)
    ensures r.None? ==> forall ip :: !HasToken(e, ip, t)
  {
    if exists ip :: HasToken(e, ip, t) then
      var ip :| HasToken(e, ip, t);
      Some(ip)
    else None
  }

  ghost function CompleteProbe(e0: Engine, p: ProbeResult, now: Sample): (Engine, Outcome) {
    var (e, ok) := Now(e0, now);
    match Find(e, p.token)
    case None => (e, SILENT)
    case Some(ip) => if e.byIP[ip].lease.state != Probing then (e, SILENT) else ProbeEnded(e, ip, p, now, ok)
  }

  function ProbeEnded(e: Engine, ip: IPv4, p: ProbeResult, now: Sample, ok: bool): (Engine, Outcome)
    requires ip in e.byIP && (ok ==> e.last == Some(now))
  {
    var v := e.byIP[ip];
    var e1 := e.(probes := e.probes - 1);
    if !ok || p.failed || now.mono >= v.deadline then (Remove(e1, ip), SILENT)
    else if p.conflict then
      var (e2, m) := Quarantine(e1, ip, now);
      var (e3, probe) := DiscoverNew(e2, v.request, now, v.attempts + 1);
      (e3, Outcome(None, probe, Some(m)))
    else
      var hold := Deadlines(now.mono + OFFER_HOLD, now.mono + OFFER_HOLD);
      var v' := v.(lease := v.lease.(state := Offered, expiry := At(now, OFFER_HOLD), hold := At(now, OFFER_HOLD)), timing := hold);
      (e1.(byIP := e1.byIP[ip := v']), Answer(MakeReply(e1, Offer, V4(ip), v.request)))
  }

  ghost function CompleteCommit(e0: Engine, c: CommitResult, now: Sample): (Engine, Outcome) {
    var (e, ok) := Now(e0, now);
    match Find(e, c.token)
    case None => (e, SILENT)
    case Some(ip) =>
      if e.byIP[ip].lease.state != CommitPending then (e, SILENT)
      else if c.failed then (CommitFailed(e, ip), SILENT)
      else CommitDone(e, ip, now, ok)
  }

  function CommitFailed(e: Engine, ip: IPv4): Engine
    requires ip in e.byIP
  {
    var v := e.byIP[ip];
    var v' := if v.dirty then v.(lease := v.pending, timing := v.pendingTiming)
              else v.(lease := v.previous, timing := v.previousTiming);
    e.(byIP := e.byIP[ip := v'])
  }

  function CommitDone(e: Engine, ip: IPv4, now: Sample, ok: bool): (Engine, Outcome)
    requires ip in e.byIP
  {
    var v := e.byIP[ip];
    if v.mutation == DeleteLease then (Remove(e, ip), SILENT)
    else
      var v1 := v.(lease := v.pending, timing := v.pendingTiming, durable := true, committed := v.pending, dirty := false);
      if v1.lease.state == Quarantined then
        var e1 := e.(byIP := e.byIP[ip := v1], byID := Detach(e.byID, v1.lease.identity, ip));
        if ok && e.settings.enabled && v1.request.kind == Discover then ProbeOutcome(DiscoverNew(e1, v1.request, now, 1))
        else (e1, SILENT)
      else
        var v2 := v1.(lease := v1.lease.(state := Bound), hasACK := true, lastACK := v1.request.xid);
        var e1 := e.(byIP := e.byIP[ip := v2]);
        (e1, if !ok || now.mono >= v2.timing.expiry || !e.settings.enabled then SILENT else AckOutcome(v2, v2.request, now))
  }

  // ---- the shared scheduler ----

  /** What one tick does to one entry. */
  function TickEntry(e: Engine, ip: IPv4, now: Sample): (Engine, seq<Mutation>)
    requires ip in e.byIP && e.last == Some(now)
  {
    var v := e.byIP[ip];
    if v.dirty && v.lease.state != CommitPending then
      var (e1, m) := Mutate(e, ip, PutLease, v.lease, v.timing, NO_REQUEST);
      (e1, [m])
    else
      match v.lease.state
      case Probing => if now.mono >= v.deadline then (Remove(e.(probes := e.probes - 1), ip), []) else (e, [])
      case CommitPending => (e, [])
      case _ =>
        if now.mono < v.timing.hold then (e, [])
        else if v.durable then
          var (e1, m) := Mutate(e, ip, DeleteLease, v.committed, v.timing, NO_REQUEST);
          (e1, [m])
        else (Remove(e, ip), [])
  }

  /** The map iteration visits the entries in some order, each once. */
  function TickAll(e: Engine, order: seq<IPv4>, now: Sample): (Engine, seq<Mutation>)
    requires e.last == Some(now)
    decreases |order|
  {
    if order == [] then (e, [])
    else if order[0] !in e.byIP then TickAll(e, order[1..], now)
    else
      var (e1, ms) := TickEntry(e, order[0], now);
      var (e2, rest) := TickAll(e1, order[1..], now);
      (e2, ms + rest)
  }

  function Tick(e0: Engine, order: seq<IPv4>, now: Sample): (Engine, seq<Mutation>) {
    var (e, ok) := Now(e0, now);
    if !ok then (e, []) else TickAll(e, order, now)
  }

  // ---- settings change and recovery ----

  predicate Retained(v: Entry) { v.durable || v.lease.state == Quarantined }

  /** A reservation may take over an address only from the client it names. */
  predicate KeyMatches(key: Identity, l: Lease) {
    key == l.identity || key == MacId(l.mac)
  }

  predicate RetainedTopology(s: Settings, ip: IPv4) { s.enabled ==> TopologyOK(s, ip) }

  datatype ApplyError = StaleGeneration | BadTransition | MutationPending | TopologyConflict | ReservationConflict | OverCapacity

  function KeptEntries(e: Engine): map<IPv4, Entry> {
    map ip | ip in e.byIP && Retained(e.byIP[ip]) :: e.byIP[ip]
  }

  function ApplyCheck(e: Engine, s: Settings, generation: nat): Option<ApplyError> {
    var keep := KeptEntries(e);
    var reserved := ReservedOf(s.reservations);
    if generation <= e.generation then Some(StaleGeneration)
    else if !ValidTransition(e.settings, s) then Some(BadTransition)
    else if exists ip :: ip in e.byIP && (e.byIP[ip].lease.state == CommitPending || e.byIP[ip].dirty) then Some(MutationPending)
    else KeptCheck(s, keep, reserved)
  }

  /** Whether the entries that stay fit the new settings. */
  function KeptCheck(s: Settings, keep: map<IPv4, Entry>, reserved: map<IPv4, Identity>): Option<ApplyError> {
    if exists ip :: ip in keep && !RetainedTopology(s, ip) then Some(TopologyConflict)
    else if exists ip :: ip in reserved && ip in keep && !KeyMatches(reserved[ip], keep[ip].lease) then Some(ReservationConflict)
    else if Together(keep, reserved) > Capacity(s) then Some(OverCapacity)
    else None
  }

  /** Owned and reserved addresses, each counted once. */
  function Together(keep: map<IPv4, Entry>, reserved: map<IPv4, Identity>): nat { |keep.Keys + reserved.Keys| }

  function ApplyDone(e: Engine, s: Settings, generation: nat): Engine {
    var keep := map ip | ip in KeptEntries(e) :: e.byIP[ip].(hasACK := false);
    var byID := map id | id in e.byID && e.byID[id] in keep :: e.byID[id];
    Install(e.(byIP := keep, byID := byID, probes := 0), s, generation)
  }

  function Apply(e: Engine, s: Settings, generation: nat): (Engine, Option<ApplyError>) {
    var err := ApplyCheck(e, s, generation);
    if err.Some? then (e, err) else (ApplyDone(e, s, generation), None)
  }

  /** Field checks a recovered row must pass on its own. */
  predicate ValidRecovered(l: Lease) {
    && (match l.identity case ClientId(c) => 0 < |c| <= 255 case MacId(m) => m == l.mac)
    && UnicastMac(l.mac)
    && LeaseAddress(l.address)
    && l.expiry != ZERO_STAMP
    && (l.hostname != "" ==> ValidLabel(l.hostname))
    && l.state in {Bound, Quarantined}
    && l.hold != ZERO_STAMP && !Before(l.hold, l.expiry)
  }

  /** Everything recovery checks about a snapshot, given the settings in force. */
  predicate Restorable(s: Settings, leases: seq<Lease>) {
    && |leases| <= Capacity(s)
    && (forall i | 0 <= i < |leases| :: ValidRecovered(leases[i]) && RetainedTopology(s, leases[i].address))
    && (forall i, j | 0 <= i < j < |leases| ::
          && leases[i].address != leases[j].address
          && !(leases[i].state == Bound && leases[j].state == Bound && leases[i].identity == leases[j].identity))
    && (var reserved := ReservedOf(s.reservations);
        && (forall i | 0 <= i < |leases| :: leases[i].address in reserved ==> KeyMatches(reserved[leases[i].address], leases[i]))
        && |AddressesOf(leases) + reserved.Keys| <= Capacity(s))
  }

  function AddressesOf(leases: seq<Lease>): set<IPv4> {
    set i | 0 <= i < |leases| :: leases[i].address
  }

  /** A row's deadlines are its remaining wall durations, anchored to the new process clock. */
  function Recovered(l: Lease, now: Sample): Entry {
    Entry(l, Deadlines(now.mono + (l.expiry.wall - now.wall), now.mono + (l.hold.wall - now.wall)), UNSET, UNSET,
          NO_REQUEST, NO_TOKEN, 0, 0, true, l, false, NO_LEASE, NO_LEASE, NoMutation, 0, false)
  }

  function RecoveredEntries(leases: seq<Lease>, now: Sample): map<IPv4, Entry> {
    if leases == [] then map[]
    else
      var l := leases[|leases| - 1];
      RecoveredEntries(leases[..|leases| - 1], now)[l.address := Recovered(l, now)]
  }

  function RecoveredIds(leases: seq<Lease>): map<Identity, IPv4> {
    if leases == [] then map[]
    else
      var l := leases[|leases| - 1];
      var rest := RecoveredIds(leases[..|leases| - 1]);
      if l.state == Bound then rest[l.identity := l.address] else rest
  }

  /** Recovery is all or nothing; None means refused. */
  function Restore(e: Engine, leases: seq<Lease>, lastKnown: int, now: Sample): Option<Engine> {
    if e.byIP.Keys != {} || e.sequence != 0 || now.wall < lastKnown || !Restorable(e.settings, leases) then None
    else
      var entries := RecoveredEntries(leases, now);
      Some(e.(byIP := entries, byID := RecoveredIds(leases), last := Some(now),
              bitmap := PoolBits(e.settings, e.reserved.Keys, entries.Keys)))
  }
}
