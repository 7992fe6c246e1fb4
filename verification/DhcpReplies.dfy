/**
 What each packet, probe result, completed write and tick gives the client (internal/dhcp/engine.go), said of the settings,
 the entry the client's identity points to and the clock, and not of the engine's own case distinctions.
 */
module DhcpReplies {
  import opened Common
  import opened DhcpTypes
  import opened DhcpSettings
  import opened DhcpEngine
  import opened DhcpInvariant
  import opened DhcpSteps

  // ---- whose an address is ----

  /** The identity a client goes by: its client identifier if it sends one, else its hardware address. */
  predicate GoesBy(r: Request, id: Identity) { if r.clientId != "" then id == ClientId(r.clientId) else id == MacId(r.mac) }

  /** The entry that the client's identity points to. */
  ghost predicate Own(e: Engine, r: Request, ip: IPv4) {
    ip in e.byIP && exists id :: GoesBy(r, id) && PointsAt(e.byID, id, ip)
  }

  /** The address is held under another identity. */
  ghost predicate Foreign(e: Engine, r: Request, ip: IPv4) { ip in e.byIP && !GoesBy(r, e.byIP[ip].lease.identity) }

  // ---- which addresses the settings allow a client ----

  predicate KeyedBy(r: Reservation, k: Identity) { ReservationKey(r) == Some(k) }

  /** Some reservation has this key. */
  predicate Reserves(rs: seq<Reservation>, k: Identity) { exists i :: 0 <= i < |rs| && KeyedBy(rs[i], k) }

  predicate ReservesAt(rs: seq<Reservation>, k: Identity, ip: IPv4) { exists i :: 0 <= i < |rs| && KeyedBy(rs[i], k) && rs[i].address == Value(ip) }

  /** The address is usable in the subnet; it is the one reserved for the client, or in the pool and reserved for nobody. */
  predicate Fits(s: Settings, r: Request, ip: IPv4) {
    && s.subnet.Value? && Usable(ip, s.subnet.value) && s.serverIP != Value(ip) && s.gateway != Value(ip)
    && if r.clientId != "" && Reserves(s.reservations, ClientId(r.clientId)) then ReservesAt(s.reservations, ClientId(r.clientId), ip)
       else if Reserves(s.reservations, MacId(r.mac)) then ReservesAt(s.reservations, MacId(r.mac), ip)
       else
         && s.rangeStart.Value? && s.rangeEnd.Value? && s.rangeStart.value <= ip <= s.rangeEnd.value
         && forall i | 0 <= i < |s.reservations| :: s.reservations[i].address != Value(ip)
  }

  lemma {:induction false} ReservationsMean(s: Settings, rs: seq<Reservation>, k: Identity, ip: IPv4)
    requires ValidReservations(s, rs)
    ensures k in ReservationsOf(rs) <==> Reserves(rs, k)
    ensures k in ReservationsOf(rs) ==> (ReservationsOf(rs)[k] == ip <==> ReservesAt(rs, k, ip))
  {
    hide ReservationKey, Usable, ValidLabel, Lower;
    if rs != [] {
      var n := |rs| - 1;
      var init := rs[..n];
      assert forall i | 0 <= i < n :: init[i] == rs[i];
      ReservationsMean(s, init, k, ip);
      assert ValidReservation(s, rs[n]);
      LastReserves(rs, k, ip);
      if KeyedBy(rs[n], k) {
        assert forall i | 0 <= i < n :: Compatible(rs[i], rs[n]);
        assert !Reserves(init, k) && !ReservesAt(init, k, ip);
      }
    }
  }

  lemma {:induction false} LastReserves(rs: seq<Reservation>, k: Identity, ip: IPv4)
    requires rs != []
    ensures var n := |rs| - 1;
      && (Reserves(rs, k) <==> Reserves(rs[..n], k) || KeyedBy(rs[n], k))
      && (ReservesAt(rs, k, ip) <==> ReservesAt(rs[..n], k, ip) || (KeyedBy(rs[n], k) && rs[n].address == Value(ip)))
  {
    hide KeyedBy;
    var n := |rs| - 1;
    var init := rs[..n];
    assert forall i | 0 <= i < n :: init[i] == rs[i];
    if Reserves(init, k) {
      var i :| 0 <= i < n && KeyedBy(init[i], k);
      assert KeyedBy(rs[i], k);
    }
    if ReservesAt(init, k, ip) {
      var i :| 0 <= i < n && KeyedBy(init[i], k) && init[i].address == Value(ip);
      assert KeyedBy(rs[i], k);
    }
  }

  lemma {:induction false} ReservedMeans(s: Settings, rs: seq<Reservation>, ip: IPv4)
    requires ValidReservations(s, rs)
    ensures ip in ReservedOf(rs) <==> exists i :: 0 <= i < |rs| && rs[i].address == Value(ip)
  {
    hide ReservationKey, Usable, ValidLabel, Lower;
    if rs != [] {
      var n := |rs| - 1;
      var init := rs[..n];
      assert forall i | 0 <= i < n :: init[i] == rs[i];
      ReservedMeans(s, init, ip);
      assert ValidReservation(s, rs[n]);
    }
  }

  lemma {:induction false} ReservationIs(e: Engine, r: Request, ip: IPv4)
    requires var rs := e.settings.reservations; ValidReservations(e.settings, rs) && e.reservations == ReservationsOf(rs)
    ensures var rs := e.settings.reservations;
      var byClient := r.clientId != "" && Reserves(rs, ClientId(r.clientId));
      && (ReservationFor(e, r) == None <==> !byClient && !Reserves(rs, MacId(r.mac)))
      && (ReservationFor(e, r) == Some(ip) <==>
            if byClient then ReservesAt(rs, ClientId(r.clientId), ip) else Reserves(rs, MacId(r.mac)) && ReservesAt(rs, MacId(r.mac), ip))
  {
    hide ReservationsOf, Reserves, ReservesAt, ValidReservations;
    ReservationsMean(e.settings, e.settings.reservations, ClientId(r.clientId), ip);
    ReservationsMean(e.settings, e.settings.reservations, MacId(r.mac), ip);
  }

  lemma {:induction false} EligibleIff(e: Engine, r: Request, ip: IPv4)
    requires Inv(e) && e.settings.enabled
    ensures Eligible(e, r, ip) <==> Fits(e.settings, r, ip)
  {
    InstalledOf(e);
    PoolOfSettings(e);
    hide Inv, Usable, ReservationsOf, ReservedOf, Reserves, ReservesAt, ValidReservations, ValidSettings, Installed, ReservationFor;
    ReservationIs(e, r, ip);
    ReservedMeans(e.settings, e.settings.reservations, ip);
  }

  lemma {:induction false} PoolOfSettings(e: Engine)
    requires Installed(ConfigOf(e)) && e.settings.enabled
    ensures e.settings.rangeStart == Value(e.start) && e.settings.rangeEnd == Value(e.end)
    ensures ValidReservations(e.settings, e.settings.reservations)
    ensures e.reserved == ReservedOf(e.settings.reservations) && e.reservations == ReservationsOf(e.settings.reservations)
    ensures e.settings.serverIP.Value? && e.settings.subnet.Value?
  {
    hide Usable, HostAddress, ReservedOf, ReservationsOf, ValidReservations, ValidDomain, ValidInterface, Span, TopologyOK;
  }

  // ---- which packets are heeded ----

  /** The clock has not been set back behind the last reading. */
  predicate ClockRuns(e: Engine, now: Sample) { e.last.Some? ==> e.last.value.wall <= now.wall }

  /** The packet is for this server, and the client's entry waits neither for a write nor for its own retirement. */
  ghost predicate Heeded(e: Engine, r: Request, now: Sample) {
    && ValidRequest(r) && e.settings.enabled && ClockRuns(e, now)
    && (r.serverID == NoAddr || r.serverID == V4(0) || (exists a: IPv4 :: e.settings.serverIP == Value(a) && r.serverID == V4(a)))
    && forall ip | Own(e, r, ip) ::
         && e.byIP[ip].lease.state != CommitPending
         && (e.byIP[ip].lease.state == Offered || e.byIP[ip].lease.state == Bound ==> now.mono < e.byIP[ip].timing.hold)
  }

  lemma {:induction false} OwnIs(e: Engine, r: Request, ip: IPv4)
    requires Inv(e)
    ensures Own(e, r, ip) <==> Lookup(e, IdentityOf(r)) == Some(ip)
    ensures Own(e, r, ip) ==> e.byIP[ip].lease.identity == IdentityOf(r)
  {
    assert GoesBy(r, IdentityOf(r));
    hide Installed, EntriesOK, IdsComplete, TokensUnique, TokensIssued, BitmapExact, Bounded;
  }

  lemma {:induction false} ForeignIs(e: Engine, r: Request, ip: IPv4)
    ensures Foreign(e, r, ip) <==> ip in e.byIP && e.byIP[ip].lease.identity != IdentityOf(r)
  {
  }

  /** The engine with its clock read and nothing else changed. */
  function ClockRead(e: Engine, now: Sample): Engine { e.(last := Some(now), suspended := false) }

  lemma {:induction false} NowRuns(e: Engine, now: Sample)
    requires ClockRuns(e, now)
    ensures Now(e, now) == (ClockRead(e, now), true)
    ensures Inv(e) ==> Inv(ClockRead(e, now))
  {
    hide Installed, EntriesOK, IdsSound, IdsComplete, TokensUnique, TokensIssued, BitmapExact, Bounded;
  }

  /** A heeded packet reaches its handler with the client's own entry; any other is ignored. */
  lemma {:induction false} HandleHeeded(e: Engine, r: Request, now: Sample)
    requires Inv(e) && ValidRequest(r) && e.settings.enabled && ClockRuns(e, now)
    ensures var f, found := ClockRead(e, now), Lookup(e, IdentityOf(r));
      Handle(e, r, now) ==
      if !Heeded(e, r, now) then (f, SILENT)
      else
        match r.kind
        case Discover => HandleDiscover(f, r, now, found)
        case RequestMessage => HandleRequest(f, r, now, found)
        case Release => HandleRelease(f, r, found)
        case Decline => HandleDecline(f, r, now, found)
        case Inform => (f, if NonZero(r.ciaddr) then Answer(MakeReply(f, Ack, NoAddr, r)) else SILENT)
        case _ => (f, SILENT)
  {
    hide Inv, ValidRequest, HandleDiscover, HandleRequest, HandleRelease, HandleDecline, Own, MakeReply;
    NowRuns(e, now);
    forall ip: IPv4 ensures Own(e, r, ip) <==> Lookup(e, IdentityOf(r)) == Some(ip) { OwnIs(e, r, ip); }
    InstalledOf(e);
    PoolOfSettings(e);
  }

  // ---- REQUEST ----

  /** The address a REQUEST is about: the one in use, sent alone, or else the one asked for. */
  predicate AsksFor(r: Request, ip: IPv4) {
    if r.ciaddr == NoAddr || r.ciaddr == V4(0) then r.requestedIP == V4(ip) && ip != 0
    else r.ciaddr == V4(ip) && (r.requestedIP == NoAddr || r.requestedIP == V4(0)) && (r.serverID == NoAddr || r.serverID == V4(0))
  }

  predicate OnLink(s: Settings, ip: IPv4) { s.subnet.Value? && Contains(s.subnet.value, ip) }

  lemma {:induction false} TargetIs(r: Request, ip: IPv4)
    ensures AsksFor(r, ip) <==> RequestTarget(r) == Some(ip)
  {
  }

  /** The reply is a bare refusal of this packet. */
  predicate Refusal(o: Outcome, r: Request) { o == Outcome(Some(Reply(Nak, NoAddr, r, 0)), None, None) }

  /**
   A heeded REQUEST is refused if and only if its address is off the subnet, held under another identity, or held under
   the client's own but not allowed it; nothing then changes.
   */
  lemma {:induction false} RequestRefusedIff(e: Engine, r: Request, now: Sample)
    requires Inv(e) && ValidRequest(r) && e.settings.enabled && ClockRuns(e, now) && r.kind == RequestMessage
    ensures var (e', o) := Handle(e, r, now);
      && ((o.reply.Some? && o.reply.value.kind == Nak) <==>
            Heeded(e, r, now) && exists ip: IPv4 :: AsksFor(r, ip) && (!OnLink(e.settings, ip) || Foreign(e, r, ip) || (ip in e.byIP && !Foreign(e, r, ip) && !Fits(e.settings, r, ip))))
      && (o.reply.Some? && o.reply.value.kind == Nak ==> Refusal(o, r) && e' == ClockRead(e, now))
  {
    hide Inv, ValidRequest, Heeded, Own, Foreign, Fits, Contains, Eligible, RequestTarget, AsksFor, Mutate, GrantTarget, GrantTiming, AckOutcome, Replayable, ReservationFor;
    HandleHeeded(e, r, now);
    forall ip: IPv4 ensures AsksFor(r, ip) <==> RequestTarget(r) == Some(ip) { TargetIs(r, ip); }
    if Heeded(e, r, now) && RequestTarget(r).Some? {
      var ip, f, found := RequestTarget(r).value, ClockRead(e, now), Lookup(e, IdentityOf(r));
      NowRuns(e, now);
      EligibleIff(f, r, ip);
      SameEligible(e, r, ip, now);
      ForeignIs(e, r, ip);
      OwnIs(e, r, ip);
      NoNakInAck(f, r, ip, now);
    }
  }

  lemma {:induction false} SameEligible(e: Engine, r: Request, ip: IPv4, now: Sample)
    ensures Eligible(ClockRead(e, now), r, ip) == Eligible(e, r, ip)
  {
    hide TopologyOK;
  }

  lemma {:induction false} NoNakInAck(e: Engine, r: Request, ip: IPv4, now: Sample)
    ensures ip in e.byIP ==> var o := AckOutcome(e.byIP[ip], r, now); o.reply.Some? ==> o.reply.value.kind == Ack
  {
  }

  // ---- a REQUEST that is granted ----

  function Later(a: int, b: int): int { if a < b then b else a }

  /** The lease written for a grant: the client's, bound, until `duration` from now, never held for less than before. */
  predicate Grants(v: Entry, l: Lease, r: Request, now: Sample, duration: int) {
    && l.state == Bound && l.identity == v.lease.identity && l.address == v.lease.address && l.mac == r.mac
    && l.expiry == Stamp(now.wall + duration, Some(now.mono + duration))
    && l.hold.wall == Later(v.lease.hold.wall, now.wall + (Later(v.timing.hold, now.mono + duration) - now.mono))
    && l.hostname == if ValidLabel(Lower(r.hostname)) then Lower(r.hostname) else v.lease.hostname
  }

  /** A write was issued for the entry and nothing else changed: the next token, the row and deadlines to take over, the lease to fall back to. */
  ghost predicate Issues(e: Engine, e': Engine, ip: IPv4, m: Mutation, timing: Deadlines) {
    && ip in e.byIP && ip in e'.byIP
    && m.token == Token(e.generation, e.sequence + 1)
    && e' == e.(sequence := e.sequence + 1, byIP := e.byIP[ip := e'.byIP[ip]])
    && var v, w := e.byIP[ip], e'.byIP[ip];
       && w.lease == v.lease.(state := CommitPending) && w.timing == v.timing && w.token == m.token && w.mutation == m.kind
       && w.pending == m.lease && w.pendingTiming == timing && w.previous == v.lease && w.previousTiming == v.timing
       && w.durable == v.durable && w.committed == v.committed && w.dirty == v.dirty
  }

  /** The packet repeats the one last acknowledged, and more than half the lease is left. */
  predicate Repeats(v: Entry, r: Request, now: Sample, duration: int) {
    && v.lease.state == Bound && v.hasACK && v.lastACK == r.xid && v.request.ciaddr == r.ciaddr
    && duration < 2 * (v.timing.expiry - now.mono)
  }

  /** An acknowledgement of exactly the whole seconds left, or silence within the last second. */
  predicate Acknowledges(o: Outcome, ip: IPv4, r: Request, left: int) {
    && o.probe == None && o.mutation == None
    && if left < SECOND then o.reply == None
       else
         && o.reply.Some? && o.reply.value.kind == Ack && o.reply.value.address == V4(ip) && o.reply.value.request == r
         && o.reply.value.leaseSeconds * SECOND <= left < (o.reply.value.leaseSeconds + 1) * SECOND
  }

  lemma {:induction false} AckSeconds(v: Entry, r: Request, now: Sample)
    ensures Acknowledges(AckOutcome(v, r, now), v.lease.address, r, v.timing.expiry - now.mono)
  {
  }

  /** The client takes up an offer only with the server's ID and the transaction it was offered in. */
  predicate Takes(v: Entry, r: Request) {
    v.lease.state == Bound || (v.lease.state == Offered && NonZero(r.serverID) && v.request.xid == r.xid)
  }

  /** What a grant does: it repeats the last ACK, or writes a new lease. */
  ghost predicate Granted(e: Engine, e': Engine, o: Outcome, r: Request, now: Sample, ip: IPv4)
    requires ip in e.byIP
  {
    var v, duration := e.byIP[ip], e.settings.leaseSeconds * SECOND;
    if Repeats(v, r, now, duration) then e' == e && Acknowledges(o, ip, r, v.timing.expiry - now.mono)
    else
      && o.reply == None && o.probe == None && o.mutation.Some? && o.mutation.value.kind == PutLease
      && Grants(v, o.mutation.value.lease, r, now, duration)
      && Issues(e, e', ip, o.mutation.value, Deadlines(now.mono + duration, Later(v.timing.hold, now.mono + duration)))
      && e'.byIP[ip].request == r
  }

  /** A heeded REQUEST for the client's own bound or offered address is granted. */
  lemma {:induction false} RequestGranted(e: Engine, r: Request, now: Sample, ip: IPv4)
    requires Inv(e) && Heeded(e, r, now) && r.kind == RequestMessage
    requires AsksFor(r, ip) && OnLink(e.settings, ip) && Own(e, r, ip) && Fits(e.settings, r, ip) && Takes(e.byIP[ip], r)
    ensures Granted(ClockRead(e, now), Handle(e, r, now).0, Handle(e, r, now).1, r, now, ip)
  {
    hide Inv, ValidRequest, Heeded, Fits, Contains, Eligible, AsksFor, Handle, HandleRequest, Granted, Takes;
    OwnAddress(e, r, ip);
    hide Own;
    HeededParts(e, r, now);
    HandleHeeded(e, r, now);
    TargetIs(r, ip);
    NowRuns(e, now);
    EligibleIff(ClockRead(e, now), r, ip);
    GrantHandled(ClockRead(e, now), r, now, ip);
  }

  lemma {:induction false} GrantHandled(e: Engine, r: Request, now: Sample, ip: IPv4)
    requires e.last == Some(now) && RequestTarget(r) == Some(ip) && OnLink(e.settings, ip) && Eligible(e, r, ip) && ip in e.byIP && Takes(e.byIP[ip], r)
    requires e.byIP[ip].lease.identity == IdentityOf(r) && e.byIP[ip].lease.address == ip
    ensures Granted(e, HandleRequest(e, r, now, Some(ip)).0, HandleRequest(e, r, now, Some(ip)).1, r, now, ip)
  {
    hide Contains, Eligible, RequestTarget, Acknowledges, Mutate, GrantTarget, GrantTiming, AckOutcome, Grants, Issues;
    AckSeconds(e.byIP[ip], r, now);
    HalfLease(e.byIP[ip].timing.expiry - now.mono, e.settings.leaseSeconds);
    GrantWritten(e, r, now, ip, e.settings.leaseSeconds * SECOND);
  }

  /** The write of a grant, with the deadline noted beside it. */
  lemma {:induction false} GrantWritten(e: Engine, r: Request, now: Sample, ip: IPv4, duration: int)
    requires e.last == Some(now) && ip in e.byIP
    ensures var v := e.byIP[ip];
      var (e1, m) := Mutate(e, ip, PutLease, GrantTarget(v, r, now, duration), GrantTiming(v, now, duration), r);
      && ip in e1.byIP && m.kind == PutLease && Grants(v, m.lease, r, now, duration)
      && var e' := e1.(byIP := e1.byIP[ip := e1.byIP[ip].(deadline := now.mono + duration)]);
         Issues(e, e', ip, m, Deadlines(now.mono + duration, Later(v.timing.hold, now.mono + duration))) && e'.byIP[ip].request == r
  {
    hide ValidLabel, Lower;
  }

  lemma {:induction false} HalfLease(left: int, seconds: int)
    ensures left > seconds * SECOND / 2 <==> seconds * SECOND < 2 * left
  {
  }

  lemma {:induction false} HeededParts(e: Engine, r: Request, now: Sample)
    requires Heeded(e, r, now)
    ensures ValidRequest(r) && e.settings.enabled && ClockRuns(e, now)
  {
    hide ValidRequest, Own;
  }

  lemma {:induction false} OwnAddress(e: Engine, r: Request, ip: IPv4)
    requires Inv(e) && Own(e, r, ip)
    ensures Lookup(e, IdentityOf(r)) == Some(ip) && ip in e.byIP && e.byIP[ip].lease.identity == IdentityOf(r) && e.byIP[ip].lease.address == ip
  {
    OwnIs(e, r, ip);
    hide Inv, Own;
    EntryAt(e, ip);
    AddressOf(ContextOf(e), ip, e.byIP[ip]);
  }

  lemma {:induction false} AddressOf(c: Context, ip: IPv4, v: Entry)
    requires EntryOK(c, ip, v)
    ensures v.lease.address == ip
    ensures v.lease.state == Bound ==> v.durable && v.committed == v.lease
    ensures v.lease.state == Offered ==> !v.durable && !v.dirty
  {
    hide GoodOwner, RetainedTopology, ReservedFor, ValidRequest, InFlight, Storable;
  }

  /** A REQUEST for this address is refused or granted. */
  ghost predicate Answered(e: Engine, r: Request, ip: IPv4) {
    || !OnLink(e.settings, ip) || Foreign(e, r, ip) || (ip in e.byIP && !Fits(e.settings, r, ip))
    || (Own(e, r, ip) && Takes(e.byIP[ip], r))
  }

  /** Any other REQUEST is ignored. */
  lemma {:induction false} RequestIgnored(e: Engine, r: Request, now: Sample)
    requires Inv(e) && ValidRequest(r) && e.settings.enabled && ClockRuns(e, now) && r.kind == RequestMessage
    requires !(Heeded(e, r, now) && exists ip: IPv4 :: AsksFor(r, ip) && Answered(e, r, ip))
    ensures Handle(e, r, now) == (ClockRead(e, now), SILENT)
  {
    hide Inv, ValidRequest, Heeded, Own, Foreign, Fits, Contains, Eligible, RequestTarget, AsksFor, Mutate, GrantTarget, GrantTiming, AckOutcome, Replayable, ReservationFor;
    HandleHeeded(e, r, now);
    forall ip: IPv4 ensures AsksFor(r, ip) <==> RequestTarget(r) == Some(ip) { TargetIs(r, ip); }
    if Heeded(e, r, now) && RequestTarget(r).Some? {
      var ip := RequestTarget(r).value;
      NowRuns(e, now);
      EligibleIff(ClockRead(e, now), r, ip);
      SameEligible(e, r, ip, now);
      ForeignIs(e, r, ip);
      OwnIs(e, r, ip);
    }
  }

  // ---- DISCOVER ----

  /** A heeded DISCOVER from a client that has an entry: its address is offered again if it fits; otherwise it is given up. */
  lemma {:induction false} DiscoverOwn(e: Engine, r: Request, now: Sample, ip: IPv4)
    requires Inv(e) && Heeded(e, r, now) && r.kind == Discover && Own(e, r, ip)
    ensures var (e', o) := Handle(e, r, now);
      var v, f := e.byIP[ip], ClockRead(e, now);
      && (v.lease.state == Probing ==> o == SILENT && e' == f.(byIP := f.byIP[ip := v.(request := r)]))
      && ((v.lease.state == Bound || v.lease.state == Offered) && Fits(e.settings, r, ip) ==>
            o == Outcome(Some(Reply(Offer, V4(ip), r, e.settings.leaseSeconds)), None, None) && e' == f.(byIP := f.byIP[ip := v.(request := r)]))
      && (v.lease.state == Bound && !Fits(e.settings, r, ip) ==>
            && o.reply == None && o.probe == None && o.mutation.Some? && o.mutation.value.kind == PutLease
            && Retires(v, o.mutation.value.lease, now) && Issues(f, e', ip, o.mutation.value, v.timing) && e'.byIP[ip].request == r)
      && (v.lease.state == Offered && !Fits(e.settings, r, ip) ==>
            o.reply == None && o.mutation == None && (e', o.probe) == DiscoverNew(Remove(f, ip), r, now, 1))
      && (v.lease.state == Quarantined ==> o == SILENT && e' == f)
  {
    OwnAddress(e, r, ip);
    HeededParts(e, r, now);
    HandleHeeded(e, r, now);
    NotPendingHere(e, r, now, ip);
    hide Inv, ValidRequest, Heeded, Own, Fits, Contains, Eligible, DiscoverNew, Remove, Handle, HandleDiscover, Retires, Issues;
    NowRuns(e, now);
    EligibleIff(ClockRead(e, now), r, ip);
    EntryAt(e, ip);
    AddressOf(ContextOf(e), ip, e.byIP[ip]);
    hide EntryOK;
    DiscoverHandled(ClockRead(e, now), r, now, ip);
  }

  lemma {:induction false} DiscoverHandled(e: Engine, r: Request, now: Sample, ip: IPv4)
    requires e.last == Some(now) && ip in e.byIP && e.byIP[ip].lease.state != CommitPending
    requires e.byIP[ip].lease.state == Bound ==> e.byIP[ip].durable
    requires e.byIP[ip].lease.state == Offered ==> !e.byIP[ip].durable
    ensures var (e', o) := HandleDiscover(e, r, now, Some(ip));
      var v := e.byIP[ip];
      && (v.lease.state == Probing ==> o == SILENT && e' == e.(byIP := e.byIP[ip := v.(request := r)]))
      && ((v.lease.state == Bound || v.lease.state == Offered) && Eligible(e, r, ip) ==>
            o == Outcome(Some(Reply(Offer, V4(ip), r, e.settings.leaseSeconds)), None, None) && e' == e.(byIP := e.byIP[ip := v.(request := r)]))
      && (v.lease.state == Bound && !Eligible(e, r, ip) ==>
            && o.reply == None && o.probe == None && o.mutation.Some? && o.mutation.value.kind == PutLease
            && Retires(v, o.mutation.value.lease, now) && Issues(e, e', ip, o.mutation.value, v.timing) && e'.byIP[ip].request == r)
      && (v.lease.state == Offered && !Eligible(e, r, ip) ==>
            o.reply == None && o.mutation == None && (e', o.probe) == DiscoverNew(Remove(e, ip), r, now, 1))
      && (v.lease.state == Quarantined ==> o == SILENT && e' == e)
  {
    hide Eligible, DiscoverNew, Remove;
  }

  lemma {:induction false} NotPendingHere(e: Engine, r: Request, now: Sample, ip: IPv4)
    requires Heeded(e, r, now) && Own(e, r, ip)
    ensures e.byIP[ip].lease.state != CommitPending
  {
    hide ValidRequest;
  }

  /** The row of a retired binding: the same, quarantined, held for what is left of its hold. */
  predicate Retires(v: Entry, l: Lease, now: Sample) {
    && l == v.lease.(state := Quarantined, hold := l.hold)
    && l.hold.wall == Later(v.lease.hold.wall, now.wall + (v.timing.hold - now.mono))
  }

  // ---- the address that is probed ----

  /** Pool addresses nobody holds and nothing reserves. */
  predicate FreeInPool(e: Engine, ip: int) {
    && e.settings.rangeStart.Value? && e.settings.rangeEnd.Value? && e.settings.rangeStart.value <= ip <= e.settings.rangeEnd.value
    && ip !in e.byIP.Keys && forall i | 0 <= i < |e.settings.reservations| :: !(e.settings.reservations[i].address.Value? && e.settings.reservations[i].address.value == ip)
  }

  /** The reserved address, if there is one; else the one asked for if it is free in the pool; else the lowest free one. */
  ghost predicate Picks(e: Engine, r: Request, ip: IPv4) {
    var rs := e.settings.reservations;
    if (r.clientId != "" && Reserves(rs, ClientId(r.clientId))) || Reserves(rs, MacId(r.mac)) then
      && ip !in e.byIP
      && if r.clientId != "" && Reserves(rs, ClientId(r.clientId)) then ReservesAt(rs, ClientId(r.clientId), ip) else ReservesAt(rs, MacId(r.mac), ip)
    else
      && Occupied(e) < Capacity(e.settings) && FreeInPool(e, ip)
      && if r.requestedIP.V4? && FreeInPool(e, r.requestedIP.ip) then ip == r.requestedIP.ip
         else forall a | FreeInPool(e, a) :: ip <= a
  }

  lemma {:induction false} FreeBits(e: Engine, ip: int)
    requires Inv(e) && e.settings.enabled && e.start <= ip <= e.end
    ensures ip - e.start < |e.bitmap| && (FreeInPool(e, ip) <==> !e.bitmap[ip - e.start])
  {
    InstalledOf(e);
    PoolOfSettings(e);
    PoolSize(e);
    hide ValidSettings, ReservedOf, ReservationsOf, ValidReservations;
    ReservedMeans(e.settings, e.settings.reservations, ip);
    BitsOf(e);
    hide Inv, Installed;
  }

  lemma {:induction false} PoolSize(e: Engine)
    requires Installed(ConfigOf(e)) && e.settings.enabled
    ensures |e.bitmap| == e.end - e.start + 1 && e.start <= e.end
  {
    hide Usable, HostAddress, ReservedOf, ReservationsOf, ValidReservations, ValidDomain, ValidInterface, Span, TopologyOK;
  }

  lemma {:induction false} BitsOf(e: Engine)
    requires Inv(e)
    ensures forall i | 0 <= i < |e.bitmap| :: e.bitmap[i] <==> e.start + i in e.byIP || e.start + i in e.reserved
  {
    hide Installed, EntriesOK, IdsSound, IdsComplete, TokensUnique, TokensIssued, Bounded;
  }

  lemma {:induction false} CandidateIs(e: Engine, r: Request, ip: IPv4)
    requires Inv(e) && e.settings.enabled
    ensures Candidate(e, r) == Some(ip) <==> Picks(e, r, ip)
  {
    InstalledOf(e);
    PoolOfSettings(e);
    PoolSize(e);
    hide Inv, Installed, ValidSettings, ReservedOf, ReservationsOf, ValidReservations, Reserves, ReservesAt, ReservationFor, Occupied, Capacity, FreeInPool;
    ReservationIs(e, r, ip);
    forall a | e.start <= a <= e.end ensures a - e.start < |e.bitmap| && (FreeInPool(e, a) <==> !e.bitmap[a - e.start]) { FreeBits(e, a); }
    PoolOnly(e);
    if ReservationFor(e, r) == None {
      PoolCandidate(e, r, ip);
    } else {
      ReservationIs(e, r, ReservationFor(e, r).value);
    }
  }

  lemma {:induction false} PoolOnly(e: Engine)
    ensures forall a :: FreeInPool(e, a) ==> e.settings.rangeStart.Value? && e.settings.rangeEnd.Value? && e.settings.rangeStart.value <= a <= e.settings.rangeEnd.value
  {
  }

  lemma {:induction false} PoolCandidate(e: Engine, r: Request, ip: IPv4)
    requires ReservationFor(e, r) == None && |e.bitmap| == e.end - e.start + 1 && e.start <= e.end
    requires forall a | e.start <= a <= e.end :: a - e.start < |e.bitmap| && (FreeInPool(e, a) <==> !e.bitmap[a - e.start])
    requires forall a :: FreeInPool(e, a) ==> e.start <= a <= e.end
    ensures Candidate(e, r) == Some(ip) <==>
      && Occupied(e) < Capacity(e.settings) && FreeInPool(e, ip)
      && if r.requestedIP.V4? && FreeInPool(e, r.requestedIP.ip) then ip == r.requestedIP.ip
         else forall a | FreeInPool(e, a) :: ip <= a
  {
    hide ReservationFor, Occupied, Capacity, FreeInPool;
    var first := FirstFree(e.bitmap, 0);
    if first.Some? {
      assert FreeInPool(e, e.start + first.value);
      forall a | FreeInPool(e, a) ensures e.start + first.value <= a {
        assert !e.bitmap[a - e.start];
      }
    }
  }
}
