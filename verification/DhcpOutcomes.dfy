/** The other packets, probe results, completed writes and ticks (internal/dhcp/engine.go): what each must answer and do. */
module DhcpOutcomes {
  import opened Common
  import opened DhcpTypes
  import opened DhcpSettings
  import opened DhcpEngine
  import opened DhcpInvariant
  import opened DhcpSteps
  import opened DhcpReplies

  // ---- a new address ----

  /** A probe of this address was started for the client, and nothing else changed. */
  ghost predicate Probes(e: Engine, e': Engine, probe: Probe, r: Request, now: Sample, attempt: int) {
    && probe == Probe(Token(e.generation, e.sequence + 1), probe.address, now.mono + PROBE_TIMEOUT)
    && probe.address in e'.byIP && e'.byIP == e.byIP[probe.address := e'.byIP[probe.address]]
    && Probed(e'.byIP[probe.address], probe, r, attempt) && e'.byID == e.byID[e'.byIP[probe.address].lease.identity := probe.address]
    && e'.probes == e.probes + 1 && e'.sequence == e.sequence + 1 && e'.settings == e.settings && e'.generation == e.generation
  }

  predicate Probed(w: Entry, probe: Probe, r: Request, attempt: int) {
    && w.lease.state == Probing && w.lease.address == probe.address && GoesBy(r, w.lease.identity) && w.lease.mac == r.mac
    && !w.durable && !w.dirty && w.request == r && w.token == probe.token && w.deadline == probe.deadline && w.attempts == attempt
  }

  /** A probe is started exactly when fewer than two run, the client has tries left, and there is an address to pick; it is that address. */
  lemma {:induction false} FreshAddressIff(e: Engine, r: Request, now: Sample, attempt: int)
    requires Inv(e) && e.settings.enabled
    ensures var (e', probe) := DiscoverNew(e, r, now, attempt);
      && (probe.Some? <==> e.probes < 2 && attempt <= 3 && exists ip :: Picks(e, r, ip))
      && (probe.Some? ==> Picks(e, r, probe.value.address) && Probes(e, e', probe.value, r, now, attempt))
      && (probe.None? ==> e' == e)
  {
    hide Inv, Picks, Candidate, Capacity, Occupied, DiscoverNew, Probes;
    forall ip: IPv4 ensures Candidate(e, r) == Some(ip) <==> Picks(e, r, ip) { CandidateIs(e, r, ip); }
    if Candidate(e, r).Some? { RoomForCandidate(e, r); }
    CandidateProbed(e, r, now, attempt);
  }

  lemma {:induction false} CandidateProbed(e: Engine, r: Request, now: Sample, attempt: int)
    requires Candidate(e, r).Some? ==>
      && Candidate(e, r).value !in e.byIP
      && Occupied(e) + (if Candidate(e, r).value in e.reserved then 0 else 1) <= Capacity(e.settings)
    ensures var (e', probe) := DiscoverNew(e, r, now, attempt);
      && (probe.Some? <==> e.probes < 2 && attempt <= 3 && Candidate(e, r).Some?)
      && (probe.Some? ==> Candidate(e, r) == Some(probe.value.address) && Probes(e, e', probe.value, r, now, attempt))
      && (probe.None? ==> e' == e)
  {
    hide Candidate, Capacity, Mark, Occupied;
    if Candidate(e, r).Some? { MarkOnly(Candidate(e, r).value); }
  }

  /** The address picked never exceeds the capacity. */
  lemma {:induction false} RoomForCandidate(e: Engine, r: Request)
    requires Inv(e) && Candidate(e, r).Some?
    ensures var ip := Candidate(e, r).value;
      ip !in e.byIP && Occupied(e) + (if ip in e.reserved then 0 else 1) <= Capacity(e.settings)
  {
    hide Inv, Capacity, Occupied;
    OccupiedWithin(e);
    if ReservationFor(e, r).Some? {
      InstalledOf(e);
      ReservedRoom(e, r);
    } else {
      BitsOK(e);
      CandidateNew(e, r);
      hide BitsTell, FirstFree, ReservationFor;
    }
  }

  lemma {:induction false} ReservedRoom(e: Engine, r: Request)
    requires Installed(ConfigOf(e)) && Candidate(e, r).Some? && ReservationFor(e, r).Some?
    ensures Candidate(e, r).value !in e.byIP && Candidate(e, r).value in e.reserved
  {
    hide Installed, Capacity, Occupied, ReservationFor, TopologyOK;
    ReservedOwner(e, r, ReservationFor(e, r).value);
  }

  lemma {:induction false} OccupiedWithin(e: Engine)
    requires Inv(e)
    ensures Occupied(e) <= Capacity(e.settings)
  {
    hide Installed, EntriesOK, IdsSound, IdsComplete, TokensUnique, TokensIssued, BitmapExact;
  }

  lemma {:induction false} PoolEnds(e: Engine)
    requires Installed(ConfigOf(e))
    ensures |e.bitmap| > 0 ==> |e.bitmap| == e.end - e.start + 1
  {
    hide Usable, HostAddress, ReservedOf, ReservationsOf, ValidSettings, TopologyOK;
  }

  /** A heeded DISCOVER from a client without an entry starts a probe, if it can, and is not answered yet. */
  lemma {:induction false} DiscoverFresh(e: Engine, r: Request, now: Sample)
    requires Inv(e) && Heeded(e, r, now) && r.kind == Discover && !exists ip :: Own(e, r, ip)
    ensures var (e', o) := Handle(e, r, now);
      && o.reply == None && o.mutation == None
      && (o.probe.Some? <==> e.probes < 2 && exists ip :: Picks(ClockRead(e, now), r, ip))
      && (o.probe.Some? ==> Picks(ClockRead(e, now), r, o.probe.value.address) && Probes(ClockRead(e, now), e', o.probe.value, r, now, 1))
      && (o.probe.None? ==> e' == ClockRead(e, now))
  {
    hide Inv, ValidRequest, Heeded, Picks, Probes, DiscoverNew, Handle;
    HeededParts(e, r, now);
    HandleHeeded(e, r, now);
    NowRuns(e, now);
    if Lookup(e, IdentityOf(r)).Some? {
      OwnIs(e, r, Lookup(e, IdentityOf(r)).value);
    }
    FreshAddressIff(ClockRead(e, now), r, now, 1);
  }

  // ---- RELEASE, DECLINE, INFORM ----

  /** The client gives up the address it holds. */
  ghost predicate Releases(e: Engine, r: Request, now: Sample, ip: IPv4) {
    Heeded(e, r, now) && Own(e, r, ip) && e.byIP[ip].lease.state == Bound && r.ciaddr == V4(ip)
  }

  /** The deletion of the row on disk is issued. */
  ghost predicate RowDeleted(e: Engine, e': Engine, m: Mutation, ip: IPv4) {
    ip in e.byIP && m.kind == DeleteLease && m.lease == e.byIP[ip].committed && Issues(e, e', ip, m, e.byIP[ip].timing)
  }

  ghost predicate Deletes(e: Engine, e': Engine, o: Outcome, ip: IPv4) {
    o.reply == None && o.probe == None && o.mutation.Some? && RowDeleted(e, e', o.mutation.value, ip)
  }

  /** A heeded RELEASE of the client's own bound address deletes its row; any other is ignored. */
  lemma {:induction false} ReleaseMeans(e: Engine, r: Request, now: Sample)
    requires Inv(e) && ValidRequest(r) && e.settings.enabled && ClockRuns(e, now) && r.kind == Release
    ensures var (e', o) := Handle(e, r, now);
      && (forall ip | Releases(e, r, now, ip) :: Deletes(ClockRead(e, now), e', o, ip))
      && ((!exists ip :: Releases(e, r, now, ip)) ==> o == SILENT && e' == ClockRead(e, now))
  {
    hide Inv, ValidRequest, Heeded, Own;
    HandleHeeded(e, r, now);
    forall ip: IPv4 ensures Own(e, r, ip) <==> Lookup(e, IdentityOf(r)) == Some(ip) { OwnIs(e, r, ip); }
    hide Handle;
    if ip :| Releases(e, r, now, ip) {
      assert Deletes(ClockRead(e, now), Handle(e, r, now).0, Handle(e, r, now).1, ip);
    } else if Lookup(e, IdentityOf(r)).Some? {
      assert !Releases(e, r, now, Lookup(e, IdentityOf(r)).value);
    }
  }

  /** The row of a declined or conflicting address: the same owner, quarantined for ten minutes from now, never held for less than before. */
  predicate Quarantines(v: Entry, l: Lease, now: Sample) {
    && l == v.lease.(state := Quarantined, expiry := l.expiry, hold := l.hold)
    && l.expiry == Stamp(now.wall + 600 * SECOND, Some(now.mono + 600 * SECOND))
    && l.hold.wall == Later(v.lease.hold.wall, now.wall + (Later(v.timing.hold, now.mono + 600 * SECOND) - now.mono))
  }

  /** The write of a quarantine; the entry stays marked until it has reached the disk. */
  ghost predicate QuarantineIssued(e: Engine, e': Engine, ip: IPv4, m: Mutation, now: Sample) {
    && ip in e.byIP && ip in e'.byIP && m.kind == PutLease && Quarantines(e.byIP[ip], m.lease, now)
    && m.token == Token(e.generation, e.sequence + 1)
    && e'.byIP == e.byIP[ip := e'.byIP[ip]]
    && var v, w := e.byIP[ip], e'.byIP[ip];
       && w.dirty && w.lease == v.lease.(state := CommitPending) && w.token == m.token && w.mutation == PutLease && w.pending == m.lease
       && w.pendingTiming == Deadlines(now.mono + 600 * SECOND, Later(v.timing.hold, now.mono + 600 * SECOND))
       && w.durable == v.durable && w.committed == v.committed
  }

  lemma {:induction false} QuarantineWritten(e: Engine, ip: IPv4, now: Sample)
    requires ip in e.byIP && e.last == Some(now)
    ensures QuarantineIssued(e, Quarantine(e, ip, now).0, ip, Quarantine(e, ip, now).1, now)
  {
    hide Detach;
  }

  /** A DECLINE sent to this server for the client's own offered or bound address quarantines it; any other is ignored. */
  lemma {:induction false} DeclineMeans(e: Engine, r: Request, now: Sample)
    requires Inv(e) && ValidRequest(r) && e.settings.enabled && ClockRuns(e, now) && r.kind == Decline
    ensures var (e', o) := Handle(e, r, now);
      && (forall ip | Declines(e, r, now, ip) :: o.reply == None && o.probe == None && o.mutation.Some? && QuarantineIssued(ClockRead(e, now), e', ip, o.mutation.value, now))
      && ((!exists ip :: Declines(e, r, now, ip)) ==> o == SILENT && e' == ClockRead(e, now))
  {
    hide Inv, ValidRequest, Heeded, Own, QuarantineIssued, Quarantine;
    HandleHeeded(e, r, now);
    forall ip: IPv4 ensures Own(e, r, ip) <==> Lookup(e, IdentityOf(r)) == Some(ip) { OwnIs(e, r, ip); }
    hide Handle;
    if Lookup(e, IdentityOf(r)).Some? {
      QuarantineWritten(ClockRead(e, now), Lookup(e, IdentityOf(r)).value, now);
    }
  }

  ghost predicate Declines(e: Engine, r: Request, now: Sample, ip: IPv4) {
    && Heeded(e, r, now) && Own(e, r, ip) && (e.byIP[ip].lease.state == Bound || e.byIP[ip].lease.state == Offered)
    && r.requestedIP == V4(ip) && exists a: IPv4 :: e.settings.serverIP == Value(a) && r.serverID == V4(a)
  }

  /** An INFORM with an address in use is acknowledged without one and changes nothing. */
  lemma {:induction false} InformMeans(e: Engine, r: Request, now: Sample)
    requires Inv(e) && ValidRequest(r) && e.settings.enabled && ClockRuns(e, now) && r.kind == Inform
    ensures Handle(e, r, now).0 == ClockRead(e, now)
    ensures Handle(e, r, now).1 ==
      if Heeded(e, r, now) && r.ciaddr != NoAddr && r.ciaddr != V4(0) then Outcome(Some(Reply(Ack, NoAddr, r, 0)), None, None) else SILENT
  {
    hide Inv, ValidRequest, Heeded;
    HandleHeeded(e, r, now);
    hide Handle;
  }

  /** An ACK without an address answers only an INFORM. */
  lemma {:induction false} BareAckInforms(e: Engine, r: Request, now: Sample)
    requires Inv(e) && ValidRequest(r) && e.settings.enabled && ClockRuns(e, now)
    ensures var o := Handle(e, r, now).1;
      o.reply.Some? && o.reply.value.kind == Ack && o.reply.value.address == NoAddr ==> r.kind == Inform && r.ciaddr != NoAddr && r.ciaddr != V4(0)
  {
    hide Inv, ValidRequest, Heeded, DiscoverNew, Mutate, Quarantine, Eligible, Contains, Remove;
    HandleHeeded(e, r, now);
    hide Handle;
  }

  /** A disabled engine, an invalid packet or a clock that was set back are not answered, and no entry changes. */
  lemma {:induction false} Unheeded(e: Engine, r: Request, now: Sample)
    requires !ValidRequest(r) || !e.settings.enabled || !ClockRuns(e, now)
    ensures Handle(e, r, now).1 == SILENT && Handle(e, r, now).0 == e.(last := Handle(e, r, now).0.last, suspended := !ClockRuns(e, now))
  {
    hide ValidRequest;
  }

  // ---- probe results ----

  /** The address is quarantined, without an answer to its client. */
  ghost predicate ProbeConflicts(v: Entry, e': Engine, o: Outcome, now: Sample, ip: IPv4) {
    && o.reply == None && o.mutation.Some? && ip in e'.byIP && Quarantines(v, o.mutation.value.lease, now) && o.mutation.value.kind == PutLease
    && IsPending(e'.byIP[ip]) && e'.byIP[ip].dirty && e'.byIP[ip].pending == o.mutation.value.lease
  }

  /** The address is offered to its client and held for thirty seconds. */
  ghost predicate ProbeOffers(e: Engine, e': Engine, o: Outcome, now: Sample, ip: IPv4)
    requires ip in e.byIP
  {
    && o == Outcome(Some(Reply(Offer, V4(ip), e.byIP[ip].request, e.settings.leaseSeconds)), None, None)
    && ip in e'.byIP && e'.byIP == e.byIP[ip := e'.byIP[ip]]
    && e'.byIP[ip].lease == e.byIP[ip].lease.(state := Offered, expiry := At(now, 30 * SECOND), hold := At(now, 30 * SECOND))
    && e'.byIP[ip].timing == Deadlines(now.mono + 30 * SECOND, now.mono + 30 * SECOND)
  }

  /** The end of a probe: offered if the address is free, quarantined on a conflict, given up otherwise. */
  lemma {:induction false} ProbeMeans(e: Engine, p: ProbeResult, now: Sample, ip: IPv4)
    requires Inv(e) && HasToken(e, ip, p.token) && e.byIP[ip].lease.state == Probing
    ensures var (e', o) := CompleteProbe(e, p, now);
      if !ClockRuns(e, now) || p.failed || now.mono >= e.byIP[ip].deadline then o == SILENT && e'.byIP == e.byIP - {ip}
      else if p.conflict then ProbeConflicts(e.byIP[ip], e', o, now, ip)
      else ProbeOffers(e, e', o, now, ip)
  {
    hide Inv, ProbeEnded, Quarantines, ProbeConflicts;
    FoundIs(e, p.token, ip, now);
    BitsOK(e);
    var (f, ok) := Now(e, now);
    EndMeans(f, ip, p, now, ok);
  }

  lemma {:induction false} FoundIs(e: Engine, t: Token, ip: IPv4, now: Sample)
    requires Inv(e) && HasToken(e, ip, t) && (e.byIP[ip].lease.state == Probing || e.byIP[ip].lease.state == CommitPending)
    ensures Find(Now(e, now).0, t) == Some(ip)
  {
    hide Inv;
    assert HasToken(Now(e, now).0, ip, t);
    forall a | HasToken(Now(e, now).0, a, t) ensures a == ip {
      assert HasToken(e, a, t);
      OnlyToken(e, ip, a, t);
    }
  }

  /** A probing or pending entry shares its token with no other. */
  lemma {:induction false} OnlyToken(e: Engine, a: IPv4, b: IPv4, t: Token)
    requires Inv(e) && HasToken(e, a, t) && HasToken(e, b, t) && (e.byIP[a].lease.state == Probing || e.byIP[a].lease.state == CommitPending)
    ensures a == b
  {
    EntryAt(e, a);
    hide Installed, EntriesOK, IdsSound, IdsComplete, TokensIssued, BitmapExact, Bounded;
    NumberedToken(ContextOf(e), a, e.byIP[a]);
    hide EntryOK;
  }

  lemma {:induction false} NumberedToken(c: Context, ip: IPv4, v: Entry)
    requires EntryOK(c, ip, v) && (v.lease.state == Probing || v.lease.state == CommitPending)
    ensures v.token.sequence > 0
  {
    hide GoodOwner, RetainedTopology, ReservedFor, ValidRequest, InFlight, Storable, Settled;
  }

  lemma {:induction false} EndMeans(e: Engine, ip: IPv4, p: ProbeResult, now: Sample, ok: bool)
    requires ip in e.byIP && (ok ==> e.last == Some(now)) && BitsTell(e)
    ensures var (e', o) := ProbeEnded(e, ip, p, now, ok);
      if !ok || p.failed || now.mono >= e.byIP[ip].deadline then o == SILENT && e'.byIP == e.byIP - {ip}
      else if p.conflict then ProbeConflicts(e.byIP[ip], e', o, now, ip)
      else ProbeOffers(e, e', o, now, ip)
  {
    hide Detach, Quarantine, DiscoverNew, Quarantines, Mark, BitsTell;
    MarkOnly(ip);
    if ok && !p.failed && now.mono < e.byIP[ip].deadline && p.conflict {
      var e1 := e.(probes := e.probes - 1);
      QuarantineWritten(e1, ip, now);
      SameBitsTell(e, e1);
      QuarantineBits(e1, ip, now);
      var e2 := Quarantine(e1, ip, now).0;
      OtherEntries(e2, e.byIP[ip].request, now, e.byIP[ip].attempts + 1);
    }
  }

  /** A clear pool bit means that nobody holds the address. */
  ghost predicate BitsTell(e: Engine) {
    && BitmapExact(e.bitmap, e.start, e.byIP.Keys + e.reserved.Keys)
    && (|e.bitmap| > 0 ==> |e.bitmap| == e.end - e.start + 1)
  }

  lemma {:induction false} BitsOK(e: Engine)
    requires Inv(e)
    ensures BitsTell(e)
  {
    InstalledOf(e);
    PoolEnds(e);
    hide Installed, EntriesOK, IdsSound, IdsComplete, TokensUnique, TokensIssued, Bounded;
  }

  lemma {:induction false} CandidateNew(e: Engine, r: Request)
    requires BitsTell(e) && Candidate(e, r).Some?
    ensures Candidate(e, r).value !in e.byIP
  {
    hide Capacity, Occupied, ReservationFor;
  }

  /** Looking for another address leaves held ones alone. */
  lemma {:induction false} OtherEntries(e: Engine, r: Request, now: Sample, attempt: int)
    requires BitsTell(e)
    ensures forall ip :: ip in e.byIP ==> ip in DiscoverNew(e, r, now, attempt).0.byIP && DiscoverNew(e, r, now, attempt).0.byIP[ip] == e.byIP[ip]
  {
    hide Capacity, Mark, ProbingEntry, Candidate, BitsTell, Occupied;
    if Candidate(e, r).Some? {
      CandidateNew(e, r);
      MarkOnly(Candidate(e, r).value);
    }
  }

  /** Marking an address touches the bitmap alone. */
  lemma {:induction false} MarkOnly(ip: IPv4)
    ensures forall f: Engine, used: bool :: Mark(f, ip, used) == f.(bitmap := Mark(f, ip, used).bitmap)
  {
  }

  lemma {:induction false} SameBitsTell(e: Engine, f: Engine)
    requires BitsTell(e) && f.bitmap == e.bitmap && f.start == e.start && f.end == e.end && f.reserved == e.reserved && f.byIP.Keys == e.byIP.Keys
    ensures BitsTell(f)
  {
    hide BitmapExact;
  }

  lemma {:induction false} QuarantineBits(e: Engine, ip: IPv4, now: Sample)
    requires ip in e.byIP && e.last.Some? && BitsTell(e)
    ensures BitsTell(Quarantine(e, ip, now).0)
  {
    hide Detach, BitmapExact, RaiseHold, GrantTiming;
    var e' := Quarantine(e, ip, now).0;
    assert e'.byIP.Keys == e.byIP.Keys;
  }

  // ---- completed writes ----

  /** The entry is as it was before the write, but for a quarantine, which is in force all the same. */
  ghost predicate Reverts(e: Engine, e': Engine, ip: IPv4) {
    && ip in e.byIP && ip in e'.byIP && e'.byIP == e.byIP[ip := e'.byIP[ip]]
    && var v, w := e.byIP[ip], e'.byIP[ip];
       && w.durable == v.durable && w.committed == v.committed
       && w.lease == (if v.dirty then v.pending else v.previous) && w.timing == (if v.dirty then v.pendingTiming else v.timing)
  }

  /** The entry is what was written, and a grant is acknowledged; a deletion removes it. */
  ghost predicate Confirms(e: Engine, e': Engine, o: Outcome, now: Sample, ip: IPv4, runs: bool) {
    && ip in e.byIP
    && var v := e.byIP[ip];
       if v.mutation == DeleteLease then o == SILENT && e'.byIP == e.byIP - {ip}
       else
         && ip in e'.byIP && Written(v, e'.byIP[ip])
         && (v.pending.state == Bound ==>
               && e'.byIP == e.byIP[ip := e'.byIP[ip]] && e'.byIP[ip].hasACK && e'.byIP[ip].lastACK == v.request.xid
               && if runs && e.settings.enabled then Acknowledges(o, v.lease.address, v.request, v.pendingTiming.expiry - now.mono) else o == SILENT)
         && (v.pending.state == Quarantined ==> o.reply == None && o.mutation == None)
  }

  predicate Written(v: Entry, w: Entry) {
    w.durable && !w.dirty && w.committed == v.pending && w.timing == v.pendingTiming && w.lease == v.pending
  }

  /**
   The end of a write. A failed one leaves what was before, but a quarantine is in force all the same; a deletion removes the
   entry; a put becomes the committed row, and a grant is acknowledged with exactly the whole seconds left.
   */
  lemma {:induction false} CommitMeans(e: Engine, c: CommitResult, now: Sample, ip: IPv4)
    requires Inv(e) && Awaiting(e, ip, c.token)
    ensures var (e', o) := CompleteCommit(e, c, now);
      if c.failed then o == SILENT && Reverts(e, e', ip) else Confirms(e, e', o, now, ip, ClockRuns(e, now))
  {
    hide Inv, CommitFailed, CommitDone, Reverts, Confirms;
    FoundIs(e, c.token, ip, now);
    BitsOK(e);
    EntryAt(e, ip);
    PendingParts(ContextOf(e), ip, e.byIP[ip]);
    hide EntryOK;
    var (f, ok) := Now(e, now);
    FailedMeans(f, ip);
    DoneMeans(f, ip, now, ok);
    ClockApart(e, f, CommitFailed(f, ip), CommitDone(f, ip, now, ok).0, CommitDone(f, ip, now, ok).1, now, ip, ok);
  }

  /** What was read from the clock changes neither verdict. */
  lemma {:induction false} ClockApart(e: Engine, f: Engine, e1: Engine, e2: Engine, o: Outcome, now: Sample, ip: IPv4, ok: bool)
    requires f.byIP == e.byIP && f.settings == e.settings
    ensures Reverts(f, e1, ip) <==> Reverts(e, e1, ip)
    ensures Confirms(f, e2, o, now, ip, ok) <==> Confirms(e, e2, o, now, ip, ok)
  {
    hide Acknowledges, Written;
  }

  lemma {:induction false} PendingParts(c: Context, ip: IPv4, v: Entry)
    requires EntryOK(c, ip, v) && IsPending(v)
    ensures v.pending.state == Bound || v.pending.state == Quarantined
    ensures v.pending.address == v.lease.address && v.previousTiming == v.timing
  {
    hide GoodOwner, RetainedTopology, ReservedFor, ValidRequest, Settled;
  }

  lemma {:induction false} FailedMeans(e: Engine, ip: IPv4)
    requires ip in e.byIP && e.byIP[ip].previousTiming == e.byIP[ip].timing
    ensures Reverts(e, CommitFailed(e, ip), ip)
  {
  }

  lemma {:induction false} DoneMeans(e: Engine, ip: IPv4, now: Sample, ok: bool)
    requires BitsTell(e) && ip in e.byIP && (e.byIP[ip].pending.state == Bound || e.byIP[ip].pending.state == Quarantined)
    requires e.byIP[ip].pending.address == e.byIP[ip].lease.address
    ensures Confirms(e, CommitDone(e, ip, now, ok).0, CommitDone(e, ip, now, ok).1, now, ip, ok)
  {
    hide Acknowledges, AckOutcome, DiscoverNew, Mark, Detach, BitsTell;
    if e.byIP[ip].mutation == DeleteLease {
      MarkOnly(ip);
    } else if e.byIP[ip].pending.state == Bound {
      GrantDone(e, ip, now, ok);
    } else {
      QuarantineDone(e, ip, now, ok);
    }
  }

  lemma {:induction false} GrantDone(e: Engine, ip: IPv4, now: Sample, ok: bool)
    requires ip in e.byIP && e.byIP[ip].pending.state == Bound && e.byIP[ip].mutation != DeleteLease
    requires e.byIP[ip].pending.address == e.byIP[ip].lease.address
    ensures Confirms(e, CommitDone(e, ip, now, ok).0, CommitDone(e, ip, now, ok).1, now, ip, ok)
  {
    hide Acknowledges, AckOutcome, DiscoverNew, Remove, Detach;
    var v := e.byIP[ip];
    var bound := v.(lease := v.pending.(state := Bound), timing := v.pendingTiming, durable := true, committed := v.pending, dirty := false, hasACK := true, lastACK := v.request.xid);
    AckSeconds(bound, v.request, now);
    LateAck(v.lease.address, v.request, v.pendingTiming.expiry - now.mono);
  }

  lemma {:induction false} QuarantineDone(e: Engine, ip: IPv4, now: Sample, ok: bool)
    requires BitsTell(e) && ip in e.byIP && e.byIP[ip].pending.state == Quarantined && e.byIP[ip].mutation != DeleteLease
    ensures Confirms(e, CommitDone(e, ip, now, ok).0, CommitDone(e, ip, now, ok).1, now, ip, ok)
  {
    hide Acknowledges, AckOutcome, DiscoverNew, Remove, Detach, BitsTell;
    var v := e.byIP[ip];
    var v1 := v.(lease := v.pending, timing := v.pendingTiming, durable := true, committed := v.pending, dirty := false);
    var e1 := e.(byIP := e.byIP[ip := v1], byID := Detach(e.byID, v1.lease.identity, ip));
    assert e1.byIP.Keys == e.byIP.Keys;
    SameBitsTell(e, e1);
    OtherEntries(e1, v.request, now, 1);
  }

  lemma {:induction false} LateAck(ip: IPv4, r: Request, left: int)
    ensures left <= 0 ==> Acknowledges(SILENT, ip, r, left)
  {
  }

  // ---- ticks ----

  /** Nothing is left to do for the entry. */
  predicate Current(v: Entry, now: Sample) {
    && (!v.dirty || IsPending(v))
    && (v.lease.state == Probing ==> now.mono < v.deadline)
    && (v.lease.state == Offered || v.lease.state == Bound || v.lease.state == Quarantined ==> now.mono < v.timing.hold)
  }

  /**
   What a tick does to an entry that is due: a quarantine that is not on disk is written again; past its hold a durable
   entry's deletion is issued and any other entry is removed, as is a probe past its deadline. Other entries stay.
   */
  lemma {:induction false} TickEntryMeans(e: Engine, ip: IPv4, now: Sample)
    requires ip in e.byIP && e.last == Some(now)
    ensures var (e', out) := TickEntry(e, ip, now);
      if Current(e.byIP[ip], now) then e' == e && out == []
      else if e.byIP[ip].dirty then |out| == 1 && Rewrites(e, e', out[0], ip, now)
      else if e.byIP[ip].lease.state != Probing && e.byIP[ip].durable then |out| == 1 && RowDeleted(e, e', out[0], ip)
      else out == [] && e'.byIP == e.byIP - {ip} && e'.last == e.last
  {
    hide Mark, Detach, Mutate, Issues;
    var v := e.byIP[ip];
    MarkOnly(ip);
    MutateIssues(e, ip, PutLease, v.lease, v.timing);
    MutateIssues(e, ip, DeleteLease, v.committed, v.timing);
  }

  /** The quarantine is written again, with a hold for what is left of it. */
  ghost predicate Rewrites(e: Engine, e': Engine, m: Mutation, ip: IPv4, now: Sample) {
    && ip in e.byIP && m.kind == PutLease && Issues(e, e', ip, m, e.byIP[ip].timing)
    && m.lease == e.byIP[ip].lease.(hold := m.lease.hold)
    && m.lease.hold.wall == Later(e.byIP[ip].lease.hold.wall, now.wall + (e.byIP[ip].timing.hold - now.mono))
  }

  lemma {:induction false} MutateIssues(e: Engine, ip: IPv4, kind: MutationKind, target: Lease, timing: Deadlines)
    requires ip in e.byIP && e.last.Some?
    ensures var (e', m) := Mutate(e, ip, kind, target, timing, NO_REQUEST);
      && Issues(e, e', ip, m, timing) && m.kind == kind
      && m.lease == if kind == PutLease then RaiseHold(target, timing, e.last.value) else target
  {
  }

  /** A tick touches one entry at a time and leaves that one current. */
  lemma {:induction false} TickEntryLeaves(e: Engine, ip: IPv4, now: Sample)
    requires ip in e.byIP && e.last == Some(now)
    ensures var e' := TickEntry(e, ip, now).0;
      && e'.last == e.last && e'.byIP.Keys <= e.byIP.Keys
      && (forall a :: a in e'.byIP && a != ip ==> e'.byIP[a] == e.byIP[a])
      && (ip in e'.byIP ==> Current(e'.byIP[ip], now))
  {
    hide TickEntry;
    TickEntryMeans(e, ip, now);
  }

  /** Nothing is overdue. */
  predicate AllCurrent(e: Engine, now: Sample) { forall ip | ip in e.byIP :: Current(e.byIP[ip], now) }

  lemma {:induction false} TickAllClears(e: Engine, order: seq<IPv4>, now: Sample)
    requires e.last == Some(now) && forall ip :: ip in e.byIP ==> ip in order || Current(e.byIP[ip], now)
    ensures AllCurrent(TickAll(e, order, now).0, now)
    decreases |order|
  {
    hide TickEntry, Current;
    if order != [] {
      var rest := order[1..];
      assert order == [order[0]] + rest;
      if order[0] in e.byIP {
        TickEntryLeaves(e, order[0], now);
        var e1 := TickEntry(e, order[0], now).0;
        forall ip | ip in e1.byIP ensures ip in rest || Current(e1.byIP[ip], now) {
          assert ip in e.byIP;
        }
        TickAllClears(e1, rest, now);
        assert TickAll(e, order, now).0 == TickAll(e1, rest, now).0;
      } else {
        TickAllClears(e, rest, now);
        assert TickAll(e, order, now).0 == TickAll(e, rest, now).0;
      }
    }
  }

  /** After a tick that visits all entries nothing is overdue, unless the clock was set back. */
  lemma {:induction false} TickClears(e: Engine, order: seq<IPv4>, now: Sample)
    requires ClockRuns(e, now) && forall ip :: ip in e.byIP ==> ip in order
    ensures AllCurrent(Tick(e, order, now).0, now)
  {
    hide TickAll, AllCurrent;
    NowRuns(e, now);
    TickAllClears(ClockRead(e, now), order, now);
    assert Tick(e, order, now) == TickAll(ClockRead(e, now), order, now);
  }
}
