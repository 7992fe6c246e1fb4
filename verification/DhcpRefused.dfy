/** A whole run at whose end the writer refuses a legitimate renewal (internal/dhcp/store.go, commit). */
module DhcpRefused {
  import opened Common
  import opened DhcpTypes
  import opened DhcpSettings
  import opened DhcpEngine
  import opened DhcpSteps
  import opened DhcpStore
  import opened DhcpSystem
  import opened DhcpRuns

  /** The lease begins here, for four hours. */
  const GRANT: Sample := Sample(85_600 * SECOND, 5_600 * SECOND)

  /** The renewal: 13400 seconds later, on a wall clock that was set back 3000 seconds meanwhile. */
  const RENEWAL: Sample := Sample(96_000 * SECOND, 19_000 * SECOND)

  /** Any enabled settings with four-hour leases and no reservations, and any client. */
  ghost predicate Setting(s: Settings, r: Request) {
    && ValidSettings(s) && s.enabled && s.reservations == [] && s.leaseSeconds == 14_400
    && ValidRequest(r) && r.clientId == "" && r.hostname == ""
    && r.requestedIP == NoAddr && r.serverID == NoAddr && r.ciaddr == NoAddr
  }

  /** The settings the operator changes to: half-hour leases. */
  function Shorter(s: Settings): Settings { s.(leaseSeconds := 1_800) }

  /** What the run needs to know of both settings. */
  ghost predicate Simple(s: Settings, r: Request) {
    && s.enabled && s.reservations == [] && Capacity(s) >= 1
    && s.serverIP.Value? && s.serverIP.value != 0 && s.subnet.Value? && s.rangeStart.Value? && s.rangeEnd.Value?
    && s.rangeStart.value <= s.rangeEnd.value && s.rangeStart.value != 0
    && LeaseAddress(s.rangeStart.value) && TopologyOK(s, s.rangeStart.value) && Contains(s.subnet.value, s.rangeStart.value)
    && UnicastMac(r.mac)
  }

  lemma {:induction false} SettingSimple(s: Settings, r: Request)
    requires Setting(s, r)
    ensures Simple(s, r) && Simple(Shorter(s), r) && ValidTransition(s, Shorter(s))
  {
    hide ValidDomain, ValidInterface, UnicastMac, Span, ValidReservation, Compatible;
  }

  // ---- the requests and the entry at each stage ----

  function PoolStart(s: Settings): IPv4
    requires s.rangeStart.Value?
  {
    s.rangeStart.value
  }

  function Asking(r: Request): Request { r.(kind := Discover) }

  function Choosing(s: Settings, r: Request): Request
    requires s.rangeStart.Value? && s.serverIP.Value?
  {
    r.(kind := RequestMessage, requestedIP := V4(PoolStart(s)), serverID := V4(s.serverIP.value))
  }

  function Renewing(s: Settings, r: Request): Request
    requires s.rangeStart.Value?
  {
    r.(kind := RequestMessage, ciaddr := V4(PoolStart(s)))
  }

  function Fresh(s: Settings, r: Request): Entry
    requires s.rangeStart.Value?
  {
    Entry(Lease(MacId(r.mac), r.mac, PoolStart(s), "", ZERO_STAMP, ZERO_STAMP, Probing),
          UNSET, UNSET, UNSET, Asking(r), Token(1, 1), GRANT.mono + PROBE_TIMEOUT, 1,
          false, NO_LEASE, false, NO_LEASE, NO_LEASE, NoMutation, 0, false)
  }

  function OfferedEntry(s: Settings, r: Request): Entry
    requires s.rangeStart.Value?
  {
    var v := Fresh(s, r);
    v.(lease := v.lease.(state := Offered, expiry := At(GRANT, OFFER_HOLD), hold := At(GRANT, OFFER_HOLD)),
       timing := Deadlines(GRANT.mono + OFFER_HOLD, GRANT.mono + OFFER_HOLD))
  }

  /** The first lease: both its instants four hours after the grant. */
  function Granted(s: Settings, r: Request): Lease
    requires s.rangeStart.Value?
  {
    Lease(MacId(r.mac), r.mac, PoolStart(s), "", Stamp(100_000 * SECOND, Some(20_000 * SECOND)), Stamp(100_000 * SECOND, Some(20_000 * SECOND)), Bound)
  }

  const GRANTED_TIMING: Deadlines := Deadlines(20_000 * SECOND, 20_000 * SECOND)

  function Waiting(s: Settings, r: Request): Entry
    requires s.rangeStart.Value? && s.serverIP.Value?
  {
    Submitted(OfferedEntry(s, r), Token(1, 2), PutLease, Granted(s, r), GRANTED_TIMING, Choosing(s, r)).(deadline := 20_000 * SECOND)
  }

  function BoundNow(s: Settings, r: Request): Entry
    requires s.rangeStart.Value? && s.serverIP.Value?
  {
    Waiting(s, r).(lease := Granted(s, r), timing := GRANTED_TIMING, durable := true, committed := Granted(s, r), hasACK := true, lastACK := r.xid)
  }

  /** The renewed lease: its expiry is later on the monotonic scale than the hold it keeps, and earlier on the wall. */
  function Renewed(s: Settings, r: Request): Lease
    requires s.rangeStart.Value?
  {
    Granted(s, r).(expiry := Stamp(97_800 * SECOND, Some(20_800 * SECOND)))
  }

  /** An engine with this one entry. */
  function With(s: Settings, g: nat, sequence: nat, v: Entry, probes: int): Engine
    requires s.rangeStart.Value? && s.rangeEnd.Value?
  {
    Engine(s, g, sequence, Some(GRANT), false, map[PoolStart(s) := v], map[v.lease.identity := PoolStart(s)], map[], map[],
           PoolBits(s, {}, {PoolStart(s)}), PoolStart(s), s.rangeEnd.value, probes)
  }

  function StoreWith(t: Table, lastKnown: int, queue: seq<Mutation>, results: seq<CommitResult>, last: Token): Store {
    Store(t, lastKnown, MAXIMUM_LEASES, queue, results, {}, false, false, last)
  }

  // ---- one step each ----

  lemma {:induction false} FreshEngine(s: Settings, r: Request)
    requires Simple(s, r)
    ensures NewEngine(s, 1) ==
      Engine(s, 1, 0, None, false, map[], map[], map[], map[], PoolBits(s, {}, {}), PoolStart(s), s.rangeEnd.value, 0)
  {
    hide TopologyOK, Contains, LeaseAddress, UnicastMac, PoolBits;
    var none: map<IPv4, Entry> := map[];
    assert ReservedOf(s.reservations).Keys == {} && none.Keys == {};
  }

  lemma {:induction false} FirstBit(s: Settings, r: Request)
    requires Simple(s, r)
    ensures |PoolBits(s, {}, {})| > 0 && !PoolBits(s, {}, {})[0]
    ensures PoolBits(s, {}, {})[0 := true] == PoolBits(s, {}, {PoolStart(s)})
  {
    hide TopologyOK, Contains, LeaseAddress, UnicastMac;
  }

  lemma {:induction false} NoName()
    ensures Lower("") == "" && !ValidLabel("") && CleanName("") == ""
  {
  }

  lemma {:induction false} Discovered(s: Settings, r: Request, e: Engine)
    requires Simple(s, r) && r.clientId == "" && r.hostname == "" && r.requestedIP == NoAddr
    requires e == Engine(s, 1, 0, Some(GRANT), false, map[], map[], map[], map[], PoolBits(s, {}, {}), PoolStart(s), s.rangeEnd.value, 0)
    ensures DiscoverNew(e, Asking(r), GRANT, 1) == (With(s, 1, 1, Fresh(s, r), 1), Some(Probe(Token(1, 1), PoolStart(s), GRANT.mono + PROBE_TIMEOUT)))
  {
    hide TopologyOK, Contains, LeaseAddress, UnicastMac, PoolBits;
    FirstBit(s, r);
    NoName();
    assert |e.byIP.Keys + e.reserved.Keys| == 0 by { assert e.byIP.Keys + e.reserved.Keys == {}; }
    assert Candidate(e, Asking(r)) == Some(PoolStart(s));
    assert ProbingEntry(e, Asking(r), GRANT, 1, PoolStart(s)) == Fresh(s, r);
  }

  lemma {:induction false} Asked(s: Settings, r: Request)
    requires Setting(s, r) && Simple(s, r)
    ensures Handle(NewEngine(s, 1), Asking(r), GRANT) ==
      (With(s, 1, 1, Fresh(s, r), 1), Outcome(None, Some(Probe(Token(1, 1), PoolStart(s), GRANT.mono + PROBE_TIMEOUT)), None))
  {
    hide TopologyOK, Contains, LeaseAddress, UnicastMac, PoolBits, ValidSettings, NewEngine, DiscoverNew;
    FreshEngine(s, r);
    var e := NewEngine(s, 1);
    assert Now(e, GRANT) == (e.(last := Some(GRANT)), true);
    assert Lookup(e, IdentityOf(Asking(r))) == None;
    Discovered(s, r, e.(last := Some(GRANT)));
  }

  lemma {:induction false} FindOnly(e: Engine, ip: IPv4, v: Entry)
    requires e.byIP == map[ip := v] && v.token.generation == e.generation
    ensures Find(e, v.token) == Some(ip)
  {
    assert HasToken(e, ip, v.token);
  }

  lemma {:induction false} Probed(s: Settings, r: Request)
    requires Simple(s, r)
    ensures CompleteProbe(With(s, 1, 1, Fresh(s, r), 1), ProbeResult(Token(1, 1), false, false), GRANT).0 == With(s, 1, 1, OfferedEntry(s, r), 0)
    ensures CompleteProbe(With(s, 1, 1, Fresh(s, r), 1), ProbeResult(Token(1, 1), false, false), GRANT).1.probe.None?
    ensures CompleteProbe(With(s, 1, 1, Fresh(s, r), 1), ProbeResult(Token(1, 1), false, false), GRANT).1.mutation.None?
  {
    hide TopologyOK, Contains, LeaseAddress, UnicastMac, PoolBits, Find;
    FindOnly(With(s, 1, 1, Fresh(s, r), 1), PoolStart(s), Fresh(s, r));
  }

  lemma {:induction false} Chosen(s: Settings, r: Request)
    requires Setting(s, r) && Simple(s, r)
    ensures Handle(With(s, 1, 1, OfferedEntry(s, r), 0), Choosing(s, r), GRANT) ==
      (With(s, 1, 2, Waiting(s, r), 0), Outcome(None, None, Some(Mutation(Token(1, 2), PutLease, Granted(s, r)))))
  {
    hide TopologyOK, Contains, LeaseAddress, UnicastMac, PoolBits, ValidSettings;
    NoName();
    var e, q, v := With(s, 1, 1, OfferedEntry(s, r), 0), Choosing(s, r), OfferedEntry(s, r);
    var duration := 14_400 * SECOND;
    assert Now(e, GRANT) == (e, true) && Lookup(e, IdentityOf(q)) == Some(PoolStart(s));
    assert RequestTarget(q) == Some(PoolStart(s)) && Eligible(e, q, PoolStart(s));
    assert GrantTiming(v, GRANT, duration) == GRANTED_TIMING;
    assert RaiseHold(GrantTarget(v, q, GRANT, duration), GRANTED_TIMING, GRANT) == Granted(s, r);
    var after := Handle(e, q, GRANT).0;
    assert after.byIP[PoolStart(s)] == Waiting(s, r);
    assert after.byIP == map[PoolStart(s) := Waiting(s, r)];
    assert after.byID == With(s, 1, 2, Waiting(s, r), 0).byID;
  }

  lemma {:induction false} Stored(s: Settings, r: Request)
    requires Simple(s, r)
    ensures ApplyBatch(map[], [Mutation(Token(1, 2), PutLease, Granted(s, r))]) == Some(map[PoolStart(s) := RowOf(Granted(s, r))])
  {
    hide TopologyOK, Contains, LeaseAddress, UnicastMac;
    var batch := [Mutation(Token(1, 2), PutLease, Granted(s, r))];
    assert batch[1..] == [];
  }

  lemma {:induction false} Committed(s: Settings, r: Request)
    requires Simple(s, r)
    ensures CompleteCommit(With(s, 1, 2, Waiting(s, r), 0), CommitResult(Token(1, 2), false), GRANT).0 == With(s, 1, 2, BoundNow(s, r), 0)
    ensures CompleteCommit(With(s, 1, 2, Waiting(s, r), 0), CommitResult(Token(1, 2), false), GRANT).1.probe.None?
  {
    hide TopologyOK, Contains, LeaseAddress, UnicastMac, PoolBits, Find;
    FindOnly(With(s, 1, 2, Waiting(s, r), 0), PoolStart(s), Waiting(s, r));
  }

  lemma {:induction false} Changed(s: Settings, r: Request)
    requires Simple(s, r) && Simple(Shorter(s), r) && ValidTransition(s, Shorter(s))
    ensures Apply(With(s, 1, 2, BoundNow(s, r), 0), Shorter(s), 2).0 == With(Shorter(s), 2, 2, BoundNow(s, r).(hasACK := false), 0)
  {
    hide TopologyOK, Contains, LeaseAddress, UnicastMac, ValidTransition, PoolBits, BoundNow, Capacity, ApplyDone;
    BoundFacts(s, r);
    var e := With(s, 1, 2, BoundNow(s, r), 0);
    assert KeptEntries(e) == e.byIP;
    assert ReservedOf(Shorter(s).reservations) == map[];
    OneAddress(PoolStart(s));
    assert ApplyChecked(e, Shorter(s), 2);
    ApplyCheckMeans(e, Shorter(s), 2);
    hide ApplyCheck, ApplyChecked;
    Switched(s, r);
  }

  lemma {:induction false} OneAddress(ip: IPv4)
    ensures |{ip} + {}| == 1
  {
    assert {ip} + {} == {ip};
  }

  lemma {:induction false} Switched(s: Settings, r: Request)
    requires Simple(s, r)
    ensures ApplyDone(With(s, 1, 2, BoundNow(s, r), 0), Shorter(s), 2) == With(Shorter(s), 2, 2, BoundNow(s, r).(hasACK := false), 0)
  {
    hide TopologyOK, Contains, LeaseAddress, UnicastMac, PoolBits, BoundNow;
    BoundFacts(s, r);
    var e := With(s, 1, 2, BoundNow(s, r), 0);
    assert KeptEntries(e) == e.byIP;
    assert ReservedOf(Shorter(s).reservations) == map[] && ReservationsOf(Shorter(s).reservations) == map[];
    var d := ApplyDone(e, Shorter(s), 2);
    assert d.byIP == map[PoolStart(s) := BoundNow(s, r).(hasACK := false)];
    assert d.byID == e.byID;
    assert d.reserved.Keys == {} && d.byIP.Keys == {PoolStart(s)};
    SameBits(s);
  }

  lemma {:induction false} BoundFacts(s: Settings, r: Request)
    requires s.rangeStart.Value? && s.serverIP.Value?
    ensures var v := BoundNow(s, r); v.durable && !v.dirty && v.lease.state == Bound && v.lease.identity == MacId(r.mac)
  {
  }

  lemma {:induction false} SameBits(s: Settings)
    requires s.rangeStart.Value?
    ensures PoolBits(Shorter(s), {}, {PoolStart(s)}) == PoolBits(s, {}, {PoolStart(s)})
  {
  }

  lemma {:induction false} Renewal(s: Settings, r: Request)
    requires Setting(s, r) && Simple(s, r) && Simple(Shorter(s), r)
    ensures var (e, o) := Handle(With(Shorter(s), 2, 2, BoundNow(s, r).(hasACK := false), 0), Renewing(s, r), RENEWAL);
      o == Outcome(None, None, Some(Mutation(Token(2, 3), PutLease, Renewed(s, r))))
  {
    hide TopologyOK, Contains, LeaseAddress, UnicastMac, PoolBits, ValidSettings;
    NoName();
    var v := BoundNow(s, r).(hasACK := false);
    var e, q, duration := With(Shorter(s), 2, 2, v, 0), Renewing(s, r), 1_800 * SECOND;
    assert Lookup(e, IdentityOf(q)) == Some(PoolStart(s)) && RequestTarget(q) == Some(PoolStart(s));
    assert Eligible(e.(last := Some(RENEWAL)), q, PoolStart(s));
    assert RaiseHold(GrantTarget(v, q, RENEWAL, duration), GrantTiming(v, RENEWAL, duration), RENEWAL) == Renewed(s, r);
  }

  // ---- the run ----

  function AskStep(r: Request): Step { Packet(Asking(r), GRANT, false, false, GRANT) }
  const PROBE_STEP: Step := ProbeEnds(ProbeResult(Token(1, 1), false, false), GRANT, false, false, GRANT)
  function ChooseStep(s: Settings, r: Request): Step
    requires s.rangeStart.Value? && s.serverIP.Value?
  {
    Packet(Choosing(s, r), GRANT, false, false, GRANT)
  }
  const WRITE_STEP: Step := Writes(1, GRANT.wall, Durable)
  const WRITTEN_STEP: Step := WriteEnds(GRANT, false, GRANT)
  function ChangeStep(s: Settings): Step { Configure(Shorter(s), 2) }
  function RenewStep(s: Settings, r: Request): Step
    requires s.rangeStart.Value?
  {
    Packet(Renewing(s, r), RENEWAL, false, false, RENEWAL)
  }
  const LAST_STEP: Step := Writes(1, RENEWAL.wall, Durable)

  /** Discover, probe, request, write, completion, settings change, renewal, write; the disk never fails. */
  function RefusedSteps(s: Settings, r: Request): seq<Step>
    requires s.rangeStart.Value? && s.serverIP.Value?
  {
    [AskStep(r), PROBE_STEP, ChooseStep(s, r), WRITE_STEP, WRITTEN_STEP, ChangeStep(s), RenewStep(s, r), LAST_STEP]
  }

  function GrantRow(s: Settings, r: Request): Table
    requires s.rangeStart.Value?
  {
    map[PoolStart(s) := RowOf(Granted(s, r))]
  }

  ghost function AfterAsk(s: Settings, r: Request): System
    requires Simple(s, r)
  {
    System(With(s, 1, 1, Fresh(s, r), 1), StoreWith(map[], 0, [], [], NO_TOKEN))
  }

  ghost function AfterProbe(s: Settings, r: Request): System
    requires Simple(s, r)
  {
    System(With(s, 1, 1, OfferedEntry(s, r), 0), StoreWith(map[], 0, [], [], NO_TOKEN))
  }

  ghost function AfterChoice(s: Settings, r: Request): System
    requires Simple(s, r)
  {
    System(With(s, 1, 2, Waiting(s, r), 0), StoreWith(map[], 0, [Mutation(Token(1, 2), PutLease, Granted(s, r))], [], Token(1, 2)))
  }

  ghost function AfterWrite(s: Settings, r: Request): System
    requires Simple(s, r)
  {
    System(With(s, 1, 2, Waiting(s, r), 0), StoreWith(GrantRow(s, r), GRANT.wall, [], [CommitResult(Token(1, 2), false)], Token(1, 2)))
  }

  ghost function AfterBind(s: Settings, r: Request): System
    requires Simple(s, r)
  {
    System(With(s, 1, 2, BoundNow(s, r), 0), StoreWith(GrantRow(s, r), GRANT.wall, [], [], Token(1, 2)))
  }

  ghost function AfterChange(s: Settings, r: Request): System
    requires Simple(s, r)
  {
    System(With(Shorter(s), 2, 2, BoundNow(s, r).(hasACK := false), 0), StoreWith(GrantRow(s, r), GRANT.wall, [], [], Token(1, 2)))
  }

  lemma {:induction false} DoAsk(s: Settings, r: Request)
    requires Setting(s, r) && Simple(s, r)
    ensures Possible(First(s, 1, 0), AskStep(r))
    ensures Do(First(s, 1, 0), AskStep(r)) == AfterAsk(s, r)
  {
    hide Handle, Setting, TopologyOK, Contains, LeaseAddress, UnicastMac, NewEngine, With, Fresh;
    Asked(s, r);
  }

  lemma {:induction false} DoProbe(s: Settings, r: Request)
    requires Simple(s, r)
    ensures Possible(AfterAsk(s, r), PROBE_STEP)
    ensures Do(AfterAsk(s, r), PROBE_STEP) == AfterProbe(s, r)
  {
    hide CompleteProbe, TopologyOK, Contains, LeaseAddress, UnicastMac, With, Fresh, OfferedEntry;
    Probed(s, r);
  }

  /** A mutation handed out alone is queued if the writer admits it. */
  lemma {:induction false} OneQueued(y: System, e: Engine, m: Mutation, later: Sample)
    requires Submit(y.store, m, false).1
    ensures AfterCall(y, e, Outcome(None, None, Some(m)), false, false, later) == System(e, Submit(y.store, m, false).0)
  {
    hide Submit;
    var y1 := y.(engine := e);
    assert [m][1..] == [] && Mutations(Some(m)) == [m];
    assert DispatchAll(y1, [m], [false], later) == DispatchAll(Dispatch(y1, m, false, later), [], [], later) by {
      assert [false][1..] == [];
    }
  }

  lemma {:induction false} DoChoose(s: Settings, r: Request)
    requires Setting(s, r) && Simple(s, r)
    ensures Possible(AfterProbe(s, r), ChooseStep(s, r))
    ensures Do(AfterProbe(s, r), ChooseStep(s, r)) == AfterChoice(s, r)
  {
    hide Handle, Setting, TopologyOK, Contains, LeaseAddress, UnicastMac, With, OfferedEntry, Waiting, Choosing, Granted;
    Chosen(s, r);
    var m := Mutation(Token(1, 2), PutLease, Granted(s, r));
    OneQueued(AfterProbe(s, r), With(s, 1, 2, Waiting(s, r), 0), m, GRANT);
    assert [] + [m] == [m];
  }

  lemma {:induction false} DoWrite(s: Settings, r: Request)
    requires Simple(s, r)
    ensures Possible(AfterChoice(s, r), WRITE_STEP) && Do(AfterChoice(s, r), WRITE_STEP) == AfterWrite(s, r)
  {
    hide ApplyBatch, TopologyOK, Contains, LeaseAddress, UnicastMac, With, Waiting, Granted, RowOf;
    Stored(s, r);
    var batch := [Mutation(Token(1, 2), PutLease, Granted(s, r))];
    assert batch[..1] == batch && batch[1..] == [];
    assert [] + ResultsFor(batch, false) == [CommitResult(Token(1, 2), false)];
  }

  lemma {:induction false} DoBind(s: Settings, r: Request)
    requires Simple(s, r)
    ensures Possible(AfterWrite(s, r), WRITTEN_STEP) && Do(AfterWrite(s, r), WRITTEN_STEP) == AfterBind(s, r)
  {
    hide CompleteCommit, TopologyOK, Contains, LeaseAddress, UnicastMac, With, Waiting, BoundNow, RowOf, Granted;
    Committed(s, r);
    assert [CommitResult(Token(1, 2), false)][1..] == [];
  }

  lemma {:induction false} DoChange(s: Settings, r: Request)
    requires Simple(s, r) && Simple(Shorter(s), r) && ValidTransition(s, Shorter(s))
    ensures Possible(AfterBind(s, r), ChangeStep(s))
    ensures Do(AfterBind(s, r), ChangeStep(s)) == AfterChange(s, r)
  {
    hide Apply, TopologyOK, Contains, LeaseAddress, UnicastMac, With, BoundNow, ValidTransition, Shorter, RowOf;
    Changed(s, r);
  }

  lemma {:induction false} DoRenew(s: Settings, r: Request)
    requires Setting(s, r) && Simple(s, r) && Simple(Shorter(s), r)
    ensures Possible(AfterChange(s, r), RenewStep(s, r))
    ensures Do(AfterChange(s, r), RenewStep(s, r)).store ==
      StoreWith(GrantRow(s, r), GRANT.wall, [Mutation(Token(2, 3), PutLease, Renewed(s, r))], [], Token(2, 3))
  {
    hide Handle, Setting, TopologyOK, Contains, LeaseAddress, UnicastMac, With, Shorter, BoundNow, Renewing, Renewed, GrantRow;
    Renewal(s, r);
    var m := Mutation(Token(2, 3), PutLease, Renewed(s, r));
    OneQueued(AfterChange(s, r), Handle(AfterChange(s, r).engine, Renewing(s, r), RENEWAL).0, m, RENEWAL);
    assert [] + [m] == [m];
  }

  /** The renewed row is refused as a recovery candidate although its stored instants are in order. */
  lemma {:induction false} NotStored(s: Settings, r: Request)
    requires Simple(s, r)
    ensures ApplyBatch(GrantRow(s, r), [Mutation(Token(2, 3), PutLease, Renewed(s, r))]) == None
    ensures !HorizonOK(Renewed(s, r)) && Renewed(s, r).expiry.wall <= Renewed(s, r).hold.wall
  {
    hide TopologyOK, Contains, LeaseAddress, UnicastMac;
    var batch := [Mutation(Token(2, 3), PutLease, Renewed(s, r))];
  }

  lemma {:induction false} DoRefuse(y: System, s: Settings, r: Request)
    requires Simple(s, r)
    requires y.store == StoreWith(GrantRow(s, r), GRANT.wall, [Mutation(Token(2, 3), PutLease, Renewed(s, r))], [], Token(2, 3))
    ensures Possible(y, LAST_STEP)
    ensures Do(y, LAST_STEP).store == StoreWith(GrantRow(s, r), GRANT.wall, [], [CommitResult(Token(2, 3), true)], Token(2, 3)).(failed := true)
  {
    hide ApplyBatch, TopologyOK, Contains, LeaseAddress, UnicastMac, Renewed, GrantRow;
    NotStored(s, r);
    var batch := [Mutation(Token(2, 3), PutLease, Renewed(s, r))];
    assert batch[..1] == batch && batch[1..] == [];
    assert [] + ResultsFor(batch, true) == [CommitResult(Token(2, 3), true)];
  }

  lemma {:induction false} RunMore(y: System, step: Step, rest: seq<Step>)
    requires Possible(y, step) && Run(Do(y, step), rest)
    ensures Run(y, [step] + rest) && After(y, [step] + rest) == After(Do(y, step), rest)
  {
    hide Possible, Do;
    assert ([step] + rest)[1..] == rest;
  }

  lemma {:induction false} StepsInOrder(s: Settings, r: Request)
    requires Simple(s, r)
    ensures Chronological(RefusedSteps(s, r))
  {
    hide Simple, Asking, Choosing, Renewing, Shorter, RefusedSteps;
    StepLength(s, r);
    var steps := RefusedSteps(s, r);
    forall i | 0 <= i < |steps| ensures Instants(steps[i]) == if i == 6 then {RENEWAL.mono} else if i in {3, 5, 7} then {} else {GRANT.mono} {
      StepAt(s, r, i);
    }
  }

  lemma {:induction false} StepLength(s: Settings, r: Request)
    requires Simple(s, r)
    ensures s.rangeStart.Value? && s.serverIP.Value? && |RefusedSteps(s, r)| == 8
  {
    hide TopologyOK, Contains, LeaseAddress, UnicastMac;
  }

  lemma {:induction false} StepAt(s: Settings, r: Request, i: nat)
    requires Simple(s, r) && i < 8
    ensures Instants(RefusedSteps(s, r)[i]) == if i == 6 then {RENEWAL.mono} else if i in {3, 5, 7} then {} else {GRANT.mono}
  {
    hide Asking, Choosing, Renewing, Shorter, TopologyOK, Contains, LeaseAddress, UnicastMac;
  }

  lemma {:induction false} StepList(s: Settings, r: Request)
    requires Simple(s, r)
    ensures RefusedSteps(s, r) ==
      [AskStep(r)] + ([PROBE_STEP] + ([ChooseStep(s, r)] + ([WRITE_STEP] + ([WRITTEN_STEP] + ([ChangeStep(s)] + ([RenewStep(s, r)] + ([LAST_STEP] + [])))))))
  {
    hide TopologyOK, Contains, LeaseAddress, UnicastMac, AskStep, ChooseStep, ChangeStep, RenewStep;
  }

  /**
   From a fresh installation with any such settings, and for any client, this run of monotone clocks and a
   healthy disk ends with the renewal refused: the row keeps the first lease and the writer takes no more writes.
   */
  lemma {:induction false} RenewalRefused(s: Settings, r: Request)
    requires Setting(s, r)
    ensures s.rangeStart.Value? && s.serverIP.Value?
    ensures Chronological(RefusedSteps(s, r)) && Run(First(s, 1, 0), RefusedSteps(s, r))
    ensures var y := After(First(s, 1, 0), RefusedSteps(s, r));
      y.store.failed && y.store.results == [CommitResult(Token(2, 3), true)] && y.store.table == GrantRow(s, r)
  {
    hide Setting, TopologyOK, Contains, LeaseAddress, UnicastMac, First, Do, AfterAsk, AfterProbe, AfterChoice, AfterWrite, AfterBind, AfterChange, GrantRow, Renewed, RefusedSteps;
    SettingSimple(s, r);
    StepLength(s, r);
    var steps := RefusedSteps(s, r);
    StepList(s, r);
    StepsInOrder(s, r);
    DoAsk(s, r);
    DoProbe(s, r);
    DoChoose(s, r);
    DoWrite(s, r);
    DoBind(s, r);
    DoChange(s, r);
    DoRenew(s, r);
    var y := Do(AfterChange(s, r), RenewStep(s, r));
    DoRefuse(y, s, r);
    assert Run(Do(y, LAST_STEP), []) && After(Do(y, LAST_STEP), []) == Do(y, LAST_STEP);
    hide Run, After, Possible;
    RunMore(y, LAST_STEP, []);
    RunMore(AfterChange(s, r), RenewStep(s, r), [LAST_STEP] + []);
    RunMore(AfterBind(s, r), ChangeStep(s), [RenewStep(s, r)] + ([LAST_STEP] + []));
    RunMore(AfterWrite(s, r), WRITTEN_STEP, [ChangeStep(s)] + ([RenewStep(s, r)] + ([LAST_STEP] + [])));
    RunMore(AfterChoice(s, r), WRITE_STEP, [WRITTEN_STEP] + ([ChangeStep(s)] + ([RenewStep(s, r)] + ([LAST_STEP] + []))));
    RunMore(AfterProbe(s, r), ChooseStep(s, r), [WRITE_STEP] + ([WRITTEN_STEP] + ([ChangeStep(s)] + ([RenewStep(s, r)] + ([LAST_STEP] + [])))));
    RunMore(AfterAsk(s, r), PROBE_STEP,
            [ChooseStep(s, r)] + ([WRITE_STEP] + ([WRITTEN_STEP] + ([ChangeStep(s)] + ([RenewStep(s, r)] + ([LAST_STEP] + []))))));
    RunMore(First(s, 1, 0), AskStep(r),
            [PROBE_STEP] + ([ChooseStep(s, r)] + ([WRITE_STEP] + ([WRITTEN_STEP] + ([ChangeStep(s)] + ([RenewStep(s, r)] + ([LAST_STEP] + [])))))));
  }
}
