/** Every engine operation keeps the invariant; what each may do to an entry and to the client. */
module DhcpSteps {
  import opened Common
  import opened DhcpTypes
  import opened DhcpSettings
  import opened DhcpEngine
  import opened DhcpInvariant

  // ---- what an operation may do to one entry ----

  function EntryIn(byIP: map<IPv4, Entry>, ip: IPv4): Option<Entry> {
    if ip in byIP then Some(byIP[ip]) else None
  }

  predicate IsPending(v: Entry) { v.lease.state == CommitPending }

  /** Same ownership, deadlines and writes; only the remembered request or replay flag differ. */
  ghost predicate Touched(v: Entry, w: Entry) {
    w == v.(request := w.request, hasACK := w.hasACK)
  }

  /** A write was issued: the mutation is among those handed out, with a fresh token. */
  ghost predicate Issued(v: Entry, w: Entry, sequence: nat, out: seq<Mutation>, now: Sample, released: Option<(Identity, IPv4)>) {
    && !IsPending(v) && IsPending(w)
    && w.durable == v.durable && w.committed == v.committed && w.timing == v.timing && w.lease.identity == v.lease.identity
    && w.lease.address == v.lease.address
    && w.token.sequence > sequence
    && Mutation(w.token, w.mutation, w.pending) in out
    && (v.dirty ==> w.dirty)
    && (w.mutation == PutLease ==> w.pending.hold.wall >= w.pendingTiming.hold + (now.wall - now.mono))
    && (w.mutation == DeleteLease ==> v.timing.hold <= now.mono || released == Some((v.lease.identity, v.lease.address)))
  }

  ghost predicate EntryStep(v: Option<Entry>, w: Option<Entry>, sequence: nat, out: seq<Mutation>, now: Sample, released: Option<(Identity, IPv4)>) {
    match (v, w)
    case (None, None) => true
    case (None, Some(b)) => b.lease.state == Probing && !b.durable
    case (Some(a), None) => !IsPending(a) && !a.durable
    case (Some(a), Some(b)) =>
      || Touched(a, b)
      || (!IsPending(a) && !a.durable && !IsPending(b) && !b.durable)
      || Issued(a, b, sequence, out, now, released)
  }

  /** All entries step; the mutations handed out carry fresh, increasing tokens of pending entries. */
  ghost predicate EngineStep(e: Engine, e': Engine, out: seq<Mutation>, now: Sample, released: Option<(Identity, IPv4)>) {
    && (forall ip :: EntryStep(EntryIn(e.byIP, ip), EntryIn(e'.byIP, ip), e.sequence, out, now, released))
    && MutationsOf(e', out, e.sequence)
    && e.sequence <= e'.sequence
  }

  ghost predicate MutationOf(e: Engine, m: Mutation) {
    && m.lease.address in e.byIP
    && IsPending(e.byIP[m.lease.address])
    && m == Mutation(e.byIP[m.lease.address].token, e.byIP[m.lease.address].mutation, e.byIP[m.lease.address].pending)
  }

  ghost predicate MutationsOf(e: Engine, out: seq<Mutation>, sequence: nat) {
    && (forall i | 0 <= i < |out| :: MutationOf(e, out[i]) && sequence < out[i].token.sequence <= e.sequence)
    && (forall i, j | 0 <= i < j < |out| :: out[i].token.sequence < out[j].token.sequence)
  }

  /** A reply that names an address names one the table holds for that very client. */
  ghost predicate ReplyOK(e: Engine, reply: Option<Reply>, now: Sample) {
    reply.Some? && reply.value.address != NoAddr ==>
      var a := reply.value;
      && a.address.V4? && a.address.ip in e.byIP && a.kind in {Offer, Ack}
      && e.byIP[a.address.ip].lease.identity == IdentityOf(a.request)
      && (a.kind == Ack ==>
            && e.byIP[a.address.ip].lease.state == Bound
            && a.leaseSeconds >= 1 && now.mono + a.leaseSeconds * SECOND <= e.byIP[a.address.ip].timing.expiry)
  }

  // ---- installed settings, as facts about addresses ----

  lemma {:induction false} EntryAt(e: Engine, ip: IPv4)
    requires Inv(e) && ip in e.byIP
    ensures EntryOK(ContextOf(e), ip, e.byIP[ip])
  {
    hide EntryOK, Installed, IdsSound, IdsComplete, TokensUnique, TokensIssued, BitmapExact, Bounded;
  }

  lemma {:induction false} ReservedOwner(e: Engine, r: Request, ip: IPv4)
    requires Installed(ConfigOf(e)) && ReservationFor(e, r) == Some(ip)
    ensures ip in e.reserved && TopologyOK(e.settings, ip)
    ensures e.reserved[ip] == IdentityOf(r) || e.reserved[ip] == MacId(r.mac)
  {
    hide ValidSettings, TopologyOK, ReservedOf, HasPool;
  }

  lemma {:induction false} TopologyHost(s: Settings, ip: IPv4)
    requires TopologyOK(s, ip)
    ensures HostAddress(ip)
  {
    hide HostAddress;
  }

  /** The allocator only picks free addresses that its requester may be granted. */
  lemma {:induction false} CandidateEligible(e: Engine, r: Request)
    requires Inv(e) && e.settings.enabled && Candidate(e, r).Some?
    ensures var ip := Candidate(e, r).value;
      ip !in e.byIP && Eligible(e, r, ip) && HostAddress(ip)
  {
    hide EntriesOK, IdsSound, IdsComplete, TokensUnique, TokensIssued, Bounded, TopologyOK, HostAddress, Capacity, Occupied;
    var ip := Candidate(e, r).value;
    if ReservationFor(e, r).Some? {
      ReservedOwner(e, r, ip);
      TopologyHost(e.settings, ip);
    } else {
      InstalledPool(e);
      hide Installed;
      FreeBit(e, r);
      PoolTopology(e, ip);
    }
  }

  lemma {:induction false} FreeBit(e: Engine, r: Request)
    requires PoolShape(e) && BitmapExact(e.bitmap, e.start, e.byIP.Keys + e.reserved.Keys)
    requires Candidate(e, r).Some? && ReservationFor(e, r).None?
    ensures var ip := Candidate(e, r).value;
      ip !in e.byIP && ip !in e.reserved && e.start <= ip <= e.end && |e.bitmap| > 0
  {
    hide Capacity, Occupied, ReservationFor;
    var ip := Candidate(e, r).value;
    assert e.start <= ip < e.start + |e.bitmap| && !e.bitmap[ip - e.start];
  }

  lemma {:induction false} PoolTopology(e: Engine, ip: IPv4)
    requires Installed(ConfigOf(e)) && e.settings.enabled && |e.bitmap| > 0 && e.start <= ip <= e.end
    ensures TopologyOK(e.settings, ip) && HostAddress(ip)
  {
    hide Usable, HostAddress, ReservedOf, ValidReservations, ValidDomain, ValidInterface, Span;
    PoolAddressesUsable(e.settings, ip);
  }

  // ---- one entry at a time: the new value is well formed ----

  ghost predicate MayHold(c: Context, id: Identity, mac: Mac, ip: IPv4) {
    ip in c.reserved ==> c.reserved[ip] == id || c.reserved[ip] == MacId(mac)
  }

  lemma {:induction false} EligibleOwner(e: Engine, r: Request, ip: IPv4)
    requires Installed(ConfigOf(e)) && Eligible(e, r, ip)
    ensures MayHold(ContextOf(e), IdentityOf(r), r.mac, ip) && TopologyOK(e.settings, ip)
  {
    hide Installed, TopologyOK, ReservationFor;
    if ReservationFor(e, r).Some? {
      ReservedOwner(e, r, ip);
    }
  }

  /** A fresh candidate. */
  lemma {:induction false} ProbingEntryOK(e: Engine, r: Request, now: Sample, attempt: int, ip: IPv4)
    requires Inv(e) && e.settings.enabled && ValidRequest(r)
    requires Eligible(e, r, ip) && HostAddress(ip)
    ensures EntryOK(ContextOf(e), ip, ProbingEntry(e, r, now, attempt, ip))
  {
    hide Inv, TopologyOK, HostAddress, LeaseAddress, Eligible, ValidLabel;
    InstalledOf(e);
    hide Installed;
    EligibleOwner(e, r, ip);
    HostIsLease(ip);
    CleanNameOK(r.hostname);
    hide CleanName;
  }

  lemma {:induction false} HostIsLease(ip: IPv4)
    requires HostAddress(ip)
    ensures LeaseAddress(ip)
  {
  }

  lemma {:induction false} InstalledOf(e: Engine)
    requires Inv(e)
    ensures Installed(ConfigOf(e)) && e.generation > 0
  {
    hide Installed, EntriesOK, IdsSound, IdsComplete, TokensUnique, TokensIssued, BitmapExact, Bounded;
  }

  lemma {:induction false} CleanNameOK(h: string)
    ensures CleanName(h) != "" ==> ValidLabel(CleanName(h))
  {
    hide ValidLabel, Lower;
  }

  lemma {:induction false} RaiseHoldFacts(target: Lease, timing: Deadlines, now: Sample)
    ensures var l := RaiseHold(target, timing, now);
      && l == target.(hold := l.hold)
      && l.hold.wall >= target.hold.wall && l.hold.wall >= now.wall + timing.hold - now.mono
  {
  }

  /** A renewal or first grant. */
  lemma {:induction false} GrantEntryOK(c: Context, ip: IPv4, v: Entry, r: Request, now: Sample, duration: int, t: Token)
    requires EntryOK(c, ip, v) && v.lease.state in {Bound, Offered}
    requires ValidRequest(r) && r.kind == RequestMessage && IdentityOf(r) == v.lease.identity
    requires MayHold(c, v.lease.identity, r.mac, ip)
    requires GoodSample(now) && duration >= 0 && t.generation == c.generation && t.sequence > 0
    ensures var timing := GrantTiming(v, now, duration);
      var w := Submitted(v, t, PutLease, RaiseHold(GrantTarget(v, r, now, duration), timing, now), timing, r);
      EntryOK(c, ip, w.(deadline := now.mono + duration)) && Active(v)
  {
    var timing := GrantTiming(v, now, duration);
    RaiseHoldFacts(GrantTarget(v, r, now, duration), timing, now);
    hide RaiseHold, LeaseAddress, RetainedTopology, ValidLabel, Lower;
  }

  /** A durable grant retired because its address is no longer eligible. */
  lemma {:induction false} RetireEntryOK(c: Context, ip: IPv4, v: Entry, r: Request, now: Sample, t: Token)
    requires EntryOK(c, ip, v) && v.lease.state in {Bound, Offered} && v.durable
    requires ValidRequest(r) && IdentityOf(r) == v.lease.identity
    requires t.generation == c.generation && t.sequence > 0
    ensures EntryOK(c, ip, Submitted(v, t, PutLease, RaiseHold(v.lease.(state := Quarantined), v.timing, now), v.timing, r))
    ensures Active(v)
  {
    RaiseHoldFacts(v.lease.(state := Quarantined), v.timing, now);
    hide RaiseHold, LeaseAddress, RetainedTopology, ValidLabel, Lower, ValidRequest;
  }

  /** A deletion, from RELEASE or from expiry. */
  lemma {:induction false} DeleteEntryOK(c: Context, ip: IPv4, v: Entry, r: Request, t: Token)
    requires EntryOK(c, ip, v) && v.lease.state in {Bound, Quarantined} && v.durable && !v.dirty
    requires r.kind != Discover && t.generation == c.generation && t.sequence > 0
    ensures EntryOK(c, ip, Submitted(v, t, DeleteLease, v.committed, v.timing, r))
    ensures Active(Submitted(v, t, DeleteLease, v.committed, v.timing, r)) ==> Active(v)
  {
    hide LeaseAddress, RetainedTopology, ValidLabel, Lower, ValidRequest;
  }

  /** A conflict: whatever the entry was, its address is put aside for ten minutes. */
  lemma {:induction false} QuarantineEntryOK(c: Context, ip: IPv4, v: Entry, now: Sample, t: Token)
    requires EntryOK(c, ip, v) && v.lease.state in {Bound, Offered, Probing}
    requires GoodSample(now) && t.generation == c.generation && t.sequence > 0
    ensures var timing := GrantTiming(v, now, CONFLICT_HOLD);
      var target := v.lease.(expiry := At(now, CONFLICT_HOLD), state := Quarantined);
      var w := Submitted(v.(dirty := true), t, PutLease, RaiseHold(target, timing, now), timing, NO_REQUEST);
      EntryOK(c, ip, w) && (Active(w) <==> v.durable)
  {
    var timing := GrantTiming(v, now, CONFLICT_HOLD);
    RaiseHoldFacts(v.lease.(expiry := At(now, CONFLICT_HOLD), state := Quarantined), timing, now);
    hide RaiseHold, LeaseAddress, RetainedTopology, ValidLabel, Lower;
  }

  /** A quarantine whose write failed is tried again unchanged, except for a raised horizon. */
  lemma {:induction false} RetryEntryOK(c: Context, ip: IPv4, v: Entry, now: Sample, t: Token)
    requires EntryOK(c, ip, v) && v.dirty && !IsPending(v)
    requires t.generation == c.generation && t.sequence > 0
    ensures var w := Submitted(v, t, PutLease, RaiseHold(v.lease, v.timing, now), v.timing, NO_REQUEST);
      EntryOK(c, ip, w) && (Active(w) ==> Active(v))
  {
    RaiseHoldFacts(v.lease, v.timing, now);
    hide RaiseHold, LeaseAddress, RetainedTopology, ValidLabel, Lower, ValidRequest;
  }

  /** Both ends of a failed write are settled entries. */
  lemma {:induction false} FailedEntryOK(c: Context, ip: IPv4, v: Entry)
    requires EntryOK(c, ip, v) && IsPending(v)
    ensures var w := if v.dirty then v.(lease := v.pending, timing := v.pendingTiming)
                     else v.(lease := v.previous, timing := v.previousTiming);
      EntryOK(c, ip, w) && w.lease.identity == v.lease.identity && w.lease.state != Probing && (Active(w) ==> Active(v))
  {
    hide LeaseAddress, RetainedTopology, ValidLabel, Lower, ValidRequest;
  }

  /** A write that reached the disk. */
  lemma {:induction false} DoneEntryOK(c: Context, ip: IPv4, v: Entry, hasACK: bool, xid: int)
    requires EntryOK(c, ip, v) && IsPending(v) && v.mutation == PutLease
    ensures var w := v.(lease := v.pending, timing := v.pendingTiming, durable := true, committed := v.pending, dirty := false,
                        hasACK := hasACK, lastACK := xid);
      EntryOK(c, ip, w) && w.lease.identity == v.lease.identity
      && (Active(w) <==> v.pending.state == Bound) && (v.pending.state == Bound ==> Active(v))
  {
    hide LeaseAddress, RetainedTopology, ValidLabel, Lower, ValidRequest;
  }

  // ---- operations ----

  function Mutations(m: Option<Mutation>): seq<Mutation> {
    if m.Some? then [m.value] else []
  }

  /** Rewriting one entry is a step if that entry's own change is. */
  lemma {:induction false} OneEntryStep(e: Engine, e': Engine, ip: IPv4, w: Entry, out: seq<Mutation>, now: Sample, released: Option<(Identity, IPv4)>)
    requires ip in e.byIP && e'.byIP == e.byIP[ip := w] && e.sequence <= e'.sequence
    requires EntryStep(Some(e.byIP[ip]), Some(w), e.sequence, out, now, released)
    requires MutationsOf(e', out, e.sequence)
    ensures EngineStep(e, e', out, now, released)
  {
    hide MutationsOf, Issued;
    forall a ensures EntryStep(EntryIn(e.byIP, a), EntryIn(e'.byIP, a), e.sequence, out, now, released) {
      if a in e.byIP && a != ip {
        assert Touched(e.byIP[a], e'.byIP[a]);
      }
    }
  }

  lemma {:induction false} PointedAt(e: Engine, ip: IPv4)
    requires Inv(e) && ip in e.byIP && Active(e.byIP[ip])
    ensures PointsAt(e.byID, e.byIP[ip].lease.identity, ip)
  {
    hide Installed, EntriesOK, IdsSound, TokensUnique, TokensIssued, BitmapExact, Bounded, Active, PointsAt;
  }

  lemma {:induction false} TokenIssued(e: Engine, ip: IPv4)
    requires Inv(e) && ip in e.byIP
    ensures e.byIP[ip].token.sequence <= e.sequence
  {
    hide Installed, EntriesOK, IdsSound, IdsComplete, TokensUnique, BitmapExact, Bounded;
  }

  /** Issuing one write for one entry. */
  lemma {:induction false} SubmitKeeps(e: Engine, e': Engine, ip: IPv4, w: Entry, now: Sample, released: Option<(Identity, IPv4)>)
    requires Inv(e) && ip in e.byIP
    requires e'.sequence == e.sequence + 1 && w.token == NextToken(e)
    requires LocalUpdate(e, e', ip, w) && EntryOK(ContextOf(e), ip, w) && StillPointed(e.byID, e'.byID, ip, w)
    requires Issued(e.byIP[ip], w, e.sequence, [Mutation(w.token, w.mutation, w.pending)], now, released)
    requires w.pending.address == ip
    ensures Inv(e') && EngineStep(e, e', [Mutation(w.token, w.mutation, w.pending)], now, released)
  {
    hide Inv, EntryOK, StillPointed;
    UpdateKeeps(e, e', ip, w);
    OneEntryStep(e, e', ip, w, [Mutation(w.token, w.mutation, w.pending)], now, released);
  }

  /** Discovery either does nothing or inserts one probing entry under the stated guards. */
  lemma {:induction false} DiscoverShape(e: Engine, r: Request, now: Sample, attempt: int) returns (ip: Option<IPv4>)
    ensures ip.None? ==> DiscoverNew(e, r, now, attempt).0 == e
    ensures ip.Some? ==>
      && Candidate(e, r) == ip
      && DiscoverNew(e, r, now, attempt).0 == Inserted(e, ip.value, ProbingEntry(e, r, now, attempt, ip.value))
      && e.probes < 2
      && (ip.value !in e.byIP ==> Occupied(e) + (if ip.value in e.reserved then 0 else 1) <= Capacity(e.settings))
  {
    hide Candidate, Capacity, Occupied, Mark;
    if e.probes >= 2 || attempt > 3 || Candidate(e, r).None? {
      return None;
    }
    var n := Candidate(e, r).value;
    if n !in e.byIP && Occupied(e) + (if n in e.reserved then 0 else 1) > Capacity(e.settings) {
      return None;
    }
    return Some(n);
  }

  /** A new probing entry and nothing else. */
  ghost predicate OnlyProbes(e: Engine, e': Engine) {
    && e.sequence <= e'.sequence
    && (forall ip :: ip in e.byIP ==> ip in e'.byIP && e'.byIP[ip] == e.byIP[ip])
    && (forall ip :: ip in e'.byIP && ip !in e.byIP ==> e'.byIP[ip].lease.state == Probing && !e'.byIP[ip].durable)
  }

  lemma {:induction false} InsertedTable(e: Engine, ip: IPv4, v: Entry)
    ensures Inserted(e, ip, v).byIP == e.byIP[ip := v] && Inserted(e, ip, v).sequence == e.sequence + 1
    ensures Inserted(e, ip, v).last == e.last
  {
  }

  /** Starting a probe for an identity that points nowhere. */
  lemma {:induction false} DiscoverKeeps(e: Engine, r: Request, now: Sample, attempt: int)
    requires Inv(e) && e.settings.enabled && ValidRequest(r) && IdentityOf(r) !in e.byID
    ensures Inv(DiscoverNew(e, r, now, attempt).0)
    ensures OnlyProbes(e, DiscoverNew(e, r, now, attempt).0)
  {
    hide Inv, DiscoverNew, Candidate, EntryOK, HostAddress, Eligible, Capacity, ValidRequest, Occupied, Mark;
    var found := DiscoverShape(e, r, now, attempt);
    if found.Some? {
      InsertedTable(e, found.value, ProbingEntry(e, r, now, attempt, found.value));
      CandidateEligible(e, r);
      ProbingEntryOK(e, r, now, attempt, found.value);
      InsertKeeps(e, found.value, ProbingEntry(e, r, now, attempt, found.value));
    }
  }

  function ReleasedBy(r: Request): Option<(Identity, IPv4)> {
    if r.kind == Release && r.ciaddr.V4? then Some((IdentityOf(r), r.ciaddr.ip)) else None
  }

  /** What holds after any engine call: the invariant, per-entry steps, honest replies. */
  ghost predicate Good(e: Engine, e': Engine, o: Outcome, now: Sample, released: Option<(Identity, IPv4)>) {
    && Inv(e')
    && EngineStep(e, e', Mutations(o.mutation), now, released)
    && ReplyOK(e', o.reply, now)
  }

  lemma {:induction false} Unchanged(e: Engine, now: Sample, released: Option<(Identity, IPv4)>)
    ensures EngineStep(e, e, [], now, released)
  {
    forall a ensures EntryStep(EntryIn(e.byIP, a), EntryIn(e.byIP, a), e.sequence, [], now, released) {
      if a in e.byIP {
        assert Touched(e.byIP[a], e.byIP[a]);
      }
    }
  }

  lemma {:induction false} TouchKeeps(e: Engine, e': Engine, ip: IPv4, r: Request, now: Sample)
    requires Inv(e) && ip in e.byIP && e.byIP[ip].lease.state in {Bound, Offered, Probing}
    requires ValidRequest(r) && IdentityOf(r) == e.byIP[ip].lease.identity && e.settings.enabled
    requires e' == e.(byIP := e.byIP[ip := e.byIP[ip].(request := r)])
    ensures Inv(e') && EngineStep(e, e', [], now, None)
  {
    hide Inv, EntryOK, Active, ValidRequest, PointsAt;
    var w := e.byIP[ip].(request := r);
    EntryAt(e, ip);
    TouchEntryOK(ContextOf(e), ip, e.byIP[ip], r);
    PointedAt(e, ip);
    UpdateKeeps(e, e', ip, w);
    OneEntryStep(e, e', ip, w, [], now, None);
  }

  lemma {:induction false} TouchEntryOK(c: Context, ip: IPv4, v: Entry, r: Request)
    requires EntryOK(c, ip, v) && v.lease.state in {Bound, Offered, Probing}
    requires ValidRequest(r) && IdentityOf(r) == v.lease.identity && c.settings.enabled
    ensures EntryOK(c, ip, v.(request := r)) && Active(v)
  {
    hide LeaseAddress, RetainedTopology, ValidLabel, Storable, ValidRequest;
  }

  /** The lookup by identity finds an entry of that identity. */
  lemma {:induction false} LookupOwner(e: Engine, id: Identity)
    requires Inv(e)
    ensures match Lookup(e, id)
            case None => id !in e.byID
            case Some(ip) => ip in e.byIP && e.byIP[ip].lease.identity == id
  {
    hide Installed, EntriesOK, IdsComplete, TokensUnique, TokensIssued, BitmapExact, Bounded;
  }

  // ---- packets ----

  /** What Handle has established when it reaches a message-specific case. */
  ghost predicate Ready(e: Engine, r: Request, now: Sample, found: Option<IPv4>) {
    && Inv(e) && e.last == Some(now) && GoodSample(now) && e.settings.enabled && ValidRequest(r)
    && (match found
        case None => IdentityOf(r) !in e.byID
        case Some(ip) => ip in e.byIP && e.byIP[ip].lease.identity == IdentityOf(r))
  }

  lemma {:induction false} ProbesAreSteps(e: Engine, e': Engine, now: Sample, released: Option<(Identity, IPv4)>)
    requires OnlyProbes(e, e')
    ensures EngineStep(e, e', [], now, released)
  {
    forall a ensures EntryStep(EntryIn(e.byIP, a), EntryIn(e'.byIP, a), e.sequence, [], now, released) {
      if a in e.byIP {
        assert Touched(e.byIP[a], e'.byIP[a]);
      }
    }
  }

  lemma {:induction false} RemoveFresh(e: Engine, ip: IPv4)
    requires Inv(e) && ip in e.byIP && e.byIP[ip].lease.state != Probing
    ensures Inv(Remove(e, ip)) && Remove(e, ip).byIP == e.byIP - {ip} && Remove(e, ip).sequence == e.sequence
    ensures Remove(e, ip).byID == Detach(e.byID, e.byIP[ip].lease.identity, ip)
    ensures Remove(e, ip).settings == e.settings && Remove(e, ip).last == e.last
  {
    RemoveKeeps(e, ip, Remove(e, ip)) by { hide Inv, Remove; assert e.(probes := e.probes) == e; }
    hide Inv;
  }

  lemma {:induction false} DiscoverPacket(e: Engine, r: Request, now: Sample, found: Option<IPv4>)
    requires Ready(e, r, now, found) && r.kind == Discover
    requires found.Some? ==> e.byIP[found.value].lease.state != CommitPending
    ensures var (e', o) := HandleDiscover(e, r, now, found); Good(e, e', o, now, None)
  {
    hide Inv, ValidRequest, EntryOK, Active, PointsAt, Eligible, DiscoverNew, EngineStep, Remove, RaiseHold;
    if found.None? {
      DiscoverKeeps(e, r, now, 1);
      ProbesAreSteps(e, DiscoverNew(e, r, now, 1).0, now, None);
    } else {
      var ip := found.value;
      var v := e.byIP[ip];
      EntryAt(e, ip);
      match v.lease.state
      case Bound | Offered =>
        PointedAt(e, ip) by { ActiveStates(v); }
        if Eligible(e, r, ip) {
          TouchKeeps(e, HandleDiscover(e, r, now, found).0, ip, r, now);
        } else if v.durable {
          RetireKeeps(e, r, now, ip);
        } else {
          ReplaceOffer(e, r, now, ip);
        }
      case Probing =>
        TouchKeeps(e, HandleDiscover(e, r, now, found).0, ip, r, now);
      case _ =>
        Unchanged(e, now, None);
    }
  }

  lemma {:induction false} ActiveStates(v: Entry)
    ensures v.lease.state in {Probing, Offered, Bound} ==> Active(v)
  {
  }

  lemma {:induction false} RetireKeeps(e: Engine, r: Request, now: Sample, ip: IPv4)
    requires Ready(e, r, now, Some(ip)) && e.byIP[ip].lease.state in {Bound, Offered} && e.byIP[ip].durable
    ensures var (e', m) := Mutate(e, ip, PutLease, e.byIP[ip].lease.(state := Quarantined), e.byIP[ip].timing, r);
      Inv(e') && EngineStep(e, e', [m], now, None)
  {
    hide Inv, ValidRequest, EntryOK, Active, PointsAt, RaiseHold;
    var v := e.byIP[ip];
    EntryAt(e, ip);
    EntryAddress(ContextOf(e), ip, v);
    InstalledOf(e);
    RetireEntryOK(ContextOf(e), ip, v, r, now, NextToken(e));
    PointedAt(e, ip);
    RaiseHoldFacts(v.lease.(state := Quarantined), v.timing, now);
    var (e', m) := Mutate(e, ip, PutLease, v.lease.(state := Quarantined), v.timing, r);
    SubmitKeeps(e, e', ip, e'.byIP[ip], now, None);
  }

  lemma {:induction false} EntryAddress(c: Context, ip: IPv4, v: Entry)
    requires EntryOK(c, ip, v)
    ensures v.lease.address == ip
    ensures v.durable ==> v.committed.address == ip
  {
    hide GoodOwner, RetainedTopology, InFlight, Settled, Storable, ReservedFor, ValidRequest;
  }

  lemma {:induction false} ReplaceOffer(e: Engine, r: Request, now: Sample, ip: IPv4)
    requires Ready(e, r, now, Some(ip)) && e.byIP[ip].lease.state in {Bound, Offered} && !e.byIP[ip].durable
    requires PointsAt(e.byID, IdentityOf(r), ip)
    ensures var e' := DiscoverNew(Remove(e, ip), r, now, 1).0;
      Inv(e') && EngineStep(e, e', [], now, None)
  {
    hide Inv, ValidRequest, DiscoverNew, Remove;
    RemoveFresh(e, ip);
    var e1 := Remove(e, ip);
    DiscoverKeeps(e1, r, now, 1);
    var e' := DiscoverNew(e1, r, now, 1).0;
    forall a ensures EntryStep(EntryIn(e.byIP, a), EntryIn(e'.byIP, a), e.sequence, [], now, None) {
      if a != ip && a in e.byIP {
        assert a in e1.byIP && e1.byIP[a] == e.byIP[a];
        assert Touched(e.byIP[a], e'.byIP[a]);
      }
    }
  }

  lemma {:induction false} RequestPacket(e: Engine, r: Request, now: Sample, found: Option<IPv4>)
    requires Ready(e, r, now, found) && r.kind == RequestMessage
    requires found.Some? ==> e.byIP[found.value].lease.state != CommitPending
    ensures var (e', o) := HandleRequest(e, r, now, found); Good(e, e', o, now, None)
  {
    hide Inv, ValidRequest, EntryOK, Active, PointsAt, Eligible, EngineStep, Mutate, Contains, RequestTarget, GrantTarget, GrantTiming;
    Unchanged(e, now, None);
    var (e', o) := HandleRequest(e, r, now, found);
    if o.mutation.Some? {
      GrantKeeps(e, r, now, found.value);
    } else if o.reply.Some? && o.reply.value.address != NoAddr {
      EntryAt(e, found.value);
      AckHonest(ContextOf(e), found.value, e.byIP[found.value], r, now);
    }
  }

  lemma {:induction false} AckHonest(c: Context, ip: IPv4, v: Entry, r: Request, now: Sample)
    requires EntryOK(c, ip, v)
    ensures var o := AckOutcome(v, r, now);
      && o.probe.None? && o.mutation.None?
      && (o.reply.Some? ==>
            && o.reply.value.kind == Ack && o.reply.value.address == V4(ip) && o.reply.value.request == r
            && o.reply.value.leaseSeconds >= 1 && now.mono + o.reply.value.leaseSeconds * SECOND <= v.timing.expiry)
  {
    EntryAddress(c, ip, v);
    hide EntryOK;
  }

  lemma {:induction false} GrantKeeps(e: Engine, r: Request, now: Sample, ip: IPv4)
    requires Ready(e, r, now, Some(ip)) && e.byIP[ip].lease.state in {Bound, Offered} && r.kind == RequestMessage
    requires Eligible(e, r, ip)
    ensures var v, duration := e.byIP[ip], e.settings.leaseSeconds * SECOND;
      var (e1, m) := Mutate(e, ip, PutLease, GrantTarget(v, r, now, duration), GrantTiming(v, now, duration), r);
      var e' := e1.(byIP := e1.byIP[ip := e1.byIP[ip].(deadline := now.mono + duration)]);
      Inv(e') && EngineStep(e, e', [m], now, None)
  {
    hide Inv, ValidRequest, EntryOK, Active, PointsAt, Eligible, MayHold, Issued, GrantedEntry, Mutate, GrantTarget, GrantTiming, Installed, EngineStep;
    var v, duration := e.byIP[ip], e.settings.leaseSeconds * SECOND;
    EntryAt(e, ip);
    EntryAddress(ContextOf(e), ip, v);
    InstalledOf(e);
    EligibleOwner(e, r, ip);
    LeaseLength(e);
    ActiveStates(v);
    PointedAt(e, ip);
    NextIsNew(e);
    GrantedFacts(ContextOf(e), ip, v, r, now, duration, NextToken(e), e.sequence);
    GrantShape(e, r, now, ip, duration);
    var (e1, m) := Mutate(e, ip, PutLease, GrantTarget(v, r, now, duration), GrantTiming(v, now, duration), r);
    var e' := e1.(byIP := e1.byIP[ip := e1.byIP[ip].(deadline := now.mono + duration)]);
    SubmitKeeps(e, e', ip, GrantedEntry(v, r, now, duration, NextToken(e)), now, None);
  }

  function GrantedEntry(v: Entry, r: Request, now: Sample, duration: int, t: Token): Entry {
    var timing := GrantTiming(v, now, duration);
    Submitted(v, t, PutLease, RaiseHold(GrantTarget(v, r, now, duration), timing, now), timing, r).(deadline := now.mono + duration)
  }

  lemma {:induction false} GrantShape(e: Engine, r: Request, now: Sample, ip: IPv4, duration: int)
    requires ip in e.byIP && e.last == Some(now)
    ensures var v := e.byIP[ip];
      var w := GrantedEntry(v, r, now, duration, NextToken(e));
      var (e1, m) := Mutate(e, ip, PutLease, GrantTarget(v, r, now, duration), GrantTiming(v, now, duration), r);
      && ip in e1.byIP && m == Mutation(w.token, w.mutation, w.pending)
      && e1.(byIP := e1.byIP[ip := e1.byIP[ip].(deadline := now.mono + duration)]) == e.(byIP := e.byIP[ip := w], sequence := e.sequence + 1)
  {
    hide RaiseHold, GrantTarget, GrantTiming;
  }

  /** The granted entry is well formed, keeps its owner, and carries the write. */
  lemma {:induction false} GrantedFacts(c: Context, ip: IPv4, v: Entry, r: Request, now: Sample, duration: int, t: Token, sequence: nat)
    requires EntryOK(c, ip, v) && v.lease.state in {Bound, Offered} && v.lease.address == ip && !IsPending(v)
    requires ValidRequest(r) && r.kind == RequestMessage && IdentityOf(r) == v.lease.identity && MayHold(c, v.lease.identity, r.mac, ip)
    requires GoodSample(now) && duration >= 0 && t.generation == c.generation && t.sequence == sequence + 1
    ensures var w := GrantedEntry(v, r, now, duration, t);
      && EntryOK(c, ip, w) && Active(v) && w.token == t && w.pending.address == ip
      && w.lease.identity == v.lease.identity && w.lease.state != Probing
      && Issued(v, w, sequence, [Mutation(w.token, w.mutation, w.pending)], now, None)
  {
    hide EntryOK, Active, RaiseHold, GrantTiming, ValidRequest, MayHold;
    GrantEntryOK(c, ip, v, r, now, duration, t);
    RaiseHoldFacts(GrantTarget(v, r, now, duration), GrantTiming(v, now, duration), now);
  }

  lemma {:induction false} LeaseLength(e: Engine)
    requires Installed(ConfigOf(e)) && e.settings.enabled
    ensures e.settings.leaseSeconds >= 60
  {
    hide ValidReservations, ValidDomain, ValidInterface, ReservedOf, TopologyOK, ValidPool, ValidAddressField;
  }

  lemma {:induction false} ReleasePacket(e: Engine, r: Request, now: Sample, found: Option<IPv4>)
    requires Ready(e, r, now, found) && r.kind == Release
    ensures var (e', o) := HandleRelease(e, r, found); Good(e, e', o, now, ReleasedBy(r))
  {
    hide Inv, ValidRequest, EntryOK, Active, PointsAt, EngineStep;
    Unchanged(e, now, ReleasedBy(r));
    if HandleRelease(e, r, found).1.mutation.Some? {
      BoundShape(e, found.value);
      DeleteKeeps(e, r, now, found.value, ReleasedBy(r));
    }
  }

  lemma {:induction false} BoundShape(e: Engine, ip: IPv4)
    requires Inv(e) && ip in e.byIP
    ensures e.byIP[ip].lease.state == Bound ==> e.byIP[ip].durable && !e.byIP[ip].dirty
    ensures e.byIP[ip].lease.state == Offered ==> !e.byIP[ip].durable
    ensures e.byIP[ip].lease.state == Quarantined && !e.byIP[ip].dirty ==> e.byIP[ip].durable
    ensures e.byIP[ip].dirty ==> e.byIP[ip].lease.state in {Quarantined, CommitPending}
    ensures e.byIP[ip].durable ==> e.byIP[ip].lease.state in {Bound, Quarantined, CommitPending}
  {
    EntryAt(e, ip);
    hide Inv, GoodOwner, RetainedTopology, InFlight, Storable, ReservedFor, ValidRequest;
  }

  lemma {:induction false} DeleteKeeps(e: Engine, r: Request, now: Sample, ip: IPv4, released: Option<(Identity, IPv4)>)
    requires Inv(e) && e.last.Some? && ip in e.byIP && e.byIP[ip].lease.state in {Bound, Quarantined}
    requires e.byIP[ip].durable && !e.byIP[ip].dirty && r.kind != Discover
    requires e.byIP[ip].timing.hold <= now.mono || released == Some((e.byIP[ip].lease.identity, ip))
    ensures var (e', m) := Mutate(e, ip, DeleteLease, e.byIP[ip].committed, e.byIP[ip].timing, r);
      Inv(e') && EngineStep(e, e', [m], now, released)
  {
    hide Inv, EntryOK, Active, PointsAt;
    var v := e.byIP[ip];
    EntryAt(e, ip);
    EntryAddress(ContextOf(e), ip, v);
    InstalledOf(e);
    DeleteEntryOK(ContextOf(e), ip, v, r, NextToken(e));
    var (e', m) := Mutate(e, ip, DeleteLease, v.committed, v.timing, r);
    if Active(e'.byIP[ip]) {
      PointedAt(e, ip);
    }
    SubmitKeeps(e, e', ip, e'.byIP[ip], now, released);
  }

  lemma {:induction false} DeclinePacket(e: Engine, r: Request, now: Sample, found: Option<IPv4>)
    requires Ready(e, r, now, found) && r.kind == Decline
    ensures var (e', o) := HandleDecline(e, r, now, found); Good(e, e', o, now, None)
  {
    hide Inv, ValidRequest, EntryOK, Active, PointsAt, EngineStep, Quarantine;
    Unchanged(e, now, None);
    if HandleDecline(e, r, now, found).1.mutation.Some? {
      assert e.(probes := e.probes) == e;
      QuarantineKeeps(e, e, found.value, now);
    }
  }

  /** Putting an address aside; the identity stays attached exactly while a bound row is on disk. */
  lemma {:induction false} QuarantineKeeps(e: Engine, e1: Engine, ip: IPv4, now: Sample)
    requires ip in e.byIP && e.byIP[ip].lease.state in {Bound, Offered, Probing}
    requires e1 == e.(probes := if e.byIP[ip].lease.state == Probing then e.probes - 1 else e.probes)
    requires e.last == Some(now) && GoodSample(now) && Inv(e)
    ensures Inv(Quarantine(e1, ip, now).0)
    ensures EngineStep(e, Quarantine(e1, ip, now).0, [Quarantine(e1, ip, now).1], now, None)
    ensures e.byIP[ip].durable || Quarantine(e1, ip, now).0.byID == e.byID - {e.byIP[ip].lease.identity}
  {
    hide Inv, EntryOK, Active, Quarantine, EngineStep, QuarantinedEntry, Issued, PointsAt, Submitted;
    var v, w := e.byIP[ip], QuarantinedEntry(e.byIP[ip], NextToken(e), now);
    EntryAt(e, ip);
    EntryAddress(ContextOf(e), ip, v);
    DurableBound(ContextOf(e), ip, v);
    InstalledOf(e);
    hide Installed;
    ActiveStates(v);
    PointedAt(e, ip);
    NextIsNew(e);
    QuarantinedFacts(ContextOf(e), ip, v, NextToken(e), now, e.sequence);
    DetachPointed(e.byID, v.lease.identity, ip);
    QuarantineShape(e1, ip, now);
    SubmitKeeps(e, Quarantine(e1, ip, now).0, ip, w, now, None);
  }

  lemma {:induction false} NextIsNew(e: Engine)
    ensures NextToken(e).sequence == e.sequence + 1 && NextToken(e).generation == e.generation
  {
  }

  lemma {:induction false} DetachPointed(byID: map<Identity, IPv4>, id: Identity, ip: IPv4)
    requires PointsAt(byID, id, ip)
    ensures Detach(byID, id, ip) == byID - {id}
  {
  }

  /** The quarantined entry is well formed, keeps its owner, and carries the write. */
  lemma {:induction false} QuarantinedFacts(c: Context, ip: IPv4, v: Entry, t: Token, now: Sample, sequence: nat)
    requires EntryOK(c, ip, v) && v.lease.state in {Bound, Offered, Probing} && v.lease.address == ip && !IsPending(v)
    requires GoodSample(now) && t.generation == c.generation && t.sequence == sequence + 1
    ensures var w := QuarantinedEntry(v, t, now);
      && EntryOK(c, ip, w) && (Active(w) <==> v.durable) && w.token == t && w.pending.address == ip
      && w.lease.identity == v.lease.identity && w.lease.state != Probing
      && Issued(v, w, sequence, [Mutation(w.token, w.mutation, w.pending)], now, None)
  {
    hide EntryOK, Active, RaiseHold, GrantTiming;
    QuarantineEntryOK(c, ip, v, now, t);
    RaiseHoldFacts(v.lease.(expiry := At(now, CONFLICT_HOLD), state := Quarantined), GrantTiming(v, now, CONFLICT_HOLD), now);
  }

  function QuarantinedEntry(v: Entry, t: Token, now: Sample): Entry {
    var timing := GrantTiming(v, now, CONFLICT_HOLD);
    var target := v.lease.(expiry := At(now, CONFLICT_HOLD), state := Quarantined);
    Submitted(v.(dirty := true), t, PutLease, RaiseHold(target, timing, now), timing, NO_REQUEST)
  }

  lemma {:induction false} QuarantineShape(e: Engine, ip: IPv4, now: Sample)
    requires ip in e.byIP && e.last == Some(now)
    ensures var v := e.byIP[ip];
      var w := QuarantinedEntry(v, NextToken(e), now);
      && Quarantine(e, ip, now).0 ==
         e.(byIP := e.byIP[ip := w], sequence := e.sequence + 1,
            byID := if !v.durable || v.committed.state != Bound then Detach(e.byID, v.lease.identity, ip) else e.byID)
      && Quarantine(e, ip, now).1 == Mutation(w.token, w.mutation, w.pending)
  {
    hide RaiseHold, GrantTiming, Detach;
  }

  lemma {:induction false} DurableBound(c: Context, ip: IPv4, v: Entry)
    requires EntryOK(c, ip, v) && v.lease.state in {Bound, Offered, Probing}
    ensures v.durable <==> v.lease.state == Bound
    ensures v.durable ==> v.committed.state == Bound
  {
    hide GoodOwner, RetainedTopology, InFlight, Storable, ReservedFor, ValidRequest;
  }

  /** Every packet keeps the invariant, steps each entry, and answers honestly. */
  lemma {:induction false} HandleKeeps(e: Engine, r: Request, now: Sample)
    requires Inv(e) && GoodSample(now)
    ensures var (e', o) := Handle(e, r, now); Good(e, e', o, now, ReleasedBy(r))
  {
    hide Inv, ValidRequest, EngineStep, HandleDiscover, HandleRequest, HandleRelease, HandleDecline, ReplyOK;
    var e1 := Now(e, now).0;
    NowKeeps(e, now);
    Unchanged(e1, now, ReleasedBy(r));
    LookupOwner(e1, IdentityOf(r));
    var found := Lookup(e1, IdentityOf(r));
    var (e', o) := Handle(e, r, now);
    if ValidRequest(r) && e1.settings.enabled && Now(e, now).1 {
      match r.kind
      case Discover => if found.None? || e1.byIP[found.value].lease.state != CommitPending { DiscoverPacket(e1, r, now, found); }
      case RequestMessage => if found.None? || e1.byIP[found.value].lease.state != CommitPending { RequestPacket(e1, r, now, found); }
      case Release => ReleasePacket(e1, r, now, found);
      case Decline => DeclinePacket(e1, r, now, found);
      case _ =>
    }
    SilentOK(e1, o.reply, now);
    ClockStep(e, e1, e', Mutations(o.mutation), now, ReleasedBy(r));
  }

  lemma {:induction false} SilentOK(e: Engine, reply: Option<Reply>, now: Sample)
    ensures reply.None? || reply.value.address == NoAddr ==> ReplyOK(e, reply, now)
  {
  }

  /** Reading the clock first does not change which entry steps are possible. */
  lemma {:induction false} ClockStep(e: Engine, e1: Engine, e': Engine, out: seq<Mutation>, now: Sample, released: Option<(Identity, IPv4)>)
    requires e1.byIP == e.byIP && e1.sequence == e.sequence
    ensures EngineStep(e1, e', out, now, released) <==> EngineStep(e, e', out, now, released)
  {
  }

  // ---- completions ----

  lemma {:induction false} ThenProbes(e: Engine, e1: Engine, e': Engine, out: seq<Mutation>, now: Sample)
    requires EngineStep(e, e1, out, now, None) && OnlyProbes(e1, e')
    ensures EngineStep(e, e', out, now, None)
  {
    hide Issued, Touched;
    forall a ensures EntryStep(EntryIn(e.byIP, a), EntryIn(e'.byIP, a), e.sequence, out, now, None) {
      assert EntryStep(EntryIn(e.byIP, a), EntryIn(e1.byIP, a), e.sequence, out, now, None);
    }
    assert forall m :: MutationOf(e1, m) ==> MutationOf(e', m);
  }

  lemma {:induction false} ProbingShape(c: Context, ip: IPv4, v: Entry)
    requires EntryOK(c, ip, v) && v.lease.state == Probing
    ensures !v.durable && c.settings.enabled && ValidRequest(v.request) && IdentityOf(v.request) == v.lease.identity
  {
    hide GoodOwner, RetainedTopology, Storable, ReservedFor, ValidRequest;
  }

  lemma {:induction false} OfferEntryOK(c: Context, ip: IPv4, v: Entry, now: Sample)
    requires EntryOK(c, ip, v) && v.lease.state == Probing
    ensures var hold := Deadlines(now.mono + OFFER_HOLD, now.mono + OFFER_HOLD);
      var w := v.(lease := v.lease.(state := Offered, expiry := At(now, OFFER_HOLD), hold := At(now, OFFER_HOLD)), timing := hold);
      EntryOK(c, ip, w) && Active(v)
  {
    hide LeaseAddress, RetainedTopology, ValidLabel, ValidRequest;
  }

  lemma {:induction false} ProbeEndedKeeps(e: Engine, ip: IPv4, p: ProbeResult, now: Sample, ok: bool)
    requires Inv(e) && GoodSample(now) && (ok ==> e.last == Some(now))
    requires ip in e.byIP && e.byIP[ip].lease.state == Probing
    ensures var (e', o) := ProbeEnded(e, ip, p, now, ok); Good(e, e', o, now, None)
  {
    hide Inv, EntryOK, Active, PointsAt, ValidRequest, Remove, Quarantine, DiscoverNew, EngineStep;
    var v := e.byIP[ip];
    var e1 := e.(probes := e.probes - 1);
    var (e', o) := ProbeEnded(e, ip, p, now, ok);
    EntryAt(e, ip);
    ProbingShape(ContextOf(e), ip, v);
    if !ok || p.failed || now.mono >= v.deadline {
      RemoveKeeps(e, ip, e');
      DropStep(e, ip, now);
    } else if p.conflict {
      QuarantineKeeps(e, e1, ip, now);
      var e2 := Quarantine(e1, ip, now).0;
      QuarantineSettings(e1, ip, now);
      DiscoverKeeps(e2, v.request, now, v.attempts + 1);
      ThenProbes(e, e2, e', [o.mutation.value], now);
    } else {
      OfferEntryOK(ContextOf(e), ip, v, now);
      PointedAt(e, ip);
      UpdateKeeps(e, e', ip, e'.byIP[ip]);
      OneEntryStep(e, e', ip, e'.byIP[ip], [], now, None) by {
        OfferNotDurable(ContextOf(e), ip, e'.byIP[ip]);
      }
    }
  }

  lemma {:induction false} OfferNotDurable(c: Context, ip: IPv4, w: Entry)
    requires EntryOK(c, ip, w) && w.lease.state == Offered
    ensures !w.durable
  {
    hide GoodOwner, RetainedTopology, Storable, ReservedFor, ValidRequest;
  }

  lemma {:induction false} QuarantineSettings(e: Engine, ip: IPv4, now: Sample)
    requires ip in e.byIP && e.last.Some?
    ensures Quarantine(e, ip, now).0.settings == e.settings
  {
    hide RaiseHold, GrantTiming, Detach;
  }

  lemma {:induction false} DropStep(e: Engine, ip: IPv4, now: Sample)
    requires ip in e.byIP && !IsPending(e.byIP[ip]) && !e.byIP[ip].durable
    ensures EngineStep(e, Remove(e.(probes := e.probes - 1), ip), [], now, None)
    ensures EngineStep(e, Remove(e, ip), [], now, None)
  {
    forall p: int, a ensures EntryStep(EntryIn(e.byIP, a), EntryIn(Remove(e.(probes := p), ip).byIP, a), e.sequence, [], now, None) {
      assert Remove(e.(probes := p), ip).byIP == e.byIP - {ip};
      if a in e.byIP && a != ip {
        assert Touched(e.byIP[a], e.byIP[a]);
      }
    }
    assert e.(probes := e.probes) == e;
  }

  /** A probe result keeps the invariant, whoever sends it and however often. */
  lemma {:induction false} CompleteProbeKeeps(e: Engine, p: ProbeResult, now: Sample)
    requires Inv(e) && GoodSample(now)
    ensures var (e', o) := CompleteProbe(e, p, now); Good(e, e', o, now, None)
  {
    hide Inv, EngineStep, ProbeEnded, ReplyOK;
    var (e1, ok) := Now(e, now);
    NowKeeps(e, now);
    var (e', o) := CompleteProbe(e, p, now);
    Unchanged(e1, now, None);
    SilentOK(e1, None, now);
    var found := Find(e1, p.token);
    if found.Some? && e1.byIP[found.value].lease.state == Probing {
      ProbeEndedKeeps(e1, found.value, p, now, ok);
    }
    ClockStep(e, e1, e', Mutations(o.mutation), now, None);
  }

  /** How a pending entry ends. */
  ghost predicate FinishStep(v: Entry, w: Option<Entry>, failed: bool) {
    if failed then
      && w.Some? && !IsPending(w.value) && w.value.durable == v.durable && w.value.committed == v.committed
      && w.value.lease.identity == v.lease.identity
      && (w.value.timing == v.timing || w.value.timing == v.pendingTiming)
      && w.value.dirty == v.dirty && (!v.dirty ==> w.value.timing == v.timing)
    else if v.mutation == DeleteLease then w.None?
    else
      && w.Some? && !IsPending(w.value) && w.value.durable && w.value.committed == v.pending
      && w.value.lease.identity == v.lease.identity && w.value.timing == v.pendingTiming && !w.value.dirty
  }

  ghost predicate Awaiting(e: Engine, ip: IPv4, t: Token) { HasToken(e, ip, t) && IsPending(e.byIP[ip]) }

  /** The entry waiting for this token finishes; nothing else is affected but new probes. */
  ghost predicate CommitStep(e: Engine, e': Engine, c: CommitResult, now: Sample) {
    && (forall ip :: if Awaiting(e, ip, c.token) then FinishStep(e.byIP[ip], EntryIn(e'.byIP, ip), c.failed)
                     else EntryStep(EntryIn(e.byIP, ip), EntryIn(e'.byIP, ip), e.sequence, [], now, None))
    && e.sequence <= e'.sequence
  }

  /** Completion tokens name at most one entry. */
  lemma {:induction false} AwaitingUnique(e: Engine, a: IPv4, b: IPv4, t: Token)
    requires Inv(e) && Awaiting(e, a, t) && Awaiting(e, b, t)
    ensures a == b
  {
    EntryAt(e, a);
    hide Installed, EntriesOK, IdsSound, IdsComplete, TokensIssued, BitmapExact, Bounded;
    PendingToken(ContextOf(e), a, e.byIP[a]);
    hide EntryOK;
  }

  lemma {:induction false} PendingToken(c: Context, ip: IPv4, v: Entry)
    requires EntryOK(c, ip, v) && IsPending(v)
    ensures v.token.sequence > 0 && v.token.generation == c.generation && v.mutation in {PutLease, DeleteLease}
    ensures v.pending.address == ip
  {
    hide GoodOwner, RetainedTopology, Storable, ReservedFor, ValidRequest, PendingPut, PendingDelete;
  }

  lemma {:induction false} CommitStepAt(e: Engine, e': Engine, ip: IPv4, w: Option<Entry>, c: CommitResult, now: Sample)
    requires Inv(e) && Awaiting(e, ip, c.token) && FinishStep(e.byIP[ip], w, c.failed) && e.sequence <= e'.sequence
    requires EntryIn(e'.byIP, ip) == w
    requires forall a :: a != ip && a in e.byIP ==> a in e'.byIP && e'.byIP[a] == e.byIP[a]
    requires forall a :: a != ip && a in e'.byIP && a !in e.byIP ==> e'.byIP[a].lease.state == Probing && !e'.byIP[a].durable
    ensures CommitStep(e, e', c, now)
  {
    hide Inv, FinishStep;
    forall a ensures if Awaiting(e, a, c.token) then FinishStep(e.byIP[a], EntryIn(e'.byIP, a), c.failed)
                     else EntryStep(EntryIn(e.byIP, a), EntryIn(e'.byIP, a), e.sequence, [], now, None)
    {
      if Awaiting(e, a, c.token) {
        AwaitingUnique(e, a, ip, c.token);
      } else if a in e.byIP {
        assert Touched(e.byIP[a], e'.byIP[a]);
      }
    }
  }

  lemma {:induction false} CommitFailedKeeps(e: Engine, ip: IPv4, c: CommitResult, now: Sample)
    requires Inv(e) && Awaiting(e, ip, c.token) && c.failed
    ensures Inv(CommitFailed(e, ip)) && CommitStep(e, CommitFailed(e, ip), c, now)
  {
    hide Inv, EntryOK, Active, PointsAt, CommitStep;
    var v := e.byIP[ip];
    var e' := CommitFailed(e, ip);
    var w := e'.byIP[ip];
    EntryAt(e, ip);
    FailedEntryOK(ContextOf(e), ip, v);
    NotPendingAfter(ContextOf(e), ip, v);
    if Active(w) {
      PointedAt(e, ip);
    }
    UpdateKeeps(e, e', ip, w);
    CommitStepAt(e, e', ip, Some(w), c, now);
  }

  lemma {:induction false} NotPendingAfter(c: Context, ip: IPv4, v: Entry)
    requires EntryOK(c, ip, v) && IsPending(v)
    ensures v.previousTiming == v.timing
    ensures v.dirty ==> v.pending.state == Quarantined
    ensures !v.dirty ==> v.previous.state in {Offered, Bound, Quarantined}
    ensures v.mutation == PutLease ==> v.pending.state in {Bound, Quarantined}
  {
    hide GoodOwner, RetainedTopology, ReservedFor, ValidRequest;
  }

  lemma {:induction false} CommitDoneKeeps(e: Engine, ip: IPv4, c: CommitResult, now: Sample, ok: bool)
    requires Inv(e) && GoodSample(now) && Awaiting(e, ip, c.token) && !c.failed
    ensures var (e', o) := CommitDone(e, ip, now, ok);
      Inv(e') && CommitStep(e, e', c, now) && o.mutation.None? && ReplyOK(e', o.reply, now)
  {
    hide Inv, EntryOK, Active, PointsAt, CommitStep, Remove, DiscoverNew, ValidRequest;
    var v := e.byIP[ip];
    EntryAt(e, ip);
    NotPendingAfter(ContextOf(e), ip, v);
    PendingToken(ContextOf(e), ip, v);
    if v.mutation == DeleteLease {
      RemoveFresh(e, ip);
      CommitStepAt(e, Remove(e, ip), ip, None, c, now);
    } else if v.pending.state == Bound {
      CommitBound(e, ip, c, now, ok);
    } else {
      CommitQuarantined(e, ip, c, now, ok);
    }
  }

  lemma {:induction false} CommitBound(e: Engine, ip: IPv4, c: CommitResult, now: Sample, ok: bool)
    requires Inv(e) && GoodSample(now) && Awaiting(e, ip, c.token) && !c.failed
    requires e.byIP[ip].mutation == PutLease && e.byIP[ip].pending.state == Bound
    ensures var (e', o) := CommitDone(e, ip, now, ok);
      Inv(e') && CommitStep(e, e', c, now) && o.mutation.None? && ReplyOK(e', o.reply, now)
  {
    hide Inv, EntryOK, Active, PointsAt, CommitStep, AckOutcome;
    var v := e.byIP[ip];
    EntryAt(e, ip);
    DoneEntryOK(ContextOf(e), ip, v, true, v.request.xid);
    PointedAt(e, ip);
    var (e', o) := CommitDone(e, ip, now, ok);
    var w := e'.byIP[ip];
    assert v.pending.(state := Bound) == v.pending;
    UpdateKeeps(e, e', ip, w);
    CommitStepAt(e, e', ip, Some(w), c, now);
    BoundRequest(ContextOf(e), ip, v);
    AckHonest(ContextOf(e), ip, w, w.request, now);
  }

  lemma {:induction false} BoundRequest(c: Context, ip: IPv4, v: Entry)
    requires EntryOK(c, ip, v) && IsPending(v) && v.mutation == PutLease && v.pending.state == Bound
    ensures IdentityOf(v.request) == v.lease.identity == v.pending.identity
  {
    hide GoodOwner, RetainedTopology, Storable, ReservedFor, ValidRequest, PendingPut, PendingDelete;
  }

  lemma {:induction false} CommitQuarantined(e: Engine, ip: IPv4, c: CommitResult, now: Sample, ok: bool)
    requires Inv(e) && GoodSample(now) && Awaiting(e, ip, c.token) && !c.failed
    requires e.byIP[ip].mutation == PutLease && e.byIP[ip].pending.state == Quarantined
    ensures var (e', o) := CommitDone(e, ip, now, ok);
      Inv(e') && CommitStep(e, e', c, now) && o.mutation.None? && ReplyOK(e', o.reply, now)
  {
    hide Inv, EntryOK, Active, CommitStep, DiscoverNew, ValidRequest;
    var v := e.byIP[ip];
    EntryAt(e, ip);
    DoneEntryOK(ContextOf(e), ip, v, v.hasACK, v.lastACK);
    var w := v.(lease := v.pending, timing := v.pendingTiming, durable := true, committed := v.pending, dirty := false);
    var e1 := e.(byIP := e.byIP[ip := w], byID := Detach(e.byID, w.lease.identity, ip));
    UpdateKeeps(e, e1, ip, w);
    var (e', o) := CommitDone(e, ip, now, ok);
    if ok && e.settings.enabled && v.request.kind == Discover {
      MigrationShape(ContextOf(e), ip, v);
      PointedAt(e, ip);
      DiscoverKeeps(e1, v.request, now, 1);
    }
    CommitStepAt(e, e', ip, Some(w), c, now);
  }

  /** A migration retires the very entry its identity points to. */
  lemma {:induction false} MigrationShape(c: Context, ip: IPv4, v: Entry)
    requires EntryOK(c, ip, v) && IsPending(v) && v.request.kind == Discover
    ensures Active(v) && ValidRequest(v.request) && IdentityOf(v.request) == v.lease.identity
  {
    hide GoodOwner, RetainedTopology, Storable, ReservedFor, ValidRequest;
  }

  /** A write completion keeps the invariant; stale and repeated tokens change nothing but the clock. */
  lemma {:induction false} CompleteCommitKeeps(e: Engine, c: CommitResult, now: Sample)
    requires Inv(e) && GoodSample(now)
    ensures var (e', o) := CompleteCommit(e, c, now);
      Inv(e') && CommitStep(e, e', c, now) && o.mutation.None? && ReplyOK(e', o.reply, now)
  {
    hide Inv, CommitStep, CommitDone, CommitFailed, ReplyOK;
    var (e1, ok) := Now(e, now);
    NowKeeps(e, now);
    var (e', o) := CompleteCommit(e, c, now);
    SilentOK(e1, None, now);
    var found := Find(e1, c.token);
    if found.Some? && IsPending(e1.byIP[found.value]) {
      if c.failed {
        CommitFailedKeeps(e1, found.value, c, now);
        SilentOK(e', None, now);
      } else {
        CommitDoneKeeps(e1, found.value, c, now, ok);
      }
    } else {
      NobodyAwaits(e1, c, now);
    }
    ClockCommit(e, e1, e', c, now);
  }

  lemma {:induction false} NobodyAwaits(e: Engine, c: CommitResult, now: Sample)
    requires Inv(e)
    requires Find(e, c.token).None? || !IsPending(e.byIP[Find(e, c.token).value])
    ensures CommitStep(e, e, c, now)
  {
    hide Inv, FinishStep;
    forall a ensures !Awaiting(e, a, c.token) {
      if Awaiting(e, a, c.token) {
        TokenNamesOne(e, a, Find(e, c.token).value, c.token);
      }
    }
    Unchanged(e, now, None);
  }

  lemma {:induction false} TokenNamesOne(e: Engine, a: IPv4, b: IPv4, t: Token)
    requires Inv(e) && Awaiting(e, a, t) && HasToken(e, b, t)
    ensures a == b
  {
    EntryAt(e, a);
    hide Installed, EntriesOK, IdsSound, IdsComplete, TokensIssued, BitmapExact, Bounded;
    PendingToken(ContextOf(e), a, e.byIP[a]);
    hide EntryOK;
  }

  lemma {:induction false} ClockCommit(e: Engine, e1: Engine, e': Engine, c: CommitResult, now: Sample)
    requires e1.byIP == e.byIP && e1.sequence == e.sequence && e1.generation == e.generation
    ensures CommitStep(e1, e', c, now) <==> CommitStep(e, e', c, now)
  {
    assert forall ip :: Awaiting(e1, ip, c.token) <==> Awaiting(e, ip, c.token);
  }

  // ---- the scheduler ----

  ghost predicate TickStep(v: Option<Entry>, w: Option<Entry>, sequence: nat, out: seq<Mutation>, now: Sample) {
    || v == w
    || (v.Some? && w.None? && !IsPending(v.value) && !v.value.durable)
    || (v.Some? && w.Some? && Issued(v.value, w.value, sequence, out, now, None))
  }

  ghost predicate TickSteps(e: Engine, e': Engine, out: seq<Mutation>, now: Sample) {
    && (forall ip :: TickStep(EntryIn(e.byIP, ip), EntryIn(e'.byIP, ip), e.sequence, out, now))
    && MutationsOf(e', out, e.sequence)
    && e.sequence <= e'.sequence && e'.last == e.last
  }

  lemma {:induction false} TickStepsCompose(e: Engine, e1: Engine, e2: Engine, a: seq<Mutation>, b: seq<Mutation>, now: Sample)
    requires TickSteps(e, e1, a, now) && TickSteps(e1, e2, b, now)
    ensures TickSteps(e, e2, a + b, now)
  {
    forall ip ensures TickStep(EntryIn(e.byIP, ip), EntryIn(e2.byIP, ip), e.sequence, a + b, now) {
      assert TickStep(EntryIn(e.byIP, ip), EntryIn(e1.byIP, ip), e.sequence, a, now);
      assert TickStep(EntryIn(e1.byIP, ip), EntryIn(e2.byIP, ip), e1.sequence, b, now);
    }
    forall i | 0 <= i < |a + b| ensures MutationOf(e2, (a + b)[i]) && e.sequence < (a + b)[i].token.sequence <= e2.sequence {
      if i < |a| {
        assert MutationOf(e1, a[i]);
        var ip := a[i].lease.address;
        assert TickStep(EntryIn(e1.byIP, ip), EntryIn(e2.byIP, ip), e1.sequence, b, now);
      } else {
        assert (a + b)[i] == b[i - |a|];
      }
    }
    forall i, j | 0 <= i < j < |a + b| ensures (a + b)[i].token.sequence < (a + b)[j].token.sequence {
      if i < |a| && j >= |a| {
        assert (a + b)[j] == b[j - |a|];
        assert MutationOf(e1, a[i]) && a[i].token.sequence <= e1.sequence;
      }
    }
  }

  lemma {:induction false} TickOne(e: Engine, e': Engine, ip: IPv4, w: Option<Entry>, out: seq<Mutation>, now: Sample)
    requires ip in e.byIP && EntryIn(e'.byIP, ip) == w && e'.byIP - {ip} == e.byIP - {ip}
    requires TickStep(Some(e.byIP[ip]), w, e.sequence, out, now)
    requires MutationsOf(e', out, e.sequence) && e.sequence <= e'.sequence && e'.last == e.last
    ensures TickSteps(e, e', out, now)
  {
    hide TickStep, MutationsOf;
    forall a ensures TickStep(EntryIn(e.byIP, a), EntryIn(e'.byIP, a), e.sequence, out, now) {
      if a != ip {
        assert EntryIn(e.byIP, a) == EntryIn(e.byIP - {ip}, a) == EntryIn(e'.byIP - {ip}, a) == EntryIn(e'.byIP, a);
        Reflexive(EntryIn(e.byIP, a), e.sequence, out, now);
      }
    }
  }

  lemma {:induction false} Reflexive(v: Option<Entry>, sequence: nat, out: seq<Mutation>, now: Sample)
    ensures TickStep(v, v, sequence, out, now)
  {
  }

  lemma {:induction false} TickEntryKeeps(e: Engine, ip: IPv4, now: Sample)
    requires Inv(e) && e.last == Some(now) && ip in e.byIP
    ensures var (e', out) := TickEntry(e, ip, now); Inv(e') && TickSteps(e, e', out, now)
  {
    hide Inv, EntryOK, Active, PointsAt, Remove, EngineStep, RaiseHold;
    var v := e.byIP[ip];
    var (e', out) := TickEntry(e, ip, now);
    BoundShape(e, ip);
    EntryAt(e, ip);
    EntryAddress(ContextOf(e), ip, v);
    if v.dirty && !IsPending(v) {
      RetryKeeps(e, ip, now);
    } else if v.lease.state == Probing {
      if now.mono >= v.deadline {
        ProbingShape(ContextOf(e), ip, v);
        RemoveKeeps(e, ip, e');
        RemoveTable(e.(probes := e.probes - 1), ip);
        TickOne(e, e', ip, None, [], now);
      } else {
        TickOne(e, e', ip, Some(v), [], now);
      }
    } else if IsPending(v) || now.mono < v.timing.hold {
      TickOne(e, e', ip, Some(v), [], now);
    } else if v.durable {
      DeleteKeeps(e, NO_REQUEST, now, ip, None);
      TickOne(e, e', ip, Some(e'.byIP[ip]), out, now);
    } else {
      RemoveFresh(e, ip);
      TickOne(e, e', ip, None, [], now);
    }
  }

  lemma {:induction false} RemoveTable(e: Engine, ip: IPv4)
    requires ip in e.byIP
    ensures Remove(e, ip).byIP == e.byIP - {ip} && Remove(e, ip).sequence == e.sequence && Remove(e, ip).last == e.last
  {
  }

  lemma {:induction false} RetryKeeps(e: Engine, ip: IPv4, now: Sample)
    requires Inv(e) && e.last == Some(now) && ip in e.byIP && e.byIP[ip].dirty && !IsPending(e.byIP[ip])
    ensures var (e', m) := Mutate(e, ip, PutLease, e.byIP[ip].lease, e.byIP[ip].timing, NO_REQUEST);
      Inv(e') && TickSteps(e, e', [m], now)
  {
    hide Inv, EntryOK, Active, PointsAt, RaiseHold;
    var v := e.byIP[ip];
    EntryAt(e, ip);
    EntryAddress(ContextOf(e), ip, v);
    InstalledOf(e);
    BoundShape(e, ip);
    RetryEntryOK(ContextOf(e), ip, v, now, NextToken(e));
    var (e', m) := Mutate(e, ip, PutLease, v.lease, v.timing, NO_REQUEST);
    var w := e'.byIP[ip];
    if Active(w) {
      PointedAt(e, ip);
    }
    RaiseHoldFacts(v.lease, v.timing, now);
    SubmitKeeps(e, e', ip, w, now, None);
    TickOne(e, e', ip, Some(w), [m], now);
  }

  lemma {:induction false} TickAllKeeps(e: Engine, order: seq<IPv4>, now: Sample)
    requires Inv(e) && e.last == Some(now)
    ensures var (e', out) := TickAll(e, order, now); Inv(e') && TickSteps(e, e', out, now)
    decreases |order|
  {
    hide Inv, TickSteps, TickEntry;
    if order == [] {
      TickNothing(e, now);
    } else if order[0] !in e.byIP {
      TickAllKeeps(e, order[1..], now);
    } else {
      TickEntryKeeps(e, order[0], now);
      var (e1, ms) := TickEntry(e, order[0], now);
      TickLast(e, e1, ms, now);
      TickAllKeeps(e1, order[1..], now);
      var (e2, rest) := TickAll(e1, order[1..], now);
      TickStepsCompose(e, e1, e2, ms, rest, now);
    }
  }

  lemma {:induction false} TickNothing(e: Engine, now: Sample)
    ensures TickSteps(e, e, [], now)
  {
  }

  lemma {:induction false} TickLast(e: Engine, e1: Engine, out: seq<Mutation>, now: Sample)
    requires TickSteps(e, e1, out, now)
    ensures e1.last == e.last
  {
    hide TickStep, MutationsOf;
  }

  /** A tick, in whatever order it visits the entries. */
  lemma {:induction false} TickKeeps(e: Engine, order: seq<IPv4>, now: Sample)
    requires Inv(e)
    ensures var (e', out) := Tick(e, order, now); Inv(e') && EngineStep(e, e', out, now, None)
  {
    hide Inv, EngineStep, TickSteps, TickAll;
    var (e1, ok) := Now(e, now);
    NowKeeps(e, now);
    var (e', out) := Tick(e, order, now);
    if ok {
      TickAllKeeps(e1, order, now);
      TickIsStep(e1, e', out, now);
    } else {
      Unchanged(e1, now, None);
    }
    ClockStep(e, e1, e', out, now, None);
  }

  lemma {:induction false} TickIsStep(e: Engine, e': Engine, out: seq<Mutation>, now: Sample)
    requires TickSteps(e, e', out, now)
    ensures EngineStep(e, e', out, now, None)
  {
    hide Issued, MutationsOf;
    forall a ensures EntryStep(EntryIn(e.byIP, a), EntryIn(e'.byIP, a), e.sequence, out, now, None) {
      assert TickStep(EntryIn(e.byIP, a), EntryIn(e'.byIP, a), e.sequence, out, now);
      if a in e.byIP {
        assert Touched(e.byIP[a], e.byIP[a]);
      }
    }
  }

  // ---- settings change ----

  lemma {:induction false} KeptEntryOK(c: Context, d: Context, ip: IPv4, v: Entry)
    requires EntryOK(c, ip, v) && Retained(v) && !IsPending(v) && !v.dirty
    requires RetainedTopology(d.settings, ip) && (ip in d.reserved ==> KeyMatches(d.reserved[ip], v.lease))
    ensures EntryOK(d, ip, v.(hasACK := false)) && (Active(v.(hasACK := false)) <==> Active(v)) && v.durable
  {
    hide LeaseAddress, RetainedTopology, ValidLabel, ValidRequest, Storable;
  }

  /** The table after a settings change, entry by entry. */
  ghost predicate AppliedTable(e: Engine, e': Engine) {
    && (forall ip :: ip in e'.byIP <==> ip in e.byIP && Retained(e.byIP[ip]))
    && (forall ip :: ip in e'.byIP ==> ip in e.byIP && e'.byIP[ip] == e.byIP[ip].(hasACK := false))
    && e'.byID == (map id | id in e.byID && e.byID[id] in e'.byIP :: e.byID[id])
    && e'.sequence == e.sequence && e'.probes == 0
  }

  lemma {:induction false} ApplyShape(e: Engine, s: Settings, generation: nat)
    ensures var e' := ApplyDone(e, s, generation);
      && AppliedTable(e, e') && e'.settings == s && e'.generation == generation && e'.reserved == ReservedOf(s.reservations)
      && e'.byIP.Keys == KeptEntries(e).Keys
  {
    hide ReservedOf, ReservationsOf, PoolBits;
  }

  lemma {:induction false} ApplyInstalled(e: Engine, s: Settings, generation: nat)
    requires ValidSettings(s)
    ensures var e' := ApplyDone(e, s, generation);
      Installed(ConfigOf(e')) && BitmapExact(e'.bitmap, e'.start, e'.byIP.Keys + e'.reserved.Keys)
  {
    hide ValidSettings, Installed, BitmapExact, ReservedOf, ReservationsOf, PoolBits;
    var keep := map ip | ip in KeptEntries(e) :: e.byIP[ip].(hasACK := false);
    var byID := map id | id in e.byID && e.byID[id] in keep :: e.byID[id];
    InstallGood(e.(byIP := keep, byID := byID, probes := 0), s, generation);
  }

  /** The checks Apply makes, as facts about the retained entries. */
  ghost predicate ApplyChecked(e: Engine, s: Settings, generation: nat) {
    && generation > e.generation && ValidTransition(e.settings, s)
    && (forall ip :: ip in e.byIP ==> !IsPending(e.byIP[ip]) && !e.byIP[ip].dirty)
    && (forall ip :: ip in e.byIP && Retained(e.byIP[ip]) ==>
          && RetainedTopology(s, ip)
          && (ip in ReservedOf(s.reservations) ==> KeyMatches(ReservedOf(s.reservations)[ip], e.byIP[ip].lease)))
    && |KeptEntries(e).Keys + ReservedOf(s.reservations).Keys| <= Capacity(s)
  }

  lemma {:induction false} ApplyCheckMeans(e: Engine, s: Settings, generation: nat)
    ensures ApplyCheck(e, s, generation).None? <==> ApplyChecked(e, s, generation)
  {
    hide ReservedOf, ValidTransition, RetainedTopology, Capacity, KeyMatches, KeptEntries, KeptCheck;
    KeptMeans(e);
    KeptCheckMeans(s, KeptEntries(e), ReservedOf(s.reservations));
  }

  lemma {:induction false} KeptMeans(e: Engine)
    ensures forall ip :: ip in KeptEntries(e) <==> ip in e.byIP && Retained(e.byIP[ip])
    ensures forall ip :: ip in KeptEntries(e) ==> KeptEntries(e)[ip] == e.byIP[ip]
  {
  }

  lemma {:induction false} KeptCheckMeans(s: Settings, keep: map<IPv4, Entry>, reserved: map<IPv4, Identity>)
    ensures KeptCheck(s, keep, reserved).None? <==>
      && (forall ip :: ip in keep ==> RetainedTopology(s, ip))
      && (forall ip :: ip in keep && ip in reserved ==> KeyMatches(reserved[ip], keep[ip].lease))
      && Together(keep, reserved) <= Capacity(s)
  {
    hide RetainedTopology, Capacity, KeyMatches, Together;
  }

  lemma {:induction false} ApplyEntries(e: Engine, e': Engine, s: Settings, generation: nat)
    requires Inv(e) && ApplyChecked(e, s, generation) && AppliedTable(e, e')
    requires e'.settings == s && e'.generation == generation && e'.reserved == ReservedOf(s.reservations)
    ensures EntriesOK(ContextOf(e'), e'.byIP)
    ensures forall ip :: ip in e'.byIP ==> (Active(e'.byIP[ip]) <==> Active(e.byIP[ip])) && e'.byIP[ip].lease.state != Probing
  {
    hide Inv, EntryOK, ValidTransition, RetainedTopology, ReservedOf, Active, KeyMatches, KeptEntries, Capacity;
    forall ip | ip in e'.byIP
      ensures EntryOK(ContextOf(e'), ip, e'.byIP[ip])
      ensures (Active(e'.byIP[ip]) <==> Active(e.byIP[ip])) && e'.byIP[ip].lease.state != Probing
    {
      EntryAt(e, ip);
      BoundShape(e, ip);
      KeptEntryOK(ContextOf(e), ContextOf(e'), ip, e.byIP[ip]);
    }
  }

  /** An accepted settings change keeps all durable ownership and the whole invariant. */
  lemma {:induction false} ApplyKeeps(e: Engine, s: Settings, generation: nat, now: Sample)
    requires Inv(e) && ApplyCheck(e, s, generation).None?
    ensures Inv(ApplyDone(e, s, generation)) && EngineStep(e, ApplyDone(e, s, generation), [], now, None)
  {
    hide Inv, ApplyCheck, ApplyDone, EngineStep, Installed, BitmapExact, EntriesOK, IdsSound, IdsComplete, TokensUnique, TokensIssued, ReservedOf, Active, KeyMatches, RetainedTopology, Capacity, ValidSettings;
    var e' := ApplyDone(e, s, generation);
    ApplyCheckMeans(e, s, generation);
    ApplyShape(e, s, generation);
    TransitionValid(e.settings, s);
    hide ValidTransition;
    ApplyInstalled(e, s, generation);
    ApplyEntries(e, e', s, generation);
    ApplyIndexes(e, e');
    assert ProbingSet(e'.byIP) == {};
    InvOf(e');
    ApplyStep(e, e', now);
  }

  lemma {:induction false} TransitionValid(a: Settings, b: Settings)
    requires ValidTransition(a, b)
    ensures ValidSettings(b)
  {
    hide ValidSettings;
  }

  /** The invariant is the conjunction of its named parts. */
  lemma {:induction false} InvOf(e: Engine)
    requires Installed(ConfigOf(e)) && e.generation > 0
    requires BitmapExact(e.bitmap, e.start, e.byIP.Keys + e.reserved.Keys)
    requires IdsSound(e.byIP, e.byID) && IdsComplete(e.byIP, e.byID) && EntriesOK(ContextOf(e), e.byIP)
    requires TokensIssued(e.byIP, e.sequence) && TokensUnique(e.byIP)
    requires Bounded(e.byIP, e.probes, e.byIP.Keys + e.reserved.Keys, Capacity(e.settings))
    ensures Inv(e)
  {
    hide Installed, EntriesOK, IdsSound, IdsComplete, TokensUnique, TokensIssued, BitmapExact, Bounded;
  }

  lemma {:induction false} ApplyIndexes(e: Engine, e': Engine)
    requires Inv(e)
    requires forall ip :: ip in e'.byIP ==> ip in e.byIP && e'.byIP[ip] == e.byIP[ip].(hasACK := false) && (Active(e'.byIP[ip]) <==> Active(e.byIP[ip]))
    requires e'.byID == map id | id in e.byID && e.byID[id] in e'.byIP :: e.byID[id]
    requires e'.sequence == e.sequence
    ensures IdsSound(e'.byIP, e'.byID) && IdsComplete(e'.byIP, e'.byID)
    ensures TokensIssued(e'.byIP, e'.sequence) && TokensUnique(e'.byIP)
  {
    hide Installed, EntriesOK, BitmapExact, Bounded, Active;
  }

  lemma {:induction false} ApplyStep(e: Engine, e': Engine, now: Sample)
    requires Inv(e) && e'.sequence == e.sequence
    requires forall ip :: ip in e.byIP ==> !IsPending(e.byIP[ip])
    requires forall ip :: ip in e'.byIP ==> ip in e.byIP && e'.byIP[ip] == e.byIP[ip].(hasACK := false)
    requires forall ip :: ip in e.byIP && ip !in e'.byIP ==> !Retained(e.byIP[ip])
    ensures EngineStep(e, e', [], now, None)
  {
    hide Inv;
    forall a ensures EntryStep(EntryIn(e.byIP, a), EntryIn(e'.byIP, a), e.sequence, [], now, None) {
      if a in e'.byIP {
        assert Touched(e.byIP[a], e'.byIP[a]);
      }
    }
  }

  // ---- recovery ----

  ghost predicate DistinctLeases(leases: seq<Lease>) {
    forall i, j | 0 <= i < j < |leases| ::
      && leases[i].address != leases[j].address
      && !(leases[i].state == Bound && leases[j].state == Bound && leases[i].identity == leases[j].identity)
  }

  lemma {:induction false} RecoveredKeys(leases: seq<Lease>, now: Sample)
    ensures RecoveredEntries(leases, now).Keys == AddressesOf(leases)
  {
    if leases != [] {
      var n := |leases| - 1;
      var init := leases[..n];
      assert forall i | 0 <= i < n :: init[i] == leases[i];
      RecoveredKeys(init, now);
      assert AddressesOf(leases) == AddressesOf(init) + {leases[n].address};
    }
  }

  lemma {:induction false} RecoveredAt(leases: seq<Lease>, now: Sample, i: nat)
    requires i < |leases| && DistinctLeases(leases)
    ensures leases[i].address in RecoveredEntries(leases, now)
    ensures RecoveredEntries(leases, now)[leases[i].address] == Recovered(leases[i], now)
  {
    var n := |leases| - 1;
    if i < n {
      var init := leases[..n];
      assert forall j | 0 <= j < n :: init[j] == leases[j];
      RecoveredAt(init, now, i);
      assert leases[i].address != leases[n].address;
    }
  }

  lemma {:induction false} RecoveredIdAt(leases: seq<Lease>, i: nat)
    requires i < |leases| && DistinctLeases(leases) && leases[i].state == Bound
    ensures PointsAt(RecoveredIds(leases), leases[i].identity, leases[i].address)
  {
    var n := |leases| - 1;
    if i < n {
      var init := leases[..n];
      assert forall j | 0 <= j < n :: init[j] == leases[j];
      RecoveredIdAt(init, i);
      assert leases[n].state == Bound ==> leases[i].identity != leases[n].identity;
    }
  }

  lemma {:induction false} RecoveredIdFrom(leases: seq<Lease>, id: Identity) returns (i: nat)
    requires id in RecoveredIds(leases)
    ensures i < |leases| && leases[i].state == Bound && leases[i].identity == id && RecoveredIds(leases)[id] == leases[i].address
  {
    var n := |leases| - 1;
    if leases[n].state == Bound && leases[n].identity == id {
      i := n;
    } else {
      i := RecoveredIdFrom(leases[..n], id);
    }
  }

  /** A recovered row is a settled durable entry. */
  lemma {:induction false} RecoveredEntryOK(c: Context, l: Lease, now: Sample)
    requires ValidRecovered(l) && RetainedTopology(c.settings, l.address)
    requires l.expiry.mono.None? && l.hold.mono.None? && l.expiry.wall > 0
    requires l.address in c.reserved ==> KeyMatches(c.reserved[l.address], l)
    ensures EntryOK(c, l.address, Recovered(l, now))
    ensures Active(Recovered(l, now)) <==> l.state == Bound
  {
    hide ValidLabel, RetainedTopology, LeaseAddress;
  }

  ghost predicate FromDisk(leases: seq<Lease>) {
    forall i | 0 <= i < |leases| :: leases[i].expiry.mono.None? && leases[i].hold.mono.None? && leases[i].expiry.wall > 0
  }

  lemma {:induction false} RestoreEntryAt(c: Context, s: Settings, leases: seq<Lease>, now: Sample, ip: IPv4)
    requires Restorable(s, leases) && FromDisk(leases) && c.settings == s && c.reserved == ReservedOf(s.reservations)
    requires ip in RecoveredEntries(leases, now)
    ensures var v := RecoveredEntries(leases, now)[ip];
      && EntryOK(c, ip, v) && (Active(v) ==> PointsAt(RecoveredIds(leases), v.lease.identity, ip))
      && v.token == NO_TOKEN && v.lease.state != Probing
  {
    hide ValidRecovered, RetainedTopology, KeyMatches, EntryOK, ReservedOf, Active, Capacity, Recovered, PointsAt, RecoveredEntries, RecoveredIds;
    RecoveredKeys(leases, now);
    var i :| 0 <= i < |leases| && leases[i].address == ip;
    RecoveredAt(leases, now, i);
    RecoveredEntryOK(c, leases[i], now);
    RecoveredFields(leases[i], now);
    if leases[i].state == Bound {
      RecoveredIdAt(leases, i);
    }
  }

  lemma {:induction false} RestoreIdAt(s: Settings, leases: seq<Lease>, now: Sample, id: Identity)
    requires Restorable(s, leases) && id in RecoveredIds(leases)
    ensures RecoveredIds(leases)[id] in RecoveredEntries(leases, now)
    ensures RecoveredEntries(leases, now)[RecoveredIds(leases)[id]].lease.identity == id
  {
    hide ValidRecovered, RetainedTopology, KeyMatches, ReservedOf, Capacity, Recovered, RecoveredEntries, RecoveredIds;
    var i := RecoveredIdFrom(leases, id);
    RecoveredAt(leases, now, i);
    RecoveredFields(leases[i], now);
  }

  lemma {:induction false} RestoreEntries(c: Context, s: Settings, leases: seq<Lease>, now: Sample)
    requires Restorable(s, leases) && FromDisk(leases) && c.settings == s && c.reserved == ReservedOf(s.reservations)
    ensures EntriesOK(c, RecoveredEntries(leases, now))
    ensures IdsSound(RecoveredEntries(leases, now), RecoveredIds(leases))
    ensures IdsComplete(RecoveredEntries(leases, now), RecoveredIds(leases))
    ensures TokensIssued(RecoveredEntries(leases, now), 0) && TokensUnique(RecoveredEntries(leases, now))
    ensures ProbingSet(RecoveredEntries(leases, now)) == {}
  {
    hide Restorable, FromDisk, EntryOK, ReservedOf, Active, PointsAt, RecoveredEntries, RecoveredIds;
    var entries := RecoveredEntries(leases, now);
    forall ip | ip in entries
      ensures EntryOK(c, ip, entries[ip]) && (Active(entries[ip]) ==> PointsAt(RecoveredIds(leases), entries[ip].lease.identity, ip))
      ensures entries[ip].token == NO_TOKEN && entries[ip].lease.state != Probing
    {
      RestoreEntryAt(c, s, leases, now, ip);
    }
    forall id | id in RecoveredIds(leases)
      ensures RecoveredIds(leases)[id] in entries && entries[RecoveredIds(leases)[id]].lease.identity == id
    {
      RestoreIdAt(s, leases, now, id);
    }
  }

  lemma {:induction false} RecoveredFields(l: Lease, now: Sample)
    ensures Recovered(l, now).lease == l && Recovered(l, now).token == NO_TOKEN
    ensures ValidRecovered(l) ==> l.state != Probing
  {
    hide LeaseAddress, ValidLabel, UnicastMac;
  }

  /** A successful recovery starts in the invariant. */
  lemma {:induction false} RestoreKeeps(s: Settings, generation: nat, leases: seq<Lease>, lastKnown: int, now: Sample)
    requires ValidSettings(s) && generation > 0 && FromDisk(leases)
    requires Restore(NewEngine(s, generation), leases, lastKnown, now).Some?
    ensures Inv(Restore(NewEngine(s, generation), leases, lastKnown, now).value)
  {
    hide ValidSettings, Installed, EntriesOK, IdsSound, IdsComplete, TokensUnique, TokensIssued, BitmapExact, PoolBits, ReservedOf, ReservationsOf, ValidRecovered, RetainedTopology, KeyMatches, ProbingSet, RecoveredEntries, RecoveredIds;
    var e := NewEngine(s, generation);
    NewEngineGood(s, generation);
    InstalledOf(e);
    var e' := Restore(e, leases, lastKnown, now).value;
    RestoreEntries(ContextOf(e'), s, leases, now);
    RecoveredKeys(leases, now);
    PoolBitsExact(s, e.reserved.Keys, e'.byIP.Keys);
    PoolBitsExact(s, e.reserved.Keys, {});
    InvOf(e');
  }
}
