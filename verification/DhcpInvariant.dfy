/**
 What every reachable engine state satisfies, and the proof that every engine operation keeps it:
 index consistency, entry shapes, token freshness, probe and capacity bounds.
 */
module DhcpInvariant {
  import opened Common
  import opened DhcpTypes
  import opened DhcpSettings
  import opened DhcpEngine

  // ---- entries ----

  /** Identity, hardware address, address and name as the store and recovery accept them. */
  ghost predicate GoodOwner(l: Lease) {
    && (match l.identity case ClientId(c) => 0 < |c| <= 255 case MacId(m) => m == l.mac)
    && UnicastMac(l.mac)
    && LeaseAddress(l.address)
    && (l.hostname != "" ==> ValidLabel(l.hostname))
  }

  /** A lease value fit for a table row. */
  ghost predicate Storable(l: Lease) {
    GoodOwner(l) && l.state in {Bound, Quarantined} && 0 < l.expiry.wall <= l.hold.wall
  }

  ghost predicate SameOwner(a: Lease, b: Lease) { a.identity == b.identity && a.address == b.address }

  /** Deadlines are in order, and the hold reaches as far as the stored expiry does on the monotonic scale. */
  ghost predicate Timed(l: Lease, t: Deadlines) { t.expiry <= t.hold && (l.expiry.mono.Some? ==> l.expiry.mono.value <= t.hold) }

  /** An entry with no write outstanding, holding lease l with deadlines t. */
  ghost predicate Settled(v: Entry, l: Lease, t: Deadlines) {
    match l.state
    case Probing => !v.durable && !v.dirty && t == UNSET
    case Offered => !v.durable && !v.dirty && Timed(l, t)
    case Bound => v.durable && !v.dirty && l == v.committed && Timed(l, t)
    case Quarantined =>
      && Storable(l) && Timed(l, t)
      && (v.dirty || (v.durable && l == v.committed))
      && (v.durable ==> v.committed.hold.wall <= l.hold.wall)
    case CommitPending => false
  }

  ghost predicate PendingPut(v: Entry) {
    && Storable(v.pending)
    && Timed(v.pending, v.pendingTiming) && v.timing.hold <= v.pendingTiming.hold
    && (v.durable ==> v.committed.hold.wall <= v.pending.hold.wall)
    && (v.dirty ==> v.pending.state == Quarantined)
    && (!v.dirty ==> Settled(v, v.previous, v.previousTiming) && v.previous.state in {Offered, Bound})
    && (!v.dirty && v.pending.state == Quarantined ==> v.durable && v.committed.state == Bound)
  }

  ghost predicate PendingDelete(v: Entry) {
    && v.durable && !v.dirty && v.pending == v.committed && v.previous == v.committed
    && Settled(v, v.previous, v.previousTiming)
  }

  /** Exactly one write is outstanding, and both of its outcomes are prepared. */
  ghost predicate InFlight(v: Entry) {
    && v.lease == v.previous.(state := CommitPending) && v.timing == v.previousTiming
    && SameOwner(v.pending, v.lease)
    && (v.mutation == PutLease ==> PendingPut(v))
    && (v.mutation == DeleteLease ==> PendingDelete(v))
    && v.mutation != NoMutation
    && (v.mutation == PutLease && v.pending.state == Bound ==> IdentityOf(v.request) == v.lease.identity)
    && (v.request.kind == Discover ==>
          && ValidRequest(v.request) && IdentityOf(v.request) == v.lease.identity
          && v.mutation == PutLease && v.pending.state == Quarantined && v.durable && !v.dirty)
  }

  ghost predicate ReservedFor(reserved: map<IPv4, Identity>, l: Lease) {
    l.address in reserved ==> KeyMatches(reserved[l.address], l)
  }

  /** The part of the engine an entry's own conditions refer to. */
  datatype Context = Context(settings: Settings, generation: nat, reserved: map<IPv4, Identity>)

  function ContextOf(e: Engine): Context { Context(e.settings, e.generation, e.reserved) }

  ghost predicate EntryOK(c: Context, ip: IPv4, v: Entry) {
    && v.lease.address == ip && GoodOwner(v.lease)
    && RetainedTopology(c.settings, ip)
    && ReservedFor(c.reserved, v.lease)
    && (v.durable ==> Storable(v.committed) && SameOwner(v.committed, v.lease) && ReservedFor(c.reserved, v.committed))
    && (v.durable && v.dirty ==> v.committed.state == Bound)
    && (v.lease.state in {Probing, CommitPending} ==> v.token.generation == c.generation && v.token.sequence > 0)
    && (v.lease.state == Probing ==>
          ValidRequest(v.request) && IdentityOf(v.request) == v.lease.identity && c.settings.enabled)
    && (if v.lease.state == CommitPending then InFlight(v) && ReservedFor(c.reserved, v.pending)
        else Settled(v, v.lease, v.timing))
  }

  /** Bound, about to be bound, or on the way there: the entry its identity must point to. */
  ghost predicate Active(v: Entry) {
    || v.lease.state in {Probing, Offered, Bound}
    || (v.durable && v.committed.state == Bound)
    || (v.lease.state == CommitPending && v.mutation == PutLease && v.pending.state == Bound)
  }

  // ---- the engine ----

  /** The installed tables are what the validated settings say. */
  datatype Config = Config(
    settings: Settings, reservations: map<Identity, IPv4>, reserved: map<IPv4, Identity>, start: IPv4, end: IPv4, size: nat)

  function ConfigOf(e: Engine): Config {
    Config(e.settings, e.reservations, e.reserved, e.start, e.end, |e.bitmap|)
  }

  ghost predicate Installed(c: Config) {
    && ValidSettings(c.settings)
    && c.reserved == ReservedOf(c.settings.reservations) && c.reservations == ReservationsOf(c.settings.reservations)
    && |c.reserved.Keys| <= Capacity(c.settings)
    && (forall k :: k in c.reservations ==> c.reservations[k] in c.reserved && c.reserved[c.reservations[k]] == k)
    && (forall ip :: ip in c.reserved ==> TopologyOK(c.settings, ip))
    && (c.size > 0 <==> HasPool(c.settings))
    && (HasPool(c.settings) ==>
          && c.start == c.settings.rangeStart.value && c.end == c.settings.rangeEnd.value
          && c.size == c.end - c.start + 1)
  }

  /** A pool bit is set exactly for owned and for reserved addresses. */
  ghost predicate BitmapExact(bitmap: seq<bool>, start: IPv4, used: set<IPv4>) {
    forall i | 0 <= i < |bitmap| :: bitmap[i] <==> start + i in used
  }

  function ProbingSet(byIP: map<IPv4, Entry>): set<IPv4> {
    set ip | ip in byIP && byIP[ip].lease.state == Probing
  }

  /** The identity index points only into the table, at entries of that identity. */
  ghost predicate IdsSound(byIP: map<IPv4, Entry>, byID: map<Identity, IPv4>) {
    forall id :: id in byID ==> byID[id] in byIP && byIP[byID[id]].lease.identity == id
  }

  ghost predicate PointsAt(byID: map<Identity, IPv4>, id: Identity, ip: IPv4) {
    id in byID && byID[id] == ip
  }

  ghost predicate IdsComplete(byIP: map<IPv4, Entry>, byID: map<Identity, IPv4>) {
    forall ip :: ip in byIP && Active(byIP[ip]) ==> PointsAt(byID, byIP[ip].lease.identity, ip)
  }

  ghost predicate TokensUnique(byIP: map<IPv4, Entry>) {
    forall a, b :: a in byIP && b in byIP && a != b && byIP[a].token.sequence == byIP[b].token.sequence ==>
      byIP[a].token.sequence == 0
  }

  ghost predicate TokensIssued(byIP: map<IPv4, Entry>, sequence: nat) {
    forall ip :: ip in byIP ==>
      byIP[ip].token.sequence <= sequence && (byIP[ip].token.sequence == 0 ==> byIP[ip].token == NO_TOKEN)
  }

  ghost predicate EntriesOK(c: Context, byIP: map<IPv4, Entry>) {
    forall ip :: ip in byIP ==> EntryOK(c, ip, byIP[ip])
  }

  ghost predicate Bounded(byIP: map<IPv4, Entry>, probes: int, used: set<IPv4>, capacity: int) {
    probes == |ProbingSet(byIP)| <= 2 && |used| <= capacity
  }

  ghost predicate Inv(e: Engine) {
    && Installed(ConfigOf(e))
    && e.generation > 0
    && BitmapExact(e.bitmap, e.start, e.byIP.Keys + e.reserved.Keys)
    && IdsSound(e.byIP, e.byID)
    && IdsComplete(e.byIP, e.byID)
    && EntriesOK(ContextOf(e), e.byIP)
    && TokensIssued(e.byIP, e.sequence)
    && TokensUnique(e.byIP)
    && Bounded(e.byIP, e.probes, e.byIP.Keys + e.reserved.Keys, Capacity(e.settings))
  }

  ghost predicate GoodSample(s: Sample) { s.wall > 0 && s.mono >= 0 }

  // ---- installation ----

  /** A reservation list is read off its reserved-address table and back. */
  ghost predicate ReservedIn(rs: seq<Reservation>, ip: IPv4, key: Identity) {
    exists i :: 0 <= i < |rs| && rs[i].address == Value(ip) && ReservationKey(rs[i]) == Some(key)
  }

  lemma {:induction false} ReservedFacts(s: Settings, rs: seq<Reservation>)
    requires ValidReservations(s, rs)
    ensures |ReservedOf(rs).Keys| <= |rs|
    ensures forall ip :: ip in ReservedOf(rs) ==> TopologyOK(s, ip) && ReservedIn(rs, ip, ReservedOf(rs)[ip])
    ensures forall k :: k in ReservationsOf(rs) ==>
              ReservationsOf(rs)[k] in ReservedOf(rs) && ReservedOf(rs)[ReservationsOf(rs)[k]] == k
  {
    hide Usable, ReservationKey, ValidLabel, Lower, ReservedIn;
    if rs != [] {
      var n := |rs| - 1;
      var r := rs[n];
      var init := rs[..n];
      assert forall i | 0 <= i < n :: init[i] == rs[i];
      ReservedFacts(s, init);
      assert ValidReservation(s, r);
      var a, k := r.address.value, ReservationKey(r).value;
      assert ReservedOf(rs) == ReservedOf(init)[a := k];
      assert ReservationsOf(rs) == ReservationsOf(init)[k := a];
      FreshAddress(s, rs);
      assert ReservedOf(rs).Keys == ReservedOf(init).Keys + {a};
      forall ip | ip in ReservedOf(rs) ensures ReservedIn(rs, ip, ReservedOf(rs)[ip]) {
        ReservedInExtends(rs, ip, ReservedOf(rs)[ip]);
      }
    }
  }

  lemma {:induction false} ReservedInExtends(rs: seq<Reservation>, ip: IPv4, key: Identity)
    requires rs != []
    requires ReservedIn(rs[..|rs| - 1], ip, key)
             || (rs[|rs| - 1].address == Value(ip) && ReservationKey(rs[|rs| - 1]) == Some(key))
    ensures ReservedIn(rs, ip, key)
  {
    hide ReservationKey;
    var init := rs[..|rs| - 1];
    if ReservedIn(init, ip, key) {
      var i :| 0 <= i < |init| && init[i].address == Value(ip) && ReservationKey(init[i]) == Some(key);
      assert rs[i] == init[i];
    }
  }

  /** Pairwise compatible reservations never repeat an address. */
  lemma {:induction false} FreshAddress(s: Settings, rs: seq<Reservation>)
    requires ValidReservations(s, rs) && rs != []
    requires forall ip {:trigger ip in ReservedOf(rs[..|rs| - 1])} :: ip in ReservedOf(rs[..|rs| - 1]) ==>
               ReservedIn(rs[..|rs| - 1], ip, ReservedOf(rs[..|rs| - 1])[ip])
    ensures rs[|rs| - 1].address.value !in ReservedOf(rs[..|rs| - 1])
  {
    hide Usable, ReservationKey, Lower, ReservedOf;
    assert forall i | 0 <= i < |rs| - 1 :: Compatible(rs[i], rs[|rs| - 1]);
  }

  lemma {:induction false} InstallGood(e: Engine, s: Settings, generation: nat)
    requires ValidSettings(s)
    ensures var e' := Install(e, s, generation);
      Installed(ConfigOf(e')) && BitmapExact(e'.bitmap, e'.start, e'.byIP.Keys + e'.reserved.Keys)
  {
    hide BitmapExact, ValidSettings, TopologyOK, ReservedOf, ReservationsOf, PoolBits;
    ReservationRoom(s);
    PoolBitsExact(s, ReservedOf(s.reservations).Keys, e.byIP.Keys);
  }

  lemma {:induction false} ReservationRoom(s: Settings)
    requires ValidSettings(s)
    ensures |ReservedOf(s.reservations).Keys| <= Capacity(s)
    ensures forall ip :: ip in ReservedOf(s.reservations) ==> TopologyOK(s, ip)
    ensures var rs := s.reservations;
      forall k :: k in ReservationsOf(rs) ==> ReservationsOf(rs)[k] in ReservedOf(rs) && ReservedOf(rs)[ReservationsOf(rs)[k]] == k
  {
    hide TopologyOK, ReservedOf, ReservationsOf, ReservedIn, ValidReservations, ValidDomain, ValidInterface;
    ReservedFacts(s, s.reservations);
  }

  lemma {:induction false} PoolBitsExact(s: Settings, reserved: set<IPv4>, owned: set<IPv4>)
    ensures |PoolBits(s, reserved, owned)| == if HasPool(s) then s.rangeEnd.value - s.rangeStart.value + 1 else 0
    ensures BitmapExact(PoolBits(s, reserved, owned), if HasPool(s) then s.rangeStart.value else 0, owned + reserved)
  {
  }

  lemma {:induction false} NoEntries(c: Context)
    ensures IdsSound(map[], map[]) && IdsComplete(map[], map[]) && EntriesOK(c, map[])
    ensures TokensIssued(map[], 0) && TokensUnique(map[]) && ProbingSet(map[]) == {}
  {
    hide EntryOK, Active;
  }

  lemma {:induction false} InstalledRoom(c: Config)
    requires Installed(c)
    ensures |c.reserved.Keys| <= Capacity(c.settings)
  {
    hide ValidSettings, ReservedOf, TopologyOK;
  }

  lemma {:induction false} NewEngineGood(s: Settings, generation: nat)
    requires ValidSettings(s) && generation > 0
    ensures Inv(NewEngine(s, generation))
  {
    hide BitmapExact, ReservedOf, ReservationsOf, ValidSettings, PoolBits, Capacity, ProbingSet;
    var e := NewEngine(s, generation);
    InstallGood(Engine(s, 0, 0, None, false, map[], map[], map[], map[], [], 0, 0, 0), s, generation);
    hide Installed, IdsSound, IdsComplete, EntriesOK, TokensIssued, TokensUnique;
    NoEntries(ContextOf(e));
    InstalledRoom(ConfigOf(e));
    assert e.byIP.Keys + e.reserved.Keys == e.reserved.Keys;
  }

  // ---- primitive transitions on one index at a time ----

  lemma {:induction false} ProbingUpdate(byIP: map<IPv4, Entry>, ip: IPv4, v: Entry)
    ensures ProbingSet(byIP[ip := v]) ==
            if v.lease.state == Probing then ProbingSet(byIP) + {ip} else ProbingSet(byIP) - {ip}
  {
  }

  lemma {:induction false} ProbingRemove(byIP: map<IPv4, Entry>, ip: IPv4)
    ensures ProbingSet(byIP - {ip}) == ProbingSet(byIP) - {ip}
  {
  }

  lemma {:induction false} TokensUpdate(byIP: map<IPv4, Entry>, sequence: nat, sequence': nat, ip: IPv4, v: Entry)
    requires TokensIssued(byIP, sequence) && TokensUnique(byIP) && sequence <= sequence'
    requires (sequence < v.token.sequence <= sequence') || (ip in byIP && v.token == byIP[ip].token)
    ensures TokensIssued(byIP[ip := v], sequence') && TokensUnique(byIP[ip := v])
  {
  }

  lemma {:induction false} EntriesUpdate(c: Context, byIP: map<IPv4, Entry>, ip: IPv4, v: Entry)
    requires EntriesOK(c, byIP) && EntryOK(c, ip, v)
    ensures EntriesOK(c, byIP[ip := v])
  {
    hide EntryOK;
  }

  lemma {:induction false} IdsUpdate(byIP: map<IPv4, Entry>, byID: map<Identity, IPv4>, ip: IPv4, v: Entry)
    requires IdsSound(byIP, byID) && IdsComplete(byIP, byID)
    requires ip in byIP && v.lease.identity == byIP[ip].lease.identity
    ensures IdsSound(byIP[ip := v], byID)
    ensures (Active(v) ==> PointsAt(byID, v.lease.identity, ip)) ==> IdsComplete(byIP[ip := v], byID)
    ensures !Active(v) && PointsAt(byID, v.lease.identity, ip) ==>
              IdsSound(byIP[ip := v], byID - {v.lease.identity}) && IdsComplete(byIP[ip := v], byID - {v.lease.identity})
  {
    hide Active;
  }

  lemma {:induction false} IdsRemove(byIP: map<IPv4, Entry>, byID: map<Identity, IPv4>, ip: IPv4)
    requires IdsSound(byIP, byID) && IdsComplete(byIP, byID) && ip in byIP
    ensures IdsSound(byIP - {ip}, Detach(byID, byIP[ip].lease.identity, ip))
    ensures IdsComplete(byIP - {ip}, Detach(byID, byIP[ip].lease.identity, ip))
  {
    hide Active;
  }

  /** A new entry may take an identity that nothing active uses. */
  lemma {:induction false} IdsInsert(byIP: map<IPv4, Entry>, byID: map<Identity, IPv4>, ip: IPv4, v: Entry)
    requires IdsSound(byIP, byID) && IdsComplete(byIP, byID)
    requires ip !in byIP && v.lease.identity !in byID
    ensures IdsSound(byIP[ip := v], byID[v.lease.identity := ip])
    ensures IdsComplete(byIP[ip := v], byID[v.lease.identity := ip])
  {
    hide Active;
  }

  // ---- the three ways the table changes ----

  /** What one entry's rewriting must respect for the rest of the table to stay consistent. */
  ghost predicate LocalUpdate(e: Engine, e': Engine, ip: IPv4, v: Entry) {
    && ip in e.byIP
    && e' == e.(byIP := e.byIP[ip := v], byID := e'.byID, sequence := e'.sequence,
                probes := if e.byIP[ip].lease.state == Probing && v.lease.state != Probing then e.probes - 1 else e.probes)
    && v.lease.identity == e.byIP[ip].lease.identity
    && (v.lease.state == Probing ==> e.byIP[ip].lease.state == Probing)
    && (if v.token == e.byIP[ip].token then e.sequence <= e'.sequence else e.sequence < v.token.sequence <= e'.sequence)
  }

  ghost predicate StillPointed(byID: map<Identity, IPv4>, byID': map<Identity, IPv4>, ip: IPv4, v: Entry) {
    || (byID' == byID && (Active(v) ==> PointsAt(byID, v.lease.identity, ip)))
    || (byID' == byID - {v.lease.identity} && !Active(v) && PointsAt(byID, v.lease.identity, ip))
  }

  /**
   Rewriting one entry in place, possibly detaching its identity, keeps the invariant provided the
   new value is well formed, keeps its owner, does not start a probe, and is still pointed to if active.
   */
  lemma {:induction false} UpdateKeeps(e: Engine, e': Engine, ip: IPv4, v: Entry)
    requires Inv(e) && LocalUpdate(e, e', ip, v)
    requires EntryOK(ContextOf(e), ip, v)
    requires StillPointed(e.byID, e'.byID, ip, v)
    ensures Inv(e')
  {
    hide Installed, EntryOK, Active, Capacity, EntriesOK, TokensUnique, TokensIssued, BitmapExact, IdsSound, IdsComplete, Bounded, PointsAt;
    UpdateKeepsKeys(e.byIP, ip, v);
    BoundedUpdate(e.byIP, e.probes, e.byIP.Keys + e.reserved.Keys, Capacity(e.settings), ip, v);
    EntriesUpdate(ContextOf(e), e.byIP, ip, v);
    TokensUpdate(e.byIP, e.sequence, e'.sequence, ip, v);
    IdsUpdate(e.byIP, e.byID, ip, v);
  }

  lemma {:induction false} BoundedUpdate(byIP: map<IPv4, Entry>, probes: int, used: set<IPv4>, capacity: int, ip: IPv4, v: Entry)
    requires ip in byIP && Bounded(byIP, probes, used, capacity)
    requires v.lease.state == Probing ==> byIP[ip].lease.state == Probing
    ensures Bounded(byIP[ip := v], if byIP[ip].lease.state == Probing && v.lease.state != Probing then probes - 1 else probes, used, capacity)
  {
    ProbingUpdate(byIP, ip, v);
    InProbing(byIP, ip);
    assert ip in ProbingSet(byIP) ==> ProbingSet(byIP) + {ip} == ProbingSet(byIP);
    assert ip !in ProbingSet(byIP) ==> ProbingSet(byIP) - {ip} == ProbingSet(byIP);
  }

  lemma {:induction false} InProbing(byIP: map<IPv4, Entry>, ip: IPv4)
    requires ip in byIP
    ensures ip in ProbingSet(byIP) <==> byIP[ip].lease.state == Probing
  {
  }

  /** Clock bookkeeping is irrelevant to the invariant. */
  lemma {:induction false} NowKeeps(e: Engine, now: Sample)
    requires Inv(e)
    ensures Inv(Now(e, now).0)
  {
    hide Installed, Capacity, EntriesOK, TokensUnique, TokensIssued, BitmapExact, IdsSound, IdsComplete, Bounded;
  }

  /** The pool bounds Mark relies on. */
  ghost predicate PoolShape(e: Engine) {
    |e.bitmap| > 0 ==> e.start <= e.end && |e.bitmap| == e.end - e.start + 1
  }

  lemma {:induction false} InstalledPool(e: Engine)
    requires Installed(ConfigOf(e))
    ensures PoolShape(e)
  {
    hide ValidSettings, ReservedOf, TopologyOK;
  }

  function MarkBit(bitmap: seq<bool>, start: IPv4, ip: IPv4, on: bool): seq<bool> {
    if start <= ip < start + |bitmap| then bitmap[ip - start := on] else bitmap
  }

  /** Removal, field by field. */
  lemma {:induction false} RemoveShape(e: Engine, ip: IPv4)
    requires ip in e.byIP && PoolShape(e)
    ensures Remove(e, ip) ==
      e.(byIP := e.byIP - {ip}, byID := Detach(e.byID, e.byIP[ip].lease.identity, ip),
         bitmap := if ip in e.reserved then e.bitmap else MarkBit(e.bitmap, e.start, ip, false))
  {
  }

  lemma {:induction false} BoundedRemove(byIP: map<IPv4, Entry>, reserved: set<IPv4>, probes: int, capacity: int, ip: IPv4)
    requires ip in byIP && Bounded(byIP, probes, byIP.Keys + reserved, capacity)
    ensures Bounded(byIP - {ip}, if byIP[ip].lease.state == Probing then probes - 1 else probes,
                    (byIP - {ip}).Keys + reserved, capacity)
  {
    ProbingRemove(byIP, ip);
    InProbing(byIP, ip);
    assert (byIP - {ip}).Keys == byIP.Keys - {ip};
    SubsetSize((byIP - {ip}).Keys + reserved, byIP.Keys + reserved);
  }

  lemma {:induction false} BitmapRemove(bitmap: seq<bool>, start: IPv4, byIP: map<IPv4, Entry>, reserved: set<IPv4>, ip: IPv4)
    requires BitmapExact(bitmap, start, byIP.Keys + reserved)
    ensures BitmapExact(if ip in reserved then bitmap else MarkBit(bitmap, start, ip, false), start, (byIP - {ip}).Keys + reserved)
  {
    assert (byIP - {ip}).Keys == byIP.Keys - {ip};
  }

  /** Removing an entry frees its bit, its identity and its probe slot. */
  lemma {:induction false} RemoveKeeps(e: Engine, ip: IPv4, e': Engine)
    requires Inv(e) && ip in e.byIP
    requires e' == Remove(e.(probes := if e.byIP[ip].lease.state == Probing then e.probes - 1 else e.probes), ip)
    ensures Inv(e')
  {
    hide Installed, EntriesOK, Capacity, TokensUnique, TokensIssued, BitmapExact, IdsSound, IdsComplete, Bounded, Remove, MarkBit, Detach;
    var p := if e.byIP[ip].lease.state == Probing then e.probes - 1 else e.probes;
    InstalledPool(e);
    RemoveShape(e.(probes := p), ip);
    BitmapRemove(e.bitmap, e.start, e.byIP, e.reserved.Keys, ip);
    BoundedRemove(e.byIP, e.reserved.Keys, e.probes, Capacity(e.settings), ip);
    IdsRemove(e.byIP, e.byID, ip);
    TokensRemove(e.byIP, e.sequence, ip);
    EntriesRemove(ContextOf(e), e.byIP, ip);
    MarkSize(e.bitmap, e.start, ip, false);
  }

  lemma {:induction false} MarkSize(bitmap: seq<bool>, start: IPv4, ip: IPv4, on: bool)
    ensures |MarkBit(bitmap, start, ip, on)| == |bitmap|
  {
  }

  lemma {:induction false} EntriesRemove(c: Context, byIP: map<IPv4, Entry>, ip: IPv4)
    requires EntriesOK(c, byIP)
    ensures EntriesOK(c, byIP - {ip})
  {
    hide EntryOK;
  }

  lemma {:induction false} TokensRemove(byIP: map<IPv4, Entry>, sequence: nat, ip: IPv4)
    requires TokensIssued(byIP, sequence) && TokensUnique(byIP)
    ensures TokensIssued(byIP - {ip}, sequence) && TokensUnique(byIP - {ip})
  {
  }

  function Inserted(e: Engine, ip: IPv4, v: Entry): Engine {
    Mark(e.(sequence := e.sequence + 1, byIP := e.byIP[ip := v], byID := e.byID[v.lease.identity := ip]), ip, true)
      .(probes := e.probes + 1)
  }

  lemma {:induction false} InsertShape(e: Engine, ip: IPv4, v: Entry)
    requires PoolShape(e)
    ensures Inserted(e, ip, v) ==
      e.(sequence := e.sequence + 1, byIP := e.byIP[ip := v], byID := e.byID[v.lease.identity := ip],
         bitmap := MarkBit(e.bitmap, e.start, ip, true), probes := e.probes + 1)
  {
  }

  lemma {:induction false} BoundedInsert(byIP: map<IPv4, Entry>, reserved: set<IPv4>, probes: int, capacity: int, ip: IPv4, v: Entry)
    requires ip !in byIP && Bounded(byIP, probes, byIP.Keys + reserved, capacity) && v.lease.state == Probing
    requires probes < 2 && |byIP.Keys + reserved| + (if ip in reserved then 0 else 1) <= capacity
    ensures Bounded(byIP[ip := v], probes + 1, byIP[ip := v].Keys + reserved, capacity)
  {
    ProbingUpdate(byIP, ip, v);
    var used := byIP.Keys + reserved;
    assert byIP[ip := v].Keys + reserved == used + {ip};
    assert ip in reserved ==> used + {ip} == used;
  }

  lemma {:induction false} BitmapInsert(bitmap: seq<bool>, start: IPv4, byIP: map<IPv4, Entry>, reserved: set<IPv4>, ip: IPv4, v: Entry)
    requires BitmapExact(bitmap, start, byIP.Keys + reserved)
    ensures BitmapExact(MarkBit(bitmap, start, ip, true), start, byIP[ip := v].Keys + reserved)
  {
    assert byIP[ip := v].Keys == byIP.Keys + {ip};
  }

  /** Adding a probing entry at a free address for an identity nothing uses. */
  lemma {:induction false} InsertKeeps(e: Engine, ip: IPv4, v: Entry)
    requires Inv(e) && ip !in e.byIP && v.lease.identity !in e.byID
    requires v.lease.state == Probing && EntryOK(ContextOf(e), ip, v) && v.token.sequence == e.sequence + 1
    requires e.probes < 2
    requires Occupied(e) + (if ip in e.reserved then 0 else 1) <= Capacity(e.settings)
    ensures Inv(Inserted(e, ip, v))
  {
    hide Installed, EntryOK, Active, Capacity, TokensUnique, TokensIssued, BitmapExact, IdsSound, IdsComplete, Bounded, EntriesOK, Inserted, MarkBit;
    InstalledPool(e);
    InsertShape(e, ip, v);
    BitmapInsert(e.bitmap, e.start, e.byIP, e.reserved.Keys, ip, v);
    BoundedInsert(e.byIP, e.reserved.Keys, e.probes, Capacity(e.settings), ip, v);
    IdsInsert(e.byIP, e.byID, ip, v);
    TokensUpdate(e.byIP, e.sequence, e.sequence + 1, ip, v);
    EntriesUpdate(ContextOf(e), e.byIP, ip, v);
    MarkSize(e.bitmap, e.start, ip, true);
  }
}
