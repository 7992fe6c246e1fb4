/** Runs of the whole lease service, and the guarantees that hold over all of them. */
module DhcpRuns {
  import opened Common
  import opened DhcpTypes
  import opened DhcpSettings
  import opened DhcpEngine
  import opened DhcpInvariant
  import opened DhcpSteps
  import opened DhcpStore
  import opened DhcpSystem

  // ---- crash safety ----

  /** The lease a row was written from. */
  lemma {:induction false} RowOrigin(c: Context, ip: IPv4, v: Entry, applied: set<Token>) returns (l: Lease)
    requires EntryOK(c, ip, v) && Expect(Some(v), applied).Some?
    ensures Expect(Some(v), applied) == Some(RowOf(l))
    ensures Storable(l) && l.address == ip && ReservedFor(c.reserved, l)
  {
    hide GoodOwner, RetainedTopology, ReservedFor, ValidRequest, Settled;
    l := if IsPending(v) && v.token in applied then v.pending else v.committed;
  }

  lemma {:induction false} StoredRowRecovers(ip: IPv4, l: Lease)
    requires Storable(l) && l.address == ip
    ensures ValidRecovered(LeaseOf(ip, RowOf(l))) && l.expiry.wall > 0
  {
    hide LeaseAddress, ValidLabel, UnicastMac;
  }

  lemma {:induction false} RowRecovers(e: Engine, t: Table, applied: set<Token>, ip: IPv4)
    requires Inv(e) && Agrees(e.byIP, t, applied) && ip in t
    ensures var l := LeaseOf(ip, t[ip]);
      && ValidRecovered(l) && RetainedTopology(e.settings, ip) && l.expiry.wall > 0
      && (ip in e.reserved ==> KeyMatches(e.reserved[ip], l))
  {
    hide Inv, EntryOK, ValidRecovered, RetainedTopology, Expect, Storable;
    assert RowAt(t, ip) == Expect(EntryIn(e.byIP, ip), applied);
    ExpectNone(applied);
    EntryAt(e, ip);
    var l := RowOrigin(ContextOf(e), ip, e.byIP[ip], applied);
    StoredRowRecovers(ip, l);
    EntryTopology(ContextOf(e), ip, e.byIP[ip]);
  }

  lemma {:induction false} EntryTopology(c: Context, ip: IPv4, v: Entry)
    requires EntryOK(c, ip, v)
    ensures RetainedTopology(c.settings, ip)
  {
    hide GoodOwner, RetainedTopology, ReservedFor, ValidRequest, Settled, InFlight, Storable;
  }

  /** Two bound rows never carry the same identity. */
  lemma {:induction false} BoundRowsDistinct(e: Engine, t: Table, applied: set<Token>, a: IPv4, b: IPv4)
    requires Inv(e) && Agrees(e.byIP, t, applied) && a in t && b in t
    requires t[a].state == Bound && t[b].state == Bound && t[a].identity == t[b].identity
    ensures a == b
  {
    hide Inv, Expect;
    ExpectNone(applied);
    assert RowAt(t, a) == Expect(EntryIn(e.byIP, a), applied) && RowAt(t, b) == Expect(EntryIn(e.byIP, b), applied);
    BoundRowActive(e, a, applied);
    BoundRowActive(e, b, applied);
  }

  lemma {:induction false} DistinctCount(leases: seq<Lease>)
    requires forall i, j | 0 <= i < j < |leases| :: leases[i].address != leases[j].address
    ensures |AddressesOf(leases)| == |leases|
  {
    if leases == [] {
      assert AddressesOf(leases) == {};
    } else {
      var n := |leases| - 1;
      var init := leases[..n];
      assert forall i | 0 <= i < n :: init[i] == leases[i];
      DistinctCount(init);
      assert AddressesOf(leases) == AddressesOf(init) + {leases[n].address};
      assert leases[n].address !in AddressesOf(init);
    }
  }

  lemma {:induction false} SnapshotAddresses(t: Table, leases: seq<Lease>)
    requires IsSnapshot(t, leases)
    ensures AddressesOf(leases) == t.Keys && |leases| == |t|
  {
    DistinctCount(leases);
    forall ip | ip in t ensures ip in AddressesOf(leases) {
      var i :| 0 <= i < |leases| && leases[i].address == ip;
    }
  }

  lemma {:induction false} SnapshotRow(e: Engine, t: Table, applied: set<Token>, leases: seq<Lease>, i: nat)
    requires Inv(e) && Agrees(e.byIP, t, applied) && IsSnapshot(t, leases) && i < |leases|
    ensures ValidRecovered(leases[i]) && RetainedTopology(e.settings, leases[i].address)
    ensures leases[i].address in e.reserved ==> KeyMatches(e.reserved[leases[i].address], leases[i])
    ensures leases[i].expiry.wall > 0 && leases[i].expiry.mono.None? && leases[i].hold.mono.None?
  {
    hide Inv, Agrees, ValidRecovered, RetainedTopology, KeyMatches, LeaseOf;
    RowRecovers(e, t, applied, leases[i].address);
    LeaseOfFields(leases[i].address, t[leases[i].address]);
  }

  lemma {:induction false} SnapshotPair(e: Engine, t: Table, applied: set<Token>, leases: seq<Lease>, i: nat, j: nat)
    requires Inv(e) && Agrees(e.byIP, t, applied) && IsSnapshot(t, leases) && i < j < |leases|
    ensures leases[i].address != leases[j].address
    ensures !(leases[i].state == Bound && leases[j].state == Bound && leases[i].identity == leases[j].identity)
  {
    hide Inv, Agrees, LeaseOf;
    LeaseOfFields(leases[i].address, t[leases[i].address]);
    LeaseOfFields(leases[j].address, t[leases[j].address]);
    if leases[i].state == Bound && leases[j].state == Bound && leases[i].identity == leases[j].identity {
      BoundRowsDistinct(e, t, applied, leases[i].address, leases[j].address);
    }
  }

  lemma {:induction false} SnapshotRoom(e: Engine, t: Table, applied: set<Token>, leases: seq<Lease>)
    requires Inv(e) && Agrees(e.byIP, t, applied) && IsSnapshot(t, leases)
    ensures |leases| <= Capacity(e.settings) && |AddressesOf(leases) + e.reserved.Keys| <= Capacity(e.settings)
  {
    hide Inv, Agrees, IsSnapshot, Capacity;
    SnapshotAddresses(t, leases);
    TableBounded(e, t, applied);
    SubsetSize(t.Keys + e.reserved.Keys, e.byIP.Keys + e.reserved.Keys);
  }

  /**
   Crash safety. In every state, whichever outstanding writes have reached the disk, the rows on
   disk are a snapshot recovery accepts under the settings in force, in any listing order.
   */
  lemma {:induction false} CrashSafe(y: System, leases: seq<Lease>)
    requires SysInv(y) && IsSnapshot(y.store.table, leases)
    ensures Restorable(y.engine.settings, leases) && FromDisk(leases)
  {
    hide Inv, Agrees, ValidRecovered, RetainedTopology, KeyMatches, ReservedOf, Pipeline, IsSnapshot, Capacity, Applied, AddressesOf;
    var e, t, applied := y.engine, y.store.table, Applied(y.store);
    InstalledReserved(e);
    SnapshotRoom(e, t, applied, leases);
    forall i | 0 <= i < |leases|
      ensures ValidRecovered(leases[i]) && RetainedTopology(e.settings, leases[i].address)
      ensures leases[i].address in e.reserved ==> KeyMatches(e.reserved[leases[i].address], leases[i])
      ensures leases[i].expiry.wall > 0 && leases[i].expiry.mono.None? && leases[i].hold.mono.None?
    {
      SnapshotRow(e, t, applied, leases, i);
    }
    forall i, j | 0 <= i < j < |leases|
      ensures leases[i].address != leases[j].address
      ensures !(leases[i].state == Bound && leases[j].state == Bound && leases[i].identity == leases[j].identity)
    {
      SnapshotPair(e, t, applied, leases, i, j);
    }
  }

  lemma {:induction false} LeaseOfFields(ip: IPv4, r: Row)
    ensures var l := LeaseOf(ip, r);
      l.state == r.state && l.identity == r.identity && l.expiry.mono.None? && l.hold.mono.None?
  {
  }

  lemma {:induction false} InstalledReserved(e: Engine)
    requires Inv(e)
    ensures e.reserved == ReservedOf(e.settings.reservations)
  {
    InstalledOf(e);
    hide Inv, ValidSettings, TopologyOK, ReservedOf;
  }

  /** So a restart with the same settings succeeds as soon as the wall clock has caught up. */
  lemma {:induction false} CrashRecovers(y: System, leases: seq<Lease>, generation: nat, now: Sample)
    requires SysInv(y) && IsSnapshot(y.store.table, leases) && now.wall >= y.store.lastKnown
    ensures Restore(NewEngine(y.engine.settings, generation), leases, y.store.lastKnown, now).Some?
  {
    hide SysInv, IsSnapshot, Restorable, ReservedOf, ReservationsOf, PoolBits, FromDisk;
    CrashSafe(y, leases);
  }

  // ---- runs ----

  datatype Step =
    | Packet(request: Request, at: Sample, cancelled: bool, probeRefused: bool, later: Sample)
    | ProbeEnds(result: ProbeResult, at: Sample, cancelled: bool, probeRefused: bool, later: Sample)
    | WriteEnds(at: Sample, probeRefused: bool, later: Sample)
    | Ticks(order: seq<IPv4>, at: Sample, stops: seq<bool>, later: Sample)
    | Configure(settings: Settings, generation: nat)
    | Writes(n: nat, wall: int, disk: Disk)
    | Restart(settings: Settings, generation: nat, leases: seq<Lease>, at: Sample)

  ghost predicate Possible(y: System, step: Step) {
    match step
    case Packet(_, at, _, _, later) => GoodSample(at) && GoodSample(later)
    case ProbeEnds(_, at, _, _, later) => GoodSample(at) && GoodSample(later)
    case WriteEnds(at, _, later) => GoodSample(at) && GoodSample(later) && |y.store.results| > 0
    case Ticks(_, at, _, later) => GoodSample(at) && GoodSample(later)
    case Configure(_, _) => true
    case Writes(n, _, _) => 1 <= n <= |y.store.queue| && n <= BATCH_LIMIT
    case Restart(s, g, leases, at) =>
      && GoodSample(at) && ValidSettings(s) && g > 0 && IsSnapshot(y.store.table, leases) && FromDisk(leases)
      && Restore(NewEngine(s, g), leases, y.store.lastKnown, at).Some?
  }

  /** The scheduler had no room: the probe ends at once as failed. */
  ghost function ProbeAdmission(y: System, probe: Option<Probe>, refused: bool, later: Sample): System {
    if probe.Some? && refused then
      y.(engine := CompleteProbe(y.engine, ProbeResult(probe.value.token, false, true), later).0)
    else y
  }

  /** What the owner does with the outcome of an engine call. */
  ghost function AfterCall(y: System, e: Engine, o: Outcome, cancelled: bool, probeRefused: bool, later: Sample): System {
    var y1 := DispatchAll(y.(engine := e), Mutations(o.mutation), [cancelled], later);
    ProbeAdmission(y1, o.probe, probeRefused, later)
  }

  ghost function Do(y: System, step: Step): System
    requires Possible(y, step)
  {
    match step
    case Packet(r, at, cancelled, probeRefused, later) =>
      var (e, o) := Handle(y.engine, r, at);
      AfterCall(y, e, o, cancelled, probeRefused, later)
    case ProbeEnds(p, at, cancelled, probeRefused, later) =>
      var (e, o) := CompleteProbe(y.engine, p, at);
      AfterCall(y, e, o, cancelled, probeRefused, later)
    case WriteEnds(at, probeRefused, later) =>
      var (e, o) := CompleteCommit(y.engine, y.store.results[0], at);
      ProbeAdmission(System(e, y.store.(results := y.store.results[1..])), o.probe, probeRefused, later)
    case Ticks(order, at, stops, later) =>
      var (e, out) := Tick(y.engine, order, at);
      DispatchAll(y.(engine := e), out, stops, later)
    case Configure(s, g) => y.(engine := Apply(y.engine, s, g).0)
    case Writes(n, wall, disk) => y.(store := Work(y.store, n, wall, disk))
    case Restart(s, g, leases, at) =>
      var e := Restore(NewEngine(s, g), leases, y.store.lastKnown, at).value;
      System(e, Reopened(y.store))
  }

  /** Reopening drops the queue, pending results and the error latch; the rows stay. */
  function Reopened(s: Store): Store {
    Store(s.table, s.lastKnown, s.capacity, [], [], {}, false, false, NO_TOKEN)
  }

  /** The reply the engine produced in a step, with the instant it was produced. */
  ghost function ReplyOf(y: System, step: Step): Option<(Reply, Sample)>
    requires Possible(y, step)
  {
    match step
    case Packet(r, at, _, _, _) => Stamped(Handle(y.engine, r, at).1.reply, at)
    case ProbeEnds(p, at, _, _, _) => Stamped(CompleteProbe(y.engine, p, at).1.reply, at)
    case WriteEnds(at, _, _) => Stamped(CompleteCommit(y.engine, y.store.results[0], at).1.reply, at)
    case _ => None
  }

  function Stamped(r: Option<Reply>, at: Sample): Option<(Reply, Sample)> {
    if r.Some? then Some((r.value, at)) else None
  }

  // ---- every step keeps the system invariant ----

  lemma {:induction false} ProbeAdmissionKeeps(y: System, probe: Option<Probe>, refused: bool, later: Sample)
    requires SysInv(y) && GoodSample(later)
    ensures SysInv(ProbeAdmission(y, probe, refused, later))
  {
    hide SysInv, CompleteProbe, EngineStep, Inv, ReplyOK;
    if probe.Some? && refused {
      var p := ProbeResult(probe.value.token, false, true);
      SysEngine(y);
      CompleteProbeKeeps(y.engine, p, later);
      ProbeConfig(y.engine, p, later);
      var (e', o) := CompleteProbe(y.engine, p, later);
      EngineStepKeeps(y, e', Mutations(o.mutation), later, None);
    }
  }

  lemma {:induction false} AfterCallKeeps(y: System, e: Engine, o: Outcome, at: Sample, released: Option<(Identity, IPv4)>, cancelled: bool, probeRefused: bool, later: Sample)
    requires SysInv(y) && Good(y.engine, e, o, at, released) && e.generation == y.engine.generation && GoodSample(later)
    ensures SysInv(AfterCall(y, e, o, cancelled, probeRefused, later))
  {
    hide SysInv, EngineStep, Inv, DispatchAll, ProbeAdmission, MutationsOf, ReplyOK, FreshOut;
    var out := Mutations(o.mutation);
    EngineStepKeeps(y, e, out, at, released);
    StepSequence(y.engine, e, out, at, released);
    OutIsFresh(y, e, out);
    DispatchAllKeeps(y.(engine := e), out, [cancelled], later);
    ProbeAdmissionKeeps(DispatchAll(y.(engine := e), out, [cancelled], later), o.probe, probeRefused, later);
  }

  lemma {:induction false} NoneOutstanding(y: System)
    requires SysInv(y) && forall ip :: ip in y.engine.byIP ==> !IsPending(y.engine.byIP[ip])
    ensures y.store.queue == [] && y.store.results == [] && y.store.orphans == {}
  {
    hide Inv, Agrees;
    assert y.store.queue != [] ==> MutationOf(y.engine, y.store.queue[0]);
    assert y.store.results != [] ==> Outstanding(y.engine, y.store.results[0].token);
  }

  lemma {:induction false} ConfigureKeeps(y: System, s: Settings, g: nat)
    requires SysInv(y)
    ensures SysInv(y.(engine := Apply(y.engine, s, g).0))
  {
    hide Inv, Agrees, ApplyDone, EngineStep, ApplyCheck, Pipeline, Succeeded, ApplyChecked;
    if ApplyCheck(y.engine, s, g).None? {
      ApplyCheckMeans(y.engine, s, g);
      ApplyKeeps(y.engine, s, g, Sample(1, 0));
      ApplyNoPending(y.engine, s, g);
      NoneOutstanding(y);
      var e' := ApplyDone(y.engine, s, g);
      EmptyPipeline(e', y.store);
      SucceededNothing(y.store);
      AgreesStep(y.engine, e', [], Sample(1, 0), None, y.store.table, Applied(y.store));
      ApplyShape(y.engine, s, g);
    } else {
      assert y.(engine := y.engine) == y;
    }
  }

  lemma {:induction false} SucceededNothing(s: Store)
    requires s.results == [] && s.orphans == {}
    ensures Applied(s) == {}
  {
  }

  lemma {:induction false} EmptyPipeline(e: Engine, s: Store)
    requires s.queue == [] && s.results == [] && s.orphans == {}
    ensures Pipeline(e, s)
  {
  }

  lemma {:induction false} ApplyNoPending(e: Engine, s: Settings, g: nat)
    requires ApplyChecked(e, s, g)
    ensures forall ip :: ip in e.byIP ==> !IsPending(e.byIP[ip])
    ensures g > e.generation
  {
    hide ValidTransition, RetainedTopology, ReservedOf, KeyMatches, KeptEntries, Capacity;
  }

  lemma {:induction false} RestartKeeps(y: System, s: Settings, g: nat, leases: seq<Lease>, at: Sample)
    requires SysInv(y) && Possible(y, Restart(s, g, leases, at))
    ensures SysInv(Do(y, Restart(s, g, leases, at)))
  {
    hide Inv, Agrees, ValidSettings, Pipeline, IsSnapshot, Restorable, RecoveredEntries, RecoveredIds, PoolBits, ReservedOf, ReservationsOf;
    var y' := Do(y, Restart(s, g, leases, at));
    RestoreKeeps(s, g, leases, y.store.lastKnown, at);
    EmptyPipeline(y'.engine, y'.store);
    SucceededNothing(y'.store);
    RestoredAgrees(s, y.store.table, leases, at);
  }

  /** The recovered engine believes exactly what the table says. */
  lemma {:induction false} RestoredAgrees(s: Settings, t: Table, leases: seq<Lease>, at: Sample)
    requires IsSnapshot(t, leases) && Restorable(s, leases)
    ensures Agrees(RecoveredEntries(leases, at), t, {})
  {
    hide Restorable, IsSnapshot, RecoveredEntries, Expect;
    forall ip ensures RowAt(t, ip) == Expect(EntryIn(RecoveredEntries(leases, at), ip), {}) {
      RestoredRow(s, t, leases, at, ip);
    }
  }

  lemma {:induction false} RestoredRow(s: Settings, t: Table, leases: seq<Lease>, at: Sample, ip: IPv4)
    requires IsSnapshot(t, leases) && Restorable(s, leases)
    ensures RowAt(t, ip) == Expect(EntryIn(RecoveredEntries(leases, at), ip), {})
  {
    hide ValidRecovered, RetainedTopology, KeyMatches, ReservedOf, Capacity, RecoveredEntries, LeaseOf, RowOf, AddressesOf;
    SnapshotAddresses(t, leases);
    RecoveredKeys(leases, at);
    if ip in t {
      var i :| 0 <= i < |leases| && leases[i].address == ip;
      assert ValidRecovered(leases[i]);
      RecoveredFields(leases[i], at);
      RecoveredAt(leases, at, i);
      RowRoundTrip(ip, t[ip]);
      RecoveredNotPending(leases[i], at);
    }
  }

  lemma {:induction false} RecoveredNotPending(l: Lease, at: Sample)
    requires ValidRecovered(l)
    ensures !IsPending(Recovered(l, at)) && Recovered(l, at).durable && Recovered(l, at).committed == l
  {
    hide LeaseAddress, ValidLabel, UnicastMac;
  }

  lemma {:induction false} RowRoundTrip(ip: IPv4, r: Row)
    ensures RowOf(LeaseOf(ip, r)) == r
  {
  }

  /** The system invariant survives every possible step. */
  lemma {:induction false} StepKeeps(y: System, step: Step)
    requires SysInv(y) && Possible(y, step)
    ensures SysInv(Do(y, step))
  {
    hide SysInv, Handle, CompleteProbe, CompleteCommit, Tick, Work, Good, EngineStep, Inv, AfterCall, ProbeAdmission, DispatchAll, MutationsOf, Apply, FreshOut;
    SysEngine(y);
    match step
    case Packet(r, at, cancelled, probeRefused, later) =>
      HandleKeeps(y.engine, r, at);
      HandleConfig(y.engine, r, at);
      var (e, o) := Handle(y.engine, r, at);
      AfterCallKeeps(y, e, o, at, ReleasedBy(r), cancelled, probeRefused, later);
    case ProbeEnds(p, at, cancelled, probeRefused, later) =>
      CompleteProbeKeeps(y.engine, p, at);
      ProbeConfig(y.engine, p, at);
      var (e, o) := CompleteProbe(y.engine, p, at);
      AfterCallKeeps(y, e, o, at, None, cancelled, probeRefused, later);
    case WriteEnds(at, probeRefused, later) =>
      WriteDoneKeeps(y, at);
      var (e, o) := CompleteCommit(y.engine, y.store.results[0], at);
      ProbeAdmissionKeeps(System(e, y.store.(results := y.store.results[1..])), o.probe, probeRefused, later);
    case Ticks(order, at, stops, later) =>
      TickKeeps(y.engine, order, at);
      TickSame(y.engine, order, at);
      var (e, out) := Tick(y.engine, order, at);
      EngineStepKeeps(y, e, out, at, None);
      StepSequence(y.engine, e, out, at, None);
      OutIsFresh(y, e, out);
      DispatchAllKeeps(y.(engine := e), out, stops, later);
    case Configure(s, g) => ConfigureKeeps(y, s, g);
    case Writes(n, wall, disk) => WorkKeeps(y, n, wall, disk);
    case Restart(s, g, leases, at) => RestartKeeps(y, s, g, leases, at);
  }

  lemma {:induction false} TickSame(e: Engine, order: seq<IPv4>, now: Sample)
    ensures SameConfig(e, Tick(e, order, now).0)
  {
    hide TickAll;
    var (e1, ok) := Now(e, now);
    if ok { TickConfig(e1, order, now); }
  }

  // ---- reachable states ----

  ghost predicate Run(y: System, steps: seq<Step>)
    decreases |steps|
  {
    steps == [] || (Possible(y, steps[0]) && Run(Do(y, steps[0]), steps[1..]))
  }

  ghost function After(y: System, steps: seq<Step>): System
    requires Run(y, steps)
    decreases |steps|
  {
    if steps == [] then y else After(Do(y, steps[0]), steps[1..])
  }

  /** A fresh installation: validated settings, an empty table. */
  function First(s: Settings, generation: nat, lastKnown: int): System {
    System(NewEngine(s, generation), Store(map[], lastKnown, MAXIMUM_LEASES, [], [], {}, false, false, NO_TOKEN))
  }

  lemma {:induction false} FirstGood(s: Settings, generation: nat, lastKnown: int)
    requires ValidSettings(s) && generation > 0
    ensures SysInv(First(s, generation, lastKnown))
  {
    hide Inv, ValidSettings, Pipeline, PoolBits, ReservedOf, ReservationsOf;
    var y := First(s, generation, lastKnown);
    NewEngineGood(s, generation);
    EmptyPipeline(y.engine, y.store);
    SucceededNothing(y.store);
  }

  lemma {:induction false} RunKeeps(y: System, steps: seq<Step>)
    requires SysInv(y) && Run(y, steps)
    ensures SysInv(After(y, steps))
    decreases |steps|
  {
    hide SysInv, Possible, Do;
    if steps != [] {
      StepKeeps(y, steps[0]);
      RunKeeps(Do(y, steps[0]), steps[1..]);
    }
  }

  /** Engine and table agree, and every crash is recoverable, in every reachable state. */
  lemma {:induction false} ReachableCrashSafe(s: Settings, generation: nat, lastKnown: int, steps: seq<Step>, leases: seq<Lease>)
    requires ValidSettings(s) && generation > 0 && Run(First(s, generation, lastKnown), steps)
    requires IsSnapshot(After(First(s, generation, lastKnown), steps).store.table, leases)
    ensures var y := After(First(s, generation, lastKnown), steps);
      SysInv(y) && Restorable(y.engine.settings, leases)
  {
    hide SysInv, ValidSettings, Run, After, First, IsSnapshot, Restorable, FromDisk;
    FirstGood(s, generation, lastKnown);
    RunKeeps(First(s, generation, lastKnown), steps);
    CrashSafe(After(First(s, generation, lastKnown), steps), leases);
  }

  // ---- no double grant ----

  /** The engine is committed to keeping an address for an identity until an instant. */
  ghost predicate Holds(e: Engine, ip: IPv4, id: Identity, until: int) {
    && ip in e.byIP
    && e.byIP[ip].durable && e.byIP[ip].lease.identity == id && until <= e.byIP[ip].timing.hold
    && !(IsPending(e.byIP[ip]) && e.byIP[ip].mutation == DeleteLease)
  }

  lemma {:induction false} HoldsStep(e: Engine, e': Engine, out: seq<Mutation>, now: Sample, released: Option<(Identity, IPv4)>, ip: IPv4, id: Identity, until: int)
    requires Inv(e) && EngineStep(e, e', out, now, released) && Holds(e, ip, id, until)
    requires now.mono < until && released != Some((id, ip))
    ensures Holds(e', ip, id, until)
  {
    hide Inv, MutationsOf;
    EntryAt(e, ip);
    EntryAddress(ContextOf(e), ip, e.byIP[ip]);
    hide EntryOK;
    assert EntryStep(EntryIn(e.byIP, ip), EntryIn(e'.byIP, ip), e.sequence, out, now, released);
  }

  lemma {:induction false} HoldsCommit(e: Engine, e': Engine, c: CommitResult, now: Sample, ip: IPv4, id: Identity, until: int)
    requires Inv(e) && CommitStep(e, e', c, now) && Holds(e, ip, id, until)
    ensures Holds(e', ip, id, until)
  {
    hide Inv;
    EntryAt(e, ip);
    PendingTiming(ContextOf(e), ip, e.byIP[ip]);
    hide EntryOK;
    assert !Awaiting(e, ip, c.token) ==> EntryStep(EntryIn(e.byIP, ip), EntryIn(e'.byIP, ip), e.sequence, [], now, None);
  }

  lemma {:induction false} PendingTiming(c: Context, ip: IPv4, v: Entry)
    requires EntryOK(c, ip, v)
    ensures IsPending(v) && v.mutation == PutLease ==> v.timing.hold <= v.pendingTiming.hold
    ensures IsPending(v) ==> v.mutation in {PutLease, DeleteLease}
  {
    hide GoodOwner, RetainedTopology, ReservedFor, ValidRequest, Settled, Storable;
  }

  /** Instants a step reads from the monotonic clock. */
  function Instants(step: Step): set<int> {
    match step
    case Packet(_, at, _, _, later) => {at.mono, later.mono}
    case ProbeEnds(_, at, _, _, later) => {at.mono, later.mono}
    case WriteEnds(at, _, later) => {at.mono, later.mono}
    case Ticks(_, at, _, later) => {at.mono, later.mono}
    case Configure(_, _) => {}
    case Writes(_, _, _) => {}
    case Restart(_, _, _, at) => {at.mono}
  }

  ghost predicate EndsBefore(step: Step, until: int) { forall m :: m in Instants(step) ==> m < until }

  /** The client gives its address back. */
  predicate Releases(step: Step, id: Identity, ip: IPv4) {
    step.Packet? && ReleasedBy(step.request) == Some((id, ip))
  }

  /** How far the wall clock is ahead of elapsed time. */
  function Offset(s: Sample): int { s.wall - s.mono }

  /** A commitment whose stored horizon, read at offset d, reaches the promised instant. */
  ghost predicate Pledged(e: Engine, ip: IPv4, id: Identity, until: int, d: int) {
    Holds(e, ip, id, until) && e.byIP[ip].committed.hold.wall >= until + d
  }

  /** Committed horizons never shrink while a commitment stands. */
  lemma {:induction false} PledgeStep(e: Engine, e': Engine, out: seq<Mutation>, now: Sample, released: Option<(Identity, IPv4)>, ip: IPv4, id: Identity, until: int, d: int)
    requires Inv(e) && EngineStep(e, e', out, now, released) && Pledged(e, ip, id, until, d)
    requires now.mono < until && released != Some((id, ip))
    ensures Pledged(e', ip, id, until, d)
  {
    hide MutationsOf, Inv;
    HoldsStep(e, e', out, now, released, ip, id, until);
    assert EntryStep(EntryIn(e.byIP, ip), EntryIn(e'.byIP, ip), e.sequence, out, now, released);
  }

  lemma {:induction false} PledgeCommit(e: Engine, e': Engine, c: CommitResult, now: Sample, ip: IPv4, id: Identity, until: int, d: int)
    requires Inv(e) && CommitStep(e, e', c, now) && Pledged(e, ip, id, until, d)
    ensures Pledged(e', ip, id, until, d)
  {
    hide Inv, EntryOK;
    HoldsCommit(e, e', c, now, ip, id, until);
    EntryAt(e, ip);
    PendingHold(ContextOf(e), ip, e.byIP[ip]);
    assert !Awaiting(e, ip, c.token) ==> EntryStep(EntryIn(e.byIP, ip), EntryIn(e'.byIP, ip), e.sequence, [], now, None);
  }

  lemma {:induction false} PendingHold(c: Context, ip: IPv4, v: Entry)
    requires EntryOK(c, ip, v)
    ensures IsPending(v) && v.mutation == PutLease && v.durable ==> v.committed.hold.wall <= v.pending.hold.wall
    ensures IsPending(v) ==> v.mutation in {PutLease, DeleteLease}
    ensures IsPending(v) && v.mutation == PutLease ==> v.pending.identity == v.lease.identity && v.pending.address == ip
    ensures v.durable ==> v.committed.identity == v.lease.identity
  {
    hide GoodOwner, RetainedTopology, ReservedFor, ValidRequest, Settled, Storable;
  }

  lemma {:induction false} PledgeDispatch(y: System, out: seq<Mutation>, stops: seq<bool>, later: Sample, ip: IPv4, id: Identity, until: int, d: int)
    requires SysInv(y) && FreshOut(y, out) && GoodSample(later) && Pledged(y.engine, ip, id, until, d)
    ensures Pledged(DispatchAll(y, out, stops, later).engine, ip, id, until, d)
    decreases |out|
  {
    hide SysInv, FreshOut, Pledged, CompleteCommit, CommitStep, Inv, ReplyOK;
    if out != [] {
      var stop := stops != [] && stops[0];
      FirstFresh(y, out);
      DispatchKeeps(y, out[0], stop, later);
      FreshOutAfter(y, out, stop, later);
      SysEngine(y);
      var c := CommitResult(out[0].token, true);
      CompleteCommitKeeps(y.engine, c, later);
      PledgeCommit(y.engine, CompleteCommit(y.engine, c, later).0, c, later, ip, id, until, d);
      PledgeDispatch(Dispatch(y, out[0], stop, later), out[1..], if stops == [] then [] else stops[1..], later, ip, id, until, d);
    }
  }

  lemma {:induction false} PledgeProbe(y: System, probe: Option<Probe>, refused: bool, later: Sample, ip: IPv4, id: Identity, until: int, d: int)
    requires SysInv(y) && GoodSample(later) && Pledged(y.engine, ip, id, until, d) && later.mono < until
    ensures Pledged(ProbeAdmission(y, probe, refused, later).engine, ip, id, until, d)
  {
    hide SysInv, Pledged, CompleteProbe, EngineStep, Inv, ReplyOK;
    if probe.Some? && refused {
      SysEngine(y);
      var p := ProbeResult(probe.value.token, false, true);
      CompleteProbeKeeps(y.engine, p, later);
      var (e', o) := CompleteProbe(y.engine, p, later);
      PledgeStep(y.engine, e', Mutations(o.mutation), later, None, ip, id, until, d);
    }
  }

  lemma {:induction false} PledgeAfterCall(y: System, e: Engine, o: Outcome, at: Sample, released: Option<(Identity, IPv4)>,
                        cancelled: bool, probeRefused: bool, later: Sample, ip: IPv4, id: Identity, until: int, d: int)
    requires SysInv(y) && Good(y.engine, e, o, at, released) && e.generation == y.engine.generation && GoodSample(later)
    requires Pledged(e, ip, id, until, d) && later.mono < until
    ensures Pledged(AfterCall(y, e, o, cancelled, probeRefused, later).engine, ip, id, until, d)
  {
    hide SysInv, EngineStep, Inv, DispatchAll, ProbeAdmission, MutationsOf, ReplyOK, FreshOut, Pledged;
    var out := Mutations(o.mutation);
    EngineStepKeeps(y, e, out, at, released);
    StepSequence(y.engine, e, out, at, released);
    OutIsFresh(y, e, out);
    var y1 := y.(engine := e);
    DispatchAllKeeps(y1, out, [cancelled], later);
    PledgeDispatch(y1, out, [cancelled], later, ip, id, until, d);
    PledgeProbe(DispatchAll(y1, out, [cancelled], later), o.probe, probeRefused, later, ip, id, until, d);
  }

  /** A restart turns the stored horizon back into a runtime hold. */
  lemma {:induction false} PledgeRestart(y: System, s: Settings, g: nat, leases: seq<Lease>, at: Sample, ip: IPv4, id: Identity, until: int, d: int)
    requires SysInv(y) && Possible(y, Restart(s, g, leases, at)) && Pledged(y.engine, ip, id, until, d) && Offset(at) <= d
    ensures Pledged(Do(y, Restart(s, g, leases, at)).engine, ip, id, until, d)
  {
    hide Inv, ValidSettings, Pipeline, Restorable, RecoveredIds, ReservedOf, ReservationsOf, PoolBits, Applied, ValidRecovered;
    var t, applied := y.store.table, Applied(y.store);
    EntryAt(y.engine, ip);
    PendingHold(ContextOf(y.engine), ip, y.engine.byIP[ip]);
    hide EntryOK;
    assert RowAt(t, ip) == Expect(EntryIn(y.engine.byIP, ip), applied);
    assert ip in t && t[ip].identity == id && t[ip].hold >= until + d;
    RestoredHold(s, t, leases, at, ip);
  }

  lemma {:induction false} RestoredHold(s: Settings, t: Table, leases: seq<Lease>, at: Sample, ip: IPv4)
    requires IsSnapshot(t, leases) && Restorable(s, leases) && ip in t
    ensures ip in RecoveredEntries(leases, at)
    ensures var v := RecoveredEntries(leases, at)[ip];
      && v.durable && v.lease.identity == t[ip].identity && v.timing.hold == t[ip].hold - Offset(at)
      && v.committed.hold.wall == t[ip].hold && !IsPending(v)
  {
    hide RetainedTopology, KeyMatches, ReservedOf, Capacity, RecoveredEntries, AddressesOf;
    var i :| 0 <= i < |leases| && leases[i].address == ip;
    RecoveredAt(leases, at, i);
    assert ValidRecovered(leases[i]);
    RecoveredNotPending(leases[i], at);
    hide ValidRecovered;
  }

  /** A commitment survives every step before its deadline except a release; a restart re-anchors it. */
  lemma {:induction false} PledgeDo(y: System, step: Step, ip: IPv4, id: Identity, until: int, d: int)
    requires SysInv(y) && Possible(y, step) && Pledged(y.engine, ip, id, until, d)
    requires EndsBefore(step, until) && !Releases(step, id, ip) && (step.Restart? ==> Offset(step.at) <= d)
    ensures Pledged(Do(y, step).engine, ip, id, until, d)
  {
    hide SysInv, Handle, CompleteProbe, CompleteCommit, Tick, Work, EngineStep, Inv, AfterCall, ProbeAdmission, DispatchAll, MutationsOf, ApplyDone, ApplyCheck, FreshOut, Pledged, ReplyOK, CommitStep, Restore, NewEngine, ValidSettings, IsSnapshot;
    SysEngine(y);
    match step
    case Packet(r, at, cancelled, probeRefused, later) =>
      assert at.mono in Instants(step) && later.mono in Instants(step);
      HandleKeeps(y.engine, r, at);
      HandleConfig(y.engine, r, at);
      var (e, o) := Handle(y.engine, r, at);
      PledgeStep(y.engine, e, Mutations(o.mutation), at, ReleasedBy(r), ip, id, until, d);
      PledgeAfterCall(y, e, o, at, ReleasedBy(r), cancelled, probeRefused, later, ip, id, until, d);
    case ProbeEnds(p, at, cancelled, probeRefused, later) =>
      assert at.mono in Instants(step) && later.mono in Instants(step);
      CompleteProbeKeeps(y.engine, p, at);
      ProbeConfig(y.engine, p, at);
      var (e, o) := CompleteProbe(y.engine, p, at);
      PledgeStep(y.engine, e, Mutations(o.mutation), at, None, ip, id, until, d);
      PledgeAfterCall(y, e, o, at, None, cancelled, probeRefused, later, ip, id, until, d);
    case WriteEnds(at, probeRefused, later) =>
      assert at.mono in Instants(step) && later.mono in Instants(step);
      WriteDoneKeeps(y, at);
      CompleteCommitKeeps(y.engine, y.store.results[0], at);
      var (e, o) := CompleteCommit(y.engine, y.store.results[0], at);
      PledgeCommit(y.engine, e, y.store.results[0], at, ip, id, until, d);
      PledgeProbe(System(e, y.store.(results := y.store.results[1..])), o.probe, probeRefused, later, ip, id, until, d);
    case Ticks(order, at, stops, later) =>
      assert at.mono in Instants(step) && later.mono in Instants(step);
      TickKeeps(y.engine, order, at);
      TickSame(y.engine, order, at);
      var (e, out) := Tick(y.engine, order, at);
      PledgeStep(y.engine, e, out, at, None, ip, id, until, d);
      EngineStepKeeps(y, e, out, at, None);
      StepSequence(y.engine, e, out, at, None);
      OutIsFresh(y, e, out);
      PledgeDispatch(y.(engine := e), out, stops, later, ip, id, until, d);
    case Configure(s, g) =>
      if ApplyCheck(y.engine, s, g).None? {
        var early := Sample(1, until - 1);
        ApplyKeeps(y.engine, s, g, early);
        PledgeStep(y.engine, ApplyDone(y.engine, s, g), [], early, None, ip, id, until, d);
      }
    case Writes(n, wall, disk) =>
    case Restart(s, g, leases, at) => PledgeRestart(y, s, g, leases, at, ip, id, until, d);
  }

  lemma {:induction false} PledgeRun(y: System, steps: seq<Step>, ip: IPv4, id: Identity, until: int, d: int)
    requires SysInv(y) && Run(y, steps) && Pledged(y.engine, ip, id, until, d)
    requires forall i | 0 <= i < |steps| ::
               EndsBefore(steps[i], until) && !Releases(steps[i], id, ip) && (steps[i].Restart? ==> Offset(steps[i].at) <= d)
    ensures SysInv(After(y, steps)) && Pledged(After(y, steps).engine, ip, id, until, d)
    decreases |steps|
  {
    hide SysInv, Possible, Do, Pledged, EndsBefore, Releases, Offset;
    if steps != [] {
      StepKeeps(y, steps[0]);
      PledgeDo(y, steps[0], ip, id, until, d);
      PledgeRun(Do(y, steps[0]), steps[1..], ip, id, until, d);
    }
  }

  /** The engine state in which a step's reply was produced, before its outcome is dispatched. */
  ghost function Answering(y: System, step: Step): Engine
    requires Possible(y, step)
  {
    match step
    case Packet(r, at, _, _, _) => Handle(y.engine, r, at).0
    case ProbeEnds(p, at, _, _, _) => CompleteProbe(y.engine, p, at).0
    case WriteEnds(at, _, _) => CompleteCommit(y.engine, y.store.results[0], at).0
    case _ => y.engine
  }

  /** Every reply that names an address names one held for that client. */
  lemma {:induction false} ReplyHonest(y: System, step: Step)
    requires SysInv(y) && Possible(y, step) && ReplyOf(y, step).Some?
    ensures ReplyOK(Answering(y, step), Some(ReplyOf(y, step).value.0), ReplyOf(y, step).value.1)
    ensures Inv(Answering(y, step))
  {
    hide SysInv, Handle, CompleteProbe, CompleteCommit, EngineStep, Inv, ReplyOK, CommitStep;
    SysEngine(y);
    match step
    case Packet(r, at, _, _, _) => HandleKeeps(y.engine, r, at);
    case ProbeEnds(p, at, _, _, _) => CompleteProbeKeeps(y.engine, p, at);
    case WriteEnds(at, _, _) => CompleteCommitKeeps(y.engine, y.store.results[0], at);
    case _ =>
  }

  /** A commitment still stands at the moment of the next reply. */
  lemma {:induction false} HoldsAnswering(y: System, step: Step, ip: IPv4, id: Identity, until: int)
    requires SysInv(y) && Possible(y, step) && Holds(y.engine, ip, id, until)
    requires ReplyOf(y, step).Some? && ReplyOf(y, step).value.1.mono < until && !Releases(step, id, ip)
    ensures Holds(Answering(y, step), ip, id, until)
  {
    hide SysInv, Handle, CompleteProbe, CompleteCommit, EngineStep, Inv, Holds, ReplyOK, CommitStep;
    SysEngine(y);
    match step
    case Packet(r, at, _, _, _) =>
      HandleKeeps(y.engine, r, at);
      var (e, o) := Handle(y.engine, r, at);
      HoldsStep(y.engine, e, Mutations(o.mutation), at, ReleasedBy(r), ip, id, until);
    case ProbeEnds(p, at, _, _, _) =>
      CompleteProbeKeeps(y.engine, p, at);
      var (e, o) := CompleteProbe(y.engine, p, at);
      HoldsStep(y.engine, e, Mutations(o.mutation), at, None, ip, id, until);
    case WriteEnds(at, _, _) =>
      CompleteCommitKeeps(y.engine, y.store.results[0], at);
      HoldsCommit(y.engine, CompleteCommit(y.engine, y.store.results[0], at).0, y.store.results[0], at, ip, id, until);
    case _ =>
  }

  /** An ACK commits the engine to the promised duration, counted from the moment it was produced. */
  lemma {:induction false} AckCommits(e: Engine, ack: Reply, at: Sample)
    requires Inv(e) && ReplyOK(e, Some(ack), at) && ack.kind == Ack && ack.address.V4?
    ensures Holds(e, ack.address.ip, IdentityOf(ack.request), at.mono + ack.leaseSeconds * SECOND)
  {
    hide Inv;
    EntryAt(e, ack.address.ip);
    BoundTiming(ContextOf(e), ack.address.ip, e.byIP[ack.address.ip]);
    hide EntryOK;
  }

  lemma {:induction false} BoundTiming(c: Context, ip: IPv4, v: Entry)
    requires EntryOK(c, ip, v) && v.lease.state == Bound
    ensures v.durable && v.timing.expiry <= v.timing.hold
  {
    hide GoodOwner, RetainedTopology, ReservedFor, ValidRequest, Storable;
  }

  /** Monotonic instants never run backwards along a run. */
  ghost predicate Chronological(steps: seq<Step>) {
    && (forall i, j, m, n | 0 <= i < j < |steps| && m in Instants(steps[i]) && n in Instants(steps[j]) :: m <= n)
  }

  /** The dispatching half of the acknowledging step cannot undo the commitment either. */
  lemma {:induction false} AckStepPledges(y: System, step: Step, ip: IPv4, id: Identity, until: int, d: int)
    requires SysInv(y) && Possible(y, step) && ReplyOf(y, step).Some? && EndsBefore(step, until)
    requires Pledged(Answering(y, step), ip, id, until, d)
    ensures Pledged(Do(y, step).engine, ip, id, until, d)
  {
    hide SysInv, Handle, CompleteProbe, CompleteCommit, EngineStep, Inv, AfterCall, ProbeAdmission, ReplyOK, CommitStep, Answering, Pledged;
    SysEngine(y);
    AnsweringIs(y, step);
    match step
    case Packet(r, at, cancelled, probeRefused, later) =>
      assert later.mono in Instants(step);
      HandleKeeps(y.engine, r, at);
      HandleConfig(y.engine, r, at);
      var (e, o) := Handle(y.engine, r, at);
      PledgeAfterCall(y, e, o, at, ReleasedBy(r), cancelled, probeRefused, later, ip, id, until, d);
    case ProbeEnds(p, at, cancelled, probeRefused, later) =>
      assert later.mono in Instants(step);
      CompleteProbeKeeps(y.engine, p, at);
      ProbeConfig(y.engine, p, at);
      var (e, o) := CompleteProbe(y.engine, p, at);
      PledgeAfterCall(y, e, o, at, None, cancelled, probeRefused, later, ip, id, until, d);
    case WriteEnds(at, probeRefused, later) =>
      assert later.mono in Instants(step);
      WriteDoneKeeps(y, at);
      var (e, o) := CompleteCommit(y.engine, y.store.results[0], at);
      PledgeProbe(System(e, y.store.(results := y.store.results[1..])), o.probe, probeRefused, later, ip, id, until, d);
    case _ =>
  }

  lemma {:induction false} AnsweringIs(y: System, step: Step)
    requires Possible(y, step)
    ensures step.Packet? ==> Answering(y, step) == Handle(y.engine, step.request, step.at).0
    ensures step.ProbeEnds? ==> Answering(y, step) == CompleteProbe(y.engine, step.result, step.at).0
    ensures step.WriteEnds? ==> Answering(y, step) == CompleteCommit(y.engine, y.store.results[0], step.at).0
  {
    hide Handle, CompleteProbe, CompleteCommit;
  }

  /** An ACK at `first`, a later reply about the same address at `last`, nothing released in between. */
  ghost predicate Story(y: System, first: Step, between: seq<Step>, last: Step) {
    && SysInv(y) && Chronological([first] + between + [last])
    && Possible(y, first) && Run(Do(y, first), between) && Possible(After(Do(y, first), between), last)
    && ReplyOf(y, first).Some? && ReplyOf(After(Do(y, first), between), last).Some?
    && var (ack, at) := ReplyOf(y, first).value;
       var (reply, when) := ReplyOf(After(Do(y, first), between), last).value;
       && ack.kind == Ack && ack.address.V4? && reply.address == ack.address
       && when.mono < at.mono + ack.leaseSeconds * SECOND
       && (forall i | 0 <= i < |between| :: !Releases(between[i], IdentityOf(ack.request), ack.address.ip))
       && !Releases(last, IdentityOf(ack.request), ack.address.ip)
  }

  ghost predicate SameClient(y: System, first: Step, between: seq<Step>, last: Step)
    requires Story(y, first, between, last)
  {
    var (ack, _) := ReplyOf(y, first).value;
    var (reply, _) := ReplyOf(After(Do(y, first), between), last).value;
    IdentityOf(reply.request) == IdentityOf(ack.request)
  }

  /** The common argument: a pledge made at the ACK decides who the later reply is for. */
  lemma {:induction false} PledgeDecides(y: System, first: Step, between: seq<Step>, last: Step, d: int)
    requires Story(y, first, between, last)
    requires forall i | 0 <= i < |between| :: between[i].Restart? ==> Offset(between[i].at) <= d
    requires var (ack, at) := ReplyOf(y, first).value;
      var until := at.mono + ack.leaseSeconds * SECOND;
      Holds(Answering(y, first), ack.address.ip, IdentityOf(ack.request), until) ==>
        Pledged(Answering(y, first), ack.address.ip, IdentityOf(ack.request), until, d)
    ensures SameClient(y, first, between, last)
  {
    hide SysInv, Possible, Run, After, Do, ReplyOf, Holds, Releases, Inv, Answering, ReplyOK, Offset, Pledged;
    var (ack, at) := ReplyOf(y, first).value;
    var y1 := Do(y, first);
    var y2 := After(y1, between);
    var (reply, when) := ReplyOf(y2, last).value;
    var ip, id := ack.address.ip, IdentityOf(ack.request);
    var until := when.mono + 1;
    InstantOf(y2, last);
    EarlierSteps(first, between, last, when.mono);
    ReplyHonest(y, first);
    AckCommits(Answering(y, first), ack, at);
    PledgeSooner(Answering(y, first), ip, id, at.mono + ack.leaseSeconds * SECOND, until, d);
    AckStepPledges(y, first, ip, id, until, d);
    StepKeeps(y, first);
    PledgeRun(y1, between, ip, id, until, d);
    PledgeSooner(y2.engine, ip, id, until, until, d);
    HoldsAnswering(y2, last, ip, id, until);
    ReplyHonest(y2, last);
    SameHolder(Answering(y2, last), reply, when, ip, id, until);
  }

  lemma {:induction false} PledgeSooner(e: Engine, ip: IPv4, id: Identity, until: int, sooner: int, d: int)
    requires Pledged(e, ip, id, until, d) && sooner <= until
    ensures Pledged(e, ip, id, sooner, d) && Holds(e, ip, id, sooner)
  {
  }

  /**
   No double grant. After an ACK of an address to a client for L seconds, no later OFFER or ACK
   names that address for another client before L seconds of monotonic time have passed, unless
   the client released it: whatever writes failed or vanished, whatever migrations, declines,
   conflicts, shorter renewals and settings changes happened in between, and whatever the wall
   clock did.
   */
  lemma {:induction false} NoDoubleGrant(y: System, first: Step, between: seq<Step>, last: Step)
    requires Story(y, first, between, last)
    requires forall i | 0 <= i < |between| :: !between[i].Restart?
    ensures SameClient(y, first, between, last)
  {
    hide SysInv, Possible, Run, After, Do, ReplyOf, Releases, Inv, Answering, ReplyOK, Chronological, SameClient;
    var (ack, at) := ReplyOf(y, first).value;
    var until := at.mono + ack.leaseSeconds * SECOND;
    ReplyHonest(y, first);
    AckCommits(Answering(y, first), ack, at);
    var d := Answering(y, first).byIP[ack.address.ip].committed.hold.wall - until;
    PledgeDecides(y, first, between, last, d);
  }

  lemma {:induction false} SameHolder(e: Engine, reply: Reply, at: Sample, ip: IPv4, id: Identity, until: int)
    requires ReplyOK(e, Some(reply), at) && Holds(e, ip, id, until) && reply.address == V4(ip)
    ensures IdentityOf(reply.request) == id
  {
  }

  lemma {:induction false} InstantOf(y: System, step: Step)
    requires Possible(y, step) && ReplyOf(y, step).Some?
    ensures ReplyOf(y, step).value.1.mono in Instants(step)
  {
    hide Handle, CompleteProbe, CompleteCommit;
  }

  lemma {:induction false} EarlierSteps(first: Step, between: seq<Step>, last: Step, m: int)
    requires Chronological([first] + between + [last]) && m in Instants(last)
    ensures EndsBefore(first, m + 1)
    ensures forall i | 0 <= i < |between| :: EndsBefore(between[i], m + 1)
  {
    hide Instants;
    var all := [first] + between + [last];
    assert all[0] == first && all[|all| - 1] == last;
    assert forall i | 0 <= i < |between| :: all[i + 1] == between[i];
  }
}
