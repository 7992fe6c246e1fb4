/**
 Ownership across restarts. Rows carry wall instants only, so a restarted engine re-anchors them;
 promises survive exactly as long as the wall clock does not gain on elapsed time.
 */
module DhcpRestarts {
  import opened Common
  import opened DhcpTypes
  import opened DhcpSettings
  import opened DhcpEngine
  import opened DhcpInvariant
  import opened DhcpSteps
  import opened DhcpStore
  import opened DhcpSystem
  import opened DhcpRuns

  /** Stored horizons cover the runtime holds they stand for, at offset d. */
  ghost predicate Covers(v: Entry, d: int) {
    && (v.durable && !v.dirty ==> v.committed.hold.wall >= v.timing.hold + d)
    && (IsPending(v) && v.mutation == PutLease ==> v.pending.hold.wall >= v.pendingTiming.hold + d)
  }

  ghost predicate AllCovered(byIP: map<IPv4, Entry>, d: int) {
    forall ip :: ip in byIP ==> Covers(byIP[ip], d)
  }

  lemma {:induction false} CoversLess(byIP: map<IPv4, Entry>, d: int, d': int)
    requires AllCovered(byIP, d) && d' <= d
    ensures AllCovered(byIP, d')
  {
  }

  lemma {:induction false} CoversStep(e: Engine, e': Engine, out: seq<Mutation>, now: Sample, released: Option<(Identity, IPv4)>, d: int)
    requires EngineStep(e, e', out, now, released) && AllCovered(e.byIP, d) && d <= Offset(now)
    requires Inv(e')
    ensures AllCovered(e'.byIP, d)
  {
    hide MutationsOf, Inv;
    forall ip | ip in e'.byIP ensures Covers(e'.byIP[ip], d) {
      assert EntryStep(EntryIn(e.byIP, ip), EntryIn(e'.byIP, ip), e.sequence, out, now, released);
    }
  }

  lemma {:induction false} CoversCommit(e: Engine, e': Engine, c: CommitResult, now: Sample, d: int)
    requires Inv(e) && CommitStep(e, e', c, now) && AllCovered(e.byIP, d)
    ensures AllCovered(e'.byIP, d)
  {
    hide Inv;
    forall ip | ip in e'.byIP ensures Covers(e'.byIP[ip], d) {
      assert !Awaiting(e, ip, c.token) ==> EntryStep(EntryIn(e.byIP, ip), EntryIn(e'.byIP, ip), e.sequence, [], now, None);
      if Awaiting(e, ip, c.token) {
        EntryAt(e, ip);
        PendingToken(ContextOf(e), ip, e.byIP[ip]);
      }
    }
  }

  lemma {:induction false} CoversDispatch(y: System, out: seq<Mutation>, stops: seq<bool>, later: Sample, d: int)
    requires SysInv(y) && FreshOut(y, out) && GoodSample(later) && AllCovered(y.engine.byIP, d)
    ensures AllCovered(DispatchAll(y, out, stops, later).engine.byIP, d)
    decreases |out|
  {
    hide SysInv, FreshOut, AllCovered, CompleteCommit, CommitStep, Inv, ReplyOK;
    if out != [] {
      var stop := stops != [] && stops[0];
      FirstFresh(y, out);
      DispatchKeeps(y, out[0], stop, later);
      FreshOutAfter(y, out, stop, later);
      SysEngine(y);
      var c := CommitResult(out[0].token, true);
      CompleteCommitKeeps(y.engine, c, later);
      CoversCommit(y.engine, CompleteCommit(y.engine, c, later).0, c, later, d);
      CoversDispatch(Dispatch(y, out[0], stop, later), out[1..], if stops == [] then [] else stops[1..], later, d);
    }
  }

  lemma {:induction false} CoversProbe(y: System, probe: Option<Probe>, refused: bool, later: Sample, d: int)
    requires SysInv(y) && GoodSample(later) && AllCovered(y.engine.byIP, d) && d <= Offset(later)
    ensures AllCovered(ProbeAdmission(y, probe, refused, later).engine.byIP, d)
  {
    hide SysInv, AllCovered, CompleteProbe, EngineStep, Inv, ReplyOK;
    if probe.Some? && refused {
      SysEngine(y);
      var p := ProbeResult(probe.value.token, false, true);
      CompleteProbeKeeps(y.engine, p, later);
      var (e', o) := CompleteProbe(y.engine, p, later);
      CoversStep(y.engine, e', Mutations(o.mutation), later, None, d);
    }
  }

  lemma {:induction false} CoversAfterCall(y: System, e: Engine, o: Outcome, at: Sample, released: Option<(Identity, IPv4)>,
                        cancelled: bool, probeRefused: bool, later: Sample, d: int)
    requires SysInv(y) && Good(y.engine, e, o, at, released) && e.generation == y.engine.generation && GoodSample(later)
    requires AllCovered(y.engine.byIP, d) && d <= Offset(at) && d <= Offset(later)
    ensures AllCovered(AfterCall(y, e, o, cancelled, probeRefused, later).engine.byIP, d)
  {
    hide SysInv, EngineStep, Inv, DispatchAll, ProbeAdmission, MutationsOf, ReplyOK, FreshOut, AllCovered;
    var out := Mutations(o.mutation);
    CoversStep(y.engine, e, out, at, released, d);
    EngineStepKeeps(y, e, out, at, released);
    StepSequence(y.engine, e, out, at, released);
    OutIsFresh(y, e, out);
    var y1 := y.(engine := e);
    DispatchAllKeeps(y1, out, [cancelled], later);
    CoversDispatch(y1, out, [cancelled], later, d);
    CoversProbe(DispatchAll(y1, out, [cancelled], later), o.probe, probeRefused, later, d);
  }

  /** Offsets of the clock readings a step takes. */
  function Offsets(step: Step): set<int> {
    match step
    case Packet(_, at, _, _, later) => {Offset(at), Offset(later)}
    case ProbeEnds(_, at, _, _, later) => {Offset(at), Offset(later)}
    case WriteEnds(at, _, later) => {Offset(at), Offset(later)}
    case Ticks(_, at, _, later) => {Offset(at), Offset(later)}
    case Configure(_, _) => {}
    case Writes(_, _, _) => {}
    case Restart(_, _, _, at) => {Offset(at)}
  }

  ghost predicate AtLeast(step: Step, d: int) { forall x :: x in Offsets(step) ==> d <= x }

  /** Coverage at a bound below all readings of the step survives the step, restarts included. */
  lemma {:induction false} CoversDo(y: System, step: Step, d: int)
    requires SysInv(y) && Possible(y, step) && AllCovered(y.engine.byIP, d) && AtLeast(step, d)
    ensures AllCovered(Do(y, step).engine.byIP, d)
  {
    hide SysInv, Handle, CompleteProbe, CompleteCommit, Tick, Work, EngineStep, Inv, AfterCall, ProbeAdmission, DispatchAll, MutationsOf, ApplyDone, ApplyCheck, FreshOut, AllCovered, ReplyOK, CommitStep, Restore, NewEngine, ValidSettings, IsSnapshot;
    SysEngine(y);
    match step
    case Packet(r, at, cancelled, probeRefused, later) =>
      assert Offset(at) in Offsets(step) && Offset(later) in Offsets(step);
      HandleKeeps(y.engine, r, at);
      HandleConfig(y.engine, r, at);
      var (e, o) := Handle(y.engine, r, at);
      CoversAfterCall(y, e, o, at, ReleasedBy(r), cancelled, probeRefused, later, d);
    case ProbeEnds(p, at, cancelled, probeRefused, later) =>
      assert Offset(at) in Offsets(step) && Offset(later) in Offsets(step);
      CompleteProbeKeeps(y.engine, p, at);
      ProbeConfig(y.engine, p, at);
      var (e, o) := CompleteProbe(y.engine, p, at);
      CoversAfterCall(y, e, o, at, None, cancelled, probeRefused, later, d);
    case WriteEnds(at, probeRefused, later) =>
      assert Offset(later) in Offsets(step);
      WriteDoneKeeps(y, at);
      CompleteCommitKeeps(y.engine, y.store.results[0], at);
      var (e, o) := CompleteCommit(y.engine, y.store.results[0], at);
      CoversCommit(y.engine, e, y.store.results[0], at, d);
      CoversProbe(System(e, y.store.(results := y.store.results[1..])), o.probe, probeRefused, later, d);
    case Ticks(order, at, stops, later) =>
      assert Offset(at) in Offsets(step);
      TickKeeps(y.engine, order, at);
      TickSame(y.engine, order, at);
      var (e, out) := Tick(y.engine, order, at);
      CoversStep(y.engine, e, out, at, None, d);
      EngineStepKeeps(y, e, out, at, None);
      StepSequence(y.engine, e, out, at, None);
      OutIsFresh(y, e, out);
      CoversDispatch(y.(engine := e), out, stops, later, d);
    case Configure(s, g) =>
      if ApplyCheck(y.engine, s, g).None? {
        var any := Sample(d, 0);
        ApplyKeeps(y.engine, s, g, any);
        CoversStep(y.engine, ApplyDone(y.engine, s, g), [], any, None, d);
      }
    case Writes(n, wall, disk) =>
    case Restart(s, g, leases, at) =>
      assert Offset(at) in Offsets(step);
      RestartCovers(y.store, s, g, leases, at);
      CoversLess(Do(y, step).engine.byIP, Offset(at), d);
  }

  lemma {:induction false} RestartCovers(store: Store, s: Settings, g: nat, leases: seq<Lease>, at: Sample)
    requires Restore(NewEngine(s, g), leases, store.lastKnown, at).Some?
    ensures AllCovered(Restore(NewEngine(s, g), leases, store.lastKnown, at).value.byIP, Offset(at))
  {
    hide Restorable, RecoveredIds, ReservedOf, ReservationsOf, PoolBits, AddressesOf;
    RecoveredCovers(leases, at);
  }

  lemma {:induction false} RecoveredCovers(leases: seq<Lease>, at: Sample)
    ensures forall ip :: ip in RecoveredEntries(leases, at) ==>
              Covers(RecoveredEntries(leases, at)[ip], Offset(at)) && RecoveredEntries(leases, at)[ip].durable
  {
    if leases != [] {
      RecoveredCovers(leases[..|leases| - 1], at);
    }
  }

  // ---- no double grant, restarts included ----

  lemma {:induction false} CoversRun(y: System, steps: seq<Step>, d: int)
    requires SysInv(y) && Run(y, steps) && AllCovered(y.engine.byIP, d)
    requires forall i | 0 <= i < |steps| :: AtLeast(steps[i], d)
    ensures AllCovered(After(y, steps).engine.byIP, d)
    decreases |steps|
  {
    hide SysInv, Possible, Do, AllCovered, AtLeast;
    if steps != [] {
      StepKeeps(y, steps[0]);
      CoversDo(y, steps[0], d);
      CoversRun(Do(y, steps[0]), steps[1..], d);
    }
  }

  lemma {:induction false} CoversAnswering(y: System, step: Step, d: int)
    requires SysInv(y) && Possible(y, step) && AllCovered(y.engine.byIP, d) && AtLeast(step, d)
    ensures AllCovered(Answering(y, step).byIP, d)
  {
    hide SysInv, Handle, CompleteProbe, CompleteCommit, EngineStep, Inv, AllCovered, ReplyOK, CommitStep;
    SysEngine(y);
    match step
    case Packet(r, at, _, _, later) =>
      assert Offset(at) in Offsets(step);
      HandleKeeps(y.engine, r, at);
      var (e, o) := Handle(y.engine, r, at);
      CoversStep(y.engine, e, Mutations(o.mutation), at, ReleasedBy(r), d);
    case ProbeEnds(p, at, _, _, later) =>
      assert Offset(at) in Offsets(step);
      CompleteProbeKeeps(y.engine, p, at);
      var (e, o) := CompleteProbe(y.engine, p, at);
      CoversStep(y.engine, e, Mutations(o.mutation), at, None, d);
    case WriteEnds(at, _, _) =>
      CompleteCommitKeeps(y.engine, y.store.results[0], at);
      CoversCommit(y.engine, CompleteCommit(y.engine, y.store.results[0], at).0, y.store.results[0], at, d);
    case _ =>
  }

  /** An acknowledged binding is bound, durable and clean. */
  lemma {:induction false} AckClean(e: Engine, ack: Reply, at: Sample)
    requires Inv(e) && ReplyOK(e, Some(ack), at) && ack.kind == Ack && ack.address.V4?
    ensures ack.address.ip in e.byIP && e.byIP[ack.address.ip].durable && !e.byIP[ack.address.ip].dirty
  {
    hide Inv;
    BoundShape(e, ack.address.ip);
  }

  /**
   The same guarantee through crashes and restarts, from a fresh installation on. Restarts may
   happen between the ACK and the later reply if the wall clock has not gained on elapsed time:
   every reading up to the ACK was at least d ahead, every later restart reads at most d ahead.
   */
  lemma {:induction false} NoDoubleGrantAcrossRestarts(s: Settings, generation: nat, lastKnown: int, prefix: seq<Step>,
                                    first: Step, between: seq<Step>, last: Step, d: int)
    requires ValidSettings(s) && generation > 0 && Run(First(s, generation, lastKnown), prefix)
    requires Story(After(First(s, generation, lastKnown), prefix), first, between, last)
    requires AtLeast(first, d) && forall i | 0 <= i < |prefix| :: AtLeast(prefix[i], d)
    requires forall i | 0 <= i < |between| :: between[i].Restart? ==> Offset(between[i].at) <= d
    ensures SameClient(After(First(s, generation, lastKnown), prefix), first, between, last)
  {
    hide SysInv, Possible, Run, After, Do, ReplyOf, Releases, Inv, Answering, ReplyOK, Chronological, SameClient, First, ValidSettings, AtLeast, Holds;
    var y0 := First(s, generation, lastKnown);
    FirstGood(s, generation, lastKnown);
    FirstCovered(s, generation, lastKnown, d);
    CoversRun(y0, prefix, d);
    var y := After(y0, prefix);
    var (ack, at) := ReplyOf(y, first).value;
    CoversAnswering(y, first, d);
    ReplyHonest(y, first);
    AckClean(Answering(y, first), ack, at);
    PledgeFromCover(Answering(y, first), ack.address.ip, IdentityOf(ack.request), at.mono + ack.leaseSeconds * SECOND, d);
    PledgeDecides(y, first, between, last, d);
  }

  lemma {:induction false} FirstCovered(s: Settings, generation: nat, lastKnown: int, d: int)
    ensures AllCovered(First(s, generation, lastKnown).engine.byIP, d)
  {
    hide ReservedOf, ReservationsOf, PoolBits;
  }

  lemma {:induction false} PledgeFromCover(e: Engine, ip: IPv4, id: Identity, until: int, d: int)
    requires AllCovered(e.byIP, d) && ip in e.byIP && e.byIP[ip].durable && !e.byIP[ip].dirty
    ensures Holds(e, ip, id, until) ==> Pledged(e, ip, id, until, d)
  {
    assert Covers(e.byIP[ip], d);
  }

  /**
   The clock condition is exact for a single grant: a row written for D nanoseconds is restored
   with at least its promised hold if and only if the wall clock did not gain in the meantime.
   */
  lemma {:induction false} RestartKeepsHoldIff(l: Lease, written: Sample, duration: int, restart: Sample)
    requires l.hold.wall == written.wall + duration
    ensures Recovered(LeaseOf(l.address, RowOf(l)), restart).timing.hold >= written.mono + duration
            <==> Offset(restart) <= Offset(written)
  {
  }
}
