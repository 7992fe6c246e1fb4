/**
 The writer's horizon check (internal/dhcp/store.go, commit). It compares monotonic readings, which the rows
 themselves do not carry: exactly when each kind of write passes it, and which writes always do.
 */
module DhcpHorizon {
  import opened Common
  import opened DhcpTypes
  import opened DhcpSettings
  import opened DhcpEngine
  import opened DhcpInvariant
  import opened DhcpSteps
  import opened DhcpStore
  import opened DhcpSystem
  import opened DhcpRuns

  // ---- one write ----

  /** The stored horizon is raised: what remains of the runtime hold ends later on today's wall clock. */
  predicate Raised(l: Lease, timing: Deadlines, now: Sample) { now.wall + (timing.hold - now.mono) > l.hold.wall }

  /** The stored hold covers the stored expiry on the monotonic scale, where both are on it. */
  predicate CoversMono(l: Lease) { l.hold.mono.None? || l.expiry.mono.None? || l.hold.mono.value >= l.expiry.mono.value }

  /** A row kept under its own deadlines. */
  lemma {:induction false} KeptExpiryIff(l: Lease, timing: Deadlines, now: Sample)
    requires Storable(l) && Timed(l, timing)
    ensures HorizonOK(RaiseHold(l, timing, now)) <==> Raised(l, timing, now) || CoversMono(l)
  {
    hide GoodOwner;
  }

  /**
   A grant passes the writer's recovery check unless the stored horizon was kept and its own
   monotonic reading lies before the new expiry: the exact condition, readable before the call.
   */
  lemma {:induction false} GrantHorizonIff(v: Entry, r: Request, now: Sample, duration: int)
    requires v.timing.hold >= now.mono || duration >= 0
    ensures var timing := GrantTiming(v, now, duration);
      HorizonOK(RaiseHold(GrantTarget(v, r, now, duration), timing, now))
      <==> Raised(v.lease, timing, now) || v.lease.hold.mono.None? || v.lease.hold.mono.value >= now.mono + duration
  {
    hide ValidLabel, Lower;
  }

  /** A quarantine, after a decline or a conflict, passes on the same condition with its ten minutes. */
  lemma {:induction false} QuarantineHorizonIff(e: Engine, ip: IPv4, now: Sample)
    requires ip in e.byIP && e.last == Some(now)
    ensures var v := e.byIP[ip];
      HorizonOK(Quarantine(e, ip, now).1.lease)
      <==> Raised(v.lease, GrantTiming(v, now, CONFLICT_HOLD), now) || v.lease.hold.mono.None? || v.lease.hold.mono.value >= now.mono + CONFLICT_HOLD
  {
    hide Detach;
  }

  /** The retirement of a binding that no longer fits the settings passes if and only if its hold is raised or its row passes. */
  lemma {:induction false} RetireHorizonIff(e: Engine, ip: IPv4, r: Request, now: Sample)
    requires Inv(e) && ip in e.byIP && e.byIP[ip].lease.state == Bound && e.last == Some(now)
    ensures var v := e.byIP[ip];
      HorizonOK(Mutate(e, ip, PutLease, v.lease.(state := Quarantined), v.timing, r).1.lease)
      <==> Raised(v.committed, v.timing, now) || CoversMono(v.committed)
  {
    hide Inv, Raised, CoversMono, HorizonOK, RaiseHold;
    EntryAt(e, ip);
    BoundEntry(ContextOf(e), ip, e.byIP[ip]);
    hide EntryOK;
    var v := e.byIP[ip];
    var l := v.lease.(state := Quarantined);
    KeptExpiryIff(l, v.timing, now);
    SameStamps(l, v.committed, v.timing, now);
  }

  lemma {:induction false} BoundEntry(c: Context, ip: IPv4, v: Entry)
    requires EntryOK(c, ip, v) && v.lease.state == Bound
    ensures v.durable && v.lease == v.committed && Timed(v.lease, v.timing) && Storable(v.lease.(state := Quarantined))
  {
    hide LeaseAddress, ValidLabel, UnicastMac, RetainedTopology, ReservedFor;
  }

  lemma {:induction false} SameStamps(l: Lease, other: Lease, timing: Deadlines, now: Sample)
    requires l.hold == other.hold && l.expiry == other.expiry
    ensures Raised(l, timing, now) == Raised(other, timing, now) && CoversMono(l) == CoversMono(other)
  {
  }

  /** The retry of a quarantine that did not reach the disk passes if and only if its hold is raised now or it passed before. */
  lemma {:induction false} RetryHorizonIff(e: Engine, ip: IPv4, now: Sample)
    requires Inv(e) && ip in e.byIP && e.byIP[ip].dirty && !IsPending(e.byIP[ip]) && e.last == Some(now)
    ensures |TickEntry(e, ip, now).1| == 1
    ensures var v := e.byIP[ip]; HorizonOK(TickEntry(e, ip, now).1[0].lease) <==> Raised(v.lease, v.timing, now) || CoversMono(v.lease)
  {
    hide Inv, Raised, CoversMono, HorizonOK, RaiseHold;
    EntryAt(e, ip);
    DirtyEntry(ContextOf(e), ip, e.byIP[ip]);
    hide EntryOK;
    KeptExpiryIff(e.byIP[ip].lease, e.byIP[ip].timing, now);
  }

  lemma {:induction false} DirtyEntry(c: Context, ip: IPv4, v: Entry)
    requires EntryOK(c, ip, v) && v.dirty && !IsPending(v)
    ensures Storable(v.lease) && Timed(v.lease, v.timing)
  {
    hide LeaseAddress, ValidLabel, UnicastMac, RetainedTopology, ReservedFor;
  }

  /** As long as the wall clock has not lost ground since the horizon was stamped, grants pass. */
  lemma {:induction false} SteadyWallAccepted(v: Entry, r: Request, now: Sample, duration: int)
    requires v.lease.hold.mono.Some? ==> v.lease.hold.wall - v.lease.hold.mono.value <= Offset(now)
    requires duration >= 0
    ensures HorizonOK(RaiseHold(GrantTarget(v, r, now, duration), GrantTiming(v, now, duration), now))
  {
    GrantHorizonIff(v, r, now, duration);
  }

  // ---- what reached the disk passes again ----

  /** Whatever has been written passes the check. */
  predicate EntryPasses(v: Entry, applied: set<Token>) {
    && (v.durable ==> CoversMono(v.committed))
    && (IsPending(v) && v.token in applied && v.mutation == PutLease ==> CoversMono(v.pending))
  }

  ghost predicate AllPass(byIP: map<IPv4, Entry>, applied: set<Token>) { forall ip :: ip in byIP ==> EntryPasses(byIP[ip], applied) }

  ghost predicate Passing(y: System) { AllPass(y.engine.byIP, Applied(y.store)) }

  lemma {:induction false} FewerPass(byIP: map<IPv4, Entry>, applied: set<Token>, fewer: set<Token>)
    requires AllPass(byIP, applied) && fewer <= applied
    ensures AllPass(byIP, fewer)
  {
  }

  lemma {:induction false} PassStep(e: Engine, e': Engine, out: seq<Mutation>, now: Sample, released: Option<(Identity, IPv4)>, applied: set<Token>)
    requires EngineStep(e, e', out, now, released) && AllPass(e.byIP, applied)
    requires forall t :: t in applied ==> t.sequence <= e.sequence
    ensures AllPass(e'.byIP, applied)
  {
    hide MutationsOf, EntryStep, EntryPasses;
    forall ip | ip in e'.byIP ensures EntryPasses(e'.byIP[ip], applied) {
      assert EntryStep(EntryIn(e.byIP, ip), EntryIn(e'.byIP, ip), e.sequence, out, now, released);
      EntryStepPasses(EntryIn(e.byIP, ip), e'.byIP[ip], e.sequence, out, now, released, applied);
    }
  }

  lemma {:induction false} PassCommit(e: Engine, e': Engine, c: CommitResult, now: Sample, applied: set<Token>)
    requires Inv(e) && CommitStep(e, e', c, now) && AllPass(e.byIP, applied) && (!c.failed ==> c.token in applied)
    requires forall t :: t in applied ==> t.sequence <= e.sequence
    ensures AllPass(e'.byIP, applied)
  {
    hide Inv, EntryStep, FinishStep, EntryPasses;
    forall ip | ip in e'.byIP ensures EntryPasses(e'.byIP[ip], applied) {
      assert !Awaiting(e, ip, c.token) ==> EntryStep(EntryIn(e.byIP, ip), EntryIn(e'.byIP, ip), e.sequence, [], now, None);
      if Awaiting(e, ip, c.token) {
        EntryAt(e, ip);
        PendingToken(ContextOf(e), ip, e.byIP[ip]);
        hide EntryOK;
        FinishPasses(e.byIP[ip], e'.byIP[ip], c.failed, applied);
      } else {
        EntryStepPasses(EntryIn(e.byIP, ip), e'.byIP[ip], e.sequence, [], now, None, applied);
      }
    }
  }

  lemma {:induction false} FinishPasses(v: Entry, w: Entry, failed: bool, applied: set<Token>)
    requires IsPending(v) && FinishStep(v, Some(w), failed) && EntryPasses(v, applied) && (!failed ==> v.token in applied)
    requires v.mutation in {PutLease, DeleteLease}
    ensures EntryPasses(w, applied)
  {
    hide CoversMono;
  }

  lemma {:induction false} EntryStepPasses(v: Option<Entry>, w: Entry, sequence: nat, out: seq<Mutation>, now: Sample, released: Option<(Identity, IPv4)>, applied: set<Token>)
    requires EntryStep(v, Some(w), sequence, out, now, released) && (v.Some? ==> EntryPasses(v.value, applied))
    requires forall t :: t in applied ==> t.sequence <= sequence
    ensures EntryPasses(w, applied)
  {
    hide CoversMono;
  }

  lemma {:induction false} PassingStep(y: System, e': Engine, out: seq<Mutation>, now: Sample, released: Option<(Identity, IPv4)>)
    requires SysInv(y) && EngineStep(y.engine, e', out, now, released) && Passing(y)
    ensures Passing(y.(engine := e'))
  {
    hide Inv, Pipeline, Agrees, Applied, EngineStep, AllPass;
    AppliedIssued(y.engine, y.store);
    PassStep(y.engine, e', out, now, released, Applied(y.store));
  }

  lemma {:induction false} PassingDispatch(y: System, m: Mutation, cancelled: bool, later: Sample)
    requires SysInv(y) && GoodSample(later) && Passing(y)
    ensures Passing(Dispatch(y, m, cancelled, later))
  {
    hide Inv, Pipeline, Agrees, Succeeded, CompleteCommit, CommitStep, AllPass, ReplyOK;
    var c := CommitResult(m.token, true);
    if !Submit(y.store, m, cancelled).1 {
      AppliedIssued(y.engine, y.store);
      CompleteCommitKeeps(y.engine, c, later);
      PassCommit(y.engine, CompleteCommit(y.engine, c, later).0, c, later, Applied(y.store));
    }
  }

  lemma {:induction false} PassingDispatchAll(y: System, out: seq<Mutation>, stops: seq<bool>, later: Sample)
    requires SysInv(y) && FreshOut(y, out) && GoodSample(later) && Passing(y)
    ensures Passing(DispatchAll(y, out, stops, later))
    decreases |out|
  {
    hide SysInv, FreshOut, Passing, Dispatch;
    if out != [] {
      var stop := stops != [] && stops[0];
      FirstFresh(y, out);
      DispatchKeeps(y, out[0], stop, later);
      FreshOutAfter(y, out, stop, later);
      PassingDispatch(y, out[0], stop, later);
      PassingDispatchAll(Dispatch(y, out[0], stop, later), out[1..], if stops == [] then [] else stops[1..], later);
    }
  }

  lemma {:induction false} PassingProbe(y: System, probe: Option<Probe>, refused: bool, later: Sample)
    requires SysInv(y) && GoodSample(later) && Passing(y)
    ensures Passing(ProbeAdmission(y, probe, refused, later))
  {
    hide SysInv, Passing, CompleteProbe, EngineStep, Inv, ReplyOK;
    if probe.Some? && refused {
      SysEngine(y);
      var p := ProbeResult(probe.value.token, false, true);
      CompleteProbeKeeps(y.engine, p, later);
      var (e', o) := CompleteProbe(y.engine, p, later);
      PassingStep(y, e', Mutations(o.mutation), later, None);
    }
  }

  lemma {:induction false} PassingAfterCall(y: System, e: Engine, o: Outcome, at: Sample, released: Option<(Identity, IPv4)>,
                        cancelled: bool, probeRefused: bool, later: Sample)
    requires SysInv(y) && Good(y.engine, e, o, at, released) && e.generation == y.engine.generation && GoodSample(later) && Passing(y)
    ensures Passing(AfterCall(y, e, o, cancelled, probeRefused, later))
  {
    hide SysInv, EngineStep, Inv, DispatchAll, ProbeAdmission, MutationsOf, ReplyOK, FreshOut, Passing;
    var out := Mutations(o.mutation);
    PassingStep(y, e, out, at, released);
    EngineStepKeeps(y, e, out, at, released);
    StepSequence(y.engine, e, out, at, released);
    OutIsFresh(y, e, out);
    var y1 := y.(engine := e);
    DispatchAllKeeps(y1, out, [cancelled], later);
    PassingDispatchAll(y1, out, [cancelled], later);
    PassingProbe(DispatchAll(y1, out, [cancelled], later), o.probe, probeRefused, later);
  }

  /** A transaction that commits writes only rows that pass. */
  lemma {:induction false} PassingWork(y: System, n: nat, wall: int, disk: Disk)
    requires SysInv(y) && 1 <= n <= |y.store.queue| && n <= BATCH_LIMIT && Passing(y)
    ensures Passing(y.(store := Work(y.store, n, wall, disk)))
  {
    hide Inv, Pipeline, Agrees, ApplyBatch, Succeeded, TokensIn, FreshBatch, HorizonOK, AllPass;
    var s, s', batch := y.store, Work(y.store, n, wall, disk), y.store.queue[..n];
    QueuedNotApplied(y.engine, s, n);
    BatchAccepted(y.engine, s.table, Applied(s), batch);
    if ApplyBatch(s.table, batch).Some? {
      BatchPasses(y.engine, batch, Applied(s));
    }
    SucceededAppend(s.results, batch, false);
    SucceededAppend(s.results, batch, true);
    assert Applied(s') == Applied(s) || (ApplyBatch(s.table, batch).Some? && Applied(s') == Applied(s) + TokensIn(batch));
  }

  lemma {:induction false} BatchPasses(e: Engine, batch: seq<Mutation>, applied: set<Token>)
    requires Inv(e) && FreshBatch(e, batch, applied) && AllPass(e.byIP, applied)
    requires forall i | 0 <= i < |batch| :: HorizonOK(batch[i].lease)
    ensures AllPass(e.byIP, applied + TokensIn(batch))
  {
    hide Inv, MutationOf, HorizonOK;
    forall ip | ip in e.byIP ensures EntryPasses(e.byIP[ip], applied + TokensIn(batch)) {
      var v := e.byIP[ip];
      if IsPending(v) && v.token !in applied && v.token in TokensIn(batch) {
        var i :| 0 <= i < |batch| && batch[i].token == v.token;
        WrittenPasses(e, ip, batch[i]);
      }
    }
  }

  lemma {:induction false} WrittenPasses(e: Engine, ip: IPv4, m: Mutation)
    requires Inv(e) && MutationOf(e, m) && ip in e.byIP && IsPending(e.byIP[ip]) && e.byIP[ip].token == m.token && HorizonOK(m.lease)
    ensures CoversMono(e.byIP[ip].pending)
  {
    hide Inv;
    if ip != m.lease.address {
      OtherToken(e, ip, m);
    }
  }

  lemma {:induction false} PassingRestart(y: System, s: Settings, g: nat, leases: seq<Lease>, at: Sample)
    requires Possible(y, Restart(s, g, leases, at))
    ensures Passing(Do(y, Restart(s, g, leases, at)))
  {
    hide ValidSettings, Restorable, RecoveredIds, ReservedOf, ReservationsOf, PoolBits, AddressesOf, IsSnapshot;
    RecoveredPass(leases, at);
  }

  lemma {:induction false} RecoveredPass(leases: seq<Lease>, at: Sample)
    requires FromDisk(leases)
    ensures AllPass(RecoveredEntries(leases, at), {})
  {
    if leases != [] {
      RecoveredPass(leases[..|leases| - 1], at);
    }
  }

  lemma {:induction false} PassingConfigure(y: System, s: Settings, g: nat)
    requires SysInv(y) && Passing(y)
    ensures Passing(y.(engine := Apply(y.engine, s, g).0))
  {
    hide SysInv, ApplyDone, ApplyCheck, EngineStep, Inv, Passing;
    SysEngine(y);
    if ApplyCheck(y.engine, s, g).None? {
      ApplyKeeps(y.engine, s, g, Sample(1, 0));
      PassingStep(y, ApplyDone(y.engine, s, g), [], Sample(1, 0), None);
    } else {
      assert y.(engine := y.engine) == y;
    }
  }

  lemma {:induction false} PassingDo(y: System, step: Step)
    requires SysInv(y) && Possible(y, step) && Passing(y)
    ensures Passing(Do(y, step))
  {
    hide SysInv, Handle, CompleteProbe, CompleteCommit, Tick, Work, EngineStep, Inv, AfterCall, ProbeAdmission, DispatchAll, MutationsOf, Apply, FreshOut, Passing, ReplyOK, CommitStep, Restore, NewEngine, ValidSettings, IsSnapshot;
    SysEngine(y);
    match step
    case Packet(r, at, cancelled, probeRefused, later) =>
      HandleKeeps(y.engine, r, at);
      HandleConfig(y.engine, r, at);
      var (e, o) := Handle(y.engine, r, at);
      PassingAfterCall(y, e, o, at, ReleasedBy(r), cancelled, probeRefused, later);
    case ProbeEnds(p, at, cancelled, probeRefused, later) =>
      CompleteProbeKeeps(y.engine, p, at);
      ProbeConfig(y.engine, p, at);
      var (e, o) := CompleteProbe(y.engine, p, at);
      PassingAfterCall(y, e, o, at, None, cancelled, probeRefused, later);
    case WriteEnds(at, probeRefused, later) =>
      PassingWriteDone(y, at);
      WriteDoneKeeps(y, at);
      var (e, o) := CompleteCommit(y.engine, y.store.results[0], at);
      PassingProbe(System(e, y.store.(results := y.store.results[1..])), o.probe, probeRefused, later);
    case Ticks(order, at, stops, later) =>
      TickKeeps(y.engine, order, at);
      TickSame(y.engine, order, at);
      var (e, out) := Tick(y.engine, order, at);
      PassingStep(y, e, out, at, None);
      EngineStepKeeps(y, e, out, at, None);
      StepSequence(y.engine, e, out, at, None);
      OutIsFresh(y, e, out);
      PassingDispatchAll(y.(engine := e), out, stops, later);
    case Configure(s, g) => PassingConfigure(y, s, g);
    case Writes(n, wall, disk) => PassingWork(y, n, wall, disk);
    case Restart(s, g, leases, at) => PassingRestart(y, s, g, leases, at);
  }

  lemma {:induction false} PassingWriteDone(y: System, at: Sample)
    requires SysInv(y) && GoodSample(at) && |y.store.results| > 0 && Passing(y)
    ensures Passing(System(CompleteCommit(y.engine, y.store.results[0], at).0, y.store.(results := y.store.results[1..])))
  {
    hide Inv, Pipeline, Agrees, CompleteCommit, CommitStep, AllPass, ReplyOK, Succeeded;
    var c, e := y.store.results[0], y.engine;
    var e' := CompleteCommit(e, c, at).0;
    CompleteCommitKeeps(e, c, at);
    AppliedIssued(e, y.store);
    DistinctResults(e, y.store);
    SucceededHead(y.store.results);
    PassCommit(e, e', c, at, Applied(y.store));
    FewerPass(e'.byIP, Applied(y.store), Applied(y.store.(results := y.store.results[1..])));
  }

  lemma {:induction false} DistinctResults(e: Engine, s: Store)
    requires Pipeline(e, s)
    ensures forall i, j | 0 <= i < j < |s.results| :: s.results[i].token != s.results[j].token
  {
    hide MutationOf, Outstanding;
  }

  lemma {:induction false} PassingRun(y: System, steps: seq<Step>)
    requires SysInv(y) && Run(y, steps) && Passing(y)
    ensures SysInv(After(y, steps)) && Passing(After(y, steps))
    decreases |steps|
  {
    hide SysInv, Possible, Do, Passing;
    if steps != [] {
      StepKeeps(y, steps[0]);
      PassingDo(y, steps[0]);
      PassingRun(Do(y, steps[0]), steps[1..]);
    }
  }

  lemma {:induction false} FirstPasses(s: Settings, generation: nat, lastKnown: int)
    ensures Passing(First(s, generation, lastKnown))
  {
    hide ReservedOf, ReservationsOf, PoolBits;
  }

  /**
   In every reachable state the deletion of a durable row and the retirement of a binding pass the check, whatever
   the clocks did: of all writes only grants and quarantines, retried ones included, can be refused, on the conditions above.
   */
  lemma {:induction false} RetirementsPass(s: Settings, generation: nat, lastKnown: int, steps: seq<Step>, ip: IPv4, r: Request, now: Sample)
    requires ValidSettings(s) && generation > 0 && Run(First(s, generation, lastKnown), steps)
    requires var e := After(First(s, generation, lastKnown), steps).engine; ip in e.byIP && e.byIP[ip].durable
    ensures var e := After(First(s, generation, lastKnown), steps).engine.(last := Some(now));
      var v := e.byIP[ip];
      && HorizonOK(Mutate(e, ip, DeleteLease, v.committed, v.timing, r).1.lease)
      && (v.lease.state == Bound ==> HorizonOK(Mutate(e, ip, PutLease, v.lease.(state := Quarantined), v.timing, r).1.lease))
  {
    hide SysInv, Inv, ValidSettings, Run, After, First, Raised, CoversMono, HorizonOK, RaiseHold;
    FirstGood(s, generation, lastKnown);
    FirstPasses(s, generation, lastKnown);
    PassingRun(First(s, generation, lastKnown), steps);
    var y := After(First(s, generation, lastKnown), steps);
    SysEngine(y);
    var e := y.engine.(last := Some(now));
    LastFree(y.engine, now);
    assert EntryPasses(e.byIP[ip], Applied(y.store));
    EntryAt(e, ip);
    DurableStored(ContextOf(e), ip, e.byIP[ip]);
    PassesMeans(e.byIP[ip].committed);
    if e.byIP[ip].lease.state == Bound {
      RetireHorizonIff(e, ip, r, now);
    }
  }

  /** The invariant does not mention the last clock reading. */
  lemma {:induction false} LastFree(e: Engine, now: Sample)
    requires Inv(e)
    ensures Inv(e.(last := Some(now)))
  {
    hide Installed, EntriesOK, IdsSound, IdsComplete, TokensIssued, TokensUnique, BitmapExact, Bounded;
  }

  lemma {:induction false} DurableStored(c: Context, ip: IPv4, v: Entry)
    requires EntryOK(c, ip, v) && v.durable
    ensures Storable(v.committed)
  {
    hide GoodOwner, RetainedTopology, ReservedFor, ValidRequest, Settled, InFlight;
  }

  lemma {:induction false} PassesMeans(l: Lease)
    requires Storable(l)
    ensures HorizonOK(l) <==> CoversMono(l)
  {
    hide GoodOwner;
  }
}
