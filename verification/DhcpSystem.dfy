/**
 Engine, writer and crash as one transition system, and what holds over every run of it:
 the table always equals what the engine believes, the writer's ownership guards never fire,
 every crash leaves a snapshot that recovery accepts, and no address is granted twice.
 */
module DhcpSystem {
  import opened Common
  import opened DhcpTypes
  import opened DhcpSettings
  import opened DhcpEngine
  import opened DhcpInvariant
  import opened DhcpSteps
  import opened DhcpStore

  datatype System = System(engine: Engine, store: Store)

  // ---- the table as a function of the engine ----

  function RowAt(t: Table, ip: IPv4): Option<Row> { if ip in t then Some(t[ip]) else None }

  /** The row an entry should have on disk, given which outstanding writes have been applied. */
  function Expect(v: Option<Entry>, applied: set<Token>): Option<Row> {
    match v
    case None => None
    case Some(w) =>
      if IsPending(w) && w.token in applied then
        if w.mutation == PutLease then Some(RowOf(w.pending)) else None
      else if w.durable then Some(RowOf(w.committed))
      else None
  }

  ghost predicate Agrees(byIP: map<IPv4, Entry>, t: Table, applied: set<Token>) {
    forall ip :: RowAt(t, ip) == Expect(EntryIn(byIP, ip), applied)
  }

  function Succeeded(results: seq<CommitResult>): set<Token> {
    set i | 0 <= i < |results| && !results[i].failed :: results[i].token
  }

  function Applied(s: Store): set<Token> { Succeeded(s.results) + s.orphans }

  /** Tokens the engine is still waiting for. */
  ghost predicate Outstanding(e: Engine, t: Token) { exists ip :: Awaiting(e, ip, t) }

  /** Queue, results and lost writes name distinct outstanding tokens. */
  ghost predicate Pipeline(e: Engine, s: Store) {
    && (forall i | 0 <= i < |s.queue| :: MutationOf(e, s.queue[i]))
    && (forall i, j | 0 <= i < j < |s.queue| :: s.queue[i].token != s.queue[j].token)
    && (forall i | 0 <= i < |s.results| :: Outstanding(e, s.results[i].token))
    && (forall i, j | 0 <= i < j < |s.results| :: s.results[i].token != s.results[j].token)
    && (forall i, j | 0 <= i < |s.queue| && 0 <= j < |s.results| :: s.queue[i].token != s.results[j].token)
    && (forall i | 0 <= i < |s.queue| :: s.queue[i].token !in s.orphans)
    && (forall i | 0 <= i < |s.results| :: s.results[i].token !in s.orphans)
    && (forall t :: t in s.orphans ==> Outstanding(e, t))
  }

  ghost predicate SysInv(y: System) {
    && Inv(y.engine)
    && Pipeline(y.engine, y.store)
    && Agrees(y.engine.byIP, y.store.table, Applied(y.store))
    && y.store.capacity == MAXIMUM_LEASES
    && y.store.lastToken.generation <= y.engine.generation && y.store.lastToken.sequence <= y.engine.sequence
  }

  // ---- agreement under engine steps ----

  /** Tokens of outstanding writes were issued in the past. */
  lemma {:induction false} OutstandingIssued(e: Engine, t: Token)
    requires Inv(e) && Outstanding(e, t)
    ensures t.sequence <= e.sequence
  {
    hide Inv;
    var ip :| Awaiting(e, ip, t);
    TokenIssued(e, ip);
  }

  lemma {:induction false} ExpectStep(v: Option<Entry>, w: Option<Entry>, sequence: nat, out: seq<Mutation>, now: Sample, released: Option<(Identity, IPv4)>, applied: set<Token>)
    requires EntryStep(v, w, sequence, out, now, released)
    requires forall t :: t in applied ==> t.sequence <= sequence
    ensures Expect(w, applied) == Expect(v, applied)
  {
    hide RowOf;
  }

  lemma {:induction false} AgreesStep(e: Engine, e': Engine, out: seq<Mutation>, now: Sample, released: Option<(Identity, IPv4)>, t: Table, applied: set<Token>)
    requires EngineStep(e, e', out, now, released) && Agrees(e.byIP, t, applied)
    requires forall k :: k in applied ==> k.sequence <= e.sequence
    ensures Agrees(e'.byIP, t, applied)
  {
    hide EntryStep, Expect, MutationsOf;
    forall ip ensures RowAt(t, ip) == Expect(EntryIn(e'.byIP, ip), applied) {
      ExpectStep(EntryIn(e.byIP, ip), EntryIn(e'.byIP, ip), e.sequence, out, now, released, applied);
    }
  }

  /** A pending entry stays pending, unchanged, under any step that does not complete it. */
  lemma {:induction false} PendingStays(e: Engine, e': Engine, out: seq<Mutation>, now: Sample, released: Option<(Identity, IPv4)>, ip: IPv4, t: Token)
    requires EngineStep(e, e', out, now, released) && e'.generation == e.generation && Awaiting(e, ip, t)
    ensures Awaiting(e', ip, t)
    ensures e'.byIP[ip].pending == e.byIP[ip].pending && e'.byIP[ip].mutation == e.byIP[ip].mutation
  {
    hide MutationsOf;
    assert EntryStep(EntryIn(e.byIP, ip), EntryIn(e'.byIP, ip), e.sequence, out, now, released);
  }

  lemma {:induction false} MutationStays(e: Engine, e': Engine, out: seq<Mutation>, now: Sample, released: Option<(Identity, IPv4)>, m: Mutation)
    requires EngineStep(e, e', out, now, released) && MutationOf(e, m)
    ensures MutationOf(e', m)
  {
    hide MutationsOf;
    var ip := m.lease.address;
    assert EntryStep(EntryIn(e.byIP, ip), EntryIn(e'.byIP, ip), e.sequence, out, now, released);
  }

  lemma {:induction false} PipelineStep(e: Engine, e': Engine, out: seq<Mutation>, now: Sample, released: Option<(Identity, IPv4)>, s: Store)
    requires EngineStep(e, e', out, now, released) && e'.generation == e.generation && Pipeline(e, s)
    ensures Pipeline(e', s)
  {
    hide EngineStep, MutationOf, Awaiting;
    forall t | Outstanding(e, t) ensures Outstanding(e', t) {
      var ip :| Awaiting(e, ip, t);
      PendingStays(e, e', out, now, released, ip, t);
    }
    forall i | 0 <= i < |s.queue| ensures MutationOf(e', s.queue[i]) {
      MutationStays(e, e', out, now, released, s.queue[i]);
    }
  }

  /** All tokens the store still knows are past ones. */
  lemma {:induction false} AppliedIssued(e: Engine, s: Store)
    requires Inv(e) && Pipeline(e, s)
    ensures forall t :: t in Applied(s) ==> t.sequence <= e.sequence
    ensures forall i | 0 <= i < |s.queue| :: s.queue[i].token.sequence <= e.sequence
    ensures forall i | 0 <= i < |s.results| :: s.results[i].token.sequence <= e.sequence
  {
    hide Inv, Outstanding;
    forall t | t in Applied(s) ensures t.sequence <= e.sequence {
      OutstandingIssued(e, t);
    }
    forall i | 0 <= i < |s.results| ensures s.results[i].token.sequence <= e.sequence {
      OutstandingIssued(e, s.results[i].token);
    }
    forall i | 0 <= i < |s.queue| ensures s.queue[i].token.sequence <= e.sequence {
      assert MutationOf(e, s.queue[i]);
      TokenIssued(e, s.queue[i].lease.address);
    }
  }

  /** An engine call other than a write completion keeps the system invariant. */
  lemma {:induction false} EngineStepKeeps(y: System, e': Engine, out: seq<Mutation>, now: Sample, released: Option<(Identity, IPv4)>)
    requires SysInv(y) && Inv(e') && EngineStep(y.engine, e', out, now, released) && e'.generation == y.engine.generation
    ensures SysInv(y.(engine := e'))
  {
    hide Inv, EngineStep, Pipeline, Agrees, Applied;
    AppliedIssued(y.engine, y.store);
    AgreesStep(y.engine, e', out, now, released, y.store.table, Applied(y.store));
    PipelineStep(y.engine, e', out, now, released, y.store);
    StepSequence(y.engine, e', out, now, released);
  }

  lemma {:induction false} StepSequence(e: Engine, e': Engine, out: seq<Mutation>, now: Sample, released: Option<(Identity, IPv4)>)
    requires EngineStep(e, e', out, now, released)
    ensures e.sequence <= e'.sequence && MutationsOf(e', out, e.sequence)
  {
    hide EntryStep, MutationsOf;
  }

  // ---- configuration only changes in Apply ----

  ghost predicate SameConfig(e: Engine, e': Engine) { e'.generation == e.generation && e'.settings == e.settings }

  lemma {:induction false} DiscoverConfig(e: Engine, r: Request, now: Sample, attempt: int)
    ensures SameConfig(e, DiscoverNew(e, r, now, attempt).0)
  {
    hide Candidate, Occupied, Capacity;
  }

  lemma {:induction false} HandleConfig(e: Engine, r: Request, now: Sample)
    ensures SameConfig(e, Handle(e, r, now).0)
  {
    hide HandleDiscover, HandleRequest, HandleRelease, HandleDecline, ValidRequest, SameConfig;
    SameAfterNow(e, now);
    var (f, ok) := Now(e, now);
    var found := Lookup(f, IdentityOf(r));
    if f.last == Some(now) {
      DiscoverPacketConfig(f, r, now, found);
      RequestPacketConfig(f, r, now, found);
      LeavingPacketConfig(f, r, now, found);
    }
    SameConfigTransitive(e, f, Handle(e, r, now).0);
  }

  lemma {:induction false} SameAfterNow(e: Engine, now: Sample)
    ensures SameConfig(e, e) && SameConfig(e, Now(e, now).0) && SameConfig(Now(e, now).0, Now(e, now).0)
  {
  }

  lemma {:induction false} SameConfigTransitive(a: Engine, b: Engine, c: Engine)
    requires SameConfig(a, b)
    ensures SameConfig(b, c) ==> SameConfig(a, c)
  {
  }

  lemma {:induction false} DiscoverPacketConfig(e: Engine, r: Request, now: Sample, found: Option<IPv4>)
    requires e.last == Some(now) && (found.Some? ==> found.value in e.byIP)
    ensures SameConfig(e, HandleDiscover(e, r, now, found).0)
  {
    hide DiscoverNew, Eligible, Contains;
    forall f: Engine, attempt: int ensures SameConfig(f, DiscoverNew(f, r, now, attempt).0) {
      DiscoverConfig(f, r, now, attempt);
    }
  }

  lemma {:induction false} RequestPacketConfig(e: Engine, r: Request, now: Sample, found: Option<IPv4>)
    requires e.last == Some(now) && (found.Some? ==> found.value in e.byIP)
    ensures SameConfig(e, HandleRequest(e, r, now, found).0)
  {
    hide Eligible, Contains, RequestTarget, GrantTarget, GrantTiming, Replayable, AckOutcome, Mutate;
    MutateConfigs();
  }

  lemma {:induction false} LeavingPacketConfig(e: Engine, r: Request, now: Sample, found: Option<IPv4>)
    requires e.last == Some(now) && (found.Some? ==> found.value in e.byIP)
    ensures SameConfig(e, HandleRelease(e, r, found).0) && SameConfig(e, HandleDecline(e, r, now, found).0)
  {
    hide Mutate, Quarantine;
    MutateConfigs();
    if found.Some? {
      QuarantineConfig(e, found.value, now);
    }
  }

  lemma {:induction false} MutateConfigs()
    ensures forall f: Engine, ip: IPv4, kind, target, timing, q | ip in f.byIP && f.last.Some? ::
      SameConfig(f, Mutate(f, ip, kind, target, timing, q).0)
  {
    hide Mutate;
    forall f: Engine, ip: IPv4, kind, target, timing, q | ip in f.byIP && f.last.Some?
      ensures SameConfig(f, Mutate(f, ip, kind, target, timing, q).0)
    {
      MutateConfig(f, ip, kind, target, timing, q);
    }
  }

  lemma {:induction false} MutateConfig(e: Engine, ip: IPv4, kind: MutationKind, target: Lease, timing: Deadlines, r: Request)
    requires ip in e.byIP && e.last.Some?
    ensures SameConfig(e, Mutate(e, ip, kind, target, timing, r).0)
  {
  }

  lemma {:induction false} QuarantineConfig(e: Engine, ip: IPv4, now: Sample)
    requires ip in e.byIP && e.last.Some?
    ensures SameConfig(e, Quarantine(e, ip, now).0)
  {
    hide GrantTiming, Detach, RaiseHold;
  }

  lemma {:induction false} ProbeConfig(e: Engine, p: ProbeResult, now: Sample)
    ensures SameConfig(e, CompleteProbe(e, p, now).0)
  {
    hide DiscoverNew, Quarantine, Find;
    var (e1, ok) := Now(e, now);
    match Find(e1, p.token)
    case None =>
    case Some(ip) =>
      var e2 := e1.(probes := e1.probes - 1);
      if ok {
        QuarantineConfig(e2, ip, now);
        var e3 := Quarantine(e2, ip, now).0;
        DiscoverConfig(e3, e1.byIP[ip].request, now, e1.byIP[ip].attempts + 1);
      }
  }

  lemma {:induction false} CommitConfig(e: Engine, c: CommitResult, now: Sample)
    ensures SameConfig(e, CompleteCommit(e, c, now).0)
  {
    hide DiscoverNew, Find, AckOutcome;
    var (e1, ok) := Now(e, now);
    match Find(e1, c.token)
    case None =>
    case Some(ip) =>
      var v := e1.byIP[ip];
      var v1 := v.(lease := v.pending, timing := v.pendingTiming, durable := true, committed := v.pending, dirty := false);
      DiscoverConfig(e1.(byIP := e1.byIP[ip := v1], byID := Detach(e1.byID, v1.lease.identity, ip)), v.request, now, 1);
  }

  lemma {:induction false} TickConfig(e: Engine, order: seq<IPv4>, now: Sample)
    requires e.last == Some(now)
    ensures SameConfig(e, TickAll(e, order, now).0)
    decreases |order|
  {
    hide RaiseHold, Detach, TickEntry;
    if order == [] {
    } else if order[0] !in e.byIP {
      TickConfig(e, order[1..], now);
    } else {
      TickEntryConfig(e, order[0], now);
      TickConfig(TickEntry(e, order[0], now).0, order[1..], now);
    }
  }

  lemma {:induction false} TickEntryConfig(e: Engine, ip: IPv4, now: Sample)
    requires ip in e.byIP && e.last == Some(now)
    ensures SameConfig(e, TickEntry(e, ip, now).0) && TickEntry(e, ip, now).0.last == e.last
  {
    hide RaiseHold, Detach;
  }

  // ---- write completions ----

  lemma {:induction false} ExpectFinish(v: Entry, w: Option<Entry>, failed: bool, applied: set<Token>)
    requires IsPending(v) && FinishStep(v, w, failed) && (failed <==> v.token !in applied)
    requires v.mutation in {PutLease, DeleteLease}
    ensures Expect(w, applied - {v.token}) == Expect(Some(v), applied)
  {
    hide RowOf;
  }

  lemma {:induction false} ExpectOther(v: Option<Entry>, w: Option<Entry>, sequence: nat, now: Sample, applied: set<Token>, t: Token)
    requires EntryStep(v, w, sequence, [], now, None)
    requires forall k :: k in applied ==> k.sequence <= sequence
    requires t.sequence <= sequence && !(v.Some? && IsPending(v.value) && v.value.token == t)
    ensures Expect(w, applied - {t}) == Expect(v, applied)
  {
    hide RowOf;
  }

  lemma {:induction false} AgreesFinish(e: Engine, e': Engine, c: CommitResult, now: Sample, t: Table, applied: set<Token>)
    requires Inv(e) && CommitStep(e, e', c, now) && Agrees(e.byIP, t, applied) && Outstanding(e, c.token)
    requires forall k :: k in applied ==> k.sequence <= e.sequence
    requires c.failed <==> c.token !in applied
    ensures Agrees(e'.byIP, t, applied - {c.token})
  {
    hide Inv, EntryStep, FinishStep, Expect;
    OutstandingIssued(e, c.token);
    forall ip ensures RowAt(t, ip) == Expect(EntryIn(e'.byIP, ip), applied - {c.token}) {
      assert RowAt(t, ip) == Expect(EntryIn(e.byIP, ip), applied);
      if Awaiting(e, ip, c.token) {
        EntryAt(e, ip);
        PendingToken(ContextOf(e), ip, e.byIP[ip]);
        hide EntryOK;
        ExpectFinish(e.byIP[ip], EntryIn(e'.byIP, ip), c.failed, applied);
      } else {
        assert ip in e.byIP && IsPending(e.byIP[ip]) ==> e.byIP[ip].token != c.token by {
          var a :| Awaiting(e, a, c.token);
        }
        ExpectOther(EntryIn(e.byIP, ip), EntryIn(e'.byIP, ip), e.sequence, now, applied, c.token);
      }
    }
  }

  ghost predicate Unknown(s: Store, t: Token) {
    && (forall i | 0 <= i < |s.queue| :: s.queue[i].token != t)
    && (forall i | 0 <= i < |s.results| :: s.results[i].token != t)
    && t !in s.orphans
  }

  lemma {:induction false} OutstandingAfter(e: Engine, e': Engine, c: CommitResult, now: Sample, t: Token)
    requires CommitStep(e, e', c, now) && e'.generation == e.generation && Outstanding(e, t) && t != c.token
    ensures Outstanding(e', t)
  {
    hide FinishStep;
    var ip :| Awaiting(e, ip, t);
    assert EntryStep(EntryIn(e.byIP, ip), EntryIn(e'.byIP, ip), e.sequence, [], now, None);
    assert Awaiting(e', ip, t);
  }

  lemma {:induction false} MutationAfter(e: Engine, e': Engine, c: CommitResult, now: Sample, m: Mutation)
    requires CommitStep(e, e', c, now) && MutationOf(e, m) && m.token != c.token
    ensures MutationOf(e', m)
  {
    hide FinishStep;
    var ip := m.lease.address;
    assert EntryStep(EntryIn(e.byIP, ip), EntryIn(e'.byIP, ip), e.sequence, [], now, None);
  }

  lemma {:induction false} PipelineFinish(e: Engine, e': Engine, c: CommitResult, now: Sample, s: Store)
    requires CommitStep(e, e', c, now) && e'.generation == e.generation && Pipeline(e, s) && Unknown(s, c.token)
    ensures Pipeline(e', s)
  {
    hide CommitStep, MutationOf, Outstanding;
    forall i | 0 <= i < |s.queue| ensures MutationOf(e', s.queue[i]) {
      MutationAfter(e, e', c, now, s.queue[i]);
    }
    forall i | 0 <= i < |s.results| ensures Outstanding(e', s.results[i].token) {
      OutstandingAfter(e, e', c, now, s.results[i].token);
    }
    forall t | t in s.orphans ensures Outstanding(e', t) {
      OutstandingAfter(e, e', c, now, t);
    }
  }

  /** A completion for a write the store no longer tracks: refused at admission, or just delivered. */
  lemma {:induction false} FinishKeeps(y: System, c: CommitResult, now: Sample, applied: set<Token>)
    requires Inv(y.engine) && GoodSample(now) && Pipeline(y.engine, y.store) && Unknown(y.store, c.token)
    requires Outstanding(y.engine, c.token)
    requires Agrees(y.engine.byIP, y.store.table, applied) && (c.failed <==> c.token !in applied)
    requires applied - {c.token} == Applied(y.store)
    requires y.store.capacity == MAXIMUM_LEASES
    requires y.store.lastToken.generation <= y.engine.generation && y.store.lastToken.sequence <= y.engine.sequence
    ensures SysInv(y.(engine := CompleteCommit(y.engine, c, now).0))
  {
    hide Inv, Pipeline, Agrees, Applied, CompleteCommit, CommitStep, Outstanding, Unknown;
    var e := y.engine;
    var e' := CompleteCommit(e, c, now).0;
    CompleteCommitKeeps(e, c, now);
    CommitConfig(e, c, now);
    AppliedIssued(e, y.store);
    OutstandingIssued(e, c.token);
    assert forall k :: k in applied ==> k.sequence <= e.sequence by {
      assert forall k :: k in applied ==> k == c.token || k in applied - {c.token};
    }
    AgreesFinish(e, e', c, now, y.store.table, applied);
    PipelineFinish(e, e', c, now, y.store);
    CommitSequence(e, e', c, now);
  }

  lemma {:induction false} CommitSequence(e: Engine, e': Engine, c: CommitResult, now: Sample)
    requires CommitStep(e, e', c, now)
    ensures e.sequence <= e'.sequence
  {
    hide EntryStep, FinishStep;
  }

  /** Delivering the oldest completion. */
  lemma {:induction false} WriteDoneKeeps(y: System, now: Sample)
    requires SysInv(y) && GoodSample(now) && |y.store.results| > 0
    ensures var c := y.store.results[0];
      SysInv(System(CompleteCommit(y.engine, c, now).0, y.store.(results := y.store.results[1..])))
  {
    hide Inv, Agrees, CompleteCommit, Outstanding, MutationOf;
    var c := y.store.results[0];
    var s' := y.store.(results := y.store.results[1..]);
    SucceededHead(y.store.results);
    assert Applied(y.store) - {c.token} == Applied(s');
    assert c.failed <==> c.token !in Applied(y.store);
    assert Pipeline(y.engine, s') && Unknown(s', c.token);
    FinishKeeps(System(y.engine, s'), c, now, Applied(y.store));
  }

  lemma {:induction false} SucceededHead(results: seq<CommitResult>)
    requires |results| > 0
    requires forall i, j | 0 <= i < j < |results| :: results[i].token != results[j].token
    ensures Succeeded(results) == Succeeded(results[1..]) + (if results[0].failed then {} else {results[0].token})
    ensures results[0].token !in Succeeded(results[1..])
  {
    var rest := results[1..];
    assert forall i | 0 <= i < |rest| :: rest[i] == results[i + 1];
    forall t | t in Succeeded(results) ensures t in Succeeded(rest) || (!results[0].failed && t == results[0].token) {
      var i :| 0 <= i < |results| && !results[i].failed && results[i].token == t;
      if i > 0 { assert rest[i - 1] == results[i]; }
    }
    forall t | t in Succeeded(rest) ensures t in Succeeded(results) {
      var i :| 0 <= i < |rest| && !rest[i].failed && rest[i].token == t;
      assert results[i + 1] == rest[i];
    }
  }

  // ---- the writer's guards ----

  /** The writer's recovery check on the ownership horizon; see DhcpHorizon. */
  predicate HorizonOK(l: Lease) { !Before(l.hold, l.expiry) }

  lemma {:induction false} PendingLease(c: Context, ip: IPv4, v: Entry)
    requires EntryOK(c, ip, v) && IsPending(v)
    ensures Storable(v.pending) && SameOwner(v.pending, v.lease) && v.lease.address == ip
    ensures v.mutation in {PutLease, DeleteLease}
    ensures v.mutation == DeleteLease ==> v.durable && v.pending == v.committed
    ensures v.durable ==> SameOwner(v.committed, v.lease) && Storable(v.committed)
    ensures v.mutation == PutLease && v.durable ==> v.committed.hold.wall <= v.pending.hold.wall
    ensures ReservedFor(c.reserved, v.pending)
  {
    hide GoodOwner, RetainedTopology, ReservedFor, ValidRequest, Settled;
  }

  /** Every mutation the engine hands out is well formed but for its horizon. */
  lemma {:induction false} WellFormedIff(e: Engine, m: Mutation)
    requires Inv(e) && MutationOf(e, m)
    ensures WellFormed(m) <==> HorizonOK(m.lease)
  {
    hide Inv, EntryOK, LeaseAddress, ValidLabel, UnicastMac, ReservedFor;
    EntryAt(e, m.lease.address);
    PendingLease(ContextOf(e), m.lease.address, e.byIP[m.lease.address]);
  }

  /** A bound row belongs to the entry its identity points to. */
  lemma {:induction false} BoundRowActive(e: Engine, ip: IPv4, applied: set<Token>)
    requires Inv(e) && ip in e.byIP
    requires var r := Expect(Some(e.byIP[ip]), applied); r.Some? && r.value.state == Bound
    ensures var r := Expect(Some(e.byIP[ip]), applied); PointsAt(e.byID, r.value.identity, ip)
  {
    hide Inv, PointsAt;
    EntryAt(e, ip);
    BoundRowOwner(ContextOf(e), ip, e.byIP[ip], applied);
    PointedAt(e, ip);
  }

  lemma {:induction false} BoundRowOwner(c: Context, ip: IPv4, v: Entry, applied: set<Token>)
    requires EntryOK(c, ip, v)
    requires var r := Expect(Some(v), applied); r.Some? && r.value.state == Bound
    ensures Active(v) && Expect(Some(v), applied).value.identity == v.lease.identity
  {
    hide GoodOwner, RetainedTopology, ReservedFor, ValidRequest, Storable, PendingPut, PendingDelete, Settled;
  }

  lemma {:induction false} NoOtherBound(e: Engine, t: Table, applied: set<Token>, ip: IPv4, id: Identity)
    requires Inv(e) && Agrees(e.byIP, t, applied) && PointsAt(e.byID, id, ip)
    ensures !BoundElsewhere(t, ip, id)
  {
    hide Inv, Expect;
    if a :| a in t && a != ip && t[a].state == Bound && t[a].identity == id {
      assert RowAt(t, a) == Expect(EntryIn(e.byIP, a), applied);
      ExpectNone(applied);
      BoundRowActive(e, a, applied);
      assert false;
    }
  }

  lemma {:induction false} ExpectNone(applied: set<Token>)
    ensures Expect(None, applied) == None
  {
  }

  lemma {:induction false} BoundPutActive(c: Context, ip: IPv4, v: Entry)
    requires EntryOK(c, ip, v) && IsPending(v) && v.mutation == PutLease && v.pending.state == Bound
    ensures Active(v) && v.pending.identity == v.lease.identity
  {
    hide GoodOwner, RetainedTopology, ReservedFor, ValidRequest, PendingPut, PendingDelete, Settled;
  }

  /** The conflict, delete and unique-identity guards accept every mutation the engine issues. */
  lemma {:induction false} OwnershipGuardsPass(e: Engine, t: Table, applied: set<Token>, m: Mutation)
    requires Inv(e) && Agrees(e.byIP, t, applied) && MutationOf(e, m) && m.token !in applied
    ensures m.kind == PutLease ==> PutGuard(t, m.lease)
    ensures m.kind == DeleteLease ==> DeleteGuard(t, m.lease)
    ensures m.kind in {PutLease, DeleteLease}
  {
    hide Inv, EntryOK, PointsAt, BoundElsewhere, Active, GoodOwner, ReservedFor;
    var ip := m.lease.address;
    var v := e.byIP[ip];
    EntryAt(e, ip);
    PendingLease(ContextOf(e), ip, v);
    assert RowAt(t, ip) == Expect(EntryIn(e.byIP, ip), applied);
    if m.kind == PutLease && m.lease.state == Bound {
      BoundPutActive(ContextOf(e), ip, v);
      PointedAt(e, ip);
      NoOtherBound(e, t, applied, ip, m.lease.identity);
    }
  }

  lemma {:induction false} AppliedAgrees(e: Engine, t: Table, applied: set<Token>, m: Mutation)
    requires Inv(e) && Agrees(e.byIP, t, applied) && MutationOf(e, m)
    requires m.kind in {PutLease, DeleteLease}
    ensures var u := if m.kind == PutLease then t[m.lease.address := RowOf(m.lease)] else t - {m.lease.address};
      Agrees(e.byIP, u, applied + {m.token})
  {
    hide Inv, RowOf;
    var u := if m.kind == PutLease then t[m.lease.address := RowOf(m.lease)] else t - {m.lease.address};
    forall ip ensures RowAt(u, ip) == Expect(EntryIn(e.byIP, ip), applied + {m.token}) {
      assert RowAt(t, ip) == Expect(EntryIn(e.byIP, ip), applied);
      if ip != m.lease.address && ip in e.byIP && IsPending(e.byIP[ip]) {
        OtherToken(e, ip, m);
      }
    }
  }

  lemma {:induction false} OtherToken(e: Engine, ip: IPv4, m: Mutation)
    requires Inv(e) && MutationOf(e, m) && ip in e.byIP && IsPending(e.byIP[ip]) && ip != m.lease.address
    ensures e.byIP[ip].token != m.token
  {
    hide Inv;
    EntryAt(e, ip);
    PendingToken(ContextOf(e), ip, e.byIP[ip]);
    hide EntryOK;
    if e.byIP[ip].token == m.token {
      AwaitingUnique(e, ip, m.lease.address, m.token);
    }
  }

  ghost predicate FreshBatch(e: Engine, batch: seq<Mutation>, applied: set<Token>) {
    && (forall i | 0 <= i < |batch| :: MutationOf(e, batch[i]) && batch[i].token !in applied)
    && (forall i, j | 0 <= i < j < |batch| :: batch[i].token != batch[j].token)
  }

  /**
   A whole transaction: it is accepted exactly when every mutation passes the horizon check;
   no ownership guard ever rejects it, and if it commits the table is what the engine expects.
   */
  lemma {:induction false} BatchAccepted(e: Engine, t: Table, applied: set<Token>, batch: seq<Mutation>)
    requires Inv(e) && Agrees(e.byIP, t, applied) && FreshBatch(e, batch, applied)
    ensures ApplyBatch(t, batch).Some? <==> forall i | 0 <= i < |batch| :: HorizonOK(batch[i].lease)
    ensures ApplyBatch(t, batch).Some? ==> Agrees(e.byIP, ApplyBatch(t, batch).value, applied + TokensIn(batch))
    decreases |batch|
  {
    hide Inv, Agrees, HorizonOK, WellFormed, PutGuard, DeleteGuard, MutationOf;
    if batch == [] {
      assert TokensIn(batch) == {};
      assert applied + TokensIn(batch) == applied;
    } else {
      var m := batch[0];
      var rest := batch[1..];
      assert forall i | 0 <= i < |rest| :: rest[i] == batch[i + 1];
      WellFormedIff(e, m);
      OwnershipGuardsPass(e, t, applied, m);
      if HorizonOK(m.lease) {
        AppliedAgrees(e, t, applied, m);
        var u := ApplyOne(t, m).value;
        assert FreshBatch(e, rest, applied + {m.token});
        BatchAccepted(e, u, applied + {m.token}, rest);
        TokensSplit(batch);
        assert applied + TokensIn(batch) == applied + {m.token} + TokensIn(rest);
        assert (forall i | 0 <= i < |batch| :: HorizonOK(batch[i].lease)) <==> (forall i | 0 <= i < |rest| :: HorizonOK(rest[i].lease)) by {
          HorizonSplit(batch);
        }
      }
    }
  }

  lemma {:induction false} HorizonSplit(batch: seq<Mutation>)
    requires batch != [] && HorizonOK(batch[0].lease)
    ensures (forall i | 0 <= i < |batch| :: HorizonOK(batch[i].lease)) <==> (forall i | 0 <= i < |batch[1..]| :: HorizonOK(batch[1..][i].lease))
  {
    hide HorizonOK;
    var rest := batch[1..];
    if forall i | 0 <= i < |rest| :: HorizonOK(rest[i].lease) {
      forall i | 0 <= i < |batch| ensures HorizonOK(batch[i].lease) {
        if i > 0 { assert rest[i - 1] == batch[i]; }
      }
    }
    assert forall i | 0 <= i < |rest| :: rest[i] == batch[i + 1];
  }

  lemma {:induction false} TokensSplit(batch: seq<Mutation>)
    requires batch != []
    ensures TokensIn(batch) == {batch[0].token} + TokensIn(batch[1..])
  {
    var rest := batch[1..];
    forall t | t in TokensIn(batch) ensures t == batch[0].token || t in TokensIn(rest) {
      var i :| 0 <= i < |batch| && batch[i].token == t;
      if i > 0 { assert rest[i - 1] == batch[i]; }
    }
    forall t | t in TokensIn(rest) ensures t in TokensIn(batch) {
      var i :| 0 <= i < |rest| && rest[i].token == t;
      assert batch[i + 1] == rest[i];
    }
    assert batch[0].token in TokensIn(batch);
  }

  /** Rows exist only at owned addresses, so the writer's capacity guard cannot fire either. */
  lemma {:induction false} TableBounded(e: Engine, t: Table, applied: set<Token>)
    requires Inv(e) && Agrees(e.byIP, t, applied)
    ensures t.Keys <= e.byIP.Keys
    ensures |t| <= |e.byIP.Keys + e.reserved.Keys| <= Capacity(e.settings) <= MAXIMUM_LEASES
  {
    hide EntriesOK, IdsSound, IdsComplete, TokensUnique, TokensIssued, BitmapExact, Expect;
    CapacityLimit(ConfigOf(e));
    hide Installed;
    forall ip | ip in t ensures ip in e.byIP {
      ExpectNone(applied);
      assert RowAt(t, ip) == Expect(EntryIn(e.byIP, ip), applied);
    }
    SubsetSize(t.Keys, e.byIP.Keys + e.reserved.Keys);
  }

  lemma {:induction false} CapacityLimit(c: Config)
    requires Installed(c)
    ensures Capacity(c.settings) <= MAXIMUM_LEASES
  {
    hide ValidReservations, ValidDomain, ValidInterface, ReservedOf, TopologyOK, ValidPool, ValidAddressField;
  }

  // ---- the writer's steps ----

  lemma {:induction false} MutationOutstanding(e: Engine, m: Mutation)
    requires Inv(e) && MutationOf(e, m)
    ensures Outstanding(e, m.token)
  {
    hide Inv;
    EntryAt(e, m.lease.address);
    PendingToken(ContextOf(e), m.lease.address, e.byIP[m.lease.address]);
    hide EntryOK;
    assert Awaiting(e, m.lease.address, m.token);
  }

  lemma {:induction false} SucceededAppend(results: seq<CommitResult>, batch: seq<Mutation>, failed: bool)
    ensures Succeeded(results + ResultsFor(batch, failed)) == Succeeded(results) + (if failed then {} else TokensIn(batch))
  {
    var all := results + ResultsFor(batch, failed);
    forall t | t in Succeeded(all) ensures t in Succeeded(results) || (!failed && t in TokensIn(batch)) {
      var i :| 0 <= i < |all| && !all[i].failed && all[i].token == t;
      if i < |results| {
        assert all[i] == results[i];
      } else {
        assert all[i] == ResultsFor(batch, failed)[i - |results|];
        assert batch[i - |results|].token == t;
      }
    }
    forall t | t in Succeeded(results) ensures t in Succeeded(all) {
      var i :| 0 <= i < |results| && !results[i].failed && results[i].token == t;
      assert all[i] == results[i];
    }
    if !failed {
      forall t | t in TokensIn(batch) ensures t in Succeeded(all) {
        var i :| 0 <= i < |batch| && batch[i].token == t;
        assert all[|results| + i] == ResultsFor(batch, failed)[i];
      }
    }
  }

  /** Moving a batch from the queue to the results, or to the lost writes, keeps tokens apart. */
  lemma {:induction false} PipelineDrops(e: Engine, s: Store, n: nat)
    requires Pipeline(e, s) && n <= |s.queue|
    ensures Pipeline(e, s.(queue := s.queue[n..]))
  {
    hide MutationOf, Outstanding;
    var queue := s.queue[n..];
    assert forall i | 0 <= i < |queue| :: queue[i] == s.queue[n + i];
  }

  /** Results are those before, and behind them those of the batch. */
  lemma {:induction false} DeliveredTokens(s: Store, n: nat, failed: bool)
    requires n <= |s.queue|
    ensures var results := s.results + ResultsFor(s.queue[..n], failed);
      && |results| == |s.results| + n
      && forall i | 0 <= i < |results| :: results[i].token == if i < |s.results| then s.results[i].token else s.queue[i - |s.results|].token
  {
  }

  lemma {:induction false} DeliveredApart(e: Engine, s: Store, n: nat, results: seq<CommitResult>)
    requires Pipeline(e, s) && n <= |s.queue| && |results| == |s.results| + n
    requires forall i | 0 <= i < |results| :: results[i].token == if i < |s.results| then s.results[i].token else s.queue[i - |s.results|].token
    ensures forall i, j | 0 <= i < j < |results| :: results[i].token != results[j].token
    ensures forall i, j | n <= i < |s.queue| && 0 <= j < |results| :: s.queue[i].token != results[j].token
    ensures forall i | 0 <= i < |results| :: results[i].token !in s.orphans
  {
    hide MutationOf, Outstanding;
    forall i, j | 0 <= i < j < |results| ensures results[i].token != results[j].token {
      if i < |s.results| <= j { assert s.queue[j - |s.results|].token != s.results[i].token; }
    }
    forall i, j | n <= i < |s.queue| && 0 <= j < |results| ensures s.queue[i].token != results[j].token {
      if |s.results| <= j { assert s.queue[j - |s.results|].token != s.queue[i].token; }
    }
  }

  lemma {:induction false} PipelineDelivers(e: Engine, s: Store, n: nat, failed: bool)
    requires Inv(e) && Pipeline(e, s) && n <= |s.queue|
    ensures Pipeline(e, s.(queue := s.queue[n..], results := s.results + ResultsFor(s.queue[..n], failed)))
  {
    hide Inv, MutationOf, Outstanding;
    var queue := s.queue[n..];
    var results := s.results + ResultsFor(s.queue[..n], failed);
    DeliveredTokens(s, n, failed);
    DeliveredApart(e, s, n, results);
    hide ResultsFor;
    PipelineDrops(e, s, n);
    forall i | 0 <= i < |results| ensures Outstanding(e, results[i].token) {
      if i >= |s.results| { MutationOutstanding(e, s.queue[i - |s.results|]); }
    }
    assert forall i | 0 <= i < |queue| :: queue[i] == s.queue[n + i];
  }

  lemma {:induction false} PipelineLoses(e: Engine, s: Store, n: nat)
    requires Inv(e) && Pipeline(e, s) && n <= |s.queue|
    ensures Pipeline(e, s.(queue := s.queue[n..], orphans := s.orphans + TokensIn(s.queue[..n])))
  {
    hide Inv, MutationOf, Outstanding;
    var queue := s.queue[n..];
    forall i | 0 <= i < n ensures Outstanding(e, s.queue[i].token) { MutationOutstanding(e, s.queue[i]); }
    assert forall i | 0 <= i < |queue| :: queue[i] == s.queue[n + i];
    assert forall t :: t in TokensIn(s.queue[..n]) ==> exists i :: 0 <= i < n && s.queue[i].token == t;
  }

  lemma {:induction false} QueuedNotApplied(e: Engine, s: Store, n: nat)
    requires Pipeline(e, s) && n <= |s.queue|
    ensures FreshBatch(e, s.queue[..n], Applied(s))
  {
    hide MutationOf, Outstanding;
  }

  /** The pipeline does not care about table, time or failure flags. */
  lemma {:induction false} PipelineFields(e: Engine, s: Store, s': Store)
    requires Pipeline(e, s) && s'.queue == s.queue && s'.results == s.results && s'.orphans == s.orphans
    ensures Pipeline(e, s')
  {
    hide MutationOf, Outstanding;
  }

  /** Whatever the disk does with a transaction, table and engine stay in agreement. */
  lemma {:induction false} WorkKeeps(y: System, n: nat, wall: int, disk: Disk)
    requires SysInv(y) && 1 <= n <= |y.store.queue| && n <= BATCH_LIMIT
    ensures SysInv(y.(store := Work(y.store, n, wall, disk)))
  {
    hide Inv, Pipeline, Agrees, ApplyBatch, Succeeded, TokensIn, FreshBatch, HorizonOK;
    var s := y.store;
    var s' := Work(s, n, wall, disk);
    var batch := s.queue[..n];
    QueuedNotApplied(y.engine, s, n);
    BatchAccepted(y.engine, s.table, Applied(s), batch);
    var written := !s.failed && 0 < wall && s.lastKnown <= wall && ApplyBatch(s.table, batch).Some?
      && |ApplyBatch(s.table, batch).value| <= s.capacity;
    if |s'.results| > |s.results| {
      var failed := !(written && disk in {Durable, DurableThenSick});
      assert s'.results == s.results + ResultsFor(batch, failed);
      PipelineDelivers(y.engine, s, n, failed);
      PipelineFields(y.engine, s.(queue := s.queue[n..], results := s.results + ResultsFor(batch, failed)), s');
      SucceededAppend(s.results, batch, failed);
      assert Applied(s') == if failed then Applied(s) else Applied(s) + TokensIn(batch);
    } else if written && disk == UnknownApplied {
      PipelineLoses(y.engine, s, n);
      PipelineFields(y.engine, s.(queue := s.queue[n..], orphans := s.orphans + TokensIn(batch)), s');
      assert Applied(s') == Applied(s) + TokensIn(batch);
    } else {
      PipelineDrops(y.engine, s, n);
      PipelineFields(y.engine, s.(queue := s.queue[n..]), s');
      assert Applied(s') == Applied(s);
    }
  }

  /** Admission or refusal of one mutation; a refusal completes it as failed. */
  ghost function Dispatch(y: System, m: Mutation, cancelled: bool, later: Sample): System {
    var (s, ok) := Submit(y.store, m, cancelled);
    if ok then y.(store := s) else y.(engine := CompleteCommit(y.engine, CommitResult(m.token, true), later).0)
  }

  /** The writer's token-order rule never refuses the engine: its tokens only grow. */
  lemma {:induction false} TokenOrderRespected(y: System, m: Mutation, before: nat)
    requires y.store.lastToken.generation <= y.engine.generation && y.store.lastToken.sequence <= before
    requires MutationOf(y.engine, m) && Inv(y.engine) && before < m.token.sequence
    ensures TokenBefore(y.store.lastToken, m.token) && m.token.generation > 0
  {
    hide Inv;
    EntryAt(y.engine, m.lease.address);
    PendingToken(ContextOf(y.engine), m.lease.address, y.engine.byIP[m.lease.address]);
    InstalledOf(y.engine);
    hide EntryOK, Installed;
  }

  lemma {:induction false} DispatchKeeps(y: System, m: Mutation, cancelled: bool, later: Sample)
    requires SysInv(y) && MutationOf(y.engine, m) && Unknown(y.store, m.token) && GoodSample(later)
    ensures SysInv(Dispatch(y, m, cancelled, later))
    ensures SameConfig(y.engine, Dispatch(y, m, cancelled, later).engine)
  {
    hide Inv, Agrees, CompleteCommit, MutationOf, Outstanding, Succeeded;
    MutationOutstanding(y.engine, m);
    var (s, ok) := Submit(y.store, m, cancelled);
    if ok {
      assert s.queue == y.store.queue + [m];
      assert Pipeline(y.engine, s);
      assert Applied(s) == Applied(y.store);
      MutationIssued(y.engine, m);
    } else {
      var c := CommitResult(m.token, true);
      assert c.token !in Applied(y.store) by { UnknownNotApplied(y.store, m.token); }
      assert Applied(y.store) - {c.token} == Applied(y.store);
      hide Pipeline, Applied, Unknown;
      FinishKeeps(y, c, later, Applied(y.store));
      CommitConfig(y.engine, c, later);
    }
  }

  lemma {:induction false} UnknownNotApplied(s: Store, t: Token)
    requires Unknown(s, t)
    ensures t !in Applied(s)
  {
  }

  lemma {:induction false} MutationIssued(e: Engine, m: Mutation)
    requires Inv(e) && MutationOf(e, m)
    ensures m.token.sequence <= e.sequence && m.token.generation == e.generation
  {
    hide Inv;
    TokenIssued(e, m.lease.address);
    EntryAt(e, m.lease.address);
    PendingToken(ContextOf(e), m.lease.address, e.byIP[m.lease.address]);
    hide EntryOK;
  }

  /** The owner dispatches the mutations of one call in order. */
  ghost function DispatchAll(y: System, out: seq<Mutation>, cancelled: seq<bool>, later: Sample): System
    decreases |out|
  {
    if out == [] then y
    else
      DispatchAll(Dispatch(y, out[0], cancelled != [] && cancelled[0], later), out[1..], if cancelled == [] then [] else cancelled[1..], later)
  }

  ghost predicate FreshOut(y: System, out: seq<Mutation>) {
    && (forall i | 0 <= i < |out| :: MutationOf(y.engine, out[i]) && Unknown(y.store, out[i].token))
    && (forall i, j | 0 <= i < j < |out| :: out[i].token != out[j].token)
  }

  lemma {:induction false} FreshOutAfter(y: System, out: seq<Mutation>, cancelled: bool, later: Sample)
    requires SysInv(y) && FreshOut(y, out) && out != [] && GoodSample(later)
    ensures FreshOut(Dispatch(y, out[0], cancelled, later), out[1..])
  {
    hide SysInv, Inv, CompleteCommit, CommitStep, MutationOf;
    var m := out[0];
    var c := CommitResult(m.token, true);
    var y' := Dispatch(y, m, cancelled, later);
    assert Inv(y.engine) by { SysEngine(y); }
    CompleteCommitKeeps(y.engine, c, later);
    var rest := out[1..];
    assert forall i | 0 <= i < |rest| :: rest[i] == out[i + 1];
    forall i | 0 <= i < |rest| ensures MutationOf(y'.engine, rest[i]) && Unknown(y'.store, rest[i].token) {
      assert MutationOf(y.engine, rest[i]) && Unknown(y.store, rest[i].token) && rest[i].token != m.token;
      if y'.engine != y.engine {
        MutationAfter(y.engine, y'.engine, c, later, rest[i]);
      }
    }
  }

  lemma {:induction false} SysEngine(y: System)
    requires SysInv(y)
    ensures Inv(y.engine)
  {
    hide Inv, Pipeline, Agrees;
  }

  lemma {:induction false} DispatchAllKeeps(y: System, out: seq<Mutation>, cancelled: seq<bool>, later: Sample)
    requires SysInv(y) && FreshOut(y, out) && GoodSample(later)
    ensures SysInv(DispatchAll(y, out, cancelled, later))
    ensures SameConfig(y.engine, DispatchAll(y, out, cancelled, later).engine)
    decreases |out|
  {
    hide SysInv, FreshOut, Dispatch;
    if out != [] {
      var stop := cancelled != [] && cancelled[0];
      FirstFresh(y, out);
      DispatchKeeps(y, out[0], stop, later);
      FreshOutAfter(y, out, stop, later);
      DispatchAllKeeps(Dispatch(y, out[0], stop, later), out[1..], if cancelled == [] then [] else cancelled[1..], later);
    }
  }

  lemma {:induction false} FirstFresh(y: System, out: seq<Mutation>)
    requires FreshOut(y, out) && out != []
    ensures MutationOf(y.engine, out[0]) && Unknown(y.store, out[0].token)
  {
    hide MutationOf, Unknown;
  }

  /** Mutations just issued are unknown to the store. */
  lemma {:induction false} OutIsFresh(y: System, e': Engine, out: seq<Mutation>)
    requires SysInv(y) && MutationsOf(e', out, y.engine.sequence)
    ensures FreshOut(y.(engine := e'), out)
  {
    hide Inv, Agrees, MutationOf;
    assert Inv(y.engine) && Pipeline(y.engine, y.store);
    hide SysInv;
    AppliedIssued(y.engine, y.store);
    hide Pipeline;
    forall i | 0 <= i < |out| ensures Unknown(y.store, out[i].token) {
      assert out[i].token.sequence > y.engine.sequence;
    }
  }
}
