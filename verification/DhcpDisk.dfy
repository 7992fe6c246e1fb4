/** What admission and a transaction do (internal/dhcp/store.go), and what a settings change and a recovery leave (engine.go). */
module DhcpDisk {
  import opened Common
  import opened DhcpTypes
  import opened DhcpSettings
  import opened DhcpEngine
  import opened DhcpInvariant
  import opened DhcpSteps
  import opened DhcpStore
  import opened DhcpSystem

  // ---- admission ----

  /**
   A write the engine has just issued is queued, last, exactly when its caller still wants it, the writer is open and has not
   failed, and fewer than 64 writes wait; otherwise it ends at once as failed.
   */
  lemma {:induction false} AdmittedIff(y: System, m: Mutation, before: nat, cancelled: bool, later: Sample)
    requires SysInv(y) && MutationOf(y.engine, m) && y.store.lastToken.sequence <= before < m.token.sequence
    ensures var y' := Dispatch(y, m, cancelled, later);
      if !cancelled && !y.store.closed && !y.store.failed && |y.store.queue| < 64 then
        y' == System(y.engine, y.store.(queue := y.store.queue + [m], lastToken := m.token))
      else y' == System(CompleteCommit(y.engine, CommitResult(m.token, true), later).0, y.store)
  {
    hide Inv, Pipeline, Agrees, CompleteCommit, MutationOf;
    TokenOrderRespected(y, m, before);
    hide TokenBefore;
  }

  // ---- a transaction ----

  /** The rows of a batch are in the table, those it deletes are not, and all others are as before. */
  ghost predicate Written(t: Table, t': Table, batch: seq<Mutation>) {
    && (forall i | 0 <= i < |batch| && batch[i].kind == PutLease ::
          batch[i].lease.address in t' && t'[batch[i].lease.address] == RowOf(batch[i].lease))
    && (forall i | 0 <= i < |batch| && batch[i].kind == DeleteLease :: batch[i].lease.address !in t')
    && (forall ip | Untouched(batch, ip) :: RowAt(t', ip) == RowAt(t, ip))
  }

  ghost predicate Untouched(batch: seq<Mutation>, ip: IPv4) { forall i | 0 <= i < |batch| :: batch[i].lease.address != ip }

  /** The clock has not gone behind the last transaction, the writer works, and every row passes its check. */
  ghost predicate Committable(s: Store, batch: seq<Mutation>, wall: int) {
    && !s.failed && 0 < wall && s.lastKnown <= wall
    && forall i | 0 <= i < |batch| :: HorizonOK(batch[i].lease)
  }

  /** Each of these mutations ends with this outcome, in order. */
  ghost predicate EndAs(results: seq<CommitResult>, batch: seq<Mutation>, failed: bool) {
    |results| == |batch| && forall i | 0 <= i < |batch| :: results[i] == CommitResult(batch[i].token, failed)
  }

  /**
   One transaction over the first writes in the queue. If it can be committed and the disk does so, exactly their rows change and
   all end successfully; if it cannot, or the disk refuses, nothing is written, all end as failed and the writer takes no more
   writes. Only an outcome nobody knows is not reported; then the writer has failed too.
   */
  lemma {:induction false} TransactionMeans(y: System, n: nat, wall: int, disk: Disk)
    requires SysInv(y) && 1 <= n <= |y.store.queue| && n <= BATCH_LIMIT
    ensures var s, s', batch := y.store, Work(y.store, n, wall, disk), y.store.queue[..n];
      && s'.queue == s.queue[n..]
      && (Committable(s, batch, wall) && (disk == Durable || disk == DurableThenSick) ==>
            && Written(s.table, s'.table, batch) && s'.lastKnown == wall && s'.failed == (disk == DurableThenSick)
            && |s'.results| == |s.results| + n && s'.results[..|s.results|] == s.results && EndAs(s'.results[|s.results|..], batch, false))
      && ((!Committable(s, batch, wall) && (s.failed || wall <= 0 || wall < s.lastKnown || (disk != UnknownApplied && disk != UnknownLost)))
          || (Committable(s, batch, wall) && disk == Refused) ==>
            && s'.table == s.table && s'.lastKnown == s.lastKnown && s'.failed
            && |s'.results| == |s.results| + n && s'.results[..|s.results|] == s.results && EndAs(s'.results[|s.results|..], batch, true))
      && (Committable(s, batch, wall) && disk == UnknownApplied ==> Written(s.table, s'.table, batch) && s'.failed && s'.results == s.results)
      && (Committable(s, batch, wall) && disk == UnknownLost ==> s'.table == s.table && s'.failed && s'.results == s.results)
  {
    hide Inv, Pipeline, Agrees, ApplyBatch, Succeeded, TokensIn, FreshBatch, HorizonOK, Written, EndAs;
    var s, s', batch := y.store, Work(y.store, n, wall, disk), y.store.queue[..n];
    QueuedNotApplied(y.engine, s, n);
    BatchAccepted(y.engine, s.table, Applied(s), batch);
    if ApplyBatch(s.table, batch).Some? {
      TableBounded(y.engine, ApplyBatch(s.table, batch).value, Applied(s) + TokensIn(batch));
      BatchWritten(y.engine, s.table, Applied(s), batch);
    }
    AppendedResults(s.results, batch, true);
    AppendedResults(s.results, batch, false);
  }

  lemma {:induction false} AppendedResults(results: seq<CommitResult>, batch: seq<Mutation>, failed: bool)
    ensures var r := results + ResultsFor(batch, failed);
      |r| == |results| + |batch| && r[..|results|] == results && EndAs(r[|results|..], batch, failed)
  {
  }

  /** A committed batch leaves exactly its rows. */
  lemma {:induction false} BatchWritten(e: Engine, t: Table, applied: set<Token>, batch: seq<Mutation>)
    requires Inv(e) && Agrees(e.byIP, t, applied) && FreshBatch(e, batch, applied) && ApplyBatch(t, batch).Some?
    ensures Written(t, ApplyBatch(t, batch).value, batch)
  {
    hide Inv, ApplyBatch, HorizonOK, Agrees, MutationOf, TokensIn, Expect;
    BatchAccepted(e, t, applied, batch);
    var t' := ApplyBatch(t, batch).value;
    forall i | 0 <= i < |batch|
      ensures batch[i].kind == PutLease ==> batch[i].lease.address in t' && t'[batch[i].lease.address] == RowOf(batch[i].lease)
      ensures batch[i].kind == DeleteLease ==> batch[i].lease.address !in t'
    {
      InTokens(batch, i);
      RowWritten(e, t', applied + TokensIn(batch), batch[i]);
    }
    forall ip | Untouched(batch, ip) ensures RowAt(t', ip) == RowAt(t, ip) {
      RowKept(e, t, t', applied, batch, ip);
    }
  }

  lemma {:induction false} InTokens(batch: seq<Mutation>, i: nat)
    requires i < |batch|
    ensures batch[i].token in TokensIn(batch)
  {
  }

  lemma {:induction false} RowWritten(e: Engine, t: Table, applied: set<Token>, m: Mutation)
    requires MutationOf(e, m) && Agrees(e.byIP, t, applied) && m.token in applied
    ensures m.kind == PutLease ==> m.lease.address in t && t[m.lease.address] == RowOf(m.lease)
    ensures m.kind == DeleteLease ==> m.lease.address !in t
  {
    assert RowAt(t, m.lease.address) == Expect(EntryIn(e.byIP, m.lease.address), applied);
  }

  lemma {:induction false} RowKept(e: Engine, t: Table, t': Table, applied: set<Token>, batch: seq<Mutation>, ip: IPv4)
    requires Inv(e) && Agrees(e.byIP, t, applied) && Agrees(e.byIP, t', applied + TokensIn(batch)) && FreshBatch(e, batch, applied)
    requires Untouched(batch, ip)
    ensures RowAt(t', ip) == RowAt(t, ip)
  {
    hide Inv, MutationOf;
    assert RowAt(t, ip) == Expect(EntryIn(e.byIP, ip), applied);
    assert RowAt(t', ip) == Expect(EntryIn(e.byIP, ip), applied + TokensIn(batch));
    if ip in e.byIP && IsPending(e.byIP[ip]) && e.byIP[ip].token in TokensIn(batch) {
      var i :| 0 <= i < |batch| && batch[i].token == e.byIP[ip].token;
      assert MutationOf(e, batch[i]);
      OtherToken(e, ip, batch[i]);
    }
  }

  // ---- a settings change ----

  /**
   An accepted change keeps exactly the durable and the quarantined entries, as they are but for the replayed ACK, and the
   identities that point to them; offers and probes are gone, and the new settings and generation are in force. A refused one
   changes nothing.
   */
  lemma {:induction false} ApplyMeans(e: Engine, s: Settings, g: nat)
    ensures var (e', err) := Apply(e, s, g);
      if ApplyChecked(e, s, g) then
        && err == None && e'.settings == s && e'.generation == g && e'.probes == 0 && e'.sequence == e.sequence && e'.last == e.last
        && (forall ip :: ip in e'.byIP <==> ip in e.byIP && (e.byIP[ip].durable || e.byIP[ip].lease.state == Quarantined))
        && (forall ip :: ip in e'.byIP ==> e'.byIP[ip] == e.byIP[ip].(hasACK := false))
        && (forall id :: id in e'.byID <==> id in e.byID && e.byID[id] in e'.byIP)
        && (forall id :: id in e'.byID ==> e'.byID[id] == e.byID[id])
      else err.Some? && e' == e
  {
    hide ApplyChecked, ApplyCheck, ApplyDone;
    ApplyCheckMeans(e, s, g);
    DoneParts(e, s, g);
  }

  lemma {:induction false} DoneParts(e: Engine, s: Settings, g: nat)
    ensures var e' := ApplyDone(e, s, g);
      && e'.settings == s && e'.generation == g && e'.probes == 0 && e'.sequence == e.sequence && e'.last == e.last
      && (forall ip :: ip in e'.byIP <==> ip in e.byIP && (e.byIP[ip].durable || e.byIP[ip].lease.state == Quarantined))
      && (forall ip :: ip in e'.byIP ==> e'.byIP[ip] == e.byIP[ip].(hasACK := false))
      && (forall id :: id in e'.byID <==> id in e.byID && e.byID[id] in e'.byIP)
      && (forall id :: id in e'.byID ==> e'.byID[id] == e.byID[id])
  {
    hide ReservedOf, ReservationsOf, PoolBits, HasPool;
  }

  // ---- recovery ----

  /**
   A recovery that succeeds restores each row as a durable entry whose deadlines lie as far ahead on the process clock as the
   row's instants do on the wall clock, and points to it exactly the identities of bound rows.
   */
  lemma {:induction false} RecoverMeans(s: Settings, g: nat, leases: seq<Lease>, lastKnown: int, now: Sample)
    requires Restore(NewEngine(s, g), leases, lastKnown, now).Some?
    ensures var e := Restore(NewEngine(s, g), leases, lastKnown, now).value;
      && lastKnown <= now.wall && e.last == Some(now) && e.settings == s && e.generation == g
      && (forall ip :: ip in e.byIP <==> exists i :: 0 <= i < |leases| && leases[i].address == ip)
      && (forall i | 0 <= i < |leases| :: leases[i].address in e.byIP && RestoredAs(leases[i], e.byIP[leases[i].address], now))
      && (forall i | 0 <= i < |leases| && leases[i].state == Bound :: PointsAt(e.byID, leases[i].identity, leases[i].address))
      && (forall id :: id in e.byID ==> BindsTo(leases, id))
  {
    RestoreParts(s, g, leases, lastKnown, now);
    hide Restore, NewEngine, RecoveredEntries, RecoveredIds, PointsAt, RestoredAs;
    RowsRestored(leases, now);
    BoundRestored(leases);
  }

  lemma {:induction false} RestoreParts(s: Settings, g: nat, leases: seq<Lease>, lastKnown: int, now: Sample)
    requires Restore(NewEngine(s, g), leases, lastKnown, now).Some?
    ensures var e := Restore(NewEngine(s, g), leases, lastKnown, now).value;
      && lastKnown <= now.wall && e.last == Some(now) && e.settings == s && e.generation == g
      && e.byIP == RecoveredEntries(leases, now) && e.byID == RecoveredIds(leases)
    ensures forall i, j | 0 <= i < j < |leases| :: leases[i].address != leases[j].address
    ensures forall i, j | 0 <= i < j < |leases| :: !(leases[i].state == Bound && leases[j].state == Bound && leases[i].identity == leases[j].identity)
  {
    hide ReservedOf, ReservationsOf, PoolBits, ValidRecovered, RetainedTopology, KeyMatches, Capacity, AddressesOf, RecoveredEntries, RecoveredIds;
  }

  predicate RestoredAs(l: Lease, v: Entry, now: Sample) {
    && v.lease == l && v.committed == l && v.durable && !v.dirty && !v.hasACK
    && v.timing.expiry - now.mono == l.expiry.wall - now.wall && v.timing.hold - now.mono == l.hold.wall - now.wall
  }

  lemma {:induction false} RowsRestored(leases: seq<Lease>, now: Sample)
    requires forall i, j | 0 <= i < j < |leases| :: leases[i].address != leases[j].address
    ensures var es := RecoveredEntries(leases, now);
      && (forall ip :: ip in es <==> exists i :: 0 <= i < |leases| && leases[i].address == ip)
      && (forall i | 0 <= i < |leases| :: leases[i].address in es && RestoredAs(leases[i], es[leases[i].address], now))
  {
    hide RestoredAs, Recovered;
    if leases != [] {
      var n := |leases| - 1;
      var init := leases[..n];
      assert forall i | 0 <= i < n :: init[i] == leases[i];
      RowsRestored(init, now);
      RestoredRow(leases[n], now);
      assert RecoveredEntries(leases, now) == RecoveredEntries(init, now)[leases[n].address := Recovered(leases[n], now)];
    }
  }

  lemma {:induction false} RestoredRow(l: Lease, now: Sample)
    ensures RestoredAs(l, Recovered(l, now), now)
  {
  }

  predicate Binds(l: Lease, id: Identity) { l.state == Bound && l.identity == id }

  /** A bound row has this identity. */
  ghost predicate BindsTo(leases: seq<Lease>, id: Identity) { exists i :: 0 <= i < |leases| && Binds(leases[i], id) }

  lemma {:induction false} BoundRestored(leases: seq<Lease>)
    requires forall i, j | 0 <= i < j < |leases| :: !(leases[i].state == Bound && leases[j].state == Bound && leases[i].identity == leases[j].identity)
    ensures var ids := RecoveredIds(leases);
      && (forall i | 0 <= i < |leases| && leases[i].state == Bound :: PointsAt(ids, leases[i].identity, leases[i].address))
      && (forall id :: id in ids ==> BindsTo(leases, id))
  {
    if leases != [] {
      var n := |leases| - 1;
      var init := leases[..n];
      assert forall i | 0 <= i < n :: init[i] == leases[i];
      BoundRestored(init);
      var rest, ids := RecoveredIds(init), RecoveredIds(leases);
      assert ids == if leases[n].state == Bound then rest[leases[n].identity := leases[n].address] else rest;
      forall id | id in ids ensures BindsTo(leases, id) {
        if id in rest {
          assert BindsTo(init, id);
          var i :| 0 <= i < |init| && Binds(init[i], id);
          assert Binds(leases[i], id);
        } else {
          assert Binds(leases[n], id);
        }
      }
    }
  }
}
