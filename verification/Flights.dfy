/** Single-flight resolution (internal/resolve/inflight.go) as a state machine over its critical sections. */
module Flights {
  import opened Common

  type Key = seq<byte>

  const MAX_FLIGHTS: nat := 128
  const MAX_WAITERS: nat := 64
  const MAX_REFRESH: nat := 16

  /** A flight: its worker runs until it finishes, whether or not it is still listed under its key. */
  datatype Flight = Flight(key: Key, waiters: int, refresh: bool, cancelled: bool, running: bool)

  /** Flights are named by the order in which they were started. */
  datatype Table = Table(active: map<Key, nat>, flights: seq<Flight>, refreshes: int, workers: int, closed: bool)

  datatype Joined = Shared(flight: nat) | Led(flight: nat) | Closed | Full

  const EMPTY: Table := Table(map[], [], 0, 0, false)

  // ---- the critical sections ----

  function Join(t: Table, k: Key, refresh: bool): (Table, Joined) {
    if t.closed then (t, Closed)
    else if k in t.active && t.active[k] < |t.flights| then
      var f := t.active[k];
      if refresh then (t, Shared(f))
      else if t.flights[f].waiters >= MAX_WAITERS then (t, Full)
      else (t.(flights := t.flights[f := t.flights[f].(waiters := t.flights[f].waiters + 1)]), Shared(f))
    else if t.workers >= MAX_FLIGHTS || (refresh && t.refreshes >= MAX_REFRESH) then (t, Full)
    else
      var f := |t.flights|;
      var flight := Flight(k, if refresh then 0 else 1, refresh, false, true);
      (t.(active := t.active[k := f], flights := t.flights + [flight],
          refreshes := if refresh then t.refreshes + 1 else t.refreshes, workers := t.workers + 1), Led(f))
  }

  /** A worker delivers its result. */
  function Finish(t: Table, f: nat): Table
    requires f < |t.flights|
  {
    var k := t.flights[f].key;
    t.(flights := t.flights[f := t.flights[f].(running := false)],
       active := if k in t.active && t.active[k] == f then t.active - {k} else t.active,
       workers := t.workers - 1,
       refreshes := if t.flights[f].refresh then t.refreshes - 1 else t.refreshes)
  }

  /** A waiter leaves, with the result or without it; the last one abandons the work. */
  function Leave(t: Table, f: nat): Table
    requires f < |t.flights|
  {
    var x := t.flights[f].(waiters := t.flights[f].waiters - 1);
    if x.waiters == 0 && !x.refresh then
      t.(flights := t.flights[f := x.(cancelled := true)],
         active := if x.key in t.active && t.active[x.key] == f then t.active - {x.key} else t.active)
    else t.(flights := t.flights[f := x])
  }

  /** Closing cancels every listed flight. */
  function Close(t: Table): Table {
    t.(closed := true,
       flights := seq(|t.flights|, f requires 0 <= f < |t.flights| =>
         if t.flights[f].key in t.active && t.active[t.flights[f].key] == f then t.flights[f].(cancelled := true) else t.flights[f]))
  }

  // ---- the system: table and callers ----

  /** waits[f] callers hold flight f and have not left it yet. */
  datatype System = System(table: Table, waits: seq<nat>)

  datatype Step =
    | DoJoin(key: Key, refresh: bool)
    | DoFinish(flight: nat)
    | DoLeave(flight: nat)
    | DoClose

  /** Workers finish once, and only callers that joined can leave. */
  predicate Enabled(s: System, step: Step) {
    match step
    case DoJoin(_, _) => true
    case DoFinish(f) => f < |s.table.flights| && s.table.flights[f].running
    case DoLeave(f) => f < |s.table.flights| && f < |s.waits| && s.waits[f] > 0
    case DoClose => true
  }

  function Do(s: System, step: Step): System
    requires Enabled(s, step)
  {
    match step
    case DoJoin(k, refresh) =>
      var (t, j) := Join(s.table, k, refresh);
      var n := if refresh then 0 else 1;
      if j.Led? then System(t, s.waits + [n])
      else if j.Shared? && j.flight < |s.waits| then System(t, s.waits[j.flight := s.waits[j.flight] + n])
      else System(t, s.waits)
    case DoFinish(f) => s.(table := Finish(s.table, f))
    case DoLeave(f) => System(Leave(s.table, f), s.waits[f := s.waits[f] - 1])
    case DoClose => s.(table := Close(s.table))
  }

  // ---- counting workers ----

  function Count(fs: seq<Flight>, refresh: bool): nat {
    if fs == [] then 0 else Count(fs[..|fs| - 1], refresh) + Weight(fs[|fs| - 1], refresh)
  }

  function Weight(f: Flight, refresh: bool): nat { if f.running && (refresh ==> f.refresh) then 1 else 0 }

  lemma {:induction false} CountAppend(fs: seq<Flight>, f: Flight, refresh: bool)
    ensures Count(fs + [f], refresh) == Count(fs, refresh) + Weight(f, refresh)
  {
    assert (fs + [f])[..|fs|] == fs;
  }

  lemma {:induction false} CountUpdate(fs: seq<Flight>, i: nat, f: Flight, refresh: bool)
    requires i < |fs|
    ensures Count(fs[i := f], refresh) == Count(fs, refresh) - Weight(fs[i], refresh) + Weight(f, refresh)
    decreases |fs|
  {
    var n := |fs| - 1;
    if i < n {
      CountUpdate(fs[..n], i, f, refresh);
      assert fs[i := f][..n] == fs[..n][i := f];
    } else {
      assert fs[i := f][..n] == fs[..n];
    }
  }

  lemma {:induction false} CountSame(fs: seq<Flight>, gs: seq<Flight>, refresh: bool)
    requires |fs| == |gs| && forall i | 0 <= i < |fs| :: fs[i].running == gs[i].running && fs[i].refresh == gs[i].refresh
    ensures Count(fs, refresh) == Count(gs, refresh)
    decreases |fs|
  {
    if fs != [] {
      CountSame(fs[..|fs| - 1], gs[..|gs| - 1], refresh);
    }
  }

  // ---- the invariant ----

  /** A listed flight is live; one started for a client has a client, unless the table was closed. */
  ghost predicate ListedOK(t: Table, k: Key)
    requires k in t.active
  {
    var f := t.active[k];
    && f < |t.flights| && t.flights[f].key == k && t.flights[f].running
    && (!t.closed ==> !t.flights[f].cancelled)
    && (!t.flights[f].refresh ==> t.flights[f].waiters > 0)
  }

  ghost predicate WaitersOK(s: System, f: nat)
    requires f < |s.waits| == |s.table.flights|
  {
    s.table.flights[f].waiters == s.waits[f] <= MAX_WAITERS
  }

  ghost predicate Inv(s: System) {
    && |s.waits| == |s.table.flights|
    && (forall k :: k in s.table.active ==> ListedOK(s.table, k))
    && (forall f: nat | f < |s.waits| :: WaitersOK(s, f))
    && s.table.workers == Count(s.table.flights, false) <= MAX_FLIGHTS
    && s.table.refreshes == Count(s.table.flights, true) <= MAX_REFRESH
  }

  lemma {:induction false} JoinKeeps(s: System, k: Key, refresh: bool)
    requires Inv(s)
    ensures Inv(Do(s, DoJoin(k, refresh)))
  {
    hide Count;
    var t := s.table;
    var (t', j) := Join(t, k, refresh);
    assert k in t.active ==> ListedOK(t, k);
    if j.Led? {
      var f := t'.flights[|t.flights|];
      CountAppend(t.flights, f, false);
      CountAppend(t.flights, f, true);
      forall key | key in t'.active ensures ListedOK(t', key) {
        assert key in t.active ==> ListedOK(t, key);
      }
      var s' := Do(s, DoJoin(k, refresh));
      forall i: nat | i < |s'.waits| ensures WaitersOK(s', i) {
        if i < |s.waits| { assert WaitersOK(s, i); }
      }
    } else if j.Shared? && !refresh {
      var x := t'.flights[j.flight];
      CountUpdate(t.flights, j.flight, x, false);
      CountUpdate(t.flights, j.flight, x, true);
      forall key | key in t'.active ensures ListedOK(t', key) {
        assert ListedOK(t, key);
      }
      forall i: nat | i < |s.waits| ensures WaitersOK(Do(s, DoJoin(k, refresh)), i) { assert WaitersOK(s, i); }
    } else {
      assert t' == t;
      assert s.waits == Do(s, DoJoin(k, refresh)).waits;
    }
  }

  lemma {:induction false} FinishKeeps(s: System, f: nat)
    requires Inv(s) && Enabled(s, DoFinish(f))
    ensures Inv(Do(s, DoFinish(f)))
  {
    hide Count;
    var t, t' := s.table, Finish(s.table, f);
    CountUpdate(t.flights, f, t'.flights[f], false);
    CountUpdate(t.flights, f, t'.flights[f], true);
    forall key | key in t'.active ensures ListedOK(t', key) {
      assert ListedOK(t, key);
    }
    forall i: nat | i < |s.waits| ensures WaitersOK(Do(s, DoFinish(f)), i) { assert WaitersOK(s, i); }
  }

  lemma {:induction false} LeaveKeeps(s: System, f: nat)
    requires Inv(s) && Enabled(s, DoLeave(f))
    ensures Inv(Do(s, DoLeave(f)))
  {
    hide Count;
    var t, t' := s.table, Leave(s.table, f);
    CountUpdate(t.flights, f, t'.flights[f], false);
    CountUpdate(t.flights, f, t'.flights[f], true);
    assert WaitersOK(s, f);
    forall key | key in t'.active ensures ListedOK(t', key) {
      assert ListedOK(t, key);
    }
    forall i: nat | i < |s.waits| ensures WaitersOK(Do(s, DoLeave(f)), i) { assert WaitersOK(s, i); }
  }

  lemma {:induction false} CloseKeeps(s: System)
    requires Inv(s)
    ensures Inv(Do(s, DoClose))
  {
    hide Count;
    var t, t' := s.table, Close(s.table);
    CountSame(t.flights, t'.flights, false);
    CountSame(t.flights, t'.flights, true);
    forall key | key in t'.active ensures ListedOK(t', key) {
      assert ListedOK(t, key);
    }
    forall i: nat | i < |s.waits| ensures WaitersOK(Do(s, DoClose), i) { assert WaitersOK(s, i); }
  }

  lemma {:induction false} StepKeeps(s: System, step: Step)
    requires Inv(s) && Enabled(s, step)
    ensures Inv(Do(s, step))
  {
    hide Inv, Do;
    match step
    case DoJoin(k, refresh) => JoinKeeps(s, k, refresh);
    case DoFinish(f) => FinishKeeps(s, f);
    case DoLeave(f) => LeaveKeeps(s, f);
    case DoClose => CloseKeeps(s);
  }

  // ---- runs ----

  /** Every interleaving of the critical sections. */
  ghost predicate Run(s: System, steps: seq<Step>)
    decreases |steps|
  {
    steps == [] || (Enabled(s, steps[0]) && Run(Do(s, steps[0]), steps[1..]))
  }

  ghost function After(s: System, steps: seq<Step>): System
    requires Run(s, steps)
    decreases |steps|
  {
    if steps == [] then s else After(Do(s, steps[0]), steps[1..])
  }

  const START: System := System(EMPTY, [])

  lemma {:induction false} StartOK()
    ensures Inv(START)
  {
  }

  lemma {:induction false} RunKeeps(s: System, steps: seq<Step>)
    requires Inv(s) && Run(s, steps)
    ensures Inv(After(s, steps))
    decreases |steps|
  {
    hide Inv, Do;
    if steps != [] {
      StepKeeps(s, steps[0]);
      RunKeeps(Do(s, steps[0]), steps[1..]);
    }
  }

  /**
   In every reachable state the counters equal the running workers and respect their limits,
   waiter counts equal the outstanding waits, and a client that joins before the close gets work
   that is running and not abandoned.
   */
  lemma {:induction false} ReachableSafe(steps: seq<Step>, k: Key, refresh: bool)
    requires Run(START, steps)
    ensures var s := After(START, steps);
      && s.table.workers == Count(s.table.flights, false) <= MAX_FLIGHTS
      && s.table.refreshes == Count(s.table.flights, true) <= MAX_REFRESH
      && |s.waits| == |s.table.flights|
      && (forall f: nat | f < |s.waits| :: s.table.flights[f].waiters == s.waits[f] <= MAX_WAITERS)
      && var (t, j) := Join(s.table, k, refresh);
         (j.Shared? || j.Led?) ==> j.flight < |t.flights| && t.flights[j.flight].key == k && t.flights[j.flight].running && !t.flights[j.flight].cancelled
  {
    hide Count;
    StartOK();
    RunKeeps(START, steps);
    var s := After(START, steps);
    forall f: nat | f < |s.waits| ensures s.table.flights[f].waiters == s.waits[f] <= MAX_WAITERS { assert WaitersOK(s, f); }
    assert k in s.table.active ==> ListedOK(s.table, k);
  }

  // ---- who gets which flight ----

  /**
   In every reachable state a client that asks for a listed key joins that flight while it has fewer than 64 waiters, and
   a refresh joins it without waiting; an unlisted key starts a flight while fewer than 128 workers, and for a refresh
   fewer than 16 refreshing ones, are running. Otherwise, and after the close, the table stays as it is.
   */
  lemma {:induction false} JoinMeans(before: seq<Step>, k: Key, refresh: bool)
    requires Run(START, before)
    ensures var s := After(START, before);
      var t := s.table;
      var (t', j) := Join(t, k, refresh);
      if t.closed then j == Closed && t' == t
      else if k in t.active then
        var f := t.active[k];
        && f < |t.flights| == |s.waits|
        && (refresh ==> j == Shared(f) && t' == t)
        && (!refresh && s.waits[f] < 64 ==> j == Shared(f) && t' == t.(flights := t.flights[f := t.flights[f].(waiters := s.waits[f] + 1)]))
        && (!refresh && s.waits[f] >= 64 ==> j == Full && t' == t)
      else if Count(t.flights, false) < 128 && (refresh ==> Count(t.flights, true) < 16) then
        && j == Led(|t.flights|) && t'.active == t.active[k := |t.flights|] && !t'.closed
        && t'.flights == t.flights + [Flight(k, if refresh then 0 else 1, refresh, false, true)]
        && t'.workers == t.workers + 1 && t'.refreshes == t.refreshes + if refresh then 1 else 0
      else j == Full && t' == t
  {
    hide Count;
    StartOK();
    RunKeeps(START, before);
    var s := After(START, before);
    if k in s.table.active {
      assert ListedOK(s.table, k);
      assert WaitersOK(s, s.table.active[k]);
    }
  }

  // ---- which work is given up ----

  /** Along the run the flight's last waiter leaves it, or the table is closed while it is listed. */
  ghost predicate Abandoned(s: System, steps: seq<Step>, f: nat)
    requires Run(s, steps)
    decreases |steps|
  {
    steps != [] && (Abandons(s, steps[0], f) || Abandoned(Do(s, steps[0]), steps[1..], f))
  }

  predicate Abandons(s: System, step: Step, f: nat) {
    && f < |s.table.flights|
    && ((step == DoLeave(f) && f < |s.waits| && s.waits[f] == 1 && !s.table.flights[f].refresh)
        || (step == DoClose && Listed(s.table, s.table.flights[f].key, f)))
  }

  lemma {:induction false} CancelStep(s: System, step: Step, f: nat)
    requires Inv(s) && Enabled(s, step) && f < |s.table.flights|
    ensures f < |Do(s, step).table.flights|
    ensures Do(s, step).table.flights[f].cancelled <==> s.table.flights[f].cancelled || Abandons(s, step, f)
  {
    hide Count, ListedOK;
    assert WaitersOK(s, f);
  }

  /** Work is cancelled if and only if its last waiter left or the table was closed while it was listed. */
  lemma {:induction false} CancelledIff(s: System, steps: seq<Step>, f: nat)
    requires Inv(s) && Run(s, steps) && f < |s.table.flights|
    ensures f < |After(s, steps).table.flights|
    ensures After(s, steps).table.flights[f].cancelled <==> s.table.flights[f].cancelled || Abandoned(s, steps, f)
    decreases |steps|
  {
    hide Inv, Do, Abandons;
    if steps != [] {
      StepKeeps(s, steps[0]);
      CancelStep(s, steps[0], f);
      CancelledIff(Do(s, steps[0]), steps[1..], f);
    }
  }

  // ---- how long a flight stays listed ----

  predicate Listed(t: Table, k: Key, f: nat) { k in t.active && t.active[k] == f }

  /** The flight's own worker finishes, or its own last waiter leaves it. */
  predicate Ends(s: System, step: Step, f: nat) {
    step == DoFinish(f) || (step == DoLeave(f) && f < |s.waits| && s.waits[f] == 1 && f < |s.table.flights| && !s.table.flights[f].refresh)
  }

  ghost predicate Undisturbed(s: System, steps: seq<Step>, f: nat)
    requires Run(s, steps)
    decreases |steps|
  {
    steps == [] || (!Ends(s, steps[0], f) && Undisturbed(Do(s, steps[0]), steps[1..], f))
  }

  lemma {:induction false} ListedStep(s: System, step: Step, k: Key, f: nat)
    requires Inv(s) && Enabled(s, step) && Listed(s.table, k, f)
    ensures Listed(Do(s, step).table, k, f) <==> !Ends(s, step, f)
  {
    hide Count;
    assert ListedOK(s.table, k) && WaitersOK(s, f);
  }

  lemma {:induction false} NeverBack(s: System, steps: seq<Step>, k: Key, f: nat)
    requires Inv(s) && Run(s, steps) && f < |s.table.flights| && !Listed(s.table, k, f)
    ensures !Listed(After(s, steps).table, k, f)
    decreases |steps|
  {
    hide Inv;
    if steps != [] {
      StepKeeps(s, steps[0]);
      NeverBack(Do(s, steps[0]), steps[1..], k, f);
    }
  }

  lemma {:induction false} ListedRun(s: System, steps: seq<Step>, k: Key, f: nat)
    requires Inv(s) && Run(s, steps) && Listed(s.table, k, f)
    ensures Listed(After(s, steps).table, k, f) <==> Undisturbed(s, steps, f)
    decreases |steps|
  {
    hide Count, Do;
    if steps != [] {
      assert ListedOK(s.table, k);
      hide Inv, Ends;
      ListedStep(s, steps[0], k, f);
      StepKeeps(s, steps[0]);
      if Ends(s, steps[0], f) {
        FlightsStay(s, steps[0]);
        NeverBack(Do(s, steps[0]), steps[1..], k, f);
      } else {
        ListedRun(Do(s, steps[0]), steps[1..], k, f);
      }
    }
  }

  lemma {:induction false} FlightsStay(s: System, step: Step)
    requires Enabled(s, step)
    ensures |s.table.flights| <= |Do(s, step).table.flights|
  {
  }

  /**
   From any reachable state on, under every interleaving, a listed flight stays listed if and only if neither its own
   worker finishes nor its own last waiter leaves: no detached worker and no waiter of another flight ever removes it.
   */
  lemma {:induction false} ListedIff(before: seq<Step>, steps: seq<Step>, k: Key, f: nat)
    requires Run(START, before) && Run(After(START, before), steps) && Listed(After(START, before).table, k, f)
    ensures Listed(After(After(START, before), steps).table, k, f) <==> Undisturbed(After(START, before), steps, f)
  {
    hide Inv, Run, After, Undisturbed;
    StartOK();
    RunKeeps(START, before);
    ListedRun(After(START, before), steps, k, f);
  }

  // ---- after the close ----

  function Finishes(steps: seq<Step>): nat {
    if steps == [] then 0 else (if steps[0].DoFinish? then 1 else 0) + Finishes(steps[1..])
  }

  /** Once closed, nothing joins and nothing starts: every finishing worker brings the wait nearer to its end. */
  lemma {:induction false} ClosedDrains(s: System, steps: seq<Step>)
    requires s.table.closed && Run(s, steps)
    ensures After(s, steps).table.closed && |After(s, steps).table.flights| == |s.table.flights|
    ensures After(s, steps).table.workers == s.table.workers - Finishes(steps)
    decreases |steps|
  {
    if steps != [] {
      ClosedDrains(Do(s, steps[0]), steps[1..]);
    }
  }

  lemma {:induction false} NobodyRuns(fs: seq<Flight>, f: nat)
    requires f < |fs| && Count(fs, false) == 0
    ensures !fs[f].running
    decreases |fs|
  {
    if f < |fs| - 1 {
      NobodyRuns(fs[..|fs| - 1], f);
    }
  }

  /** When the wait of close ends, no worker runs, and none ever does again. */
  lemma {:induction false} ClosedStays(before: seq<Step>, steps: seq<Step>)
    requires Run(START, before) && Run(After(START, before), steps)
    requires After(START, before).table.closed && After(START, before).table.workers == 0
    ensures var t := After(After(START, before), steps).table;
      t.closed && t.workers == 0 && Finishes(steps) == 0 && forall f: nat | f < |t.flights| :: !t.flights[f].running
  {
    hide Run, After, Finishes;
    StartOK();
    RunKeeps(START, before);
    var s := After(START, before);
    RunKeeps(s, steps);
    ClosedDrains(s, steps);
    var t := After(s, steps).table;
    assert t.workers == Count(t.flights, false);
    hide Inv;
    forall f: nat | f < |t.flights| ensures !t.flights[f].running { NobodyRuns(t.flights, f); }
  }

  // ---- the shared table as an object ----

  class FlightTable {
    var active: map<Key, nat>
    var flights: seq<Flight>
    var refreshes: int
    var workers: int
    var closed: bool

    ghost function State(): Table
      reads this
    {
      Table(active, flights, refreshes, workers, closed)
    }

    constructor ()
      ensures State() == EMPTY
    {
      active, flights, refreshes, workers, closed := map[], [], 0, 0, false;
    }

    method JoinStatus(k: Key, refresh: bool) returns (j: Joined)
      modifies this
      ensures (State(), j) == Join(old(State()), k, refresh)
    {
      if closed {
        return Closed;
      }
      if k in active && active[k] < |flights| {
        var f := active[k];
        if !refresh {
          if flights[f].waiters >= MAX_WAITERS {
            return Full;
          }
          flights := flights[f := flights[f].(waiters := flights[f].waiters + 1)];
        }
        return Shared(f);
      }
      if workers >= MAX_FLIGHTS || (refresh && refreshes >= MAX_REFRESH) {
        return Full;
      }
      var f := |flights|;
      var flight := Flight(k, 0, refresh, false, true);
      if refresh {
        refreshes := refreshes + 1;
      } else {
        flight := flight.(waiters := 1);
      }
      flights := flights + [flight];
      active := active[k := f];
      workers := workers + 1;
      return Led(f);
    }

    method WorkerDone(f: nat)
      requires f < |flights|
      modifies this
      ensures State() == Finish(old(State()), f)
    {
      var k := flights[f].key;
      if k in active && active[k] == f {
        active := active - {k};
      }
      workers := workers - 1;
      if flights[f].refresh {
        refreshes := refreshes - 1;
      }
      flights := flights[f := flights[f].(running := false)];
    }

    method WaiterLeaves(f: nat)
      requires f < |flights|
      modifies this
      ensures State() == Leave(old(State()), f)
    {
      flights := flights[f := flights[f].(waiters := flights[f].waiters - 1)];
      var x := flights[f];
      if x.waiters == 0 && !x.refresh {
        flights := flights[f := x.(cancelled := true)];
        if x.key in active && active[x.key] == f {
          active := active - {x.key};
        }
      }
    }

    method CloseAll()
      modifies this
      ensures State() == Close(old(State()))
    {
      closed := true;
      for f := 0 to |flights|
        invariant |flights| == |old(flights)| && active == old(active) && refreshes == old(refreshes) && workers == old(workers) && closed
        invariant forall i | 0 <= i < f :: flights[i] == Close(old(State())).flights[i]
        invariant forall i | f <= i < |flights| :: flights[i] == old(flights)[i]
      {
        var k := flights[f].key;
        if k in active && active[k] == f {
          flights := flights[f := flights[f].(cancelled := true)];
        }
      }
    }
  }
}
