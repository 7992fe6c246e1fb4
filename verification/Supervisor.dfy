/**
 The DHCP supervisor (internal/app/dhcp.go): one reconciliation at a time behind a gate, closers
 beside it, and a lock around every read or write of the shared fields. Each step below is one
 critical section or one foreign call; calls that may fail or time out carry their outcome.
 */
module Supervisor {
  import opened Common

  /** Where the holder of the gate is; g is the generation it reconciles. */
  datatype Phase =
    | Free
    | Entered(on: bool, g: nat)
    | Stopping(on: bool, g: nat, thenPublish: bool)
    | Stopped(on: bool, g: nat, thenPublish: bool)
    | Deciding(on: bool, g: nat, seen: Option<nat>)
    | Preparing(g: nat)
    | Linked(g: nat)
    | Opened(g: nat, store: nat)
    | Publishing(on: bool, g: nat)
    | Shutting(closer: nat)

  /** Where a call of Close is. */
  datatype Closer = Asking(runtime: Option<nat>) | Waiting | Returned | GaveUp

  /** Runtimes are named by the store they own; live holds every store that is open. */
  datatype State = State(
    closed: bool, closing: bool, runtime: Option<nat>, live: set<nat>, nextStore: nat,
    desired: nat, applied: nat, appliedOn: bool, closingGeneration: nat, attempt: nat,
    gate: Phase, closers: map<nat, Closer>)

  const START: State := State(false, false, None, {}, 0, 0, 0, false, 0, 0, Free, map[])

  datatype Step =
    | Enter(on: bool, g: nat)
    | Begin(cancelled: bool)
    | StopRuntime(ok: bool)
    | Record
    | Decide(valid: bool, applied: bool)
    | OpenLink(ok: bool)
    | OpenStore(ok: bool)
    | StartRuntime(ok: bool)
    | Publish
    | CloseBegin(closer: nat)
    | CloseRuntime(closer: nat, ok: bool)
    | CloseGate(closer: nat, timeout: bool)
    | CloseEnd

  function Without(live: set<nat>, r: Option<nat>): set<nat> { if r.Some? then live - {r.value} else live }

  predicate Enabled(s: State, step: Step) {
    match step
    case Enter(_, _) => s.gate.Free?
    case Begin(_) => s.gate.Entered?
    case StopRuntime(_) => s.gate.Stopping?
    case Record => s.gate.Stopped?
    case Decide(_, _) => s.gate.Deciding?
    case OpenLink(_) => s.gate.Preparing?
    case OpenStore(_) => s.gate.Linked?
    case StartRuntime(_) => s.gate.Opened?
    case Publish => s.gate.Publishing?
    case CloseBegin(c) => c !in s.closers
    case CloseRuntime(c, _) => c in s.closers && s.closers[c].Asking?
    case CloseGate(c, timeout) => c in s.closers && s.closers[c].Waiting? && (timeout || s.gate.Free?)
    case CloseEnd => s.gate.Shutting? && s.gate.closer in s.closers && s.closers[s.gate.closer].Waiting?
  }

  /** A failed reconciliation gives the gate back and remembers its generation. */
  function Failed(s: State, g: nat): State { s.(gate := Free, attempt := g) }

  function Do(s: State, step: Step): State
    requires Enabled(s, step)
  {
    match step
    case Enter(on, g) => if s.closed then s else s.(gate := Entered(on, g))
    case Begin(cancelled) =>
      var (on, g) := (s.gate.on, s.gate.g);
      if cancelled || g == 0 || g < s.desired then s.(gate := Free)
      else s.(desired := g, gate := if s.closing then Stopping(on, g, false) else Deciding(on, g, s.runtime))
    case StopRuntime(ok) =>
      if !ok then Failed(s, s.gate.g)
      else s.(live := Without(s.live, s.runtime), gate := Stopped(s.gate.on, s.gate.g, s.gate.thenPublish))
    case Record =>
      s.(runtime := None, closing := false, applied := s.closingGeneration, appliedOn := false, attempt := 0,
         gate := if s.gate.thenPublish then Publishing(s.gate.on, s.gate.g) else Deciding(s.gate.on, s.gate.g, None))
    case Decide(valid, ok) =>
      var (on, g) := (s.gate.on, s.gate.g);
      if !valid then Failed(s, g)
      else if !on then
        if s.gate.seen.Some? then s.(appliedOn := false, closing := true, closingGeneration := g, gate := Stopping(on, g, true))
        else s.(appliedOn := false, gate := Publishing(on, g))
      else if s.gate.seen.Some? then
        if ok then s.(gate := Publishing(on, g)) else Failed(s, g)
      else if s.attempt == g then s.(gate := Free)
      else s.(gate := Preparing(g))
    case OpenLink(ok) => if !ok || s.closed then Failed(s, s.gate.g) else s.(gate := Linked(s.gate.g))
    case OpenStore(ok) =>
      if !ok then Failed(s, s.gate.g)
      else s.(live := s.live + {s.nextStore}, nextStore := s.nextStore + 1, gate := Opened(s.gate.g, s.nextStore))
    case StartRuntime(ok) =>
      if s.closed || !ok then Failed(s, s.gate.g).(live := s.live - {s.gate.store})
      else s.(runtime := Some(s.gate.store), gate := Publishing(true, s.gate.g))
    case Publish =>
      if s.closed then s.(gate := Free)
      else s.(applied := s.gate.g, appliedOn := s.gate.on, attempt := s.gate.g, gate := Free)
    case CloseBegin(c) => s.(closed := true, appliedOn := false, closers := s.closers[c := Asking(s.runtime)])
    case CloseRuntime(c, ok) =>
      if !ok then s.(closers := s.closers[c := GaveUp])
      else s.(live := Without(s.live, s.closers[c].runtime), closers := s.closers[c := Waiting])
    case CloseGate(c, timeout) =>
      if timeout then s.(closers := s.closers[c := GaveUp]) else s.(gate := Shutting(c))
    case CloseEnd => s.(appliedOn := false, runtime := None, closers := s.closers[s.gate.closer := Returned], gate := Free)
  }

  // ---- the invariant ----

  predicate Holds(p: Phase) { p.Stopping? || p.Stopped? || p.Deciding? || p.Preparing? || p.Linked? || p.Opened? || p.Publishing? }

  function Generation(p: Phase): nat
    requires Holds(p)
  {
    p.g
  }

  /** Generations only move forward. */
  ghost predicate Generations(s: State) {
    && s.applied <= s.desired
    && (Holds(s.gate) ==> Generation(s.gate) == s.desired)
    && (s.closing ==> s.applied <= s.closingGeneration <= s.desired)
    && (Holds(s.gate) ==> (s.closing <==> s.gate.Stopping? || s.gate.Stopped?))
  }

  /** At most one store is open: that of the runtime, or the one being prepared. */
  ghost predicate OneStore(s: State) {
    && (forall r :: r in s.live ==> r < s.nextStore && (s.runtime == Some(r) || (s.gate.Opened? && s.gate.store == r)))
    && (s.runtime.Some? ==> s.runtime.value < s.nextStore) && (s.gate.Opened? ==> s.gate.store < s.nextStore)
    && (s.gate.Deciding? ==> s.gate.seen == s.runtime)
    && (s.gate.Preparing? || s.gate.Linked? || s.gate.Opened? ==> s.runtime == None)
    && (s.gate.Stopped? && s.runtime.Some? ==> s.runtime.value !in s.live)
  }

  ghost predicate CloserOK(s: State, c: Closer) {
    match c
    case Asking(r) => s.closed && (s.runtime.Some? ==> s.runtime == r)
    case Waiting => s.closed && (s.runtime.Some? ==> s.runtime.value !in s.live)
    case Returned => s.closed && s.runtime == None && s.live == {} && (s.gate.Free? || s.gate.Shutting?)
    case GaveUp => s.closed
  }

  ghost predicate Inv(s: State) {
    && Generations(s) && OneStore(s)
    && (s.closed ==> !s.appliedOn)
    && (forall c :: c in s.closers ==> CloserOK(s, s.closers[c]))
  }

  lemma {:induction false} GenerationsStep(s: State, step: Step)
    requires Inv(s) && Enabled(s, step)
    ensures Generations(Do(s, step)) && s.applied <= Do(s, step).applied && s.desired <= Do(s, step).desired
  {
    hide CloserOK, OneStore;
  }

  predicate IsClose(step: Step) { step.CloseBegin? || step.CloseRuntime? || step.CloseGate? || step.CloseEnd? }

  predicate IsOpen(step: Step) { step.OpenLink? || step.OpenStore? || step.StartRuntime? || step.Publish? }

  lemma {:induction false} OneStoreOpen(s: State, step: Step)
    requires OneStore(s) && Enabled(s, step) && IsOpen(step)
    ensures OneStore(Do(s, step))
  {
  }

  lemma {:induction false} OneStoreReconcile(s: State, step: Step)
    requires OneStore(s) && Enabled(s, step) && !IsClose(step) && !IsOpen(step)
    ensures OneStore(Do(s, step))
  {
  }

  lemma {:induction false} OneStoreClose(s: State, step: Step)
    requires OneStore(s) && Enabled(s, step) && IsClose(step)
    requires step.CloseEnd? ==> CloserOK(s, s.closers[s.gate.closer])
    ensures OneStore(Do(s, step))
  {
  }

  lemma {:induction false} OneStoreStep(s: State, step: Step)
    requires Inv(s) && Enabled(s, step)
    ensures OneStore(Do(s, step))
  {
    hide Generations, OneStore, CloserOK, Do;
    if IsClose(step) {
      if step.CloseEnd? {
        assert CloserOK(s, s.closers[s.gate.closer]);
      }
      OneStoreClose(s, step);
    } else if IsOpen(step) {
      OneStoreOpen(s, step);
    } else {
      OneStoreReconcile(s, step);
    }
  }

  lemma {:induction false} ClosersStep(s: State, step: Step, c: nat)
    requires Inv(s) && Enabled(s, step) && c in Do(s, step).closers
    ensures CloserOK(Do(s, step), Do(s, step).closers[c])
  {
    hide Generations;
    assert c in s.closers ==> CloserOK(s, s.closers[c]);
    if step.CloseRuntime? {
      assert CloserOK(s, s.closers[step.closer]);
    }
    if step.CloseEnd? {
      assert CloserOK(s, s.closers[s.gate.closer]);
      assert forall r :: r !in s.live;
    }
  }

  lemma {:induction false} StepKeeps(s: State, step: Step)
    requires Inv(s) && Enabled(s, step)
    ensures Inv(Do(s, step)) && s.applied <= Do(s, step).applied && s.desired <= Do(s, step).desired
    ensures s.closed ==> Do(s, step).closed
  {
    GenerationsStep(s, step);
    OneStoreStep(s, step);
    forall c | c in Do(s, step).closers ensures CloserOK(Do(s, step), Do(s, step).closers[c]) { ClosersStep(s, step, c); }
    hide Generations, OneStore, CloserOK;
  }

  // ---- runs ----

  ghost predicate Run(s: State, steps: seq<Step>)
    decreases |steps|
  {
    steps == [] || (Enabled(s, steps[0]) && Run(Do(s, steps[0]), steps[1..]))
  }

  ghost function After(s: State, steps: seq<Step>): State
    requires Run(s, steps)
    decreases |steps|
  {
    if steps == [] then s else After(Do(s, steps[0]), steps[1..])
  }

  lemma {:induction false} StartOK()
    ensures Inv(START)
  {
  }

  lemma {:induction false} RunKeeps(s: State, steps: seq<Step>)
    requires Inv(s) && Run(s, steps)
    ensures Inv(After(s, steps)) && s.applied <= After(s, steps).applied && (s.closed ==> After(s, steps).closed)
    decreases |steps|
  {
    hide Inv, Do;
    if steps != [] {
      StepKeeps(s, steps[0]);
      RunKeeps(Do(s, steps[0]), steps[1..]);
    }
  }

  lemma {:induction false} RunJoins(s: State, first: seq<Step>, more: seq<Step>)
    requires Run(s, first + more)
    ensures Run(s, first) && Run(After(s, first), more) && After(s, first + more) == After(After(s, first), more)
    decreases |first|
  {
    hide Do;
    if first == [] {
      assert first + more == more;
    } else {
      assert (first + more)[1..] == first[1..] + more && (first + more)[0] == first[0];
      RunJoins(Do(s, first[0]), first[1..], more);
    }
  }

  /** Clients see leases only through a runtime that is applied, not stopping and not shut down. */
  predicate Visible(s: State) { s.appliedOn && !s.closed && !s.closing && s.runtime.Some? }

  /** Over all interleavings: applied never decreases and never exceeds desired, and a store opens only when none is open. */
  lemma {:induction false} LifecycleSafe(first: seq<Step>, more: seq<Step>)
    requires Run(START, first + more)
    ensures Run(START, first)
    ensures var s, t := After(START, first), After(START, first + more);
      && s.applied <= t.applied <= t.desired
      && (more != [] && more[0] == OpenStore(true) ==> s.live == {})
      && |t.live| <= 1
  {
    hide Do;
    RunJoins(START, first, more);
    StartOK();
    RunKeeps(START, first);
    RunKeeps(After(START, first), more);
    var t := After(START, first + more);
    AtMostOne(t);
    var s := After(START, first);
    if more != [] && more[0] == OpenStore(true) {
      hide CloserOK;
      assert Enabled(s, more[0]);
      assert forall r :: r !in s.live;
    }
  }

  lemma {:induction false} AtMostOne(s: State)
    requires OneStore(s)
    ensures |s.live| <= 1
  {
    var one: set<nat> := if s.gate.Opened? then {s.gate.store} else if s.runtime.Some? then {s.runtime.value} else {};
    SubsetSize(s.live, one);
  }

  /** Once Close has begun nothing becomes visible again, and once it has returned no runtime remains or appears. */
  lemma {:induction false} CloseIsFinal(first: seq<Step>, more: seq<Step>, c: nat)
    requires Run(START, first + more) && Run(START, first) && c in After(START, first).closers
    ensures !Visible(After(START, first + more)) && !After(START, first + more).appliedOn
    ensures After(START, first).closers[c].Returned? ==> After(START, first + more).live == {} && After(START, first + more).runtime == None
  {
    hide Do, OneStore, Generations;
    RunJoins(START, first, more);
    StartOK();
    RunKeeps(START, first);
    var s := After(START, first);
    assert CloserOK(s, s.closers[c]);
    RunKeeps(s, more);
    if s.closers[c].Returned? {
      ReturnedStays(s, more, c);
      var t := After(s, more);
      assert CloserOK(t, t.closers[c]);
    }
  }

  lemma {:induction false} ReturnedStays(s: State, steps: seq<Step>, c: nat)
    requires Run(s, steps) && c in s.closers && s.closers[c].Returned?
    ensures c in After(s, steps).closers && After(s, steps).closers[c].Returned?
    decreases |steps|
  {
    if steps != [] {
      ReturnedStays(Do(s, steps[0]), steps[1..], c);
    }
  }

  // ---- what a reconciliation achieves ----

  /** What is published is what the runtime is: on with one, off without. */
  ghost predicate Truthful(s: State) {
    && (s.gate.Publishing? ==> (s.gate.on <==> s.runtime.Some?))
    && (s.gate.Stopping? || s.gate.Stopped? ==> (s.gate.thenPublish ==> !s.gate.on))
  }

  lemma {:induction false} TruthfulOpen(s: State, step: Step)
    requires OneStore(s) && Truthful(s) && Enabled(s, step) && (IsOpen(step) || IsClose(step))
    ensures Truthful(Do(s, step))
  {
  }

  lemma {:induction false} TruthfulReconcile(s: State, step: Step)
    requires OneStore(s) && Truthful(s) && Enabled(s, step) && !IsOpen(step) && !IsClose(step)
    ensures Truthful(Do(s, step))
  {
  }

  lemma {:induction false} TruthfulStep(s: State, step: Step)
    requires OneStore(s) && Truthful(s) && Enabled(s, step)
    ensures Truthful(Do(s, step))
  {
    hide OneStore, Truthful, Do;
    if IsOpen(step) || IsClose(step) { TruthfulOpen(s, step); } else { TruthfulReconcile(s, step); }
  }

  lemma {:induction false} TruthfulRun(s: State, steps: seq<Step>)
    requires Inv(s) && Truthful(s) && Run(s, steps)
    ensures Inv(After(s, steps)) && Truthful(After(s, steps))
    decreases |steps|
  {
    hide Do, Truthful, OneStore, Generations, CloserOK;
    if steps != [] {
      TruthfulStep(s, steps[0]);
      StepKeeps(s, steps[0]);
      TruthfulRun(Do(s, steps[0]), steps[1..]);
    }
  }

  /** Publishing before any close applies the desired generation: visible if it is on, and without runtime or store if it is off. */
  lemma {:induction false} PublishApplies(steps: seq<Step>)
    requires Run(START, steps) && After(START, steps).gate.Publishing? && !After(START, steps).closed
    ensures var s := After(START, steps);
      var t := Do(s, Publish);
      && t.gate.Free? && t.applied == t.desired == s.gate.g && t.attempt == s.gate.g
      && (if s.gate.on then Visible(t) else !Visible(t) && t.runtime == None && t.live == {})
  {
    StartOK();
    TruthfulRun(START, steps);
    hide CloserOK;
    var s := After(START, steps);
    if s.runtime == None {
      assert forall r :: r !in s.live;
    }
  }

  /** The steps of a reconciliation whose calls all succeed, after an earlier disable is finished. */
  function Succeeding(s: State, on: bool, g: nat): seq<Step> {
    (if s.closing then [Enter(on, g), Begin(false), StopRuntime(true), Record] else [Enter(on, g), Begin(false)])
    + Remaining(!s.closing && s.runtime.Some?, on)
  }

  /** The steps from the decision on. */
  function Remaining(running: bool, on: bool): seq<Step> {
    if running == on then [Decide(true, true), Publish]
    else if running then [Decide(true, true), StopRuntime(true), Record, Publish]
    else [Decide(true, true), OpenLink(true)] + [OpenStore(true), StartRuntime(true)] + [Publish]
  }

  lemma {:induction false} RunFirst(s: State, a: Step, rest: seq<Step>)
    requires Enabled(s, a) && Run(Do(s, a), rest)
    ensures Run(s, [a] + rest) && After(s, [a] + rest) == After(Do(s, a), rest)
  {
    hide Do, Enabled;
    assert ([a] + rest)[1..] == rest;
  }

  lemma {:induction false} RunTwo(s: State, a: Step, b: Step)
    requires Enabled(s, a) && Enabled(Do(s, a), b)
    ensures Run(s, [a, b]) && After(s, [a, b]) == Do(Do(s, a), b)
  {
    hide Do, Enabled;
    RunFirst(Do(s, a), b, []);
    assert [b] + [] == [b];
    RunFirst(s, a, [b]);
    assert [a] + [b] == [a, b];
  }

  lemma {:induction false} RunFour(s: State, a: Step, b: Step, c: Step, d: Step)
    requires Enabled(s, a) && Enabled(Do(s, a), b) && Enabled(Do(Do(s, a), b), c) && Enabled(Do(Do(Do(s, a), b), c), d)
    ensures Run(s, [a, b, c, d]) && After(s, [a, b, c, d]) == Do(Do(Do(Do(s, a), b), c), d)
  {
    hide Do, Enabled;
    RunTwo(s, a, b);
    RunTwo(Do(Do(s, a), b), c, d);
    Chained(s, [a, b], [c, d]);
    assert [a, b] + [c, d] == [a, b, c, d];
  }

  /** Begun at a free gate before any close, such a reconciliation of the newest generation ends with it applied. */
  lemma {:induction false} ReconcileSucceeds(s: State, on: bool, g: nat)
    requires Inv(s) && Truthful(s) && s.gate.Free? && !s.closed && g > 0 && s.desired <= g
    requires on && s.runtime == None && !s.closing ==> s.attempt != g
    ensures Run(s, Succeeding(s, on, g))
    ensures var t := After(s, Succeeding(s, on, g)); t.gate.Free? && t.applied == g && (if on then Visible(t) else t.runtime == None && t.live == {})
  {
    BeginsDeciding(s, on, g);
    hide CloserOK, OneStore, Generations, Truthful, Do, Enabled, Remaining, Run, After;
    var s2 := Do(Do(s, Enter(on, g)), Begin(false));
    if s.closing {
      var s4 := Do(Do(s2, StopRuntime(true)), Record);
      RunFour(s, Enter(on, g), Begin(false), StopRuntime(true), Record);
      EndsApplied(s4, on, g);
      Chained(s, [Enter(on, g), Begin(false), StopRuntime(true), Record], Remaining(false, on));
    } else {
      RunTwo(s, Enter(on, g), Begin(false));
      EndsApplied(s2, on, g);
      Chained(s, [Enter(on, g), Begin(false)], Remaining(s.runtime.Some?, on));
    }
  }

  /** Up to the decision, with an earlier disable finished first. */
  lemma {:induction false} BeginsDeciding(s: State, on: bool, g: nat)
    requires Inv(s) && s.gate.Free? && !s.closed && g > 0 && s.desired <= g
    requires on && s.runtime == None && !s.closing ==> s.attempt != g
    ensures Enabled(s, Enter(on, g)) && Enabled(Do(s, Enter(on, g)), Begin(false))
    ensures var s2 := Do(Do(s, Enter(on, g)), Begin(false));
      if s.closing then
        && Enabled(s2, StopRuntime(true)) && Enabled(Do(s2, StopRuntime(true)), Record)
        && var s4 := Do(Do(s2, StopRuntime(true)), Record);
           OneStore(s4) && s4.gate == Deciding(on, g, s4.runtime) && !s4.closed && !s4.closing && s4.attempt != g && s4.runtime == None
      else OneStore(s2) && s2.gate == Deciding(on, g, s2.runtime) && !s2.closed && !s2.closing && s2.runtime == s.runtime && s2.attempt == s.attempt
  {
    hide CloserOK;
  }

  lemma {:induction false} Chained(s: State, first: seq<Step>, more: seq<Step>)
    requires Run(s, first) && Run(After(s, first), more)
    ensures Run(s, first + more) && After(s, first + more) == After(After(s, first), more)
    decreases |first|
  {
    hide Do;
    if first == [] {
      assert first + more == more;
    } else {
      assert (first + more)[1..] == first[1..] + more && (first + more)[0] == first[0];
      Chained(Do(s, first[0]), first[1..], more);
    }
  }

  lemma {:induction false} EndsApplied(s: State, on: bool, g: nat)
    requires OneStore(s) && s.gate == Deciding(on, g, s.runtime) && !s.closed && !s.closing && (on && s.runtime == None ==> s.attempt != g)
    ensures Run(s, Remaining(s.runtime.Some?, on))
    ensures var t := After(s, Remaining(s.runtime.Some?, on)); t.gate.Free? && t.applied == g && (if on then Visible(t) else t.runtime == None && t.live == {})
  {
    var d := Decide(true, true);
    var s1 := Do(s, d);
    if s.runtime == None {
      assert forall r :: r !in s.live;
    }
    if (on && s.runtime.Some?) || (!on && s.runtime == None) {
      RunTwo(s, d, Publish);
    } else if !on {
      RunFour(s, d, StopRuntime(true), Record, Publish);
      assert forall r :: r in s.live ==> s.runtime == Some(r);
    } else {
      RunTwo(s, d, OpenLink(true));
      var s2 := Do(s1, OpenLink(true));
      RunTwo(s2, OpenStore(true), StartRuntime(true));
      var s4 := Do(Do(s2, OpenStore(true)), StartRuntime(true));
      RunFirst(s4, Publish, []);
      assert [Publish] + [] == [Publish];
      Chained(s, [d, OpenLink(true)], [OpenStore(true), StartRuntime(true)]);
      Chained(s, [d, OpenLink(true)] + [OpenStore(true), StartRuntime(true)], [Publish]);
    }
  }

  /** A reconciliation that fails keeps what is applied and what runs, and frees the gate. */
  lemma {:induction false} FailureKeeps(s: State, step: Step)
    requires Enabled(s, step)
    requires step in {StopRuntime(false), Decide(false, false), Decide(false, true), OpenLink(false), OpenStore(false), StartRuntime(false)}
    requires Generations(s) && OneStore(s)
    ensures var t := Do(s, step);
      && t.gate.Free? && t.applied == s.applied && t.appliedOn == s.appliedOn && t.runtime == s.runtime && t.desired == s.desired
      && t.attempt == s.desired && (Visible(s) ==> Visible(t)) && (forall r :: r in t.live ==> t.runtime == Some(r))
  {
  }
}
