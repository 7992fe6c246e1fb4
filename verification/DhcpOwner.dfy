/**
 The engine as the object its event loop owns: every method updates the fields in place and is
 proved to do what the corresponding function on engine states says (internal/dhcp/engine.go).
 */
module DhcpOwner {
  import opened Common
  import opened DhcpTypes
  import opened DhcpSettings
  import opened DhcpEngine
  import opened DhcpInvariant
  import opened DhcpSteps

  class LeaseEngine {
    var settings: Settings
    var generation: nat
    var sequence: nat
    var last: Option<Sample>
    var suspended: bool
    var byIP: map<IPv4, Entry>
    var byID: map<Identity, IPv4>
    var reservations: map<Identity, IPv4>
    var reserved: map<IPv4, Identity>
    var bitmap: seq<bool>
    var start: IPv4
    var end: IPv4
    var probes: int

    function State(): Engine
      reads this
    {
      Engine(settings, generation, sequence, last, suspended, byIP, byID, reservations, reserved, bitmap, start, end, probes)
    }

    constructor (s: Settings, g: nat)
      ensures State() == NewEngine(s, g) && JustInstalled(State())
    {
      settings, generation, sequence := s, 0, 0;
      last, suspended := None, false;
      byIP, byID, reservations, reserved := map[], map[], map[], map[];
      bitmap, start, end, probes := [], 0, 0, 0;
      new;
      InstallSettings(s, g);
      NewIsInstalled(s, g);
      hide JustInstalled;
    }

    method InstallSettings(s: Settings, g: nat)
      modifies this
      ensures State() == Install(old(State()), s, g)
    {
      hide ReservedOf, ReservationsOf, PoolBits;
      settings, generation := s, g;
      LoadReservations(s.reservations);
      BuildBitmap(s);
    }

    method BuildBitmap(s: Settings)
      modifies this`bitmap, this`start, this`end
      ensures bitmap == PoolBits(s, reserved.Keys, byIP.Keys)
      ensures start == (if HasPool(s) then s.rangeStart.value else 0) && end == (if HasPool(s) then s.rangeEnd.value else 0)
    {
      bitmap, start, end := [], 0, 0;
      if HasPool(s) {
        start, end := s.rangeStart.value, s.rangeEnd.value;
        bitmap := seq(end - start + 1, i => false);
        MarkAll(reserved.Keys);
        MarkAll(byIP.Keys);
      }
    }

    method LoadReservations(rs: seq<Reservation>)
      modifies this`reservations, this`reserved
      ensures reservations == ReservationsOf(rs) && reserved == ReservedOf(rs)
    {
      reservations, reserved := map[], map[];
      for i := 0 to |rs|
        invariant reservations == ReservationsOf(rs[..i]) && reserved == ReservedOf(rs[..i])
      {
        hide ReservationKey;
        var r := rs[i];
        assert rs[..i + 1][..i] == rs[..i];
        if ReservationKey(r).Some? && r.address.Value? {
          reservations := reservations[ReservationKey(r).value := r.address.value];
          reserved := reserved[r.address.value := ReservationKey(r).value];
        }
      }
      assert rs[..|rs|] == rs;
    }

    /** Sets the bit of every pool address in a set. */
    method MarkAll(ips: set<IPv4>)
      requires |bitmap| > 0 ==> start <= end && |bitmap| == end - start + 1
      modifies this`bitmap
      ensures |bitmap| == |old(bitmap)|
      ensures forall i | 0 <= i < |bitmap| :: bitmap[i] == (old(bitmap)[i] || start + i in ips)
    {
      var todo := ips;
      while todo != {}
        invariant todo <= ips && |bitmap| == |old(bitmap)|
        invariant forall i | 0 <= i < |bitmap| :: bitmap[i] == (old(bitmap)[i] || start + i in ips - todo)
        decreases |todo|
      {
        var ip :| ip in todo;
        MarkOne(ip, true);
        todo := todo - {ip};
      }
    }

    method MarkOne(ip: IPv4, used: bool)
      requires |bitmap| > 0 ==> start <= end && |bitmap| == end - start + 1
      modifies this`bitmap
      ensures State() == Mark(old(State()), ip, used)
    {
      if |bitmap| == 0 || ip < start || ip > end {
        return;
      }
      if used || ip !in reserved {
        bitmap := bitmap[ip - start := used];
      }
    }

    method RemoveEntry(ip: IPv4)
      requires ip in byIP && PoolShape(State())
      modifies this
      ensures State() == Remove(old(State()), ip)
    {
      var id := byIP[ip].lease.identity;
      byIP := byIP - {ip};
      if id in byID && byID[id] == ip {
        byID := byID - {id};
      }
      MarkOne(ip, false);
    }

    method ReadClock(now: Sample) returns (ok: bool)
      modifies this
      ensures (State(), ok) == Now(old(State()), now)
    {
      if last.Some? && now.wall < last.value.wall {
        suspended := true;
        return false;
      }
      last, suspended := Some(now), false;
      return true;
    }

    /** Owned addresses plus reserved ones nobody owns yet. */
    method CountOccupied() returns (n: nat)
      ensures n == Occupied(State())
    {
      n := |byIP.Keys|;
      var todo := reserved.Keys;
      ghost var owned, all := byIP.Keys, reserved.Keys;
      assert Occupied(State()) == |owned + all|;
      hide Occupied, State;
      CountNone(owned, all);
      while todo != {}
        invariant todo <= all && n == |owned + (all - todo)|
        decreases |todo|
      {
        var ip :| ip in todo;
        if ip !in byIP {
          n := n + 1;
        }
        CountNext(owned, all, todo, ip);
        todo := todo - {ip};
      }
      assert all - {} == all;
    }

    /** The reserved address if free, else the requested one if free, else the first free pool address. */
    method ChooseAddress(r: Request) returns (ip: Option<IPv4>)
      requires PoolShape(State())
      ensures ip == Candidate(State(), r)
    {
      hide ReservationFor, Capacity, Occupied;
      var own := ReservationFor(State(), r);
      if own.Some? {
        return if own.value in byIP then None else own;
      }
      var n := CountOccupied();
      if n >= Capacity(settings) {
        return None;
      }
      if r.requestedIP.V4? {
        var a := r.requestedIP.ip;
        if |bitmap| > 0 && start <= a <= end && !bitmap[a - start] {
          return Some(a);
        }
      }
      var i := 0;
      while i < |bitmap|
        invariant 0 <= i <= |bitmap|
        invariant FirstFree(bitmap, 0) == FirstFree(bitmap, i)
      {
        if !bitmap[i] {
          return Some((start + i) % 0x1_0000_0000);
        }
        i := i + 1;
      }
      return None;
    }

    method StartProbe(r: Request, now: Sample, attempt: int) returns (probe: Option<Probe>)
      requires PoolShape(State())
      modifies this
      ensures (State(), probe) == DiscoverNew(old(State()), r, now, attempt)
    {
      hide Candidate, Occupied, Capacity, ProbingEntry, Mark;
      if probes >= 2 || attempt > 3 {
        return None;
      }
      var ip := ChooseAddress(r);
      if ip.None? {
        return None;
      }
      var n := CountOccupied();
      if ip.value !in byIP && n + (if ip.value in reserved then 0 else 1) > Capacity(settings) {
        return None;
      }
      var v := ProbingEntry(State(), r, now, attempt, ip.value);
      InsertProbing(ip.value, v);
      return Some(Probe(v.token, ip.value, v.deadline));
    }

    method InsertProbing(ip: IPv4, v: Entry)
      requires PoolShape(State())
      modifies this
      ensures State() == ProbeInserted(old(State()), ip, v)
    {
      hide Mark;
      sequence := sequence + 1;
      byIP := byIP[ip := v];
      byID := byID[v.lease.identity := ip];
      MarkOne(ip, true);
      probes := probes + 1;
    }

    method IssueWrite(ip: IPv4, kind: MutationKind, target: Lease, timing: Deadlines, r: Request) returns (m: Mutation)
      requires ip in byIP && last.Some?
      modifies this`byIP, this`sequence
      ensures (State(), m) == Mutate(old(State()), ip, kind, target, timing, r)
    {
      var lease := target;
      if kind == PutLease {
        var hold := At(last.value, timing.hold - last.value.mono);
        if hold.wall > lease.hold.wall {
          lease := lease.(hold := hold);
        }
      }
      var t := Token(generation, sequence + 1);
      sequence := sequence + 1;
      byIP := byIP[ip := Submitted(byIP[ip], t, kind, lease, timing, r)];
      m := Mutation(t, kind, lease);
    }

    method PutAside(ip: IPv4, now: Sample) returns (m: Mutation)
      requires ip in byIP && last.Some?
      modifies this
      ensures (State(), m) == Quarantine(old(State()), ip, now)
    {
      hide RaiseHold, GrantTiming;
      var v := byIP[ip];
      if (!v.durable || v.committed.state != Bound) && v.lease.identity in byID && byID[v.lease.identity] == ip {
        byID := byID - {v.lease.identity};
      }
      var target := v.lease.(expiry := At(now, CONFLICT_HOLD), state := Quarantined);
      byIP := byIP[ip := v.(dirty := true)];
      m := IssueWrite(ip, PutLease, target, GrantTiming(v, now, CONFLICT_HOLD), NO_REQUEST);
    }

    // ---- packets ----

    /** One packet, from the clock check to the outcome; keeps the invariant and answers honestly. */
    method HandlePacket(r: Request, now: Sample) returns (o: Outcome)
      requires Inv(State()) && GoodSample(now)
      modifies this
      ensures (State(), o) == Handle(old(State()), r, now)
      ensures Inv(State())
    {
      hide Inv, EngineStep, ReplyOK, Handle, PoolShape;
      HandleKeeps(State(), r, now);
      PoolOf(State());
      o := OnPacket(r, now);
    }

    method OnPacket(r: Request, now: Sample) returns (o: Outcome)
      requires PoolShape(State())
      modifies this
      ensures (State(), o) == Handle(old(State()), r, now)
    {
      hide ValidRequest, HandleDiscover, HandleRequest, HandleRelease, HandleDecline;
      var ok := ReadClock(now);
      if !ok || !settings.enabled || !ValidRequest(r) {
        return SILENT;
      }
      if NonZero(r.serverID) && (!settings.serverIP.Value? || r.serverID != V4(settings.serverIP.value)) {
        return SILENT;
      }
      var found := Lookup(State(), IdentityOf(r));
      if found.Some? && byIP[found.value].lease.state == CommitPending {
        return SILENT;
      }
      if found.Some? && byIP[found.value].lease.state in {Offered, Bound} && now.mono >= byIP[found.value].timing.hold {
        return SILENT;
      }
      match r.kind
      case Discover => o := OnDiscover(r, now, found);
      case RequestMessage => o := OnRequest(r, now, found);
      case Release => o := OnRelease(r, found);
      case Decline => o := OnDecline(r, now, found);
      case Inform => o := if NonZero(r.ciaddr) then Answer(MakeReply(State(), Ack, NoAddr, r)) else SILENT;
      case _ => o := SILENT;
    }

    method OnDiscover(r: Request, now: Sample, found: Option<IPv4>) returns (o: Outcome)
      requires PoolShape(State()) && last == Some(now) && (found.Some? ==> found.value in byIP)
      modifies this
      ensures (State(), o) == HandleDiscover(old(State()), r, now, found)
    {
      hide DiscoverNew, Mutate, Eligible;
      if found.None? {
        var p := StartProbe(r, now, 1);
        return Outcome(None, p, None);
      }
      var ip := found.value;
      var v := byIP[ip];
      match v.lease.state
      case Bound | Offered =>
        if Eligible(State(), r, ip) {
          byIP := byIP[ip := v.(request := r)];
          o := Answer(MakeReply(State(), Offer, V4(ip), r));
        } else if !v.durable {
          RemoveEntry(ip);
          var p := StartProbe(r, now, 1);
          o := Outcome(None, p, None);
        } else {
          var m := IssueWrite(ip, PutLease, v.lease.(state := Quarantined), v.timing, r);
          o := Outcome(None, None, Some(m));
        }
      case Probing =>
        byIP := byIP[ip := v.(request := r)];
        o := SILENT;
      case _ => o := SILENT;
    }

    method OnRequest(r: Request, now: Sample, found: Option<IPv4>) returns (o: Outcome)
      requires last == Some(now) && (found.Some? ==> found.value in byIP)
      modifies this`byIP, this`sequence
      ensures (State(), o) == HandleRequest(old(State()), r, now, found)
    {
      hide Mutate, Eligible, Contains, GrantTarget, GrantTiming, Replayable, AckOutcome, RequestTarget;
      var target := RequestTarget(r);
      if target.None? {
        return SILENT;
      }
      var addr, id := target.value, IdentityOf(r);
      if !settings.subnet.Value? || !Contains(settings.subnet.value, addr)
         || (addr in byIP && byIP[addr].lease.identity == id && !Eligible(State(), r, addr)) {
        return NakOutcome(State(), r);
      }
      if found != Some(addr) || byIP[addr].lease.state !in {Bound, Offered} {
        return if addr in byIP && byIP[addr].lease.identity != id then NakOutcome(State(), r) else SILENT;
      }
      var v := byIP[addr];
      if NonZero(r.serverID) && v.lease.state == Offered && v.request.xid != r.xid {
        return SILENT;
      }
      if !Eligible(State(), r, addr) {
        return NakOutcome(State(), r);
      }
      if v.lease.state == Offered && !NonZero(r.serverID) {
        return SILENT;
      }
      if Replayable(State(), v, r, now) {
        return AckOutcome(v, r, now);
      }
      var duration := settings.leaseSeconds * SECOND;
      var m := IssueWrite(addr, PutLease, GrantTarget(v, r, now, duration), GrantTiming(v, now, duration), r);
      MutateFields(old(State()), addr, PutLease, GrantTarget(v, r, now, duration), GrantTiming(v, now, duration), r);
      byIP := byIP[addr := byIP[addr].(deadline := now.mono + duration)];
      return Outcome(None, None, Some(m));
    }

    method OnRelease(r: Request, found: Option<IPv4>) returns (o: Outcome)
      requires last.Some? && (found.Some? ==> found.value in byIP)
      modifies this`byIP, this`sequence
      ensures (State(), o) == HandleRelease(old(State()), r, found)
    {
      hide Mutate;
      if found.None? || byIP[found.value].lease.state != Bound || r.ciaddr != V4(found.value) {
        return SILENT;
      }
      var m := IssueWrite(found.value, DeleteLease, byIP[found.value].committed, byIP[found.value].timing, r);
      return Outcome(None, None, Some(m));
    }

    method OnDecline(r: Request, now: Sample, found: Option<IPv4>) returns (o: Outcome)
      requires last == Some(now) && (found.Some? ==> found.value in byIP)
      modifies this
      ensures (State(), o) == HandleDecline(old(State()), r, now, found)
    {
      hide Quarantine;
      if !settings.serverIP.Value? || r.serverID != V4(settings.serverIP.value) || found.None?
         || r.requestedIP != V4(found.value) || byIP[found.value].lease.state !in {Bound, Offered} {
        return SILENT;
      }
      var m := PutAside(found.value, now);
      return Outcome(None, None, Some(m));
    }

    // ---- completions ----

    /** Scans the table for a token of the current generation. */
    method FindToken(t: Token) returns (ip: Option<IPv4>)
      requires Inv(State())
      ensures ip == Find(State(), t)
    {
      hide Inv;
      if t.generation == generation {
        var todo := byIP.Keys;
        while todo != {}
          invariant todo <= byIP.Keys && forall a :: a in byIP.Keys - todo ==> byIP[a].token != t
          decreases |todo|
        {
          var a :| a in todo;
          if byIP[a].token == t {
            FindUnique(State(), a, t);
            return Some(a);
          }
          todo := todo - {a};
        }
      }
      return None;
    }

    method ProbeFinished(p: ProbeResult, now: Sample) returns (o: Outcome)
      requires Inv(State()) && GoodSample(now)
      modifies this
      ensures (State(), o) == CompleteProbe(old(State()), p, now)
      ensures Inv(State())
    {
      CompleteProbeKeeps(State(), p, now);
      hide Inv, EngineStep, ReplyOK, ProbeEnded, Find;
      NowKeeps(State(), now);
      var ok := ReadClock(now);
      var found := FindToken(p.token);
      if found.None? || byIP[found.value].lease.state != Probing {
        return SILENT;
      }
      InstalledOf(State());
      InstalledPool(State());
      hide Installed;
      o := OnProbeEnded(found.value, p, now, ok);
    }

    method OnProbeEnded(ip: IPv4, p: ProbeResult, now: Sample, ok: bool) returns (o: Outcome)
      requires ip in byIP && (ok ==> last == Some(now)) && PoolShape(State())
      modifies this
      ensures (State(), o) == ProbeEnded(old(State()), ip, p, now, ok)
    {
      hide DiscoverNew, Quarantine, Remove;
      var v := byIP[ip];
      probes := probes - 1;
      if !ok || p.failed || now.mono >= v.deadline {
        RemoveEntry(ip);
        return SILENT;
      }
      if p.conflict {
        QuarantinePool(State(), ip, now);
        var m := PutAside(ip, now);
        var probe := StartProbe(v.request, now, v.attempts + 1);
        return Outcome(None, probe, Some(m));
      }
      var until := now.mono + OFFER_HOLD;
      byIP := byIP[ip := v.(lease := v.lease.(state := Offered, expiry := At(now, OFFER_HOLD), hold := At(now, OFFER_HOLD)),
                            timing := Deadlines(until, until))];
      return Answer(MakeReply(State(), Offer, V4(ip), v.request));
    }

    method WriteFinished(c: CommitResult, now: Sample) returns (o: Outcome)
      requires Inv(State()) && GoodSample(now)
      modifies this
      ensures (State(), o) == CompleteCommit(old(State()), c, now)
      ensures Inv(State())
    {
      CompleteCommitKeeps(State(), c, now);
      hide Inv, CommitStep, ReplyOK, CommitDone, CommitFailed, Find;
      NowKeeps(State(), now);
      var ok := ReadClock(now);
      var found := FindToken(c.token);
      if found.None? || byIP[found.value].lease.state != CommitPending {
        return SILENT;
      }
      InstalledOf(State());
      InstalledPool(State());
      hide Installed;
      if c.failed {
        OnWriteFailed(found.value);
        return SILENT;
      }
      o := OnCommitted(found.value, now, ok);
    }

    method OnWriteFailed(ip: IPv4)
      requires ip in byIP
      modifies this`byIP
      ensures State() == CommitFailed(old(State()), ip)
    {
      var v := byIP[ip];
      if v.dirty {
        byIP := byIP[ip := v.(lease := v.pending, timing := v.pendingTiming)];
      } else {
        byIP := byIP[ip := v.(lease := v.previous, timing := v.previousTiming)];
      }
    }

    method OnCommitted(ip: IPv4, now: Sample, ok: bool) returns (o: Outcome)
      requires ip in byIP && PoolShape(State())
      modifies this
      ensures (State(), o) == CommitDone(old(State()), ip, now, ok)
    {
      hide DiscoverNew, Remove, AckOutcome;
      var v := byIP[ip];
      if v.mutation == DeleteLease {
        RemoveEntry(ip);
        return SILENT;
      }
      v := v.(lease := v.pending, timing := v.pendingTiming, durable := true, committed := v.pending, dirty := false);
      if v.lease.state == Quarantined {
        byIP := byIP[ip := v];
        if v.lease.identity in byID && byID[v.lease.identity] == ip {
          byID := byID - {v.lease.identity};
        }
        if ok && settings.enabled && v.request.kind == Discover {
          var p := StartProbe(v.request, now, 1);
          return Outcome(None, p, None);
        }
        return SILENT;
      }
      v := v.(lease := v.lease.(state := Bound), hasACK := true, lastACK := v.request.xid);
      byIP := byIP[ip := v];
      return if !ok || now.mono >= v.timing.expiry || !settings.enabled then SILENT else AckOutcome(v, v.request, now);
    }

    // ---- the scheduler ----

    /** One bounded scan over the entries, in whatever order the table yields them. */
    method RunTick(now: Sample) returns (out: seq<Mutation>, ghost order: seq<IPv4>)
      requires Inv(State())
      modifies this
      ensures (State(), out) == Tick(old(State()), order, now)
      ensures Inv(State())
      ensures forall ip :: ip in old(byIP) ==> ip in order || State().suspended
    {
      hide Inv;
      NowKeeps(State(), now);
      out, order := [], [];
      var ok := ReadClock(now);
      if !ok {
        return;
      }
      ghost var begin := State();
      var todo := byIP.Keys;
      while todo != {}
        invariant todo <= begin.byIP.Keys && Inv(State()) && last == Some(now) && begin.last == Some(now)
        invariant (State(), out) == TickAll(begin, order, now)
        invariant forall ip :: ip in begin.byIP ==> ip in todo || ip in order
        decreases |todo|
      {
        var ip :| ip in todo;
        todo := todo - {ip};
        TickAppend(begin, order, ip, now);
        ghost var before := State();
        if ip in byIP {
          TickEntryKeeps(State(), ip, now);
          TickEntryConfigLast(State(), ip, now);
          var ms := TickOneEntry(ip, now);
          out := out + ms;
        } else {
          assert out + [] == out;
        }
        order := order + [ip];
      }
    }

    method TickOneEntry(ip: IPv4, now: Sample) returns (ms: seq<Mutation>)
      requires Inv(State()) && ip in byIP && last == Some(now)
      modifies this
      ensures (State(), ms) == TickEntry(old(State()), ip, now)
    {
      hide Inv, Mutate, Remove;
      InstalledOf(State());
      InstalledPool(State());
      hide Installed;
      var v := byIP[ip];
      if v.dirty && v.lease.state != CommitPending {
        var m := IssueWrite(ip, PutLease, v.lease, v.timing, NO_REQUEST);
        return [m];
      }
      match v.lease.state
      case Probing =>
        if now.mono >= v.deadline {
          probes := probes - 1;
          RemoveEntry(ip);
        }
        return [];
      case CommitPending => return [];
      case _ =>
        if now.mono < v.timing.hold {
          return [];
        }
        if v.durable {
          var m := IssueWrite(ip, DeleteLease, v.committed, v.timing, NO_REQUEST);
          return [m];
        }
        RemoveEntry(ip);
        return [];
    }

    // ---- settings change and recovery ----

    /** Atomic: any failed check leaves every field as it was. */
    method ApplySettings(s: Settings, g: nat) returns (err: Option<ApplyError>)
      modifies this
      ensures (State(), err) == Apply(old(State()), s, g)
    {
      hide ApplyCheck, KeptEntries, ReservedOf, ReservationsOf, PoolBits;
      err := CheckSettings(s, g);
      if err.Some? {
        return;
      }
      var keep := KeptEntries(State());
      KeptOwned(State());
      byIP := map ip | ip in keep :: byIP[ip].(hasACK := false);
      byID := map id | id in byID && byID[id] in byIP :: byID[id];
      probes := 0;
      InstallSettings(s, g);
    }

    /** The checks of a settings change, in order; nothing is modified. */
    method CheckSettings(s: Settings, g: nat) returns (err: Option<ApplyError>)
      ensures err == ApplyCheck(State(), s, g)
    {
      hide ValidTransition, RetainedTopology, KeyMatches, ReservedOf, Capacity, KeptEntries, KeptCheck;
      if g <= generation {
        return Some(StaleGeneration);
      }
      if !ValidTransition(settings, s) {
        return Some(BadTransition);
      }
      var pending := AnyPending();
      if pending {
        return Some(MutationPending);
      }
      return KeptCheck(s, KeptEntries(State()), ReservedOf(s.reservations));
    }

    method AnyPending() returns (pending: bool)
      ensures pending <==> exists ip :: ip in byIP && (byIP[ip].lease.state == CommitPending || byIP[ip].dirty)
    {
      var todo := byIP.Keys;
      while todo != {}
        invariant todo <= byIP.Keys
        invariant forall ip :: ip in byIP.Keys - todo ==> byIP[ip].lease.state != CommitPending && !byIP[ip].dirty
        decreases |todo|
      {
        var ip :| ip in todo;
        if byIP[ip].lease.state == CommitPending || byIP[ip].dirty {
          return true;
        }
        todo := todo - {ip};
      }
      return false;
    }

    /** Reads the rows one by one, refusing bad fields, repeated addresses and repeated bound identities. */
    method ReadRows(leases: seq<Lease>, now: Sample) returns (ok: bool, entries: map<IPv4, Entry>, ids: map<Identity, IPv4>)
      ensures ok <==> RowsOK(settings, leases)
      ensures ok ==> entries == RecoveredEntries(leases, now) && ids == RecoveredIds(leases)
    {
      hide ValidRecovered, RetainedTopology, RowsOK, Recovered;
      ok, entries, ids := true, map[], map[];
      RowsNone(settings);
      for i := 0 to |leases|
        invariant entries == RecoveredEntries(leases[..i], now) && ids == RecoveredIds(leases[..i])
        invariant RowsOK(settings, leases[..i])
      {
        var l := leases[i];
        PrefixRow(settings, leases, i, now);
        if !ValidRecovered(l) || l.address in entries || !RetainedTopology(settings, l.address) || (l.state == Bound && l.identity in ids) {
          RowsFail(settings, leases, i);
          ok := false;
          return;
        }
        entries := entries[l.address := Recovered(l, now)];
        if l.state == Bound {
          ids := ids[l.identity := l.address];
        }
      }
      assert leases[..|leases|] == leases;
    }

    /** All or nothing recovery of a snapshot into an unused engine. */
    method RestoreFrom(leases: seq<Lease>, lastKnown: int, now: Sample) returns (ok: bool)
      requires JustInstalled(State())
      modifies this
      ensures ok <==> Restore(old(State()), leases, lastKnown, now).Some?
      ensures State() == if ok then Restore(old(State()), leases, lastKnown, now).value else old(State())
    {
      InstalledReservations(State());
      RestoreMeans(State(), leases, lastKnown, now);
      hide JustInstalled, Restore, RowsOK, KeyMatches, Capacity, PoolBits, RecoveredEntries, RecoveredIds;
      if byIP.Keys != {} || sequence != 0 || now.wall < lastKnown || |leases| > Capacity(settings) {
        return false;
      }
      var good, entries, ids := ReadRows(leases, now);
      if !good || (exists ip :: ip in reserved && ip in entries && !KeyMatches(reserved[ip], entries[ip].lease)) {
        return false;
      }
      if |entries.Keys + reserved.Keys| > Capacity(settings) {
        return false;
      }
      Load(entries, ids, now);
      return true;
    }

    method Load(entries: map<IPv4, Entry>, ids: map<Identity, IPv4>, now: Sample)
      requires JustInstalled(State()) && byIP.Keys == {}
      modifies this
      ensures State() == old(State()).(byIP := entries, byID := ids, last := Some(now), bitmap := PoolBits(settings, reserved.Keys, entries.Keys))
    {
      hide ReservedOf, PoolBits;
      byIP, byID, last := entries, ids, Some(now);
      MarkAll(entries.Keys);
      RestoredBits(settings, reserved.Keys, old(bitmap), bitmap, entries.Keys);
    }
  }

  function ProbeInserted(e: Engine, ip: IPv4, v: Entry): Engine {
    Mark(e.(sequence := e.sequence + 1, byIP := e.byIP[ip := v], byID := e.byID[v.lease.identity := ip]), ip, true).(probes := e.probes + 1)
  }

  lemma {:induction false} CountNone(owned: set<IPv4>, reserved: set<IPv4>)
    ensures owned + (reserved - reserved) == owned
  {
  }

  lemma {:induction false} CountNext(owned: set<IPv4>, reserved: set<IPv4>, todo: set<IPv4>, ip: IPv4)
    requires ip in todo && todo <= reserved
    ensures |owned + (reserved - (todo - {ip}))| == |owned + (reserved - todo)| + if ip in owned then 0 else 1
  {
    var seen := owned + (reserved - todo);
    assert owned + (reserved - (todo - {ip})) == seen + {ip};
    assert ip in owned ==> seen + {ip} == seen;
  }

  lemma {:induction false} KeptOwned(e: Engine)
    ensures KeptEntries(e).Keys <= e.byIP.Keys
  {
  }

  lemma {:induction false} PoolOf(e: Engine)
    requires Inv(e)
    ensures PoolShape(e)
  {
    hide Inv;
    InstalledOf(e);
    InstalledPool(e);
  }

  lemma {:induction false} MutateFields(e: Engine, ip: IPv4, kind: MutationKind, target: Lease, timing: Deadlines, r: Request)
    requires ip in e.byIP && e.last.Some?
    ensures ip in Mutate(e, ip, kind, target, timing, r).0.byIP
    ensures Mutate(e, ip, kind, target, timing, r).0 ==
            e.(byIP := Mutate(e, ip, kind, target, timing, r).0.byIP, sequence := Mutate(e, ip, kind, target, timing, r).0.sequence)
  {
  }

  lemma {:induction false} FindUnique(e: Engine, ip: IPv4, t: Token)
    requires Inv(e) && HasToken(e, ip, t)
    ensures Find(e, t) == Some(ip)
  {
    hide Installed, IdsSound, IdsComplete, BitmapExact, Bounded, EntriesOK;
    var other := Find(e, t).value;
    assert HasToken(e, other, t);
  }

  lemma {:induction false} QuarantinePool(e: Engine, ip: IPv4, now: Sample)
    requires ip in e.byIP && e.last.Some? && PoolShape(e)
    ensures PoolShape(Quarantine(e, ip, now).0)
  {
    hide RaiseHold, GrantTiming, Detach;
  }

  lemma {:induction false} TickEntryConfigLast(e: Engine, ip: IPv4, now: Sample)
    requires ip in e.byIP && e.last == Some(now)
    ensures TickEntry(e, ip, now).0.last == e.last
  {
    hide RaiseHold, Detach;
  }

  /** Visiting one more entry at the end of the scan. */
  lemma {:induction false} TickAppend(e: Engine, order: seq<IPv4>, ip: IPv4, now: Sample)
    requires e.last == Some(now)
    ensures var (e1, out) := TickAll(e, order, now);
      && e1.last == Some(now)
      && TickAll(e, order + [ip], now) ==
         if ip in e1.byIP then (TickEntry(e1, ip, now).0, out + TickEntry(e1, ip, now).1) else (e1, out)
    decreases |order|
  {
    hide TickEntry;
    if order == [] {
      assert (order + [ip])[1..] == [];
      if ip in e.byIP {
        TickEntryConfigLast(e, ip, now);
        assert TickEntry(e, ip, now).1 + [] == [] + TickEntry(e, ip, now).1;
      }
    } else {
      assert (order + [ip])[1..] == order[1..] + [ip];
      if order[0] !in e.byIP {
        TickAppend(e, order[1..], ip, now);
      } else {
        TickEntryConfigLast(e, order[0], now);
        var (e1, ms) := TickEntry(e, order[0], now);
        TickAppend(e1, order[1..], ip, now);
        var (e2, rest) := TickAll(e1, order[1..], now);
        if ip in e2.byIP {
          assert ms + (rest + TickEntry(e2, ip, now).1) == (ms + rest) + TickEntry(e2, ip, now).1;
        }
      }
    }
  }

  /** An engine whose settings have been installed and nothing else has happened. */
  ghost predicate JustInstalled(e: Engine) {
    && e.reserved == ReservedOf(e.settings.reservations)
    && e.bitmap == PoolBits(e.settings, e.reserved.Keys, e.byIP.Keys)
    && PoolShape(e) && (HasPool(e.settings) ==> e.start == e.settings.rangeStart.value)
  }

  lemma {:induction false} InstalledReservations(e: Engine)
    requires JustInstalled(e)
    ensures e.reserved == ReservedOf(e.settings.reservations)
  {
    hide ReservedOf, PoolBits;
  }

  lemma {:induction false} NewIsInstalled(s: Settings, g: nat)
    ensures JustInstalled(NewEngine(s, g))
  {
    hide ReservedOf, ReservationsOf;
  }

  /** The checks of recovery that concern rows and pairs of rows. */
  ghost predicate RowsOK(s: Settings, leases: seq<Lease>) {
    && (forall i | 0 <= i < |leases| :: ValidRecovered(leases[i]) && RetainedTopology(s, leases[i].address))
    && DistinctLeases(leases)
  }

  /** The two seen-maps decide whether the next row clashes with an earlier one. */
  lemma {:induction false} PrefixRow(s: Settings, leases: seq<Lease>, i: nat, now: Sample)
    requires i < |leases| && RowsOK(s, leases[..i])
    ensures leases[..i + 1][..i] == leases[..i] && leases[..i + 1][i] == leases[i]
    ensures var l := leases[i];
      var clash := l.address in RecoveredEntries(leases[..i], now) || (l.state == Bound && l.identity in RecoveredIds(leases[..i]));
      RowsOK(s, leases[..i + 1]) <==> ValidRecovered(l) && RetainedTopology(s, l.address) && !clash
  {
    hide ValidRecovered, RetainedTopology, RecoveredEntries, RecoveredIds;
    var init, l := leases[..i], leases[i];
    var next := leases[..i + 1];
    assert forall j | 0 <= j < i :: next[j] == init[j];
    assert next[i] == l;
    RecoveredKeys(init, now);
    if l.address in RecoveredEntries(init, now) {
      var j :| 0 <= j < |init| && init[j].address == l.address;
      assert next[j].address == next[i].address;
    }
    if l.state == Bound && l.identity in RecoveredIds(init) {
      var j := RecoveredIdFrom(init, l.identity);
      assert next[j].identity == next[i].identity;
    }
    forall j | 0 <= j < i && l.state == Bound && init[j].state == Bound && init[j].identity == l.identity
      ensures l.identity in RecoveredIds(init)
    {
      RecoveredIdAt(init, j);
    }
  }

  lemma {:induction false} RowsNone(s: Settings)
    ensures RowsOK(s, [])
  {
  }

  lemma {:induction false} RowsFail(s: Settings, leases: seq<Lease>, i: nat)
    requires i < |leases| && !RowsOK(s, leases[..i + 1])
    ensures !RowsOK(s, leases)
  {
    hide ValidRecovered, RetainedTopology;
    assert forall j | 0 <= j <= i :: leases[..i + 1][j] == leases[j];
  }

  /** The recovery checks in the order the loop makes them. */
  lemma {:induction false} RestorableMeans(s: Settings, leases: seq<Lease>, now: Sample)
    ensures var entries, reserved := RecoveredEntries(leases, now), ReservedOf(s.reservations);
      Restorable(s, leases) <==>
        && |leases| <= Capacity(s) && RowsOK(s, leases)
        && !(exists ip :: ip in reserved && ip in entries && !KeyMatches(reserved[ip], entries[ip].lease))
        && |entries.Keys + reserved.Keys| <= Capacity(s)
  {
    hide ValidRecovered, RetainedTopology, KeyMatches, ReservedOf, Capacity, RecoveredEntries, AddressesOf;
    RecoveredKeys(leases, now);
    if RowsOK(s, leases) {
      RecoveredReserved(s, leases, now);
    }
  }

  /** What decides a recovery, in the order of the checks, and what it yields. */
  lemma {:induction false} RestoreMeans(e: Engine, leases: seq<Lease>, lastKnown: int, now: Sample)
    requires e.reserved == ReservedOf(e.settings.reservations)
    ensures var entries := RecoveredEntries(leases, now);
      Restore(e, leases, lastKnown, now) ==
      if e.byIP.Keys != {} || e.sequence != 0 || now.wall < lastKnown || |leases| > Capacity(e.settings) then None
      else if !RowsOK(e.settings, leases) || (exists ip :: ip in e.reserved && ip in entries && !KeyMatches(e.reserved[ip], entries[ip].lease)) then None
      else if |entries.Keys + e.reserved.Keys| > Capacity(e.settings) then None
      else Some(e.(byIP := entries, byID := RecoveredIds(leases), last := Some(now), bitmap := PoolBits(e.settings, e.reserved.Keys, entries.Keys)))
  {
    RestorableMeans(e.settings, leases, now);
    hide ReservedOf, RowsOK, Restorable, KeyMatches, Capacity, PoolBits, RecoveredEntries, RecoveredIds;
  }

  lemma {:induction false} RecoveredReserved(s: Settings, leases: seq<Lease>, now: Sample)
    requires RowsOK(s, leases)
    ensures var entries, reserved := RecoveredEntries(leases, now), ReservedOf(s.reservations);
      (exists ip :: ip in reserved && ip in entries && !KeyMatches(reserved[ip], entries[ip].lease)) <==>
      !(forall i | 0 <= i < |leases| :: leases[i].address in reserved ==> KeyMatches(reserved[leases[i].address], leases[i]))
  {
    hide ValidRecovered, RetainedTopology, KeyMatches, ReservedOf, RecoveredEntries;
    var entries, reserved := RecoveredEntries(leases, now), ReservedOf(s.reservations);
    RecoveredKeys(leases, now);
    forall i | 0 <= i < |leases| ensures leases[i].address in entries && entries[leases[i].address].lease == leases[i] {
      RecoveredAt(leases, now, i);
    }
    if ip :| ip in reserved && ip in entries && !KeyMatches(reserved[ip], entries[ip].lease) {
      var i :| 0 <= i < |leases| && leases[i].address == ip;
      assert entries[leases[i].address].lease == leases[i];
    }
  }

  lemma {:induction false} RestoredBits(s: Settings, reserved: set<IPv4>, before: seq<bool>, bits: seq<bool>, owned: set<IPv4>)
    requires before == PoolBits(s, reserved, {}) && |bits| == |before|
    requires HasPool(s) ==> forall i | 0 <= i < |bits| :: bits[i] == (before[i] || s.rangeStart.value + i in owned)
    ensures bits == PoolBits(s, reserved, owned)
  {
  }
}
