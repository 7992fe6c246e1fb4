/** The durable lease table and its writer (internal/dhcp/store.go). */
module DhcpStore {
  import opened Common
  import opened DhcpTypes
  import opened DhcpEngine

  const QUEUE_LIMIT: int := 64
  const BATCH_LIMIT: int := 32

  datatype Row = Row(identity: Identity, mac: Mac, hostname: string, expiry: int, hold: int, state: LeaseState)

  type Table = map<IPv4, Row>

  function RowOf(l: Lease): Row { Row(l.identity, l.mac, l.hostname, l.expiry.wall, l.hold.wall, l.state) }

  /** A row read back: wall instants only. */
  function LeaseOf(ip: IPv4, r: Row): Lease {
    Lease(r.identity, r.mac, ip, r.hostname, Stamp(r.expiry, None), Stamp(r.hold, None), r.state)
  }

  // ---- one transaction ----

  /** Is some other address bound to this identity? */
  predicate BoundElsewhere(t: Table, ip: IPv4, id: Identity) {
    exists a :: a in t && a != ip && t[a].state == Bound && t[a].identity == id
  }

  /** The upsert's conflict clause, the unique index and the row constraint. */
  predicate PutGuard(t: Table, l: Lease) {
    && (l.address in t ==> t[l.address].identity == l.identity && t[l.address].hold <= l.hold.wall)
    && (l.state == Bound ==> !BoundElsewhere(t, l.address, l.identity))
    && l.expiry.wall <= l.hold.wall
  }

  predicate DeleteGuard(t: Table, l: Lease) {
    && l.address in t
    && t[l.address].identity == l.identity && t[l.address].expiry == l.expiry.wall
    && t[l.address].hold == l.hold.wall && t[l.address].state == l.state
  }

  /** The writer validates every mutation as a one-row recovery before touching the table. */
  predicate WellFormed(m: Mutation) {
    && m.kind in {PutLease, DeleteLease} && ValidRecovered(m.lease)
    && m.lease.expiry.wall > 0 && m.lease.hold.wall > 0
  }

  function ApplyOne(t: Table, m: Mutation): Option<Table> {
    if !WellFormed(m) then None
    else if m.kind == PutLease then
      if PutGuard(t, m.lease) then Some(t[m.lease.address := RowOf(m.lease)]) else None
    else
      if DeleteGuard(t, m.lease) then Some(t - {m.lease.address}) else None
  }

  function ApplyBatch(t: Table, batch: seq<Mutation>): Option<Table>
    decreases |batch|
  {
    if batch == [] then Some(t)
    else
      match ApplyOne(t, batch[0])
      case None => None
      case Some(u) => ApplyBatch(u, batch[1..])
  }

  /** What the disk does with a transaction that passed every guard. */
  datatype Disk = Durable | DurableThenSick | Refused | UnknownApplied | UnknownLost

  // ---- the writer ----

  datatype Store = Store(
    table: Table,
    lastKnown: int,
    capacity: int,
    queue: seq<Mutation>,
    results: seq<CommitResult>,
    /** Tokens whose rows are on disk although no completion will ever be delivered. */
    orphans: set<Token>,
    failed: bool,
    closed: bool,
    lastToken: Token)

  predicate TokenBefore(a: Token, b: Token) {
    a.generation < b.generation || (a.generation == b.generation && a.sequence < b.sequence)
  }

  /** Admission never waits; `cancelled` is the caller's context. */
  function Submit(s: Store, m: Mutation, cancelled: bool): (Store, bool) {
    if cancelled || s.closed || s.failed || m.token.generation == 0 || m.token.sequence == 0
       || !TokenBefore(s.lastToken, m.token) || |s.queue| >= QUEUE_LIMIT then (s, false)
    else (s.(queue := s.queue + [m], lastToken := m.token), true)
  }

  function ResultsFor(batch: seq<Mutation>, failed: bool): (r: seq<CommitResult>)
    ensures |r| == |batch|
    ensures forall i | 0 <= i < |batch| :: r[i] == CommitResult(batch[i].token, failed)
  {
    seq(|batch|, i requires 0 <= i < |batch| => CommitResult(batch[i].token, failed))
  }

  function TokensIn(batch: seq<Mutation>): set<Token> { set i | 0 <= i < |batch| :: batch[i].token }

  /** A transaction known not to have happened: every mutation of it completes as failed. */
  function BatchFailed(s: Store, batch: seq<Mutation>): Store {
    s.(results := s.results + ResultsFor(batch, true), failed := true)
  }

  /** One pass of the worker: take a batch, run one transaction, deliver its known outcomes. */
  function Work(s: Store, n: nat, wall: int, disk: Disk): Store
    requires 1 <= n <= |s.queue| && n <= BATCH_LIMIT
  {
    var batch := s.queue[..n];
    var s1 := s.(queue := s.queue[n..]);
    var next := ApplyBatch(s.table, batch);
    if s.failed || wall <= 0 || wall < s.lastKnown then BatchFailed(s1, batch)
    else if next.None? || |next.value| > s.capacity then
      // rolled back; if even the rollback fails the outcome counts as unknown
      if disk in {UnknownApplied, UnknownLost} then s1.(failed := true) else BatchFailed(s1, batch)
    else
      match disk
      case Refused => BatchFailed(s1, batch)
      case Durable => s1.(table := next.value, lastKnown := wall, results := s.results + ResultsFor(batch, false))
      case DurableThenSick =>
        s1.(table := next.value, lastKnown := wall, results := s.results + ResultsFor(batch, false), failed := true)
      case UnknownApplied => s1.(table := next.value, lastKnown := wall, orphans := s.orphans + TokensIn(batch), failed := true)
      case UnknownLost => s1.(failed := true)
  }

  /** Any listing of the table's rows, each once. */
  ghost predicate IsSnapshot(t: Table, leases: seq<Lease>) {
    && (forall i | 0 <= i < |leases| :: leases[i].address in t && leases[i] == LeaseOf(leases[i].address, t[leases[i].address]))
    && (forall i, j | 0 <= i < j < |leases| :: leases[i].address != leases[j].address)
    && (forall ip :: ip in t ==> exists i :: 0 <= i < |leases| && leases[i].address == ip)
  }
}
