/** Values the DHCP engine, its writer and its supervisor exchange (internal/dhcp/engine.go). */
module DhcpTypes {
  import opened Common

  type IPv4 = uint32
  /** Six octets read as one big-endian number. */
  type Mac = m: int | 0 <= m < 0x1_0000_0000_0000

  /** An address field of a packet: absent, IPv4, or some IPv6 address. */
  datatype Addr = NoAddr | V4(ip: IPv4) | V6

  const SECOND: int := 1_000_000_000
  const PROBE_TIMEOUT: int := 2 * SECOND
  const OFFER_HOLD: int := 30 * SECOND
  const CONFLICT_HOLD: int := 600 * SECOND

  /** One reading of the clock: wall nanoseconds and monotonic nanoseconds. */
  datatype Sample = Sample(wall: int, mono: int)

  /** A stored instant. A value read back from disk has lost its monotonic reading. */
  datatype Stamp = Stamp(wall: int, mono: Option<int>)

  /** The zero time: what its nanosecond conversion wraps to, and no monotonic reading. */
  const ZERO_STAMP: Stamp := Stamp(-6795364578871345152, None)

  function At(s: Sample, d: int): Stamp {
    Stamp(s.wall + d, Some(s.mono + d))
  }

  /** Two stamps that both carry a monotonic reading are ordered by it, others by wall time. */
  predicate Before(a: Stamp, b: Stamp) {
    if a.mono.Some? && b.mono.Some? then a.mono.value < b.mono.value else a.wall < b.wall
  }

  /** Engine-side deadlines live on the monotonic scale; UNSET precedes every reading. */
  datatype Deadlines = Deadlines(expiry: int, hold: int)
  const UNSET: Deadlines := Deadlines(-1, -1)

  datatype Identity = ClientId(id: string) | MacId(mac: Mac)

  datatype MessageType = NoMessage | Discover | Offer | RequestMessage | Decline | Ack | Nak | Release | Inform

  datatype LeaseState = Probing | Offered | CommitPending | Bound | Quarantined

  datatype Request = Request(
    kind: MessageType,
    xid: int,
    mac: Mac,
    clientId: string,
    hostname: string,
    requestedIP: Addr,
    serverID: Addr,
    ciaddr: Addr,
    relayed: bool,
    maxMessageSize: nat)

  const NO_REQUEST: Request := Request(NoMessage, 0, 0, "", "", NoAddr, NoAddr, NoAddr, false, 0)

  datatype Reply = Reply(kind: MessageType, address: Addr, request: Request, leaseSeconds: int)

  datatype Token = Token(generation: nat, sequence: nat)
  const NO_TOKEN: Token := Token(0, 0)

  datatype Probe = Probe(token: Token, address: IPv4, deadline: int)
  datatype ProbeResult = ProbeResult(token: Token, conflict: bool, failed: bool)

  datatype MutationKind = NoMutation | PutLease | DeleteLease

  datatype Lease = Lease(
    identity: Identity,
    mac: Mac,
    address: IPv4,
    hostname: string,
    expiry: Stamp,
    hold: Stamp,
    state: LeaseState)

  const NO_LEASE: Lease := Lease(MacId(0), 0, 0, "", ZERO_STAMP, ZERO_STAMP, Probing)

  datatype Mutation = Mutation(token: Token, kind: MutationKind, lease: Lease)
  datatype CommitResult = CommitResult(token: Token, failed: bool)

  datatype Outcome = Outcome(reply: Option<Reply>, probe: Option<Probe>, mutation: Option<Mutation>)
  const SILENT: Outcome := Outcome(None, None, None)

  function Answer(r: Reply): Outcome { Outcome(Some(r), None, None) }

  /** Letters, digits and inner hyphens, 1 to 63 bytes (internal/dhcp/settings.go). */
  predicate LabelChar(c: char) {
    'a' <= c <= 'z' || 'A' <= c <= 'Z' || '0' <= c <= '9' || c == '-'
  }

  predicate ValidLabel(s: string) {
    && 0 < |s| <= 63
    && s[0] != '-' && s[|s| - 1] != '-'
    && forall i | 0 <= i < |s| :: LabelChar(s[i])
  }

  function LowerChar(c: char): char {
    if 'A' <= c <= 'Z' then c - 'A' + 'a' else c
  }

  function Lower(s: string): string {
    seq(|s|, i requires 0 <= i < |s| => LowerChar(s[i]))
  }

  /** First octet even and the address not all zero. */
  predicate UnicastMac(m: Mac) {
    m != 0 && (m / 0x100_0000_0000) % 2 == 0
  }

  function IdentityOf(r: Request): Identity {
    if r.clientId != "" then ClientId(r.clientId) else MacId(r.mac)
  }

  predicate NotV6(a: Addr) { a != V6 }

  predicate ValidRequest(r: Request) {
    && |r.clientId| <= 255 && |r.hostname| <= 63
    && UnicastMac(r.mac)
    && !r.relayed
    && NotV6(r.requestedIP) && NotV6(r.serverID) && NotV6(r.ciaddr)
    && (r.maxMessageSize == 0 || r.maxMessageSize >= 576)
  }

  predicate NonZero(a: Addr) { a != NoAddr && a != V4(0) }
}
