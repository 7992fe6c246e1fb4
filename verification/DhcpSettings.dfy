/** Configuration, its validation and the address rules (internal/dhcp/settings.go). */
module DhcpSettings {
  import opened Common
  import opened DhcpTypes

  const MAXIMUM_LEASES: int := 4096
  const MAXIMUM_POOL: int := 65536

  /** A configuration text: empty, text that does not parse, or its parsed value. */
  datatype Text<+T> = Empty | Malformed | Value(value: T)

  datatype Prefix = Prefix(base: IPv4, bits: int)

  datatype Reservation = Reservation(
    id: string, mac: Text<Mac>, clientId: Text<string>, address: Text<IPv4>, hostname: string)

  datatype Settings = Settings(
    enabled: bool,
    interfaceName: string,
    serverIP: Text<IPv4>,
    subnet: Text<Prefix>,
    gateway: Text<IPv4>,
    rangeStart: Text<IPv4>,
    rangeEnd: Text<IPv4>,
    leaseSeconds: int,
    localDomain: string,
    maxLeases: int,
    reservations: seq<Reservation>)

  function Capacity(s: Settings): int {
    if s.maxLeases == 0 then 1024 else s.maxLeases
  }

  /** Number of addresses a prefix spans. */
  function Span(p: Prefix): (n: int)
    ensures n >= 1
  {
    if 0 <= p.bits <= 32 then Pow2(32 - p.bits) else 1
  }

  predicate Contains(p: Prefix, a: IPv4) {
    a / Span(p) == p.base / Span(p)
  }

  function FirstOctet(a: IPv4): int { a / 0x100_0000 }

  predicate Unspecified(a: IPv4) { a == 0 }
  predicate Loopback(a: IPv4) { FirstOctet(a) == 127 }
  predicate Multicast(a: IPv4) { 224 <= FirstOctet(a) < 240 }
  predicate LinkLocal(a: IPv4) { a / 0x1_0000 == 169 * 256 + 254 }

  /** What recovery demands of a stored address, whatever the settings. */
  predicate LeaseAddress(a: IPv4) {
    !Unspecified(a) && !Multicast(a) && !Loopback(a) && FirstOctet(a) < 240
  }

  /** The address tests that do not need the subnet. */
  predicate HostAddress(a: IPv4) {
    !Unspecified(a) && !Loopback(a) && !Multicast(a) && !LinkLocal(a) && FirstOctet(a) < 240
  }

  predicate Usable(a: IPv4, p: Prefix) {
    var size := Span(p);
    var base := p.base - p.base % size;
    Contains(p, a) && HostAddress(a) && a != base && a != base + size - 1
  }

  /** The durable key of a reservation, or None when exactly one valid identity is not given. */
  function ReservationKey(r: Reservation): Option<Identity> {
    if r.mac.Empty? == r.clientId.Empty? then None
    else if !r.clientId.Empty? then
      if r.clientId.Value? && 0 < |r.clientId.value| <= 255 then Some(ClientId(r.clientId.value)) else None
    else
      if r.mac.Value? && UnicastMac(r.mac.value) then Some(MacId(r.mac.value)) else None
  }

  predicate AnyLabelSplit(s: string)
    decreases |s|
  {
    var dot := FirstDot(s);
    if dot == |s| then ValidLabel(s)
    else ValidLabel(s[..dot]) && AnyLabelSplit(s[dot + 1..])
  }

  /** Position of the first dot, or the length. */
  function FirstDot(s: string): (i: nat)
    ensures i <= |s|
    ensures i < |s| ==> s[i] == '.'
  {
    if s == "" || s[0] == '.' then 0 else 1 + FirstDot(s[1..])
  }

  predicate EndsWith(s: string, t: string) {
    |t| <= |s| && s[|s| - |t|..] == t
  }

  predicate ValidDomain(s: string) {
    && |s| <= 189
    && Lower(s) != "local" && !EndsWith(Lower(s), ".local")
    && AnyLabelSplit(s)
  }

  predicate BadInterfaceChar(c: char) {
    c == ' ' || c == '/' || c == '\t' || c == '\r' || c == '\n' || c == '\0'
  }

  predicate ValidInterface(s: string) {
    0 < |s| <= 15 && forall i | 0 <= i < |s| :: !BadInterfaceChar(s[i])
  }

  /** An address field is skipped only when empty in a disabled configuration. */
  predicate ValidAddressField(s: Settings, t: Text<IPv4>) {
    || (!s.enabled && t.Empty?)
    || (t.Value? && HostAddress(t.value) && (s.subnet.Value? ==> Usable(t.value, s.subnet.value)))
  }

  predicate OutsidePool(t: Text<IPv4>, lo: int, hi: int) {
    t.Value? ==> t.value < lo || t.value > hi
  }

  predicate ValidPool(s: Settings) {
    s.rangeStart.Value? && s.rangeEnd.Value? ==>
      var lo, hi := s.rangeStart.value, s.rangeEnd.value;
      && lo <= hi && hi - lo + 1 <= MAXIMUM_POOL
      && OutsidePool(s.serverIP, lo, hi) && OutsidePool(s.gateway, lo, hi)
  }

  /** One reservation in isolation. */
  predicate ValidReservation(s: Settings, r: Reservation) {
    && ValidLabel(r.id)
    && ReservationKey(r).Some?
    && r.address.Value? && s.subnet.Value? && Usable(r.address.value, s.subnet.value)
    && r.address != s.serverIP && r.address != s.gateway
    && (r.hostname != "" ==> ValidLabel(Lower(r.hostname)))
  }

  predicate Compatible(a: Reservation, b: Reservation) {
    && a.id != b.id
    && ReservationKey(a) != ReservationKey(b)
    && a.address != b.address
    && (a.hostname != "" && b.hostname != "" ==> Lower(a.hostname) != Lower(b.hostname))
  }

  predicate ValidReservations(s: Settings, rs: seq<Reservation>) {
    && (forall i | 0 <= i < |rs| :: ValidReservation(s, rs[i]))
    && (forall i, j | 0 <= i < j < |rs| :: Compatible(rs[i], rs[j]))
  }

  predicate ValidScalars(s: Settings) {
    && 1 <= Capacity(s) <= MAXIMUM_LEASES
    && |s.reservations| <= Capacity(s)
    && (s.enabled || s.interfaceName != "" ==> ValidInterface(s.interfaceName))
    && (s.enabled || s.leaseSeconds != 0 ==> 60 <= s.leaseSeconds <= 604800)
    && (s.enabled || s.localDomain != "" ==> ValidDomain(s.localDomain))
    && (s.enabled || !s.subnet.Empty? ==>
          s.subnet.Value? && 0 <= s.subnet.value.bits <= 30 && s.subnet.value.base % Span(s.subnet.value) == 0)
  }

  predicate ValidSettings(s: Settings) {
    && ValidScalars(s)
    && ValidAddressField(s, s.serverIP) && ValidAddressField(s, s.gateway)
    && ValidAddressField(s, s.rangeStart) && ValidAddressField(s, s.rangeEnd)
    && ValidPool(s)
    && (s.serverIP.Value? ==> s.serverIP != s.gateway)
    && ValidReservations(s, s.reservations)
  }

  predicate ValidTransition(previous: Settings, next: Settings) {
    && ValidSettings(next)
    && (previous.enabled && next.enabled ==>
          && previous.interfaceName == next.interfaceName && previous.serverIP == next.serverIP
          && previous.subnet == next.subnet && previous.localDomain == next.localDomain)
  }

  /**
   The reservation scan with its four seen-sets, as one pass over the list.
   It accepts exactly the lists whose members are valid alone and pairwise compatible.
   */
  method CheckReservations(s: Settings) returns (ok: bool)
    ensures ok <==> ValidReservations(s, s.reservations)
  {
    hide Ids, Keys, Addresses, Names, ValidReservation, Compatible, ReservationKey, Lower;
    var ids: set<string>, keys: set<Option<Identity>>, ips: set<Text<IPv4>>, names: set<string> := {}, {}, {}, {};
    var rs := s.reservations;
    SeenNothing();
    for i := 0 to |rs|
      invariant ValidReservations(s, rs[..i])
      invariant ids == Ids(rs[..i]) && keys == Keys(rs[..i]) && ips == Addresses(rs[..i]) && names == Names(rs[..i])
    {
      var r := rs[i];
      assert rs[..i + 1] == rs[..i] + [r];
      SeenExtends(rs[..i], r);
      SeenDecides(rs[..i], r);
      if !ValidReservation(s, r) {
        assert rs[i] == r;
        return false;
      }
      if r.id in ids || ReservationKey(r) in keys || r.address in ips || (r.hostname != "" && Lower(r.hostname) in names) {
        ghost var j :| 0 <= j < |rs[..i]| && !Compatible(rs[..i][j], r);
        assert rs[j] == rs[..i][j] && rs[i] == r;
        return false;
      }
      ids, keys, ips := ids + {r.id}, keys + {ReservationKey(r)}, ips + {r.address};
      if r.hostname != "" {
        names := names + {Lower(r.hostname)};
      }
    }
    assert rs[..|rs|] == rs;
    return true;
  }

  function Ids(rs: seq<Reservation>): set<string> { set i | 0 <= i < |rs| :: rs[i].id }
  function Keys(rs: seq<Reservation>): set<Option<Identity>> { set i | 0 <= i < |rs| :: ReservationKey(rs[i]) }
  function Addresses(rs: seq<Reservation>): set<Text<IPv4>> { set i | 0 <= i < |rs| :: rs[i].address }
  function Names(rs: seq<Reservation>): set<string> {
    set i | 0 <= i < |rs| && rs[i].hostname != "" :: Lower(rs[i].hostname)
  }

  lemma {:induction false} SeenNothing()
    ensures Ids([]) == {} && Keys([]) == {} && Addresses([]) == {} && Names([]) == {}
  {
  }

  /** Each seen-set grows by the new reservation's value. */
  lemma {:induction false} SeenExtends(rs: seq<Reservation>, r: Reservation)
    ensures Ids(rs + [r]) == Ids(rs) + {r.id}
    ensures Keys(rs + [r]) == Keys(rs) + {ReservationKey(r)}
    ensures Addresses(rs + [r]) == Addresses(rs) + {r.address}
    ensures Names(rs + [r]) == Names(rs) + (if r.hostname != "" then {Lower(r.hostname)} else {})
  {
    var t := rs + [r];
    assert t[|rs|] == r && forall i | 0 <= i < |rs| :: t[i] == rs[i];
    assert r.id in Ids(t) && ReservationKey(r) in Keys(t) && r.address in Addresses(t);
    forall x | x in Ids(rs) ensures x in Ids(t) { var i :| 0 <= i < |rs| && rs[i].id == x; assert t[i].id == x; }
    forall x | x in Keys(rs) ensures x in Keys(t) {
      var i :| 0 <= i < |rs| && ReservationKey(rs[i]) == x; assert ReservationKey(t[i]) == x;
    }
    forall x | x in Addresses(rs) ensures x in Addresses(t) {
      var i :| 0 <= i < |rs| && rs[i].address == x; assert t[i].address == x;
    }
    forall x | x in Names(rs) ensures x in Names(t) {
      var i :| 0 <= i < |rs| && rs[i].hostname != "" && Lower(rs[i].hostname) == x; assert t[i].hostname == rs[i].hostname;
    }
  }

  /** The four membership tests decide compatibility with every earlier reservation. */
  lemma {:induction false} SeenDecides(rs: seq<Reservation>, r: Reservation)
    ensures (r.id in Ids(rs) || ReservationKey(r) in Keys(rs) || r.address in Addresses(rs)
             || (r.hostname != "" && Lower(r.hostname) in Names(rs)))
            <==> exists i :: 0 <= i < |rs| && !Compatible(rs[i], r)
  {
    if i :| 0 <= i < |rs| && !Compatible(rs[i], r) {
      assert rs[i].id in Ids(rs) && ReservationKey(rs[i]) in Keys(rs) && rs[i].address in Addresses(rs);
    }
  }

  method ValidateSettings(s: Settings) returns (ok: bool)
    ensures ok <==> ValidSettings(s)
  {
    if !ValidScalars(s) {
      return false;
    }
    var fields := [s.serverIP, s.gateway, s.rangeStart, s.rangeEnd];
    for i := 0 to |fields|
      invariant forall j | 0 <= j < i :: ValidAddressField(s, fields[j])
    {
      if !ValidAddressField(s, fields[i]) {
        return false;
      }
    }
    assert forall j | 0 <= j < 4 :: ValidAddressField(s, fields[j]);
    assert fields[0] == s.serverIP && fields[1] == s.gateway && fields[2] == s.rangeStart && fields[3] == s.rangeEnd;
    if !ValidPool(s) || (s.serverIP.Value? && s.serverIP == s.gateway) {
      return false;
    }
    ok := CheckReservations(s);
  }

  // ---- every address of a validated pool is usable ----

  lemma {:induction false} MulMonotone(s: int, x: int, y: int)
    requires s > 0 && x <= y
    ensures s * x <= s * y
  {
  }

  lemma {:induction false} DivMonotone(a: int, b: int, s: int)
    requires s > 0 && a <= b
    ensures a / s <= b / s
  {
    if b / s < a / s {
      MulMonotone(s, b / s + 1, a / s);
    }
  }

  /** Between two host addresses less than 65536 apart lie only host addresses. */
  lemma {:induction false} HostBetween(lo: IPv4, n: IPv4, hi: IPv4)
    requires lo <= n <= hi && hi - lo < MAXIMUM_POOL
    requires HostAddress(lo) && HostAddress(hi)
    ensures HostAddress(n)
  {
  }

  /** Usable addresses of one subnet are an interval, apart from the special blocks. */
  lemma {:induction false} UsableBetween(p: Prefix, lo: IPv4, n: IPv4, hi: IPv4)
    requires lo <= n <= hi && HostAddress(n)
    requires Usable(lo, p) && Usable(hi, p)
    ensures Usable(n, p)
  {
    hide HostAddress, Span;
    var size := Span(p);
    DivMonotone(lo, n, size);
    DivMonotone(n, hi, size);
    BlockBounds(lo, p.base, size);
    BlockBounds(hi, p.base, size);
  }

  lemma {:induction false} BlockBounds(a: int, base: int, size: int)
    requires size > 0 && a / size == base / size
    ensures base - base % size <= a <= base - base % size + size - 1
  {
    assert a == size * (a / size) + a % size;
    assert base == size * (base / size) + base % size;
  }

  /**
   A pool has at most 65536 addresses and usable ends, so it cannot straddle the loopback
   block, the link-local block, the multicast space or the edge addresses of the subnet.
   */
  lemma {:induction false} PoolAddressesUsable(s: Settings, n: IPv4)
    requires ValidSettings(s) && s.rangeStart.Value? && s.rangeEnd.Value?
    requires s.rangeStart.value <= n <= s.rangeEnd.value
    ensures HostAddress(n)
    ensures s.subnet.Value? ==> Usable(n, s.subnet.value)
    ensures s.serverIP != Value(n) && s.gateway != Value(n)
  {
    hide HostAddress, Usable, ValidScalars, ValidReservations;
    HostBetween(s.rangeStart.value, n, s.rangeEnd.value);
    if s.subnet.Value? {
      UsableBetween(s.subnet.value, s.rangeStart.value, n, s.rangeEnd.value);
    }
  }
}
