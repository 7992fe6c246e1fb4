/** Lease names and addresses for DNS (internal/localdns/leases.go). */
module LeaseViews {
  import opened Common
  import opened LeaseNames

  /** A name is its labels, leaf first; the wire form tells such names apart. */
  type Name = seq<string>

  datatype Row = Row(address: IPv4, hostname: string, mac: string, expiry: int)

  datatype Lease = Lease(address: IPv4, name: Name, mac: string, expiry: int, generated: bool, reservation: bool)

  const NO_LEASE: Lease := Lease(0, [], "", 0, false, false)

  datatype Data = Address(ip: IPv4) | Pointer(name: Name)
  datatype Record = Record(lease: Lease, data: Data)

  /**
   The configuration a view is built for. conflict says that explicit local data answers for a label
   of the domain; taken holds the labels explicit data owns exactly.
   */
  datatype Config = Config(domain: Name, reservations: map<IPv4, string>, conflict: string -> bool, taken: set<string>)

  datatype View = View(
    records: map<Name, Record>, names: map<IPv4, Lease>, labels: map<IPv4, string>, expiries: Option<map<IPv4, int>>)

  // ---- labels ----

  function LowerChar(c: char): char { if 'A' <= c <= 'Z' then c + 32 as char else c }

  function Lower(s: string): (r: string)
    ensures |r| == |s|
  {
    seq(|s|, i requires 0 <= i < |s| => LowerChar(s[i]))
  }

  predicate LeaseLabel(s: string) {
    && 1 <= |s| <= 63 && s[0] != '-' && s[|s| - 1] != '-'
    && forall i | 0 <= i < |s| :: 'a' <= s[i] <= 'z' || '0' <= s[i] <= '9' || s[i] == '-'
  }

  predicate HasReservation(cfg: Config, a: IPv4) { a in cfg.reservations && cfg.reservations[a] != "" }

  /** The label an address asks for. */
  function Wanted(cfg: Config, a: IPv4, hostname: string): string {
    Lower(if HasReservation(cfg, a) then cfg.reservations[a] else hostname)
  }

  /** Reservation names differ, whatever their case. */
  ghost predicate GoodConfig(cfg: Config) {
    forall a, b | HasReservation(cfg, a) && HasReservation(cfg, b) && Lower(cfg.reservations[a]) == Lower(cfg.reservations[b]) :: a == b
  }

  function ReservedNames(cfg: Config): set<string> {
    set a | a in cfg.reservations && cfg.reservations[a] != "" :: Lower(cfg.reservations[a])
  }

  /** Labels no fallback may use. */
  function Blocked(cfg: Config): set<string> { cfg.taken + ReservedNames(cfg) }

  /** Two addresses ask for the same label. */
  ghost predicate Contested(cfg: Config, hosts: map<IPv4, string>, s: string) {
    exists a, b :: a in hosts && b in hosts && a != b && Wanted(cfg, a, hosts[a]) == s && Wanted(cfg, b, hosts[b]) == s
  }

  /** The wanted label cannot be used. */
  ghost predicate FallsBack(cfg: Config, hosts: map<IPv4, string>, a: IPv4)
    requires a in hosts
  {
    var s := Wanted(cfg, a, hosts[a]);
    !LeaseLabel(s) || cfg.conflict(s) || (!HasReservation(cfg, a) && (Contested(cfg, hosts, s) || s in ReservedNames(cfg) || AddressLabel(s)))
  }

  datatype Choice = Choice(text: string, generated: bool)

  /** What an address is called, given what all addresses ask for. */
  ghost predicate Chosen(cfg: Config, hosts: map<IPv4, string>, a: IPv4, c: Choice)
    requires a in hosts
  {
    if FallsBack(cfg, hosts, a) then c.generated && IsFallback(a, Blocked(cfg), c.text)
    else c == Choice(Wanted(cfg, a, hosts[a]), false)
  }

  /** The choice does not depend on the order of the rows. */
  lemma {:induction false} ChosenOnce(cfg: Config, hosts: map<IPv4, string>, a: IPv4, c: Choice, d: Choice)
    requires a in hosts && Chosen(cfg, hosts, a, c) && Chosen(cfg, hosts, a, d)
    ensures c == d
  {
    hide IsFallback, FallsBack;
    if FallsBack(cfg, hosts, a) {
      FallbackUnique(a, Blocked(cfg), c.text, d.text);
    }
  }

  /** The label may be used as it is: a host label that no explicit data answers. */
  predicate Free(cfg: Config, s: string) {
    && 1 <= |s| <= 63 && s[0] != '-' && s[|s| - 1] != '-'
    && (forall c :: c in s ==> 'a' <= c <= 'z' || '0' <= c <= '9' || c == '-')
    && !cfg.conflict(s)
  }

  /** Explicit data or a reservation owns the label. */
  predicate Owned(cfg: Config, s: string) { s in cfg.taken || exists b | b in cfg.reservations :: cfg.reservations[b] != "" && Lower(cfg.reservations[b]) == s }

  /** Nobody else asks for the label or owns it, and it is not in the form of an address. */
  ghost predicate Unclaimed(cfg: Config, hosts: map<IPv4, string>, a: IPv4, s: string) {
    && !AddressLabel(s)
    && (forall b | b in hosts && b != a :: Wanted(cfg, b, hosts[b]) != s)
    && (forall b | b in cfg.reservations && cfg.reservations[b] != "" :: Lower(cfg.reservations[b]) != s)
  }

  /**
   What an address is called: by its reserved name if that is free; without reservation by the name its host gave, if that
   is free and unclaimed; else by host- and its octets, numbered past the variants that are owned.
   */
  lemma {:induction false} ChosenMeans(cfg: Config, hosts: map<IPv4, string>, a: IPv4, c: Choice)
    requires a in hosts && Chosen(cfg, hosts, a, c)
    ensures var reserved := a in cfg.reservations && cfg.reservations[a] != "";
      var wanted := Lower(if reserved then cfg.reservations[a] else hosts[a]);
      if Free(cfg, wanted) && (reserved || Unclaimed(cfg, hosts, a, wanted)) then c == Choice(wanted, false)
      else
        && c.generated
        && exists i: nat :: c.text == Numbered(Base(a), i) && !Owned(cfg, c.text) && forall j: nat | j < i :: Owned(cfg, Numbered(Base(a), j))
  {
    hide Lower, AddressLabel, Numbered, Base;
    var s := Wanted(cfg, a, hosts[a]);
    LabelChars(s);
    hide LeaseLabel;
    forall t ensures t in Blocked(cfg) <==> Owned(cfg, t) { BlockedMeans(cfg, t); }
    hide Blocked, Owned;
    if !HasReservation(cfg, a) {
      ClaimsMean(cfg, hosts, a, s);
    }
    hide Contested, ReservedNames;
    if FallsBack(cfg, hosts, a) {
      var i: nat :| FirstFree(a, Blocked(cfg), c.text, i);
    }
  }

  lemma {:induction false} LabelChars(s: string)
    ensures LeaseLabel(s) <==>
      && 1 <= |s| <= 63 && s[0] != '-' && s[|s| - 1] != '-'
      && (forall c :: c in s ==> 'a' <= c <= 'z' || '0' <= c <= '9' || c == '-')
  {
    if forall c :: c in s ==> 'a' <= c <= 'z' || '0' <= c <= '9' || c == '-' {
      forall i | 0 <= i < |s| ensures 'a' <= s[i] <= 'z' || '0' <= s[i] <= '9' || s[i] == '-' { assert s[i] in s; }
    }
  }

  lemma {:induction false} BlockedMeans(cfg: Config, s: string)
    ensures s in Blocked(cfg) <==> Owned(cfg, s)
  {
    hide Lower;
  }

  lemma {:induction false} ClaimsMean(cfg: Config, hosts: map<IPv4, string>, a: IPv4, s: string)
    requires a in hosts && s == Wanted(cfg, a, hosts[a])
    ensures Unclaimed(cfg, hosts, a, s) <==> !Contested(cfg, hosts, s) && s !in ReservedNames(cfg) && !AddressLabel(s)
  {
    hide Lower, AddressLabel;
    if Contested(cfg, hosts, s) {
      var x, y :| x in hosts && y in hosts && x != y && Wanted(cfg, x, hosts[x]) == s && Wanted(cfg, y, hosts[y]) == s;
      assert x != a || y != a;
    }
    if b :| b in hosts && b != a && Wanted(cfg, b, hosts[b]) == s {
      assert Contested(cfg, hosts, s);
    }
  }

  /** No two addresses get the same label. */
  lemma {:induction false} ChosenDiffer(cfg: Config, hosts: map<IPv4, string>, a: IPv4, b: IPv4, c: Choice, d: Choice)
    requires GoodConfig(cfg) && a in hosts && b in hosts && a != b && Chosen(cfg, hosts, a, c) && Chosen(cfg, hosts, b, d)
    ensures c.text != d.text
  {
    hide IsFallback, AddressLabel, LeaseLabel, Lower;
    assert HasReservation(cfg, a) ==> Lower(cfg.reservations[a]) in ReservedNames(cfg);
    assert HasReservation(cfg, b) ==> Lower(cfg.reservations[b]) in ReservedNames(cfg);
    if c.generated {
      FallbackIsAddress(a, Blocked(cfg), c.text);
      FallbackFree(a, Blocked(cfg), c.text);
    }
    if d.generated {
      FallbackIsAddress(b, Blocked(cfg), d.text);
      FallbackFree(b, Blocked(cfg), d.text);
    }
    if c.generated && d.generated && c.text == d.text {
      FallbacksDiffer(a, b, Blocked(cfg), c.text);
    }
  }

  lemma {:induction false} FallbackFree(a: IPv4, blocked: set<string>, s: string)
    requires IsFallback(a, blocked, s)
    ensures s !in blocked
  {
  }

  // ---- what a view holds ----

  function Forward(cfg: Config, s: string): Name { [s] + cfg.domain }

  const IN_ADDR: Name := ["in-addr", "arpa"]

  function Reverse(a: IPv4): (r: Name)
    ensures |r| == 6
  {
    [Dec(Octets(a)[3]), Dec(Octets(a)[2]), Dec(Octets(a)[1]), Dec(Octets(a)[0])] + IN_ADDR
  }

  lemma {:induction false} ReverseInjective(a: IPv4, b: IPv4)
    requires Reverse(a) == Reverse(b)
    ensures a == b
  {
    hide Dec, Octets;
    forall k | 0 <= k < 4 ensures Octets(a)[k] == Octets(b)[k] {
      assert Reverse(a)[3 - k] == Dec(Octets(a)[k]) && Reverse(b)[3 - k] == Dec(Octets(b)[k]);
      DecInjective(Octets(a)[k], Octets(b)[k]);
    }
    OctetsInjective(a, b);
  }

  function LeaseOf(cfg: Config, row: Row, c: Choice): Lease {
    Lease(row.address, Forward(cfg, c.text), row.mac, row.expiry, c.generated, HasReservation(cfg, row.address) && !c.generated)
  }

  /** A reservation is shown under its own name, with or without a lease. */
  function Shown(cfg: Config, a: IPv4, l: Lease): Lease {
    if HasReservation(cfg, a) then l.(address := a, name := Forward(cfg, Lower(cfg.reservations[a])), reservation := true, generated := false) else l
  }

  ghost predicate Distinct(rows: seq<Row>) { forall i, j | 0 <= i < j < |rows| :: rows[i].address != rows[j].address }

  function Hosts(rows: seq<Row>): map<IPv4, string> {
    if rows == [] then map[] else Hosts(rows[..|rows| - 1])[rows[|rows| - 1].address := rows[|rows| - 1].hostname]
  }

  lemma {:induction false} HostsFrom(rows: seq<Row>, a: IPv4)
    ensures a in Hosts(rows) <==> exists i :: 0 <= i < |rows| && rows[i].address == a
  {
    if rows != [] {
      var n := |rows| - 1;
      HostsFrom(rows[..n], a);
      assert forall i | 0 <= i < n :: rows[..n][i] == rows[i];
    }
  }

  lemma {:induction false} HostsAt(rows: seq<Row>, i: nat)
    requires Distinct(rows) && i < |rows|
    ensures rows[i].address in Hosts(rows) && Hosts(rows)[rows[i].address] == rows[i].hostname
  {
    var n := |rows| - 1;
    if i < n {
      HostsAt(rows[..n], i);
    }
  }

  lemma {:induction false} HostsSize(rows: seq<Row>)
    requires Distinct(rows)
    ensures |Hosts(rows)| == |rows|
  {
    if rows != [] {
      var n := |rows| - 1;
      HostsSize(rows[..n]);
      HostsFrom(rows[..n], rows[n].address);
      assert Hosts(rows).Keys == Hosts(rows[..n]).Keys + {rows[n].address};
    }
  }

  lemma {:induction false} HostsOf(rows: seq<Row>)
    requires Distinct(rows)
    ensures forall i | 0 <= i < |rows| :: rows[i].address in Hosts(rows) && Hosts(rows)[rows[i].address] == rows[i].hostname
    ensures forall a :: a in Hosts(rows) ==> exists i :: 0 <= i < |rows| && rows[i].address == a
    ensures |Hosts(rows)| == |rows|
  {
    hide Hosts;
    forall i | 0 <= i < |rows| ensures rows[i].address in Hosts(rows) && Hosts(rows)[rows[i].address] == rows[i].hostname { HostsAt(rows, i); }
    forall a | a in Hosts(rows) ensures exists i :: 0 <= i < |rows| && rows[i].address == a { HostsFrom(rows, a); }
    HostsSize(rows);
  }

  /** The name of a row is chosen from what all rows ask for. */
  ghost predicate Named(cfg: Config, hosts: map<IPv4, string>, row: Row, c: Choice) {
    row.address in hosts && Chosen(cfg, hosts, row.address, c)
  }

  ghost predicate Choices(cfg: Config, rows: seq<Row>, cs: seq<Choice>) {
    |cs| == |rows| && forall k | 0 <= k < |rows| :: Named(cfg, Hosts(rows), rows[k], cs[k])
  }

  /** One row's records; the reverse record is written last. */
  function AddRecords(cfg: Config, records: map<Name, Record>, row: Row, c: Choice): map<Name, Record> {
    var l := LeaseOf(cfg, row, c);
    records[Forward(cfg, c.text) := Record(l, Address(row.address))][Reverse(row.address) := Record(l, Pointer(Forward(cfg, c.text)))]
  }

  /** The records of as many rows as there are choices; a later record takes the place of an earlier one. */
  function RecordsOf(cfg: Config, rows: seq<Row>, cs: seq<Choice>): map<Name, Record>
    requires |cs| <= |rows|
  {
    if cs == [] then map[] else AddRecords(cfg, RecordsOf(cfg, rows, cs[..|cs| - 1]), rows[|cs| - 1], cs[|cs| - 1])
  }

  predicate NameFor(cfg: Config, row: Row, c: Choice, names: map<IPv4, Lease>) {
    row.address in names && names[row.address] == Shown(cfg, row.address, LeaseOf(cfg, row, c))
  }

  ghost predicate NamesFor(cfg: Config, rows: seq<Row>, cs: seq<Choice>, names: map<IPv4, Lease>)
    requires |cs| == |rows|
  {
    && (forall k | 0 <= k < |rows| :: NameFor(cfg, rows[k], cs[k], names))
    && (forall a :: a in names ==> a in Hosts(rows) || (HasReservation(cfg, a) && names[a] == Shown(cfg, a, NO_LEASE)))
    && (forall a :: HasReservation(cfg, a) ==> a in names)
  }

  ghost predicate ViewFor(cfg: Config, rows: seq<Row>, cs: seq<Choice>, v: View) {
    && Distinct(rows) && v.labels == Hosts(rows)
    && Choices(cfg, rows, cs) && NamesFor(cfg, rows, cs, v.names) && v.records == RecordsOf(cfg, rows, cs)
  }

  // ---- which records survive ----

  /** Both records of a row are there. */
  ghost predicate RowRecords(cfg: Config, row: Row, c: Choice, records: map<Name, Record>) {
    var l := LeaseOf(cfg, row, c);
    && Forward(cfg, c.text) in records && records[Forward(cfg, c.text)] == Record(l, Address(row.address))
    && Reverse(row.address) in records && records[Reverse(row.address)] == Record(l, Pointer(Forward(cfg, c.text)))
  }

  ghost predicate IsKey(cfg: Config, row: Row, c: Choice, name: Name) { name == Forward(cfg, c.text) || name == Reverse(row.address) }

  /** The forward and reverse names of all rows are pairwise different. */
  ghost predicate NamesDiffer(cfg: Config, rows: seq<Row>, cs: seq<Choice>)
    requires |cs| <= |rows|
  {
    forall i, j | 0 <= i < |cs| && 0 <= j < |cs| :: Apart(cfg, rows[i], cs[i], rows[j], cs[j], i == j)
  }

  ghost predicate Apart(cfg: Config, row: Row, c: Choice, other: Row, d: Choice, same: bool) {
    && Forward(cfg, c.text) != Reverse(other.address)
    && (!same ==> Forward(cfg, c.text) != Forward(cfg, d.text) && Reverse(row.address) != Reverse(other.address))
  }

  lemma {:induction false} RecordKey(cfg: Config, rows: seq<Row>, cs: seq<Choice>, name: Name) returns (k: nat)
    requires |cs| <= |rows| && name in RecordsOf(cfg, rows, cs)
    ensures k < |cs| && IsKey(cfg, rows[k], cs[k], name)
  {
    hide Forward, Reverse, LeaseOf;
    var n := |cs| - 1;
    if name in RecordsOf(cfg, rows, cs[..n]) {
      k := RecordKey(cfg, rows, cs[..n], name);
    } else {
      k := n;
    }
  }

  lemma {:induction false} NamesKept(cfg: Config, rows: seq<Row>, cs: seq<Choice>, k: nat)
    requires k < |cs| <= |rows| && NamesDiffer(cfg, rows, cs)
    ensures RowRecords(cfg, rows[k], cs[k], RecordsOf(cfg, rows, cs))
  {
    hide Forward, Reverse, LeaseOf;
    var n := |cs| - 1;
    assert Apart(cfg, rows[k], cs[k], rows[n], cs[n], k == n) && Apart(cfg, rows[n], cs[n], rows[k], cs[k], n == k);
    if k < n {
      var front := cs[..n];
      forall i, j | 0 <= i < n && 0 <= j < n ensures Apart(cfg, rows[i], front[i], rows[j], front[j], i == j) {
        assert Apart(cfg, rows[i], cs[i], rows[j], cs[j], i == j);
      }
      NamesKept(cfg, rows, front, k);
    }
  }

  /** A view holds both records of every row if and only if the names of all records differ. */
  lemma {:induction false} RecordsExactIff(cfg: Config, rows: seq<Row>, cs: seq<Choice>)
    requires GoodConfig(cfg) && Distinct(rows) && Choices(cfg, rows, cs)
    ensures NamesDiffer(cfg, rows, cs) <==> forall k | 0 <= k < |rows| :: RowRecords(cfg, rows[k], cs[k], RecordsOf(cfg, rows, cs))
  {
    hide GoodConfig, Chosen, RowRecords, Apart, RecordsOf, Hosts;
    if NamesDiffer(cfg, rows, cs) {
      forall k | 0 <= k < |rows| ensures RowRecords(cfg, rows[k], cs[k], RecordsOf(cfg, rows, cs)) { NamesKept(cfg, rows, cs, k); }
    }
    if forall k | 0 <= k < |rows| :: RowRecords(cfg, rows[k], cs[k], RecordsOf(cfg, rows, cs)) {
      forall i, j | 0 <= i < |cs| && 0 <= j < |cs| ensures Apart(cfg, rows[i], cs[i], rows[j], cs[j], i == j) {
        NoneOverwritten(cfg, rows[i], cs[i], rows[j], cs[j], RecordsOf(cfg, rows, cs));
        SameKindApart(cfg, Hosts(rows), rows[i], cs[i], rows[j], cs[j], i == j);
      }
    }
  }

  lemma {:induction false} NoneOverwritten(cfg: Config, row: Row, c: Choice, other: Row, d: Choice, records: map<Name, Record>)
    requires RowRecords(cfg, row, c, records) && RowRecords(cfg, other, d, records)
    ensures Forward(cfg, c.text) != Reverse(other.address)
  {
    hide Forward, Reverse, LeaseOf;
  }

  /** Two forward names differ, and so do two reverse names. */
  lemma {:induction false} SameKindApart(cfg: Config, hosts: map<IPv4, string>, row: Row, c: Choice, other: Row, d: Choice, same: bool)
    requires GoodConfig(cfg) && Named(cfg, hosts, row, c) && Named(cfg, hosts, other, d) && (!same ==> row.address != other.address)
    requires Forward(cfg, c.text) != Reverse(other.address)
    ensures Apart(cfg, row, c, other, d, same)
  {
    hide Chosen, GoodConfig, Reverse;
    if !same {
      ChosenDiffer(cfg, hosts, row.address, other.address, c, d);
      assert Forward(cfg, c.text)[0] == c.text && Forward(cfg, d.text)[0] == d.text;
      if Reverse(row.address) == Reverse(other.address) {
        ReverseInjective(row.address, other.address);
      }
    }
  }

  /** All forward names differ, in every domain. */
  lemma {:induction false} ForwardNamesDiffer(cfg: Config, rows: seq<Row>, cs: seq<Choice>, i: nat, j: nat)
    requires GoodConfig(cfg) && Distinct(rows) && Choices(cfg, rows, cs) && i < j < |rows|
    ensures Forward(cfg, cs[i].text) != Forward(cfg, cs[j].text)
  {
    hide Chosen, GoodConfig, Reverse, Hosts;
    assert Named(cfg, Hosts(rows), rows[i], cs[i]) && Named(cfg, Hosts(rows), rows[j], cs[j]);
    ChosenDiffer(cfg, Hosts(rows), rows[i].address, rows[j].address, cs[i], cs[j]);
    assert Forward(cfg, cs[i].text)[0] == cs[i].text && Forward(cfg, cs[j].text)[0] == cs[j].text;
  }

  // ---- answers ----

  /** Display attribution; a reservation keeps its name after its lease has ended. */
  function NameAt(v: View, a: IPv4, now: int): Lease {
    var l0 := if a in v.names then v.names[a] else NO_LEASE;
    var l := if v.expiries.Some? && a in v.expiries.value then l0.(expiry := v.expiries.value[a]) else l0;
    if l.reservation && now >= l.expiry then l.(expiry := 0)
    else if now < l.expiry then l
    else NO_LEASE
  }

  function AuthoritativeMAC(v: View, a: IPv4, now: int): string {
    var l := NameAt(v, a, now);
    if now < l.expiry then l.mac else ""
  }

  datatype Answer = Nothing | Negative(ttl: int) | Positive(data: Data, ttl: int)

  const SECOND: int := 1_000_000_000

  function LookupTTL(expiry: int, now: int): int { if 30 < (expiry - now) / SECOND then 30 else (expiry - now) / SECOND }

  /** kind 1 asks for addresses, 12 for pointers. */
  function Lookup(v: View, name: Name, kind: nat, now: int): Answer {
    if name !in v.records then Nothing
    else
      var r := v.records[name];
      var expiry := if v.expiries.Some? then (if r.lease.address in v.expiries.value then v.expiries.value[r.lease.address] else 0) else r.lease.expiry;
      if now >= expiry then Nothing
      else if kind != (if r.data.Address? then 1 else 12) then Negative(LookupTTL(expiry, now))
      else Positive(r.data, LookupTTL(expiry, now))
  }

  /** A time to live that never passes the expiry, in whole seconds and at most thirty. */
  predicate LivesFor(ttl: int, expiry: int, now: int) {
    && 0 <= ttl <= 30 && now + ttl * SECOND <= expiry
    && (ttl < 30 ==> expiry < now + (ttl + 1) * SECOND)
  }

  lemma {:induction false} TTLMeans(expiry: int, now: int)
    requires now < expiry
    ensures LivesFor(LookupTTL(expiry, now), expiry, now)
  {
  }

  /**
   While a lease lasts, its forward and reverse records answer and invert each other, if no two records share a name; asked
   for another type they deny it for as long. Once it has ended neither answers.
   */
  lemma {:induction false} RecordsInvert(cfg: Config, rows: seq<Row>, cs: seq<Choice>, v: View, i: nat, now: int) returns (ttl: int)
    requires ViewFor(cfg, rows, cs, v) && NamesDiffer(cfg, rows, cs) && i < |rows| && v.expiries == None
    ensures var forward, reverse := Forward(cfg, cs[i].text), Reverse(rows[i].address);
      if now < rows[i].expiry then
        && LivesFor(ttl, rows[i].expiry, now)
        && Lookup(v, forward, 1, now) == Positive(Address(rows[i].address), ttl)
        && Lookup(v, reverse, 12, now) == Positive(Pointer(forward), ttl)
        && (forall kind: nat | kind != 1 :: Lookup(v, forward, kind, now) == Negative(ttl))
        && (forall kind: nat | kind != 12 :: Lookup(v, reverse, kind, now) == Negative(ttl))
      else forall kind: nat :: Lookup(v, forward, kind, now) == Nothing && Lookup(v, reverse, kind, now) == Nothing
  {
    hide NamesFor, NamesDiffer, Forward, Reverse, Named, Hosts, RecordsOf, Distinct, LivesFor;
    NamesKept(cfg, rows, cs, i);
    ttl := LookupTTL(rows[i].expiry, now);
    if now < rows[i].expiry {
      TTLMeans(rows[i].expiry, now);
    }
    hide LookupTTL;
  }

  /** Names no row has are not answered. */
  lemma {:induction false} NoOtherNames(cfg: Config, rows: seq<Row>, cs: seq<Choice>, v: View, name: Name, kind: nat, now: int)
    requires ViewFor(cfg, rows, cs, v)
    requires forall i | 0 <= i < |rows| :: name != Forward(cfg, cs[i].text) && name != Reverse(rows[i].address)
    ensures Lookup(v, name, kind, now) == Nothing
  {
    hide NamesFor, Forward, Reverse, Named, Hosts, RecordsOf, Distinct, LookupTTL;
    if name in v.records {
      var k := RecordKey(cfg, rows, cs, name);
    }
  }

  /**
   Who an address is displayed as: its lease while it lasts, under the reserved name if it has one; a reservation keeps its
   name before and after; nobody else. Only a lease that lasts lends its hardware address.
   */
  lemma {:induction false} AttributionMeans(cfg: Config, rows: seq<Row>, cs: seq<Choice>, v: View, a: IPv4, now: int)
    requires ViewFor(cfg, rows, cs, v) && v.expiries == None && now >= 0
    ensures var shown, mac := NameAt(v, a, now), AuthoritativeMAC(v, a, now);
      && (forall i | 0 <= i < |rows| && rows[i].address == a && now < rows[i].expiry ::
            && shown.address == a && shown.mac == rows[i].mac && shown.expiry == rows[i].expiry && mac == rows[i].mac
            && shown.name == Forward(cfg, if HasReservation(cfg, a) then Lower(cfg.reservations[a]) else cs[i].text)
            && shown.reservation == HasReservation(cfg, a))
      && ((forall i | 0 <= i < |rows| && rows[i].address == a :: rows[i].expiry <= now) ==>
            && mac == ""
            && if HasReservation(cfg, a) then shown.name == Forward(cfg, Lower(cfg.reservations[a])) && shown.reservation && shown.expiry == 0
               else shown == NO_LEASE)
  {
    hide Forward, Reverse, Named, Chosen, RecordsOf, Distinct, Lower, Hosts;
    if a in Hosts(rows) {
      HostsFrom(rows, a);
      var i :| 0 <= i < |rows| && rows[i].address == a;
      assert NameFor(cfg, rows[i], cs[i], v.names);
      OnlyOneRow(rows, i);
    } else {
      HostsFrom(rows, a);
    }
  }

  lemma {:induction false} OnlyOneRow(rows: seq<Row>, i: nat)
    requires Distinct(rows) && i < |rows|
    ensures forall j | 0 <= j < |rows| && rows[j].address == rows[i].address :: j == i
  {
  }
}
