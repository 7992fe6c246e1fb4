/** Refreshed lease views answer like rebuilt ones (internal/localdns/leases.go, RefreshExpiries). */
module LeaseRefresh {
  import opened Common
  import opened LeaseNames
  import opened LeaseViews

  function Expiries(rows: seq<Row>): map<IPv4, int> {
    if rows == [] then map[] else Expiries(rows[..|rows| - 1])[rows[|rows| - 1].address := rows[|rows| - 1].expiry]
  }

  lemma {:induction false} ExpiriesOf(rows: seq<Row>)
    requires Distinct(rows)
    ensures forall i | 0 <= i < |rows| :: rows[i].address in Expiries(rows) && Expiries(rows)[rows[i].address] == rows[i].expiry
    ensures Expiries(rows).Keys == Hosts(rows).Keys
  {
    if rows != [] {
      var n := |rows| - 1;
      ExpiriesOf(rows[..n]);
      assert forall i | 0 <= i < n :: rows[..n][i] == rows[i];
    }
  }

  /** The rows name the same addresses, hostnames and hardware addresses as the view. */
  ghost predicate SameOwners(v: View, rows: seq<Row>) {
    && Distinct(rows) && Hosts(rows) == v.labels
    && forall i | 0 <= i < |rows| :: SameMAC(v, rows[i])
  }

  predicate SameMAC(v: View, row: Row) { row.address in v.names && v.names[row.address].mac == row.mac }

  /** The rows stand in address order. */
  ghost predicate InOrder(rows: seq<Row>) { forall i, j | 0 <= i < j < |rows| :: rows[i].address < rows[j].address }

  // ---- rows that differ only in their expiry ----

  /** Both rows decide the same, but for the expiry, which is on record. */
  predicate SameBut(row: Row, c: Choice, row': Row, d: Choice, e: map<IPv4, int>) {
    && row'.address == row.address && row'.mac == row.mac && d == c
    && row'.address in e && e[row'.address] == row'.expiry
  }

  /** Two records differ at most in the expiry of their lease, which is on record. */
  predicate SameRecord(r: Record, r': Record, e: map<IPv4, int>) {
    && r' == r.(lease := r.lease.(expiry := r'.lease.expiry))
    && r'.lease.address in e && r'.lease.expiry == e[r'.lease.address]
  }

  ghost predicate SameRecords(records: map<Name, Record>, records': map<Name, Record>, e: map<IPv4, int>) {
    && (forall name :: name in records <==> name in records')
    && (forall name :: name in records ==> SameRecord(records[name], records'[name], e))
  }

  lemma {:induction false} RowFor(rows: seq<Row>, a: IPv4) returns (i: nat)
    requires Distinct(rows) && a in Hosts(rows)
    ensures i < |rows| && rows[i].address == a
  {
    HostsOf(rows);
    i :| i < |rows| && rows[i].address == a;
  }

  /** A row of a refresh decides what the view's row for that address did. */
  lemma {:induction false} SameRow(cfg: Config, rows: seq<Row>, cs: seq<Choice>, v: View, rows': seq<Row>, cs': seq<Choice>, i: nat, j: nat)
    requires ViewFor(cfg, rows, cs, v) && SameOwners(v, rows') && Choices(cfg, rows', cs')
    requires i < |rows| && j < |rows'| && rows[i].address == rows'[j].address
    ensures SameBut(rows[i], cs[i], rows'[j], cs'[j], Expiries(rows'))
  {
    hide Chosen, Hosts, Expiries, RecordsOf, Forward;
    ExpiriesOf(rows');
    assert NameFor(cfg, rows[i], cs[i], v.names) && SameMAC(v, rows'[j]);
    assert Named(cfg, Hosts(rows), rows[i], cs[i]) && Named(cfg, Hosts(rows'), rows'[j], cs'[j]);
    ChosenOnce(cfg, Hosts(rows), rows[i].address, cs[i], cs'[j]);
  }

  // ---- the same addresses in the same order ----

  lemma {:induction false} OrderUnique(rows: seq<Row>, rows': seq<Row>)
    requires InOrder(rows) && InOrder(rows') && Hosts(rows).Keys == Hosts(rows').Keys
    ensures |rows| == |rows'| && forall i | 0 <= i < |rows| :: rows[i].address == rows'[i].address
  {
    hide Hosts, InOrder;
    EmptyHosts(rows);
    EmptyHosts(rows');
    if rows != [] {
      var n, m := |rows| - 1, |rows'| - 1;
      SameLast(rows, rows');
      OrderUnique(rows[..n], rows'[..m]);
      assert forall i | 0 <= i < n :: rows[..n][i] == rows[i] && rows'[..m][i] == rows'[i];
    }
  }

  lemma {:induction false} EmptyHosts(rows: seq<Row>)
    ensures rows == [] <==> Hosts(rows).Keys == {}
  {
    if rows != [] {
      assert rows[|rows| - 1].address in Hosts(rows).Keys;
    }
  }

  lemma {:induction false} SameLast(rows: seq<Row>, rows': seq<Row>)
    requires InOrder(rows) && InOrder(rows') && Hosts(rows).Keys == Hosts(rows').Keys && rows != [] && rows' != []
    ensures var n, m := |rows| - 1, |rows'| - 1;
      && rows[n].address == rows'[m].address && InOrder(rows[..n]) && InOrder(rows'[..m])
      && Hosts(rows[..n]).Keys == Hosts(rows'[..m]).Keys
  {
    hide Hosts;
    LastIsGreatest(rows, rows');
    LastIsGreatest(rows', rows);
    FrontHosts(rows);
    FrontHosts(rows');
  }

  /** In address order the last row has the greatest address. */
  lemma {:induction false} LastIsGreatest(rows: seq<Row>, rows': seq<Row>)
    requires InOrder(rows) && InOrder(rows') && Hosts(rows').Keys <= Hosts(rows).Keys && rows != []
    ensures rows' != [] ==> rows'[|rows'| - 1].address <= rows[|rows| - 1].address
  {
    hide Hosts;
    if rows' != [] {
      HostsOf(rows);
      HostsOf(rows');
      assert rows'[|rows'| - 1].address in Hosts(rows');
      var i := RowFor(rows, rows'[|rows'| - 1].address);
    }
  }

  lemma {:induction false} FrontHosts(rows: seq<Row>)
    requires Distinct(rows) && rows != []
    ensures Hosts(rows[..|rows| - 1]).Keys == Hosts(rows).Keys - {rows[|rows| - 1].address}
  {
    var n := |rows| - 1;
    HostsFrom(rows[..n], rows[n].address);
  }

  ghost predicate AllSameBut(rows: seq<Row>, cs: seq<Choice>, rows': seq<Row>, cs': seq<Choice>, e: map<IPv4, int>) {
    && |cs| == |cs'| && |cs| <= |rows| && |cs'| <= |rows'|
    && forall k | 0 <= k < |cs| :: SameBut(rows[k], cs[k], rows'[k], cs'[k], e)
  }

  /** Whatever records take the place of others, they do so in both views. */
  lemma {:induction false} SameFold(cfg: Config, rows: seq<Row>, cs: seq<Choice>, rows': seq<Row>, cs': seq<Choice>, e: map<IPv4, int>)
    requires AllSameBut(rows, cs, rows', cs', e)
    ensures SameRecords(RecordsOf(cfg, rows, cs), RecordsOf(cfg, rows', cs'), e)
  {
    hide AddRecords, SameRecords, SameBut;
    if cs == [] {
      NoRecords(e);
    } else {
      var n := |cs| - 1;
      assert SameBut(rows[n], cs[n], rows'[n], cs'[n], e);
      SameFold(cfg, rows, cs[..n], rows', cs'[..n], e);
      SameAdd(cfg, RecordsOf(cfg, rows, cs[..n]), RecordsOf(cfg, rows', cs'[..n]), rows[n], cs[n], rows'[n], cs'[n], e);
    }
  }

  lemma {:induction false} NoRecords(e: map<IPv4, int>)
    ensures SameRecords(map[], map[], e)
  {
  }

  lemma {:induction false} SameAdd(
      cfg: Config, records: map<Name, Record>, records': map<Name, Record>, row: Row, c: Choice, row': Row, d: Choice, e: map<IPv4, int>)
    requires SameRecords(records, records', e) && SameBut(row, c, row', d, e)
    ensures SameRecords(AddRecords(cfg, records, row, c), AddRecords(cfg, records', row', d), e)
  {
    hide Forward, Reverse;
  }

  lemma {:induction false} SameInOrder(cfg: Config, rows: seq<Row>, cs: seq<Choice>, v: View, rows': seq<Row>, cs': seq<Choice>)
    requires ViewFor(cfg, rows, cs, v) && SameOwners(v, rows') && Choices(cfg, rows', cs') && InOrder(rows) && InOrder(rows')
    ensures SameRecords(RecordsOf(cfg, rows, cs), RecordsOf(cfg, rows', cs'), Expiries(rows'))
  {
    hide Hosts, SameBut, SameRecords, RecordsOf, Expiries, NamesFor, SameMAC, Named;
    OrderUnique(rows, rows');
    forall k | 0 <= k < |cs| ensures SameBut(rows[k], cs[k], rows'[k], cs'[k], Expiries(rows')) {
      SameRow(cfg, rows, cs, v, rows', cs', k, k);
    }
    SameFold(cfg, rows, cs, rows', cs', Expiries(rows'));
  }

  // ---- in any order, when no two records share a name ----

  lemma {:induction false} SameApart(cfg: Config, row: Row, c: Choice, row': Row, d: Choice, records: map<Name, Record>, records': map<Name, Record>, e: map<IPv4, int>, name: Name)
    requires SameBut(row, c, row', d, e) && RowRecords(cfg, row, c, records) && RowRecords(cfg, row', d, records')
    requires IsKey(cfg, row, c, name) || IsKey(cfg, row', d, name)
    ensures name in records && name in records' && SameRecord(records[name], records'[name], e)
  {
    hide Forward, Reverse;
  }

  lemma {:induction false} Reordered(cfg: Config, rows: seq<Row>, cs: seq<Choice>, v: View, rows': seq<Row>, cs': seq<Choice>)
    requires ViewFor(cfg, rows, cs, v) && SameOwners(v, rows') && Choices(cfg, rows', cs') && NamesDiffer(cfg, rows, cs)
    ensures NamesDiffer(cfg, rows', cs')
  {
    hide Hosts, RecordsOf, Expiries, NamesFor, SameMAC, Named, Forward, Reverse;
    forall i, j | 0 <= i < |cs'| && 0 <= j < |cs'| ensures Apart(cfg, rows'[i], cs'[i], rows'[j], cs'[j], i == j) {
      var x := Before(rows, rows', i);
      var y := Before(rows, rows', j);
      SameRow(cfg, rows, cs, v, rows', cs', x, i);
      SameRow(cfg, rows, cs, v, rows', cs', y, j);
      assert Apart(cfg, rows[x], cs[x], rows[y], cs[y], x == y);
      assert i == j || rows'[i].address != rows'[j].address;
    }
  }

  lemma {:induction false} Before(rows: seq<Row>, rows': seq<Row>, j: nat) returns (i: nat)
    requires Distinct(rows) && Distinct(rows') && Hosts(rows) == Hosts(rows') && j < |rows'|
    ensures i < |rows| && rows[i].address == rows'[j].address
  {
    hide Hosts;
    HostsOf(rows');
    assert rows'[j].address in Hosts(rows');
    i := RowFor(rows, rows'[j].address);
  }

  lemma {:induction false} SameInAnyOrder(cfg: Config, rows: seq<Row>, cs: seq<Choice>, v: View, rows': seq<Row>, cs': seq<Choice>)
    requires ViewFor(cfg, rows, cs, v) && SameOwners(v, rows') && Choices(cfg, rows', cs') && NamesDiffer(cfg, rows, cs)
    ensures SameRecords(RecordsOf(cfg, rows, cs), RecordsOf(cfg, rows', cs'), Expiries(rows'))
  {
    hide ViewFor, SameOwners, SameBut, RecordsOf, Expiries, NamesDiffer, RowRecords, IsKey, SameRecord, Distinct, Hosts, Named;
    Reordered(cfg, rows, cs, v, rows', cs');
    SameSizes(cfg, rows, cs, v, rows');
    var records, records', e := RecordsOf(cfg, rows, cs), RecordsOf(cfg, rows', cs'), Expiries(rows');
    forall name | name in records || name in records'
      ensures name in records && name in records' && SameRecord(records[name], records'[name], e)
    {
      var i: nat, j: nat;
      if name in records {
        i := RecordKey(cfg, rows, cs, name);
        j := Before(rows', rows, i);
      } else {
        j := RecordKey(cfg, rows', cs', name);
        i := Before(rows, rows', j);
      }
      SameRow(cfg, rows, cs, v, rows', cs', i, j);
      NamesKept(cfg, rows, cs, i);
      NamesKept(cfg, rows', cs', j);
      SameApart(cfg, rows[i], cs[i], rows'[j], cs'[j], records, records', e, name);
    }
  }

  lemma {:induction false} SameSizes(cfg: Config, rows: seq<Row>, cs: seq<Choice>, v: View, rows': seq<Row>)
    requires ViewFor(cfg, rows, cs, v) && SameOwners(v, rows')
    ensures |cs| == |rows| && Distinct(rows) && Distinct(rows') && Hosts(rows) == Hosts(rows')
  {
  }

  // ---- the answers ----

  lemma {:induction false} RefreshedName(cfg: Config, rows: seq<Row>, cs: seq<Choice>, v: View, rows': seq<Row>, cs': seq<Choice>, w: View, a: IPv4, now: int)
    requires ViewFor(cfg, rows, cs, v) && SameOwners(v, rows') && ViewFor(cfg, rows', cs', w) && w.expiries == None
    ensures NameAt(v.(expiries := Some(Expiries(rows'))), a, now) == NameAt(w, a, now)
  {
    hide RecordsOf, Hosts, Expiries, Chosen, Forward, Distinct;
    ExpiriesOf(rows');
    if a in Hosts(rows) {
      var j := RowFor(rows', a);
      var i := RowFor(rows, a);
      SameRow(cfg, rows, cs, v, rows', cs', i, j);
      assert NameFor(cfg, rows[i], cs[i], v.names) && NameFor(cfg, rows'[j], cs'[j], w.names);
    }
  }

  lemma {:induction false} RefreshedLookup(v: View, w: View, e: map<IPv4, int>, name: Name, kind: nat, now: int)
    requires SameRecords(v.records, w.records, e) && w.expiries == None
    ensures Lookup(v.(expiries := Some(e)), name, kind, now) == Lookup(w, name, kind, now)
  {
    assert name in v.records <==> name in w.records;
  }

  /**
   A refreshed view answers every lookup, name and hardware address like a rebuilt one: in every domain for
   rows in address order, as the engine lists them, and in any order when no two records share a name.
   */
  lemma {:induction false} RefreshEqualsRebuild(
      cfg: Config, rows: seq<Row>, cs: seq<Choice>, v: View, rows': seq<Row>, cs': seq<Choice>, w: View, a: IPv4, name: Name, kind: nat, now: int)
    requires ViewFor(cfg, rows, cs, v) && SameOwners(v, rows') && ViewFor(cfg, rows', cs', w) && w.expiries == None
    requires (InOrder(rows) && InOrder(rows')) || NamesDiffer(cfg, rows, cs)
    ensures var r := v.(expiries := Some(Expiries(rows')));
      NameAt(r, a, now) == NameAt(w, a, now) && AuthoritativeMAC(r, a, now) == AuthoritativeMAC(w, a, now) && Lookup(r, name, kind, now) == Lookup(w, name, kind, now)
  {
    hide SameOwners, Expiries, NameAt, Lookup, RecordsOf, NamesFor, Choices, NamesDiffer, InOrder, SameRecords, Hosts, Distinct;
    RefreshedName(cfg, rows, cs, v, rows', cs', w, a, now);
    if InOrder(rows) && InOrder(rows') {
      SameInOrder(cfg, rows, cs, v, rows', cs');
    } else {
      SameInAnyOrder(cfg, rows, cs, v, rows', cs');
    }
    RefreshedLookup(v, w, Expiries(rows'), name, kind, now);
  }
}
