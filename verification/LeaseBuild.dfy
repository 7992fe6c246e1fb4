/** Building and refreshing lease views (internal/localdns/leases.go, BuildLeases and RefreshExpiries). */
module LeaseBuild {
  import opened Common
  import opened LeaseNames
  import opened LeaseViews
  import opened LeaseRefresh

  // ---- how often a label is wanted ----

  function Asks(cfg: Config, row: Row): string { Wanted(cfg, row.address, row.hostname) }

  function CountOf(cfg: Config, rows: seq<Row>, n: nat, s: string): nat
    requires n <= |rows|
  {
    if n == 0 then 0 else CountOf(cfg, rows, n - 1, s) + if Asks(cfg, rows[n - 1]) == s then 1 else 0
  }

  ghost predicate AskedBy(cfg: Config, rows: seq<Row>, n: nat, s: string)
    requires n <= |rows|
  {
    exists i :: 0 <= i < n && Asks(cfg, rows[i]) == s
  }

  ghost predicate AskedTwice(cfg: Config, rows: seq<Row>, n: nat, s: string)
    requires n <= |rows|
  {
    exists i, j :: 0 <= i < j < n && Asks(cfg, rows[i]) == s && Asks(cfg, rows[j]) == s
  }

  lemma {:induction false} CountMeans(cfg: Config, rows: seq<Row>, n: nat, s: string)
    requires n <= |rows|
    ensures CountOf(cfg, rows, n, s) >= 1 <==> AskedBy(cfg, rows, n, s)
    ensures CountOf(cfg, rows, n, s) >= 2 <==> AskedTwice(cfg, rows, n, s)
  {
    hide Asks;
    if n > 0 {
      CountMeans(cfg, rows, n - 1, s);
      if Asks(cfg, rows[n - 1]) == s && AskedBy(cfg, rows, n - 1, s) {
        var i :| 0 <= i < n - 1 && Asks(cfg, rows[i]) == s;
        assert AskedTwice(cfg, rows, n, s);
      }
    }
  }

  lemma {:induction false} ContestedMeans(cfg: Config, rows: seq<Row>, s: string)
    requires Distinct(rows)
    ensures Contested(cfg, Hosts(rows), s) <==> CountOf(cfg, rows, |rows|, s) > 1
  {
    hide Contested, AskedTwice, AskedBy, Hosts, CountOf, Distinct;
    CountMeans(cfg, rows, |rows|, s);
    if AskedTwice(cfg, rows, |rows|, s) {
      TwiceContested(cfg, rows, s);
    }
    if Contested(cfg, Hosts(rows), s) {
      ContestedTwice(cfg, rows, s);
    }
  }

  lemma {:induction false} TwiceContested(cfg: Config, rows: seq<Row>, s: string)
    requires Distinct(rows) && AskedTwice(cfg, rows, |rows|, s)
    ensures Contested(cfg, Hosts(rows), s)
  {
    hide Wanted, Hosts, Contested;
    var i: nat, j: nat :| i < j < |rows| && Asks(cfg, rows[i]) == s && Asks(cfg, rows[j]) == s;
    HostsAt(rows, i);
    HostsAt(rows, j);
    IsContested(cfg, Hosts(rows), rows[i].address, rows[j].address, s);
  }

  lemma {:induction false} IsContested(cfg: Config, hosts: map<IPv4, string>, a: IPv4, b: IPv4, s: string)
    requires a in hosts && b in hosts && a != b && Wanted(cfg, a, hosts[a]) == s && Wanted(cfg, b, hosts[b]) == s
    ensures Contested(cfg, hosts, s)
  {
    hide Wanted;
  }

  lemma {:induction false} ContestedTwice(cfg: Config, rows: seq<Row>, s: string)
    requires Distinct(rows) && Contested(cfg, Hosts(rows), s)
    ensures AskedTwice(cfg, rows, |rows|, s)
  {
    hide Wanted, Hosts, AskedTwice, Distinct;
    var a, b :| a in Hosts(rows) && b in Hosts(rows) && a != b && Wanted(cfg, a, Hosts(rows)[a]) == s && Wanted(cfg, b, Hosts(rows)[b]) == s;
    var i := RowFor(rows, a);
    var j := RowFor(rows, b);
    HostsAt(rows, i);
    HostsAt(rows, j);
    IsAskedTwice(cfg, rows, if i < j then i else j, if i < j then j else i, s);
  }

  lemma {:induction false} IsAskedTwice(cfg: Config, rows: seq<Row>, i: nat, j: nat, s: string)
    requires i < j < |rows| && Asks(cfg, rows[i]) == s && Asks(cfg, rows[j]) == s
    ensures AskedTwice(cfg, rows, |rows|, s)
  {
    hide Asks;
  }

  method CountWanted(cfg: Config, rows: seq<Row>) returns (counts: map<string, nat>)
    ensures forall s :: (if s in counts then counts[s] else 0) == CountOf(cfg, rows, |rows|, s)
  {
    hide Asks;
    counts := map[];
    for i := 0 to |rows|
      invariant forall s :: (if s in counts then counts[s] else 0) == CountOf(cfg, rows, i, s)
    {
      var s := Asks(cfg, rows[i]);
      counts := counts[s := (if s in counts then counts[s] else 0) + 1];
    }
  }

  // ---- one row ----

  method ChooseLabel(cfg: Config, rows: seq<Row>, row: Row, counts: map<string, nat>) returns (c: Choice)
    requires Distinct(rows) && row in rows && row.address in Hosts(rows) && Hosts(rows)[row.address] == row.hostname
    requires forall s :: (if s in counts then counts[s] else 0) == CountOf(cfg, rows, |rows|, s)
    ensures Chosen(cfg, Hosts(rows), row.address, c)
  {
    hide LeaseLabel, AddressLabel, IsFallback, Contested, CountOf;
    var s := Wanted(cfg, row.address, row.hostname);
    ContestedMeans(cfg, rows, s);
    var own := HasReservation(cfg, row.address);
    var shared := s in counts && counts[s] > 1;
    if !LeaseLabel(s) || cfg.conflict(s) || (!own && (shared || s in ReservedNames(cfg) || AddressLabel(s))) {
      var text := ChooseFallback(row.address, Blocked(cfg));
      return Choice(text, true);
    }
    return Choice(s, false);
  }

  // ---- the names read so far, before reservations are shown ----

  ghost predicate NamesRead(cfg: Config, rows: seq<Row>, cs: seq<Choice>, names: map<IPv4, Lease>)
    requires |cs| <= |rows|
  {
    && (forall k | 0 <= k < |cs| :: NameRead(cfg, rows[k], cs[k], names))
    && (forall a :: a in names ==> exists k :: 0 <= k < |cs| && rows[k].address == a)
  }

  predicate NameRead(cfg: Config, row: Row, c: Choice, names: map<IPv4, Lease>) {
    row.address in names && names[row.address] == LeaseOf(cfg, row, c)
  }

  lemma {:induction false} NamesReadMore(cfg: Config, rows: seq<Row>, cs: seq<Choice>, names: map<IPv4, Lease>, c: Choice)
    requires Distinct(rows) && |cs| < |rows| && NamesRead(cfg, rows, cs, names)
    ensures NamesRead(cfg, rows, cs + [c], names[rows[|cs|].address := LeaseOf(cfg, rows[|cs|], c)])
  {
    hide LeaseOf;
    var n, more, names' := |cs|, cs + [c], names[rows[|cs|].address := LeaseOf(cfg, rows[|cs|], c)];
    forall k | 0 <= k < |more| ensures NameRead(cfg, rows[k], more[k], names') {
      if k < n { assert NameRead(cfg, rows[k], cs[k], names); }
    }
    forall a | a in names' ensures exists k :: 0 <= k < |more| && rows[k].address == a {
      if a == rows[n].address { assert n < |more|; }
    }
  }

  // ---- reservations on display ----

  ghost predicate ShownSoFar(cfg: Config, before: map<IPv4, Lease>, names: map<IPv4, Lease>, todo: set<IPv4>) {
    && (forall a :: a in names <==> a in before || (HasReservation(cfg, a) && a !in todo))
    && (forall a :: a in names ==> names[a] == ShownAfter(cfg, before, a, todo))
  }

  function ShownAfter(cfg: Config, before: map<IPv4, Lease>, a: IPv4, todo: set<IPv4>): Lease {
    var l := if a in before then before[a] else NO_LEASE;
    if a in todo then l else Shown(cfg, a, l)
  }

  method ShowReservations(cfg: Config, before: map<IPv4, Lease>) returns (names: map<IPv4, Lease>)
    ensures ShownSoFar(cfg, before, names, {})
  {
    hide Lower, Forward;
    names := before;
    var todo := cfg.reservations.Keys;
    while todo != {}
      invariant todo <= cfg.reservations.Keys && ShownSoFar(cfg, before, names, todo)
      decreases |todo|
    {
      var a :| a in todo;
      if cfg.reservations[a] != "" {
        var l := if a in names then names[a] else NO_LEASE;
        names := names[a := Shown(cfg, a, l)];
      }
      todo := todo - {a};
    }
  }

  // ---- the view ----

  lemma {:induction false} NamesComplete(cfg: Config, rows: seq<Row>, cs: seq<Choice>, before: map<IPv4, Lease>, names: map<IPv4, Lease>)
    requires Distinct(rows) && |cs| == |rows| && NamesRead(cfg, rows, cs, before) && ShownSoFar(cfg, before, names, {})
    ensures NamesFor(cfg, rows, cs, names)
  {
    hide Hosts, Shown, LeaseOf, HasReservation;
    HostsOf(rows);
    forall k | 0 <= k < |rows| ensures NameFor(cfg, rows[k], cs[k], names) {
      assert NameRead(cfg, rows[k], cs[k], before);
      assert names[rows[k].address] == ShownAfter(cfg, before, rows[k].address, {});
    }
    forall a | a in names ensures a in Hosts(rows) || (HasReservation(cfg, a) && names[a] == Shown(cfg, a, NO_LEASE)) {
      assert names[a] == ShownAfter(cfg, before, a, {});
    }
  }

  lemma {:induction false} HostsStep(rows: seq<Row>, i: nat)
    requires i < |rows|
    ensures Hosts(rows[..i + 1]) == Hosts(rows[..i])[rows[i].address := rows[i].hostname]
  {
    assert rows[..i + 1][..i] == rows[..i];
  }

  /** Builds the whole view: labels are counted first, so names do not depend on the order of the rows. */
  method BuildLeases(cfg: Config, rows: seq<Row>) returns (v: View)
    requires Distinct(rows) && GoodConfig(cfg)
    ensures exists cs :: ViewFor(cfg, rows, cs, v)
    ensures v.expiries == None
  {
    hide NamesRead, Chosen, GoodConfig, LeaseOf, ShownSoFar, CountOf, Distinct, NamesFor, AddRecords;
    HostsOf(rows);
    hide Hosts;
    var counts := CountWanted(cfg, rows);
    var records: map<Name, Record>, names: map<IPv4, Lease>, labels: map<IPv4, string> := map[], map[], map[];
    ghost var cs: seq<Choice> := [];
    NothingRead(cfg, rows);
    for i := 0 to |rows|
      invariant |cs| == i && labels == Hosts(rows[..i]) && records == RecordsOf(cfg, rows, cs)
      invariant NamesRead(cfg, rows, cs, names)
      invariant forall k | 0 <= k < i :: Named(cfg, Hosts(rows), rows[k], cs[k])
    {
      var row := rows[i];
      HostsStep(rows, i);
      labels := labels[row.address := row.hostname];
      var c := ChooseLabel(cfg, rows, row, counts);
      NamesReadMore(cfg, rows, cs, names, c);
      names := names[row.address := LeaseOf(cfg, row, c)];
      records := AddRecords(cfg, records, row, c);
      ghost var before := cs;
      cs := cs + [c];
      assert cs[..i] == before;
    }
    assert rows[..|rows|] == rows;
    var shown := ShowReservations(cfg, names);
    NamesComplete(cfg, rows, cs, names, shown);
    v := View(records, shown, labels, None);
    assert ViewFor(cfg, rows, cs, v);
  }

  lemma {:induction false} NothingRead(cfg: Config, rows: seq<Row>)
    ensures NamesRead(cfg, rows, [], map[]) && Hosts(rows[..0]) == map[] && RecordsOf(cfg, rows, []) == map[]
  {
  }

  // ---- refreshing ----

  predicate RowMatches(v: View, row: Row) { row.address in v.labels && v.labels[row.address] == row.hostname && SameMAC(v, row) }

  lemma {:induction false} ExpiriesCount(rows: seq<Row>)
    ensures |Expiries(rows)| <= |rows| && (|Expiries(rows)| == |rows| ==> Distinct(rows))
    ensures forall i | 0 <= i < |rows| :: rows[i].address in Expiries(rows)
  {
    if rows != [] {
      var n := |rows| - 1;
      var front := rows[..n];
      ExpiriesCount(front);
      assert forall i | 0 <= i < n :: front[i] == rows[i];
      var e := Expiries(front);
      if rows[n].address in e {
        assert Expiries(rows).Keys == e.Keys;
      } else {
        assert Expiries(rows).Keys == e.Keys + {rows[n].address};
      }
    }
  }

  /** Matching rows, one per label, are the view's rows. */
  lemma {:induction false} OwnersDecide(v: View, rows: seq<Row>)
    ensures SameOwners(v, rows) <==> |rows| == |v.labels| && (forall k | 0 <= k < |rows| :: RowMatches(v, rows[k])) && |Expiries(rows)| == |rows|
  {
    hide Hosts, Expiries;
    ExpiriesCount(rows);
    if SameOwners(v, rows) {
      HostsOf(rows);
      ExpiriesOf(rows);
      assert |Expiries(rows).Keys| == |Hosts(rows).Keys|;
    }
    if |rows| == |v.labels| && (forall k | 0 <= k < |rows| :: RowMatches(v, rows[k])) && |Expiries(rows)| == |rows| {
      HostsOf(rows);
      forall a | a in Hosts(rows) ensures a in v.labels && v.labels[a] == Hosts(rows)[a] {
        var i := RowFor(rows, a);
        assert RowMatches(v, rows[i]);
      }
      assert Hosts(rows).Keys <= v.labels.Keys && |Hosts(rows).Keys| == |v.labels.Keys|;
      SameSets(Hosts(rows).Keys, v.labels.Keys);
    }
  }

  lemma {:induction false} SameSets(a: set<IPv4>, b: set<IPv4>)
    requires a <= b && |a| == |b|
    ensures a == b
  {
    var rest := b - a;
    assert b == a + rest && a !! rest;
    assert |a + rest| == |a| + |rest|;
    assert rest == {};
  }

  /** Succeeds exactly when only lifetimes changed, and then shares everything else. */
  method RefreshExpiries(v: View, rows: seq<Row>) returns (r: Option<View>)
    requires v.labels.Keys <= v.names.Keys
    ensures r.Some? <==> SameOwners(v, rows)
    ensures r.Some? ==> r.value == v.(expiries := Some(Expiries(rows)))
  {
    hide SameOwners;
    OwnersDecide(v, rows);
    if |rows| != |v.labels| {
      return None;
    }
    var expiries: map<IPv4, int> := map[];
    for i := 0 to |rows|
      invariant expiries == Expiries(rows[..i])
      invariant forall k | 0 <= k < i :: RowMatches(v, rows[k])
    {
      var l := rows[i];
      if !(l.address in v.labels) || v.labels[l.address] != l.hostname || v.names[l.address].mac != l.mac {
        assert !RowMatches(v, rows[i]);
        return None;
      }
      assert rows[..i + 1][..i] == rows[..i];
      expiries := expiries[l.address := l.expiry];
    }
    assert rows[..|rows|] == rows;
    if |expiries| != |rows| {
      return None;
    }
    return Some(v.(expiries := Some(expiries)));
  }
}
