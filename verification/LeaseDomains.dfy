/** Local domains whose names are reverse names (internal/localdns/leases.go and internal/dhcp/settings.go, validDomain). */
module LeaseDomains {
  import opened Common
  import opened LeaseNames
  import opened LeaseViews
  import DhcpTypes
  import DhcpSettings

  // ---- when a forward name is a reverse name ----

  /** A lease of address b can be called by the last octet of address a, under a's reverse name. */
  predicate Clash(cfg: Config, a: IPv4, b: IPv4) {
    var s := Dec(Octets(a)[3]);
    && cfg.domain == Reverse(a)[1..] && !cfg.conflict(s)
    && if HasReservation(cfg, b) then Lower(cfg.reservations[b]) == s else s !in ReservedNames(cfg)
  }

  lemma {:induction false} ForwardIsReverse(cfg: Config, s: string, a: IPv4)
    ensures Forward(cfg, s) == Reverse(a) <==> s == Dec(Octets(a)[3]) && cfg.domain == Reverse(a)[1..]
  {
    hide Dec, Octets;
    assert Forward(cfg, s)[0] == s && Forward(cfg, s)[1..] == cfg.domain;
    assert Reverse(a)[0] == Dec(Octets(a)[3]) && Reverse(a) == [Reverse(a)[0]] + Reverse(a)[1..];
  }

  /** Decimals are usable labels and no address labels. */
  lemma {:induction false} OctetLabel(n: nat)
    requires n < 256
    ensures LeaseLabel(Dec(n)) && !AddressLabel(Dec(n)) && Lower(Dec(n)) == Dec(n)
  {
    hide Dec;
    DecDigits(n);
    var s := Dec(n);
    assert IsDigit(s[0]) && IsDigit(s[|s| - 1]);
  }

  /** No choice makes two names equal unless some row may be called so. */
  lemma {:induction false} OnlyClash(cfg: Config, hosts: map<IPv4, string>, row: Row, c: Choice, other: Row)
    requires Named(cfg, hosts, row, c) && Forward(cfg, c.text) == Reverse(other.address)
    ensures Clash(cfg, other.address, row.address)
  {
    hide Dec, Octets, Forward, Reverse, IsFallback, AddressLabel, LeaseLabel, Lower;
    ForwardIsReverse(cfg, c.text, other.address);
    OctetLabel(Octets(other.address)[3]);
    if FallsBack(cfg, hosts, row.address) {
      FallbackIsAddress(row.address, Blocked(cfg), c.text);
    } else {
      assert c.text == Wanted(cfg, row.address, hosts[row.address]);
    }
  }

  // ---- rows that clash ----

  /** An address always gets some name. */
  lemma {:induction false} SomeChoice(cfg: Config, hosts: map<IPv4, string>, a: IPv4) returns (c: Choice)
    requires a in hosts
    ensures Chosen(cfg, hosts, a, c)
  {
    hide FallsBack, Blocked, Wanted;
    if FallsBack(cfg, hosts, a) {
      var n := FreeVariant(a, Blocked(cfg));
      c := Choice(Numbered(Base(a), n), true);
    } else {
      c := Choice(Wanted(cfg, a, hosts[a]), false);
    }
  }

  /** The rows of a clash: address b asks for the last octet of a, and a asks for nothing. */
  function ClashRows(a: IPv4, b: IPv4): (rows: seq<Row>)
    ensures Distinct(rows)
  {
    var row := Row(b, Dec(Octets(a)[3]), "", 0);
    if a == b then [row] else [row, Row(a, "", "", 0)]
  }

  lemma {:induction false} ClashHosts(a: IPv4, b: IPv4)
    ensures forall x :: x in Hosts(ClashRows(a, b)) <==> x == a || x == b
    ensures Hosts(ClashRows(a, b))[b] == Dec(Octets(a)[3]) && (a != b ==> Hosts(ClashRows(a, b))[a] == "")
  {
    hide Dec, Octets;
    var rows := ClashRows(a, b);
    assert Hosts(rows[..1]) == map[b := Dec(Octets(a)[3])] by { assert rows[..1][..0] == []; }
    if a == b { assert rows == rows[..1]; } else { assert rows[..2] == rows; }
  }

  /** Address b gets the label it asks for. */
  lemma {:induction false} ClashChosen(cfg: Config, a: IPv4, b: IPv4)
    requires Clash(cfg, a, b)
    ensures b in Hosts(ClashRows(a, b)) && Chosen(cfg, Hosts(ClashRows(a, b)), b, Choice(Dec(Octets(a)[3]), false))
  {
    hide Dec, Octets, LeaseLabel, AddressLabel, Reverse, Hosts, ClashRows, IsFallback;
    ClashHosts(a, b);
    var s, hosts := Dec(Octets(a)[3]), Hosts(ClashRows(a, b));
    OctetLabel(Octets(a)[3]);
    assert Wanted(cfg, b, hosts[b]) == s;
    if !HasReservation(cfg, b) && a != b {
      NotContested(cfg, a, b);
    }
  }

  lemma {:induction false} NotContested(cfg: Config, a: IPv4, b: IPv4)
    requires Clash(cfg, a, b) && !HasReservation(cfg, b) && a != b
    ensures !Contested(cfg, Hosts(ClashRows(a, b)), Dec(Octets(a)[3]))
  {
    hide Dec, Octets, Reverse, Hosts, ClashRows;
    ClashHosts(a, b);
    var s, hosts := Dec(Octets(a)[3]), Hosts(ClashRows(a, b));
    if HasReservation(cfg, a) {
      assert Lower(cfg.reservations[a]) in ReservedNames(cfg);
    }
    assert Wanted(cfg, a, hosts[a]) != s;
  }

  /** Every clash comes about. */
  lemma {:induction false} ClashHappens(cfg: Config, a: IPv4, b: IPv4) returns (rows: seq<Row>, cs: seq<Choice>)
    requires Clash(cfg, a, b)
    ensures Distinct(rows) && Choices(cfg, rows, cs) && !NamesDiffer(cfg, rows, cs)
  {
    hide Dec, Octets, Hosts, Chosen, Forward, Reverse;
    rows := ClashRows(a, b);
    var hosts, c := Hosts(rows), Choice(Dec(Octets(a)[3]), false);
    ClashHosts(a, b);
    ClashChosen(cfg, a, b);
    assert Named(cfg, hosts, rows[0], c);
    if a == b {
      cs := [c];
    } else {
      var d := SomeChoice(cfg, hosts, a);
      cs := [c, d];
      assert Named(cfg, hosts, rows[1], d);
    }
    ForwardIsReverse(cfg, c.text, a);
    var last := |rows| - 1;
    assert !Apart(cfg, rows[0], cs[0], rows[last], cs[last], 0 == last);
  }

  /** For every valid row list all records have names of their own if and only if no address can be called into a clash. */
  lemma {:induction false} NamesDifferIff(cfg: Config)
    requires GoodConfig(cfg)
    ensures (forall rows, cs | Distinct(rows) && Choices(cfg, rows, cs) :: NamesDiffer(cfg, rows, cs)) <==> !(exists a, b :: Clash(cfg, a, b))
  {
    hide GoodConfig, Clash, NamesDiffer, Distinct, Named;
    if a, b :| Clash(cfg, a, b) {
      var rows, cs := ClashHappens(cfg, a, b);
    } else {
      forall rows, cs | Distinct(rows) && Choices(cfg, rows, cs) ensures NamesDiffer(cfg, rows, cs) { NoClash(cfg, rows, cs); }
    }
  }

  lemma {:induction false} NoClash(cfg: Config, rows: seq<Row>, cs: seq<Choice>)
    requires GoodConfig(cfg) && Distinct(rows) && Choices(cfg, rows, cs) && !(exists a, b :: Clash(cfg, a, b))
    ensures NamesDiffer(cfg, rows, cs)
  {
    hide GoodConfig, Clash, Named, Forward, Reverse, Apart, Hosts;
    forall i, j | 0 <= i < |cs| && 0 <= j < |cs| ensures Apart(cfg, rows[i], cs[i], rows[j], cs[j], i == j) {
      if Forward(cfg, cs[i].text) == Reverse(rows[j].address) {
        OnlyClash(cfg, Hosts(rows), rows[i], cs[i], rows[j]);
      }
      SameKindApart(cfg, Hosts(rows), rows[i], cs[i], rows[j], cs[j], i == j);
    }
  }

  // ---- which domains are safe ----

  /** The domain is a reverse name without its first label. */
  ghost predicate ReverseZone(domain: Name) { exists a :: domain == Reverse(a)[1..] }

  /** A configuration with nothing but a domain. */
  function Bare(domain: Name): Config { Config(domain, map[], _ => false, {}) }

  ghost predicate SafeDomain(domain: Name) {
    forall cfg: Config, rows, cs | cfg.domain == domain && GoodConfig(cfg) && Distinct(rows) && Choices(cfg, rows, cs) :: NamesDiffer(cfg, rows, cs)
  }

  /** A domain keeps all records apart, whatever is reserved or leased, if and only if it is not a reverse name less its first label. */
  lemma {:induction false} SafeDomainIff(domain: Name)
    ensures SafeDomain(domain) <==> !ReverseZone(domain)
  {
    hide Reverse, Dec, Octets, NamesDiffer, Distinct, Named;
    if a :| domain == Reverse(a)[1..] {
      var cfg := Bare(domain);
      assert Clash(cfg, a, a);
      var rows, cs := ClashHappens(cfg, a, a);
    } else {
      forall cfg: Config, rows, cs | cfg.domain == domain && GoodConfig(cfg) && Distinct(rows) && Choices(cfg, rows, cs) ensures NamesDiffer(cfg, rows, cs) {
        NoClash(cfg, rows, cs);
      }
    }
  }

  // ---- the configuration accepts domains that clash ----

  /** The labels of a domain's text. */
  function Labels(s: string): Name
    decreases |s|
  {
    var dot := DhcpSettings.FirstDot(s);
    if dot == |s| then [s] else [s[..dot]] + Labels(s[dot + 1..])
  }

  /** The text of a domain. */
  function Text(name: Name): string
    requires name != []
  {
    if |name| == 1 then name[0] else name[0] + "." + Text(name[1..])
  }

  lemma {:induction false} FirstWord(w: string, rest: string)
    requires '.' !in w
    ensures DhcpSettings.FirstDot(w) == |w| && DhcpSettings.FirstDot(w + "." + rest) == |w|
  {
    var s := w + "." + rest;
    if w != "" {
      assert w[0] in w && forall c :: c in w[1..] ==> c in w;
      FirstWord(w[1..], rest);
      assert s[0] == w[0] && s[1..] == w[1..] + "." + rest;
    } else {
      assert s[0] == '.';
    }
  }

  lemma {:induction false} TextReads(name: Name)
    requires name != [] && forall i | 0 <= i < |name| :: DhcpTypes.ValidLabel(name[i])
    ensures Labels(Text(name)) == name && DhcpSettings.AnyLabelSplit(Text(name))
  {
    hide DhcpTypes.ValidLabel, DhcpSettings.FirstDot;
    var w := name[0];
    NoDot(w);
    if |name| == 1 {
      FirstWord(w, "");
      assert name == [w];
    } else {
      var s, rest := Text(name), Text(name[1..]);
      TextReads(name[1..]);
      FirstWord(w, rest);
      assert s[..|w|] == w && s[|w| + 1..] == rest;
      assert name == [w] + name[1..];
    }
  }

  lemma {:induction false} NoDot(w: string)
    requires DhcpTypes.ValidLabel(w)
    ensures '.' !in w
  {
    assert forall i | 0 <= i < |w| :: DhcpTypes.LabelChar(w[i]);
  }

  lemma {:induction false} OctetValid(n: nat)
    requires n < 256
    ensures DhcpTypes.ValidLabel(Dec(n)) && |Dec(n)| <= 3
  {
    hide Dec;
    DecDigits(n);
    var s := Dec(n);
    assert IsDigit(s[0]) && IsDigit(s[|s| - 1]);
  }

  lemma {:induction false} ZoneText(a: IPv4)
    ensures var o := Octets(a);
      Text(Reverse(a)[1..]) == Dec(o[2]) + "." + (Dec(o[1]) + "." + (Dec(o[0]) + ".in-addr.arpa"))
  {
    hide Dec, Octets;
    var z := Reverse(a)[1..];
    assert z[1..][1..][1..] == IN_ADDR && IN_ADDR[1..] == ["arpa"];
    assert Text(IN_ADDR) == "in-addr.arpa";
    var low, middle := z[1..][1..], z[1..];
    assert low[0] == Dec(Octets(a)[0]) && middle[0] == Dec(Octets(a)[1]) && z[0] == Dec(Octets(a)[2]);
    assert Text(low) == Dec(Octets(a)[0]) + "." + Text(IN_ADDR) == Dec(Octets(a)[0]) + ".in-addr.arpa";
    assert Text(middle) == Dec(Octets(a)[1]) + "." + Text(low);
    var t := Dec(Octets(a)[1]) + "." + Text(low);
    assert Text(z) == Dec(Octets(a)[2]) + "." + t;
    assert Dec(Octets(a)[1]) + "." + (Dec(Octets(a)[0]) + ".in-addr.arpa") == t;
  }

  lemma {:induction false} NotLocal(s: string, t: string)
    requires s == t + "arpa"
    ensures DhcpTypes.Lower(s) != "local" && !DhcpSettings.EndsWith(DhcpTypes.Lower(s), ".local")
  {
    var l := DhcpTypes.Lower(s);
    assert l[|l| - 1] == 'a';
    SameEnd(l, ".local");
  }

  lemma {:induction false} SameEnd(s: string, t: string)
    requires t != ""
    ensures DhcpSettings.EndsWith(s, t) ==> s[|s| - 1] == t[|t| - 1]
  {
  }

  /** The configuration accepts every reverse name less its first label, such as 1.168.192.in-addr.arpa, as the local domain. */
  lemma {:induction false} ReverseZoneAccepted(a: IPv4)
    ensures DhcpSettings.ValidDomain(Text(Reverse(a)[1..])) && Labels(Text(Reverse(a)[1..])) == Reverse(a)[1..]
  {
    hide Dec, Octets, Text, Labels, DhcpTypes.ValidLabel, DhcpTypes.Lower, DhcpSettings.EndsWith;
    var z, o := Reverse(a)[1..], Octets(a);
    OctetValid(o[0]);
    OctetValid(o[1]);
    OctetValid(o[2]);
    assert z[3] == "in-addr" && z[4] == "arpa";
    WordsValid();
    TextReads(z);
    ZoneText(a);
    NotLocal(Text(z), Dec(o[2]) + "." + (Dec(o[1]) + "." + (Dec(o[0]) + ".in-addr.")));
  }

  lemma {:induction false} WordsValid()
    ensures DhcpTypes.ValidLabel("in-addr") && DhcpTypes.ValidLabel("arpa")
  {
  }

  /** One such domain: the lease 192.168.1.5 of a host named 5 has one name for both its records. */
  lemma {:induction false} KnownClash()
    ensures var domain := "1.168.192.in-addr.arpa";
      DhcpSettings.ValidDomain(domain) && Forward(Bare(Labels(domain)), "5") == Reverse(0xC0A8_0105)
  {
    hide Text, Dec, Labels, Octets, Reverse, Forward, DhcpSettings.ValidDomain;
    KnownText();
    ReverseZoneAccepted(0xC0A8_0105);
    ForwardIsReverse(Bare(Labels("1.168.192.in-addr.arpa")), "5", 0xC0A8_0105);
  }

  lemma {:induction false} KnownText()
    ensures Text(Reverse(0xC0A8_0105)[1..]) == "1.168.192.in-addr.arpa" && Dec(Octets(0xC0A8_0105)[3]) == "5"
  {
    hide Text, Dec;
    ZoneText(0xC0A8_0105);
    assert Octets(0xC0A8_0105) == [192, 168, 1, 5];
    hide Octets, Reverse;
    SomeDecimals();
  }

  lemma {:induction false} SomeDecimals()
    ensures Dec(1) == "1" && Dec(5) == "5" && Dec(168) == "168" && Dec(192) == "192"
  {
    assert Dec(16) == "16" && Dec(19) == "19";
  }

  /** In such a domain a lease of a host named by its last octet loses its address record to its own reverse record. */
  lemma {:induction false} AddressRecordLost(a: IPv4, mac: string, expiry: int, cs: seq<Choice>, v: View, now: int)
    requires ViewFor(Bare(Reverse(a)[1..]), [Row(a, Dec(Octets(a)[3]), mac, expiry)], cs, v) && now < expiry && v.expiries == None
    ensures cs[0].text == Dec(Octets(a)[3])
    ensures Lookup(v, Forward(Bare(Reverse(a)[1..]), cs[0].text), 1, now) == Negative(LookupTTL(expiry, now))
  {
    hide Dec, Octets, LeaseLabel, AddressLabel, Reverse, Forward, NamesFor, Chosen, IsFallback, Hosts, RecordsOf;
    var cfg, row := Bare(Reverse(a)[1..]), Row(a, Dec(Octets(a)[3]), mac, expiry);
    assert Named(cfg, Hosts([row]), row, cs[0]);
    OnlyRow(cfg, row, cs[0]);
    assert cs == [cs[0]];
    OctetLabel(Octets(a)[3]);
    LoneChoice(cfg, row, cs[0]);
    ForwardIsReverse(cfg, cs[0].text, a);
  }

  lemma {:induction false} OnlyRow(cfg: Config, row: Row, c: Choice)
    ensures Hosts([row]) == map[row.address := row.hostname]
    ensures RecordsOf(cfg, [row], [c]) == AddRecords(cfg, map[], row, c)
  {
    hide AddRecords;
    assert [row][..0] == [] && [c][..0] == [];
  }

  lemma {:induction false} LoneChoice(cfg: Config, row: Row, c: Choice)
    requires cfg == Bare(cfg.domain) && Chosen(cfg, map[row.address := row.hostname], row.address, c)
    requires LeaseLabel(row.hostname) && !AddressLabel(row.hostname) && LeaseViews.Lower(row.hostname) == row.hostname
    ensures c.text == row.hostname
  {
    hide LeaseLabel, AddressLabel, LeaseViews.Lower, IsFallback;
  }
}
