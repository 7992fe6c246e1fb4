/** The alias chain behind a negative answer (internal/dnswire/ttl.go, negativeCNAMEAuthority). */
module DnsAlias {
  import opened Common
  import opened DnsName
  import opened DnsRecords
  import opened DnsTemplate

  // ---- one link ----

  /** First alias of a name. */
  ghost predicate FirstAlias(rs: seq<Record>, name: seq<byte>, i: nat) {
    i < |rs| && AliasOf(rs[i], name) && forall j | 0 <= j < i :: !AliasOf(rs[j], name)
  }

  ghost predicate AllTo(rs: seq<Record>, name: seq<byte>, target: seq<byte>) {
    forall j | 0 <= j < |rs| && AliasOf(rs[j], name) :: AliasTarget(rs[j]) == target
  }

  /** A name has no alias, aliases that disagree, or aliases that agree on one target. */
  ghost predicate Meant(rs: seq<Record>, name: seq<byte>, l: Link) {
    match l
    case NoLink => forall j | 0 <= j < |rs| :: !AliasOf(rs[j], name)
    case Link(target, start) => AllTo(rs, name, target) && exists i: nat :: FirstAlias(rs, name, i) && rs[i].start == start
    case Ambiguous => Disagree(rs, name)
  }

  ghost predicate Disagree(rs: seq<Record>, name: seq<byte>) {
    exists i, j :: 0 <= i < |rs| && 0 <= j < |rs| && Against(rs[i], rs[j], name)
  }

  ghost predicate Against(a: Record, b: Record, name: seq<byte>) { AliasOf(a, name) && AliasOf(b, name) && AliasTarget(a) != AliasTarget(b) }

  lemma {:induction false} MeantNext(rs: seq<Record>, name: seq<byte>, before: Link)
    requires rs != [] && Meant(rs[..|rs| - 1], name, before)
    ensures !AliasOf(rs[|rs| - 1], name) || before.Ambiguous? ==> Meant(rs, name, before)
    ensures AliasOf(rs[|rs| - 1], name) && before.NoLink? ==> Meant(rs, name, Link(AliasTarget(rs[|rs| - 1]), rs[|rs| - 1].start))
    ensures AliasOf(rs[|rs| - 1], name) && before.Link? ==>
      Meant(rs, name, if before.target == AliasTarget(rs[|rs| - 1]) then before else Ambiguous)
  {
    hide IsAlias, Canonical;
    var n, front := |rs| - 1, rs[..|rs| - 1];
    assert forall j | 0 <= j < n :: front[j] == rs[j];
    if before.Ambiguous? {
      var i, j :| 0 <= i < n && 0 <= j < n && Against(front[i], front[j], name);
      assert Against(rs[i], rs[j], name);
    } else if before.NoLink? {
      assert AliasOf(rs[n], name) ==> FirstAlias(rs, name, n);
    } else {
      var i: nat :| FirstAlias(front, name, i) && front[i].start == before.start;
      assert FirstAlias(rs, name, i);
      assert AliasOf(rs[n], name) && before.target != AliasTarget(rs[n]) ==> Against(rs[i], rs[n], name);
    }
  }

  lemma {:induction false} FollowMeans(rs: seq<Record>, name: seq<byte>)
    ensures Meant(rs, name, Follow(rs, name))
  {
    hide AliasOf, AliasTarget, AllTo, FirstAlias, Disagree;
    if rs != [] {
      FollowMeans(rs[..|rs| - 1], name);
      hide Meant;
      MeantNext(rs, name, Follow(rs[..|rs| - 1], name));
    }
  }

  // ---- whole chains ----

  /** Each name is the agreed alias target of the one before it. */
  ghost predicate IsPath(rs: seq<Record>, p: seq<seq<byte>>) {
    p != [] && forall i | 0 <= i < |p| - 1 :: Linked(rs, p[i], p[i + 1])
  }

  ghost predicate Linked(rs: seq<Record>, a: seq<byte>, b: seq<byte>) { Follow(rs, a).Link? && Follow(rs, a).target == b }

  /** A path from a name to one without alias. */
  ghost predicate EndsAt(rs: seq<Record>, p: seq<seq<byte>>, first: seq<byte>, last: seq<byte>) {
    IsPath(rs, p) && p[0] == first && p[|p| - 1] == last && Follow(rs, last).NoLink?
  }

  lemma {:induction false} ChainIsPath(rs: seq<Record>, current: seq<byte>, seen: seq<nat>) returns (p: seq<seq<byte>>, last: seq<byte>)
    requires |seen| <= MAX_LINKS && NegativeAuthority(rs, current, seen).Ok?
    ensures EndsAt(rs, p, current, last) && |p| <= MAX_LINKS - |seen| + 1
    ensures NegativeAuthority(rs, current, seen) == Ok(HasAuthority(rs, last))
    decreases MAX_LINKS - |seen|
  {
    hide Follow, HasAuthority;
    var f := Follow(rs, current);
    if f.NoLink? {
      p, last := [current], current;
    } else {
      var q, l := ChainIsPath(rs, f.target, seen + [f.start]);
      p, last := [current] + q, l;
      assert forall i | 1 <= i < |p| :: p[i] == q[i - 1];
    }
  }

  /** Record starts tell records apart, as they do in any scanned message. */
  ghost predicate Ordered(rs: seq<Record>) { forall i, j | 0 <= i < j < |rs| :: rs[i].start < rs[j].start }

  /** Links through the same record start from the same name. */
  lemma {:induction false} SameLink(rs: seq<Record>, a: seq<byte>, b: seq<byte>)
    requires Ordered(rs) && Follow(rs, a).Link? && Follow(rs, b).Link? && Follow(rs, a).start == Follow(rs, b).start
    ensures a == b
  {
    hide Follow;
    FollowMeans(rs, a);
    FollowMeans(rs, b);
    var i: nat :| FirstAlias(rs, a, i) && rs[i].start == Follow(rs, a).start;
    var j: nat :| FirstAlias(rs, b, j) && rs[j].start == Follow(rs, b).start;
    assert i == j;
  }

  lemma {:induction false} SameTails(rs: seq<Record>, p: seq<seq<byte>>, i: nat, k: nat, d: nat)
    requires IsPath(rs, p) && i < k && k + d < |p| && p[i] == p[k]
    ensures p[i + d] == p[k + d]
  {
    hide Follow;
    if d > 0 {
      SameTails(rs, p, i, k, d - 1);
      assert Linked(rs, p[i + d - 1], p[i + d - 1 + 1]) && Linked(rs, p[k + d - 1], p[k + d - 1 + 1]);
    }
  }

  /** A path that ends never visits a name twice. */
  lemma {:induction false} NoRepeats(rs: seq<Record>, p: seq<seq<byte>>, first: seq<byte>, last: seq<byte>, i: nat, k: nat)
    requires EndsAt(rs, p, first, last) && i < k < |p|
    ensures p[i] != p[k]
  {
    hide Follow;
    if p[i] == p[k] {
      var d := |p| - 1 - k;
      assert Linked(rs, p[i + d], p[i + d + 1]);
      SameTails(rs, p, i, k, d);
    }
  }

  function Starts(rs: seq<Record>, p: seq<seq<byte>>): seq<nat>
    requires forall i | 0 <= i < |p| :: Follow(rs, p[i]).Link?
  {
    seq(|p|, i requires 0 <= i < |p| => Follow(rs, p[i]).start)
  }

  lemma {:induction false} PathIsChain(rs: seq<Record>, p: seq<seq<byte>>, first: seq<byte>, last: seq<byte>, k: nat)
    requires Ordered(rs) && EndsAt(rs, p, first, last) && |p| <= MAX_LINKS + 1 && k < |p|
    requires forall i | 0 <= i < k :: Follow(rs, p[..k][i]).Link?
    ensures NegativeAuthority(rs, p[k], Starts(rs, p[..k])) == Ok(HasAuthority(rs, last))
    decreases |p| - k
  {
    hide Follow, HasAuthority;
    var seen := Starts(rs, p[..k]);
    if k < |p| - 1 {
      assert Linked(rs, p[k], p[k + 1]);
      if Follow(rs, p[k]).start in seen {
        var i :| 0 <= i < k && seen[i] == Follow(rs, p[k]).start;
        assert p[..k][i] == p[i];
        SameLink(rs, p[i], p[k]);
        NoRepeats(rs, p, first, last, i, k);
      }
      assert forall i | 0 <= i < k + 1 :: p[..k + 1][i] == p[i] && (i < k ==> p[..k][i] == p[i]);
      PathIsChain(rs, p, first, last, k + 1);
      assert Starts(rs, p[..k + 1]) == seen + [Follow(rs, p[k]).start];
    }
  }

  /**
   The authority check succeeds exactly when unambiguous aliases lead from the name, in at most
   sixteen links, to a name without alias; it then says whether a zone above that name answered.
   */
  lemma {:induction false} NegativeAuthorityIff(rs: seq<Record>, name: seq<byte>, b: bool)
    requires Ordered(rs)
    ensures NegativeAuthority(rs, name, []) == Ok(b) <==>
      exists p, last :: EndsAt(rs, p, name, last) && |p| <= MAX_LINKS + 1 && b == HasAuthority(rs, last)
  {
    hide Follow, HasAuthority, NegativeAuthority;
    if NegativeAuthority(rs, name, []) == Ok(b) {
      var p, last := ChainIsPath(rs, name, []);
    }
    forall p, last | EndsAt(rs, p, name, last) && |p| <= MAX_LINKS + 1 && b == HasAuthority(rs, last)
      ensures NegativeAuthority(rs, name, []) == Ok(b)
    {
      PathIsChain(rs, p, name, last, 0);
      assert Starts(rs, p[..0]) == [];
    }
  }

  /** Offset k of a name starts a label. */
  predicate Boundary(name: seq<byte>, k: nat)
    decreases |name|
  {
    && k < |name|
    && (k == 0 || (0 < name[0] && 1 + name[0] <= k && Boundary(name[1 + name[0]..], k - 1 - name[0])))
  }

  lemma {:induction false} EnclosingFinds(name: seq<byte>, zone: seq<byte>) returns (k: nat)
    requires Labels(name) && Enclosing(name, zone)
    ensures Boundary(name, k) && name[k..] == zone
    decreases |name|
  {
    if name == zone {
      return 0;
    }
    var n: nat := 1 + name[0] as int;
    k := EnclosingFinds(name[n..], zone);
    assert name[n..][k..] == name[n + k..];
    k := n + k;
  }

  lemma {:induction false} BoundaryEncloses(name: seq<byte>, k: nat)
    requires Labels(name) && Boundary(name, k)
    ensures Enclosing(name, name[k..])
    decreases |name|
  {
    if k > 0 {
      var n: nat := 1 + name[0] as int;
      BoundaryEncloses(name[n..], k - n);
      assert name[n..][k - n..] == name[k..];
    } else {
      assert name[0..] == name;
    }
  }

  /** Enclosing zones are exactly the suffixes that start at a label. */
  lemma {:induction false} EnclosingMeans(name: seq<byte>, zone: seq<byte>)
    requires Labels(name)
    ensures Enclosing(name, zone) <==> exists k: nat :: Boundary(name, k) && name[k..] == zone
  {
    hide Enclosing, Labels;
    if Enclosing(name, zone) {
      var k := EnclosingFinds(name, zone);
    }
    forall k: nat | Boundary(name, k) && name[k..] == zone ensures Enclosing(name, zone) {
      BoundaryEncloses(name, k);
    }
  }
}
