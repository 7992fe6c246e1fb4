/** Matching against a snapshot (internal/policy/compile.go, matchSelectedNumber; scope.go; provenance.go). */
module PolicyMatch {
  import opened Common
  import opened PolicyNames
  import opened PolicyPresentation
  import opened PolicyRules
  import opened PolicyOracle
  import opened PolicyText
  import opened PolicyChains
  import opened PolicySnapshot

  // ---- the reversed name, label by label ----

  /** Advancing over one label of the reversed name gives the next key. */
  lemma {:induction false} TopStep(name: seq<byte>, k: nat)
    requires Wire(name) && k <= |LabelsOf(name)|
    ensures |Top(name, k)| <= |Reversed(name)| && Reversed(name)[..|Top(name, k)|] == Top(name, k)
    ensures k == |LabelsOf(name)| ==> |Top(name, k)| == |Reversed(name)|
    ensures k < |LabelsOf(name)| ==>
      && |Top(name, k)| < |Reversed(name)|
      && var end := |Top(name, k)| + 1 + Reversed(name)[|Top(name, k)|];
         end <= |Reversed(name)| && Reversed(name)[..end] == Top(name, k + 1)
  {
    hide LabelsOf, Encode, Wire;
    var r := Rev(LabelsOf(name));
    RevGood(LabelsOf(name));
    var a, b := r[..k], r[k..];
    assert r == a + b;
    EncodeAppend(a, b);
    if k < |r| {
      var l := r[k];
      assert b == [l] + r[k + 1..];
      EncodeCons(l, r[k + 1..]);
      assert r[..k + 1] == a + [l];
      EncodeAppend(a, [l]);
      EncodeOne(l);
      var whole := Encode(a) + ([|l|] + l + Encode(r[k + 1..]));
      assert whole[|Encode(a)|] == |l|;
      assert whole == Encode(a) + ([|l|] + l) + Encode(r[k + 1..]);
    } else {
      assert b == [];
      EncodeNone();
    }
  }

  // ---- stages ----

  method MatchExact(s: Snapshot, hash: Key -> nat, ghost es: seq<Entry>, sel: Option<Selection>, name: seq<byte>, explain: bool)
    returns (t: Tally)
    requires Represents(s, hash, es)
    ensures Tallies(es, ExactHits(es, sel, name), explain, t)
  {
    hide RecordsEntries, Weighable, ExactWith, FallbackOK, SuffixOK, Tallies, Chain, Admitted, ExactHits, HeadOf;
    ghost var heads, keyOf :| ExactWith(s, hash, es, heads, keyOf);
    ExactParts(s, hash, es, heads, keyOf);
    ghost var list := ExactStage(s, hash, es, heads, keyOf, sel, name);
    var head := PolicyExact.Find(s.exact, hash, name, heads);
    HeadIs(heads, name);
    TallyNone(es, explain);
    t := Visit(s, es, sel, explain, head, list, Tally(0, {}), {});
    assert {} + Admitted(es, sel, list) == Admitted(es, sel, list);
  }

  lemma {:induction false} ExactParts(s: Snapshot, hash: Key -> nat, es: seq<Entry>, heads: map<Key, nat>, keyOf: seq<Option<Key>>)
    requires ExactWith(s, hash, es, heads, keyOf)
    ensures PolicyExact.TableOK(s.exact, hash, heads)
  {
  }

  lemma {:induction false} HeadIs(heads: map<Key, nat>, k: Key)
    ensures HeadOf(heads, k) == if k in heads then heads[k] else 0
  {
  }

  lemma {:induction false} TallyNone(es: seq<Entry>, explain: bool)
    requires Weighable(es)
    ensures Tallies(es, {}, explain, Tally(0, {}))
  {
    hide Weighable;
  }

  method MatchSuffixes(s: Snapshot, hash: Key -> nat, ghost es: seq<Entry>, sel: Option<Selection>, name: seq<byte>, explain: bool, t0: Tally)
    returns (t: Tally)
    requires Represents(s, hash, es) && Wire(name) && Tallies(es, ExactHits(es, sel, name), explain, t0)
    ensures Tallies(es, ExactHits(es, sel, name) + SuffixHits(es, sel, name, |LabelsOf(name)|), explain, t)
  {
    hide RecordsEntries, Weighable, ExactOK, FallbackOK, SuffixWith, Tallies, Chain, Admitted, ExactHits, SuffixHits, HeadOf, Reversed, Top, LabelsOf, Wire, NoRepeats, OnlyRules;
    ghost var heads, keyOf :| SuffixWith(s, es, heads, keyOf);
    SuffixParts(s, es, heads, keyOf);
    SuffixNone(s, es, heads, keyOf, sel, name);
    t := t0;
    var rev := ReverseName(name);
    var end := 0;
    ghost var k: nat, m := 0, ExactHits(es, sel, name) + SuffixHits(es, sel, name, 0);
    TopNone(name);
    TopStep(name, 0);
    while end < |rev|
      invariant k <= |LabelsOf(name)| && end == |Top(name, k)| && (k < |LabelsOf(name)| <==> end < |rev|)
      invariant m == ExactHits(es, sel, name) + SuffixHits(es, sel, name, k) && Tallies(es, m, explain, t)
      decreases |LabelsOf(name)| - k
    {
      TopStep(name, k);
      end := end + 1 + rev[end];
      ghost var list := SuffixStage(s, es, heads, keyOf, sel, name, k);
      var head := PolicySuffix.FindSuffix(s.suffix, rev[..end], heads);
      t := Visit(s, es, sel, explain, head, list, t, m);
      m := m + Admitted(es, sel, list);
      k := k + 1;
      TopStep(name, k);
    }
  }

  lemma {:induction false} TopNone(name: seq<byte>)
    requires Wire(name)
    ensures Top(name, 0) == []
  {
    RevGood(LabelsOf(name));
    assert Rev(LabelsOf(name))[..0] == [];
  }

  lemma {:induction false} SuffixParts(s: Snapshot, es: seq<Entry>, heads: map<Key, nat>, keyOf: seq<Option<Key>>)
    requires SuffixWith(s, es, heads, keyOf)
    ensures PolicySuffix.SuffixTableOK(s.suffix, heads)
  {
  }

  /** No rule is for the root, so no suffix has no labels. */
  lemma {:induction false} SuffixNone(s: Snapshot, es: seq<Entry>, heads: map<Key, nat>, keyOf: seq<Option<Key>>, sel: Option<Selection>, name: seq<byte>)
    requires SuffixWith(s, es, heads, keyOf) && Wire(name)
    ensures SuffixHits(es, sel, name, 0) == {}
    ensures ExactHits(es, sel, name) + SuffixHits(es, sel, name, 0) == ExactHits(es, sel, name)
  {
    hide Selected, LabelSuffix, Chained;
    forall j: nat | 1 <= j <= |es| ensures !ShortSuffix(Nth(es, j).form, name, 0) {
      assert GoodForm(es[j - 1].form);
    }
  }

  method MatchFallback(lib: Library, s: Snapshot, hash: Key -> nat, ghost es: seq<Entry>, sel: Option<Selection>, name: seq<byte>, explain: bool,
                       t0: Tally, ghost m0: set<nat>)
    returns (t: Tally)
    requires Represents(s, hash, es) && Wire(name) && Tallies(es, m0, explain, t0) && OnlyRules(es, s.fallbackIDs)
    requires forall j :: j in m0 ==> j !in s.fallbackIDs
    ensures Tallies(es, m0 + OtherHits(lib, es, sel, name, s.fallbackIDs), explain, t)
  {
    hide RecordsEntries, Weighable, ExactOK, SuffixOK, Tallies, Chain, OtherHits, LabelsOf, Wire, Display, MetaSelected, Hits, FallbackOK, Matches, Selected;
    t := t0;
    FallbackSizes(s, es);
    RecordSizes(s, es);
    if |s.fallback| == 0 {
      NoOthers(lib, es, sel, name, s.fallbackIDs, m0);
      return;
    }
    var labels := ReadLabels(name);
    var display := DisplayName(name);
    ghost var m := m0;
    NoOthers(lib, es, sel, name, s.fallbackIDs, m0);
    for i := 0 to |s.fallback|
      invariant OnlyRules(es, s.fallbackIDs[..i])
      invariant m == m0 + OtherHits(lib, es, sel, name, s.fallbackIDs[..i]) && Tallies(es, m, explain, t)
    {
      var id := s.fallbackIDs[i];
      FallbackOne(lib, s, es, sel, name, i, m0);
      RecordMeans(s, es, sel, id);
      if MetaSelected(sel, s.arena, s.metas[id - 1]) {
        var hit := MatchesForm(lib, s.fallback[i], name, labels, display);
        if hit {
          AdmitSingle(es, sel, id);
          t := Visit(s, es, sel, explain, id, [id], t, m);
          m := m + {id};
        }
      }
    }
    assert s.fallbackIDs[..|s.fallback|] == s.fallbackIDs;
  }

  lemma {:induction false} FallbackSizes(s: Snapshot, es: seq<Entry>)
    requires FallbackOK(s, es)
    ensures |s.fallback| == |s.fallbackIDs| && |s.next| == |es|
  {
  }

  lemma {:induction false} NoOthers(lib: Library, es: seq<Entry>, sel: Option<Selection>, name: seq<byte>, ids: seq<nat>, m0: set<nat>)
    requires Wire(name)
    ensures OtherHits(lib, es, sel, name, ids[..0]) == {} && m0 + OtherHits(lib, es, sel, name, ids[..0]) == m0
    ensures ids == [] ==> ids[..0] == ids
  {
  }

  /** One more fallback rule: it is alone on its chain and new to the tally. */
  lemma {:induction false} FallbackOne(lib: Library, s: Snapshot, es: seq<Entry>, sel: Option<Selection>, name: seq<byte>, i: nat, m0: set<nat>)
    requires FallbackOK(s, es) && Wire(name) && OnlyRules(es, s.fallbackIDs) && i < |s.fallbackIDs|
    requires forall j :: j in m0 ==> j !in s.fallbackIDs
    ensures var id := s.fallbackIDs[i];
      && 1 <= id <= |es| && s.fallback[i] == Nth(es, id).form && OnlyRules(es, s.fallbackIDs[..i + 1]) && OnlyRules(es, s.fallbackIDs[..i])
      && id !in m0 + OtherHits(lib, es, sel, name, s.fallbackIDs[..i])
      && Chain(s.next, id, [id]) && NoRepeats([id])
      && (Hits(lib, sel, Nth(es, id), name) <==> Selected(sel, Nth(es, id)) && Matches(lib, Nth(es, id).form, name))
      && OtherHits(lib, es, sel, name, s.fallbackIDs[..i + 1]) ==
         if Hits(lib, sel, Nth(es, id), name) then OtherHits(lib, es, sel, name, s.fallbackIDs[..i]) + {id} else OtherHits(lib, es, sel, name, s.fallbackIDs[..i])
  {
    hide Matches, Selected;
    var ids := s.fallbackIDs;
    assert FallbackAt(s, es, i);
    assert ids[..i + 1] == ids[..i] + [ids[i]];
    assert ids[i] in ids;
    assert forall k | 0 <= k < i :: ids[..i][k] == ids[k] < ids[i];
    SingleChain(s.next, ids[i]);
  }

  lemma {:induction false} SingleChain(next: seq<nat>, h: nat)
    requires 1 <= h <= |next| && next[h - 1] == 0
    ensures Chain(next, h, [h]) && NoRepeats([h])
  {
    assert [h][1..] == [];
  }

  lemma {:induction false} AdmitSingle(es: seq<Entry>, sel: Option<Selection>, id: nat)
    requires 1 <= id <= |es| && Selected(sel, Nth(es, id))
    ensures OnlyRules(es, [id]) && Admitted(es, sel, [id]) == {id}
  {
  }

  // ---- the whole match ----

  /** No fallback rule is admitted, so the fallback loop can be skipped. */
  ghost predicate NoneAdmitted(s: Snapshot, es: seq<Entry>, sel: Option<Selection>) {
    forall j: nat | 1 <= j <= |es| && j in s.fallbackIDs :: !Selected(sel, Nth(es, j))
  }

  /** The indexed match answers exactly what the rules demand. */
  method Match(lib: Library, s: Snapshot, hash: Key -> nat, ghost es: seq<Entry>, sel: Option<Selection>, noFallback: bool, name: seq<byte>, explain: bool)
    returns (d: Decision, number: nat)
    requires Represents(s, hash, es) && Wire(name) && (noFallback ==> NoneAdmitted(s, es, sel))
    ensures Decides(lib, es, sel, name, explain, d, number)
  {
    hide RecordsEntries, ExactOK, SuffixOK, FallbackOK, Weighable, Tallies, ExactHits, SuffixHits, OtherHits, HitSet, LabelsOf, Wire, RuleOf, Selected, IsWinner, Numbers, SourcesOf;
    FallbackRange(s, es);
    RecordSizes(s, es);
    var t := MatchExact(s, hash, es, sel, name, explain);
    t := MatchSuffixes(s, hash, es, sel, name, explain, t);
    ghost var m := ExactHits(es, sel, name) + SuffixHits(es, sel, name, |LabelsOf(name)|);
    IndexedOnly(s, es, sel, name);
    if !noFallback {
      t := MatchFallback(lib, s, hash, es, sel, name, explain, t, m);
    } else {
      NothingSkipped(lib, s, es, sel, name);
      assert m == m + OtherHits(lib, es, sel, name, s.fallbackIDs);
    }
    AllHits(lib, s, es, sel, name);
    TallyMeans(lib, es, sel, name, explain, t);
    number := t.winner;
    if number == 0 {
      d := Decision(NETWORK, Forward, [], t.sources);
    } else {
      RecordMeans(s, es, sel, number);
      var r := s.metas[number - 1];
      d := Decision(RuleOf(s.arena, r).scope, if r.tier == 0 || r.tier == 2 then Allow else Block, RuleOf(s.arena, r).id, t.sources);
    }
  }

  lemma {:induction false} FallbackRange(s: Snapshot, es: seq<Entry>)
    requires FallbackOK(s, es)
    ensures OnlyRules(es, s.fallbackIDs)
  {
    forall i | 0 <= i < |s.fallbackIDs| ensures 1 <= s.fallbackIDs[i] <= |es| {
      assert FallbackAt(s, es, i);
    }
  }

  lemma {:induction false} IndexedOnly(s: Snapshot, es: seq<Entry>, sel: Option<Selection>, name: seq<byte>)
    requires FallbackOK(s, es) && Wire(name)
    ensures forall j :: j in ExactHits(es, sel, name) + SuffixHits(es, sel, name, |LabelsOf(name)|) ==> j !in s.fallbackIDs
  {
    hide Selected, LabelSuffix;
    forall i | 0 <= i < |s.fallbackIDs| ensures 1 <= s.fallbackIDs[i] <= |es| && !Indexed(Nth(es, s.fallbackIDs[i]).form) {
      assert FallbackAt(s, es, i);
    }
  }

  lemma {:induction false} NothingSkipped(lib: Library, s: Snapshot, es: seq<Entry>, sel: Option<Selection>, name: seq<byte>)
    requires Wire(name) && OnlyRules(es, s.fallbackIDs) && NoneAdmitted(s, es, sel)
    ensures OtherHits(lib, es, sel, name, s.fallbackIDs) == {}
  {
    hide Selected, Matches;
  }

  lemma {:induction false} TallyMeans(lib: Library, es: seq<Entry>, sel: Option<Selection>, name: seq<byte>, explain: bool, t: Tally)
    requires Wire(name) && Tallies(es, HitSet(lib, es, sel, name, |es|), explain, t)
    ensures Weighable(es) && t.winner <= |es| && Decides(lib, es, sel, name, explain, DecisionOf(es, t.winner, t.sources), t.winner)
  {
    hide IsWinner, HitSet, SourcesOf;
  }

  /** Whether the fallback loop has anything to do under a selection. */
  method HasEligibleFallback(s: Snapshot, ghost es: seq<Entry>, sel: Option<Selection>) returns (r: bool)
    requires RecordsEntries(s, es) && OnlyRules(es, s.fallbackIDs)
    ensures !r <==> NoneAdmitted(s, es, sel)
  {
    hide Selected, MetaSelected, RecordsEntries, RuleOf;
    RecordSizes(s, es);
    for i := 0 to |s.fallbackIDs|
      invariant forall k | 0 <= k < i :: !Selected(sel, Nth(es, s.fallbackIDs[k]))
    {
      var id := s.fallbackIDs[i];
      RecordMeans(s, es, sel, id);
      if MetaSelected(sel, s.arena, s.metas[id - 1]) {
        assert id in s.fallbackIDs;
        return true;
      }
    }
    return false;
  }

  /** The rule with a given number; zero and numbers beyond the last name no rule. */
  function RuleAt(s: Snapshot, number: nat): Option<Rule> {
    if number == 0 || number > |s.metas| then None else Some(RuleOf(s.arena, s.metas[number - 1]))
  }

  lemma {:induction false} RuleAtMeans(s: Snapshot, es: seq<Entry>, number: nat)
    requires RecordsEntries(s, es)
    ensures RuleAt(s, number) == if 1 <= number <= |es| then Some(Nth(es, number).rule) else None
  {
    if 1 <= number <= |es| {
      RecordMeans(s, es, None, number);
    }
  }
}
