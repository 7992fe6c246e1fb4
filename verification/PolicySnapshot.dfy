/** The compact snapshot: what it represents and how it matches (internal/policy/compile.go). */
module PolicySnapshot {
  import opened Common
  import opened PolicyNames
  import opened PolicyPresentation
  import opened PolicyRules
  import opened PolicyOracle
  import opened PolicyText
  import opened PolicyChains
  import PolicyExact
  import PolicySuffix

  datatype Snapshot = Snapshot(
    metas: seq<Meta>, next: seq<nat>, arena: Arena,
    exact: PolicyExact.Table, suffix: PolicySuffix.Suffixes,
    fallback: seq<Form>, fallbackIDs: seq<nat>)

  // ---- what a snapshot represents ----

  predicate Indexed(f: Form) { f.ExactForm? || f.SuffixForm? }

  function ExactKey(f: Form): Option<Key> { if f.ExactForm? then Some(f.name) else None }

  function SuffixKey(f: Form): Option<Key>
    requires GoodForm(f)
  {
    if f.SuffixForm? then Some(Reversed(f.name)) else None
  }

  ghost predicate ExactKeys(es: seq<Entry>, keyOf: seq<Option<Key>>) {
    |keyOf| == |es| && forall i | 0 <= i < |es| :: keyOf[i] == ExactKey(es[i].form)
  }

  ghost predicate SuffixKeysOf(es: seq<Entry>, keyOf: seq<Option<Key>>) {
    |keyOf| == |es| && forall i | 0 <= i < |es| :: GoodForm(es[i].form) && keyOf[i] == SuffixKey(es[i].form)
  }

  ghost predicate RecordsEntries(s: Snapshot, es: seq<Entry>) {
    && |s.metas| == |s.next| == |es|
    && forall i | 0 <= i < |es| :: RecordsEntry(s.arena, s.metas[i], es[i])
  }

  ghost predicate RecordsEntry(a: Arena, m: Meta, e: Entry) {
    GoodForm(e.form) && RuleOf(a, m) == e.rule && (m.source == 0 <==> e.rule.source == []) && m.score == Score(e.form) && m.tier == Rank(e.rule.tier)
  }

  ghost predicate ExactOK(s: Snapshot, hash: Key -> nat, es: seq<Entry>) {
    exists heads, keyOf :: ExactWith(s, hash, es, heads, keyOf)
  }

  ghost predicate ExactWith(s: Snapshot, hash: Key -> nat, es: seq<Entry>, heads: map<Key, nat>, keyOf: seq<Option<Key>>) {
    PolicyExact.TableOK(s.exact, hash, heads) && ExactKeys(es, keyOf) && Chained(s.next, heads, keyOf)
  }

  ghost predicate SuffixOK(s: Snapshot, es: seq<Entry>) {
    exists heads, keyOf :: SuffixWith(s, es, heads, keyOf)
  }

  ghost predicate SuffixWith(s: Snapshot, es: seq<Entry>, heads: map<Key, nat>, keyOf: seq<Option<Key>>) {
    PolicySuffix.SuffixTableOK(s.suffix, heads) && SuffixKeysOf(es, keyOf) && Chained(s.next, heads, keyOf)
  }

  /** The remaining rules, in order, each alone on its chain. */
  ghost predicate FallbackOK(s: Snapshot, es: seq<Entry>) {
    && |s.fallback| == |s.fallbackIDs| && |s.next| == |es|
    && (forall i | 0 <= i < |s.fallbackIDs| :: FallbackAt(s, es, i))
    && (forall i, j | 0 <= i < j < |s.fallbackIDs| :: s.fallbackIDs[i] < s.fallbackIDs[j])
    && (forall j: nat | 1 <= j <= |es| && !Indexed(Nth(es, j).form) :: j in s.fallbackIDs)
  }

  ghost predicate FallbackAt(s: Snapshot, es: seq<Entry>, i: nat)
    requires i < |s.fallback| == |s.fallbackIDs| && |s.next| == |es|
  {
    var j := s.fallbackIDs[i];
    1 <= j <= |es| && s.fallback[i] == Nth(es, j).form && !Indexed(Nth(es, j).form) && s.next[j - 1] == 0
  }

  ghost predicate Represents(s: Snapshot, hash: Key -> nat, es: seq<Entry>) {
    && RecordsEntries(s, es) && Weighable(es)
    && ExactOK(s, hash, es) && SuffixOK(s, es) && FallbackOK(s, es)
  }

  // ---- records ----

  function MetaWeight(a: Arena, m: Meta): Weight {
    Weight(ScopeRank(ScopeIn(a.scopes, IdOf(a, m)).kind), m.tier, m.score, IdOf(a, m))
  }

  predicate MetaSelected(sel: Option<Selection>, a: Arena, m: Meta) {
    Eligible(sel, ScopeIn(a.scopes, IdOf(a, m)), if m.tier < 5 then CLASSES[m.tier] else OtherClass, SharedText(a, m.source))
  }

  lemma {:induction false} RecordMeans(s: Snapshot, es: seq<Entry>, sel: Option<Selection>, j: nat)
    requires RecordsEntries(s, es) && 1 <= j <= |es|
    ensures var m, e := s.metas[j - 1], Nth(es, j);
      && GoodForm(e.form) && MetaWeight(s.arena, m) == WeightOf(e) && MetaSelected(sel, s.arena, m) == Selected(sel, e)
      && RuleOf(s.arena, m) == e.rule && SharedText(s.arena, m.source) == e.rule.source && (m.source == 0 <==> e.rule.source == [])
      && m.tier == Rank(e.rule.tier)
  {
    hide Score, Slice;
    assert RecordsEntry(s.arena, s.metas[j - 1], es[j - 1]);
  }

  // ---- visiting a chain ----

  /** The members of a chain that the selection admits. */
  ghost function Admitted(es: seq<Entry>, sel: Option<Selection>, list: seq<nat>): set<nat>
    requires OnlyRules(es, list)
  {
    set j | j in list && Selected(sel, Nth(es, j))
  }

  ghost predicate OnlyRules(es: seq<Entry>, list: seq<nat>) { forall i | 0 <= i < |list| :: 1 <= list[i] <= |es| }

  datatype Tally = Tally(winner: nat, sources: set<Text>)

  /** The tally of a set of rules: its winner and, if asked for, its sources. */
  ghost predicate Tallies(es: seq<Entry>, m: set<nat>, explain: bool, t: Tally) {
    && Weighable(es) && Numbers(es, m) && IsWinner(es, m, t.winner) && t.winner <= |es|
    && t.sources == if explain then SourcesOf(es, m) else {}
  }

  lemma {:induction false} TallyOne(es: seq<Entry>, m: set<nat>, explain: bool, t: Tally, j: nat)
    requires Tallies(es, m, explain, t) && 1 <= j <= |es| && j !in m
    ensures Tallies(es, m + {j}, explain,
      Tally(Keep(es, t.winner, j), if explain && Nth(es, j).rule.source != [] then t.sources + {Nth(es, j).rule.source} else t.sources))
  {
    hide IsWinner, Weighable, SourcesOf, WeightOf, Heavier;
    KeepWins(es, m, t.winner, j);
    SourceStep(es, m, j);
  }

  /** Counts one admitted rule. */
  method Weigh(s: Snapshot, ghost es: seq<Entry>, explain: bool, h: nat, t0: Tally, ghost m: set<nat>) returns (t: Tally)
    requires RecordsEntries(s, es) && 1 <= h <= |es| && h !in m && Tallies(es, m, explain, t0)
    ensures Tallies(es, m + {h}, explain, t)
  {
    hide RecordsEntries, Tallies, Heavier, WeightOf, RuleOf, MetaWeight, Selected, MetaSelected, SharedText;
    RecordSizes(s, es);
    TallyOne(es, m, explain, t0, h);
    TallyShape(es, m, explain, t0);
    RecordMeans(s, es, None, h);
    var r := s.metas[h - 1];
    t := t0;
    if explain && r.source != 0 {
      t := t.(sources := t.sources + {SharedText(s.arena, r.source)});
    }
    var better := t.winner == 0;
    if !better {
      RecordMeans(s, es, None, t.winner);
      better := Heavier(MetaWeight(s.arena, r), MetaWeight(s.arena, s.metas[t.winner - 1]));
    }
    if better {
      t := t.(winner := h);
    }
  }

  lemma {:induction false} RecordSizes(s: Snapshot, es: seq<Entry>)
    requires RecordsEntries(s, es)
    ensures |s.metas| == |s.next| == |es|
  {
  }

  /** Follows one chain, skipping what the selection does not admit. */
  method Visit(s: Snapshot, ghost es: seq<Entry>, sel: Option<Selection>, explain: bool, head: nat, ghost list: seq<nat>, t0: Tally, ghost m0: set<nat>)
    returns (t: Tally)
    requires RecordsEntries(s, es) && Chain(s.next, head, list) && NoRepeats(list) && OnlyRules(es, list) && (forall j :: j in list ==> j !in m0)
    requires Tallies(es, m0, explain, t0)
    ensures Tallies(es, m0 + Admitted(es, sel, list), explain, t)
  {
    hide RecordsEntries, Tallies, Selected, WeightOf, RuleOf, MetaSelected, MetaWeight;
    RecordSizes(s, es);
    var h := head;
    t := t0;
    ghost var m: set<nat>, i: nat := m0, 0;
    assert list[0..] == list;
    while h != 0
      invariant i <= |list| && Chain(s.next, h, list[i..]) && Tallies(es, m, explain, t)
      invariant m == m0 + Admitted(es, sel, list[..i])
      decreases |list| - i
    {
      assert list[i..][0] == list[i] && list[i..][1..] == list[i + 1..];
      AdmitStep(es, sel, list, i);
      RecordMeans(s, es, sel, h);
      NotYet(es, sel, list, i, m0);
      var r := s.metas[h - 1];
      if MetaSelected(sel, s.arena, r) {
        t := Weigh(s, es, explain, h, t, m);
        m := m + {h};
      }
      h := s.next[h - 1];
      i := i + 1;
    }
    assert list[i..] == [] by { ChainEnds(s.next, list[i..]); }
    assert list[..i] == list;
  }

  lemma {:induction false} ChainEnds(next: seq<nat>, list: seq<nat>)
    requires Chain(next, 0, list)
    ensures list == []
  {
  }

  lemma {:induction false} TallyShape(es: seq<Entry>, m: set<nat>, explain: bool, t: Tally)
    requires Tallies(es, m, explain, t)
    ensures t.winner <= |es| && Weighable(es)
  {
  }

  lemma {:induction false} AdmitStep(es: seq<Entry>, sel: Option<Selection>, list: seq<nat>, i: nat)
    requires OnlyRules(es, list) && i < |list|
    ensures 1 <= list[i] <= |es|
    ensures Admitted(es, sel, list[..i + 1]) ==
      if Selected(sel, Nth(es, list[i])) then Admitted(es, sel, list[..i]) + {list[i]} else Admitted(es, sel, list[..i])
  {
    hide Selected;
    assert list[..i + 1] == list[..i] + [list[i]];
  }

  lemma {:induction false} NotYet(es: seq<Entry>, sel: Option<Selection>, list: seq<nat>, i: nat, m0: set<nat>)
    requires OnlyRules(es, list) && (forall j :: j in list ==> j !in m0) && i < |list| && NoRepeats(list)
    ensures list[i] !in m0 + Admitted(es, sel, list[..i])
  {
    hide Selected;
    assert list[i] in list;
    assert forall k | 0 <= k < i :: list[..i][k] == list[k] && list[k] != list[i];
  }

  // ---- stages of a match ----

  ghost function ExactHits(es: seq<Entry>, sel: Option<Selection>, name: seq<byte>): set<nat> {
    set j: nat | 1 <= j <= |es| && Selected(sel, Nth(es, j)) && Nth(es, j).form == ExactForm(name)
  }

  /** A suffix form of at most k labels that a name ends with. */
  predicate ShortSuffix(f: Form, name: seq<byte>, k: nat)
    requires Wire(name)
  {
    f.SuffixForm? && Wire(f.name) && |LabelsOf(f.name)| <= k && LabelSuffix(LabelsOf(name), LabelsOf(f.name))
  }

  ghost function SuffixHits(es: seq<Entry>, sel: Option<Selection>, name: seq<byte>, k: nat): set<nat>
    requires Wire(name)
  {
    set j: nat | 1 <= j <= |es| && Selected(sel, Nth(es, j)) && ShortSuffix(Nth(es, j).form, name, k)
  }

  ghost function OtherHits(lib: Library, es: seq<Entry>, sel: Option<Selection>, name: seq<byte>, ids: seq<nat>): set<nat>
    requires Wire(name) && OnlyRules(es, ids)
  {
    set j | j in ids && Hits(lib, sel, Nth(es, j), name)
  }

  /** A key's chain, possibly empty. */
  lemma {:induction false} ChainFor(next: seq<nat>, heads: map<Key, nat>, keyOf: seq<Option<Key>>, k: Key) returns (list: seq<nat>)
    requires Chained(next, heads, keyOf)
    ensures Lists(next, HeadOf(heads, k), keyOf, k, list)
  {
    hide Chain;
    if k in heads {
      assert Listed(next, heads[k], keyOf, k);
      list :| Lists(next, heads[k], keyOf, k, list);
    } else {
      list := [];
      EmptyChain(next, keyOf, heads, k);
    }
  }

  lemma {:induction false} ExactStage(s: Snapshot, hash: Key -> nat, es: seq<Entry>, heads: map<Key, nat>, keyOf: seq<Option<Key>>, sel: Option<Selection>, name: seq<byte>)
    returns (list: seq<nat>)
    requires ExactWith(s, hash, es, heads, keyOf)
    ensures Chain(s.next, HeadOf(heads, name), list) && NoRepeats(list) && OnlyRules(es, list) && Admitted(es, sel, list) == ExactHits(es, sel, name)
  {
    hide Selected, Chain, NoRepeats;
    list := ChainFor(s.next, heads, keyOf, name);
    forall i | 0 <= i < |list| ensures 1 <= list[i] <= |es| {
      assert list[i] in list && Filed(keyOf, list[i], name);
    }
    forall j: nat ensures j in list <==> 1 <= j <= |es| && Nth(es, j).form == ExactForm(name) {
      assert j in list <==> Filed(keyOf, j, name);
    }
  }

  lemma {:induction false} SuffixStage(s: Snapshot, es: seq<Entry>, heads: map<Key, nat>, keyOf: seq<Option<Key>>, sel: Option<Selection>, name: seq<byte>, k: nat)
    returns (list: seq<nat>)
    requires SuffixWith(s, es, heads, keyOf) && Wire(name) && k < |LabelsOf(name)|
    ensures Chain(s.next, HeadOf(heads, Top(name, k + 1)), list) && NoRepeats(list) && OnlyRules(es, list)
    ensures SuffixHits(es, sel, name, k + 1) == SuffixHits(es, sel, name, k) + Admitted(es, sel, list)
    ensures forall j :: j in list ==> j !in SuffixHits(es, sel, name, k) && j !in ExactHits(es, sel, name)
  {
    hide Selected, Chain, NoRepeats, LabelsOf, LabelSuffix, Wire, Top, Reversed;
    var key := Top(name, k + 1);
    list := ChainFor(s.next, heads, keyOf, key);
    forall i | 0 <= i < |list| ensures 1 <= list[i] <= |es| {
      assert list[i] in list && Filed(keyOf, list[i], key);
    }
    forall j: nat
      ensures j in list <==> 1 <= j <= |es| && ShortSuffix(Nth(es, j).form, name, k + 1) && !ShortSuffix(Nth(es, j).form, name, k)
    {
      assert j in list <==> Filed(keyOf, j, key);
      if 1 <= j <= |es| && Nth(es, j).form.SuffixForm? {
        assert keyOf[j - 1] == SuffixKey(es[j - 1].form);
        FormWire(es[j - 1].form);
        SuffixKeys(name, Nth(es, j).form.name, k + 1);
      }
    }
    forall j: nat | 1 <= j <= |es| && ShortSuffix(Nth(es, j).form, name, k) ensures ShortSuffix(Nth(es, j).form, name, k + 1) {
    }
  }

  lemma {:induction false} FormWire(f: Form)
    requires GoodForm(f) && f.SuffixForm?
    ensures Wire(f.name)
  {
  }

  /** All hits are exact, suffix or other hits. */
  lemma {:induction false} AllHits(lib: Library, s: Snapshot, es: seq<Entry>, sel: Option<Selection>, name: seq<byte>)
    requires Wire(name) && FallbackOK(s, es) && Weighable(es) && OnlyRules(es, s.fallbackIDs)
    ensures HitSet(lib, es, sel, name, |es|) ==
      ExactHits(es, sel, name) + SuffixHits(es, sel, name, |LabelsOf(name)|) + OtherHits(lib, es, sel, name, s.fallbackIDs)
  {
    hide Selected, LabelsOf, Wire, AllMatch, Display;
    forall j: nat | 1 <= j <= |es| ensures Indexed(Nth(es, j).form) <==> j !in s.fallbackIDs {
      if j in s.fallbackIDs {
        var i :| 0 <= i < |s.fallbackIDs| && s.fallbackIDs[i] == j;
        assert FallbackAt(s, es, i);
      }
    }
  }
}
