/** The snapshot refines the linear matcher (internal/policy/compile.go against match.go, precedence.go). */
module PolicyRefine {
  import opened Common
  import opened PolicyNames
  import opened PolicyRules
  import opened PolicyOracle
  import opened PolicyText
  import opened PolicyChains
  import opened PolicySnapshot
  import opened PolicySuffix
  import opened PolicyMatch
  import opened PolicyCompile

  // ---- the pieces of a finished snapshot ----

  lemma {:induction false} FormKind(lib: Library, r: Rule)
    requires CompileForm(lib, r).Some?
    ensures var f := CompileForm(lib, r).value;
      && (f.ExactForm? <==> r.kind == Exact) && (f.SuffixForm? <==> r.kind == Suffix)
      && ExactKeyOf(lib, r) == ExactKey(f) && SuffixKeyOf(lib, r) == SuffixKey(f) && ScoreOf(lib, r) == Score(f)
      && (Indexed(f) <==> NeedsIndex(r))
  {
    hide LabelsOf, Wire, Reversed;
  }

  lemma {:induction false} EntryForm(lib: Library, rules: seq<Rule>, i: nat)
    requires ValidRules(lib, rules) && i < |rules|
    ensures var e := EntriesOf(lib, rules)[i];
      && e.rule == rules[i] && CompileForm(lib, rules[i]) == Some(e.form) && GoodForm(e.form)
      && (Indexed(e.form) <==> NeedsIndex(rules[i])) && ExactKeyOf(lib, rules[i]) == ExactKey(e.form)
      && SuffixKeyOf(lib, rules[i]) == SuffixKey(e.form) && ScoreOf(lib, rules[i]) == Score(e.form)
  {
    hide CompileForm;
    assert ValidRule(lib, rules[i]);
    FormKind(lib, rules[i]);
  }

  /** The fallback rules decide the rest of validity. */
  lemma {:induction false} FallbackDecides(lib: Library, rules: seq<Rule>, fallback: seq<Rule>, ids: seq<nat>)
    requires FallenBack(rules, fallback, ids) && (forall i | 0 <= i < |rules| :: Accepted(lib, rules[i]))
    requires forall i, j | 0 <= i < j < |rules| :: rules[i].id != rules[j].id
    ensures ValidRules(lib, fallback) <==> ValidRules(lib, rules)
  {
    hide CompileForm;
    if ValidRules(lib, fallback) {
      forall i | 0 <= i < |rules| ensures ValidRule(lib, rules[i]) {
        assert Accepted(lib, rules[i]);
        if !NeedsIndex(rules[i]) {
          assert i + 1 in ids;
          var k :| 0 <= k < |ids| && ids[k] == i + 1;
          assert ValidRule(lib, fallback[k]);
        }
      }
    }
    if ValidRules(lib, rules) {
      forall k | 0 <= k < |fallback| ensures ValidRule(lib, fallback[k]) {
        assert ValidRule(lib, rules[ids[k] - 1]);
      }
      forall a, b | 0 <= a < b < |fallback| ensures fallback[a].id != fallback[b].id {
        assert ids[a] < ids[b];
        assert rules[ids[a] - 1].id != rules[ids[b] - 1].id;
      }
    }
  }

  lemma {:induction false} RecordsComplete(lib: Library, s: Snapshot, rules: seq<Rule>, next: seq<nat>)
    requires ValidRules(lib, rules) && RecordsAll(s.arena.text, s.arena.shared, s.metas, rules) && ScopesOK(s.arena.scopes, rules)
    requires AllFacts(lib, rules, s.metas, next) && |s.next| == |next|
    ensures RecordsEntries(s, EntriesOf(lib, rules))
  {
    hide RecordsAll, ScopesOK, RuleOf, ValidRules, Accepted, CompileForm;
    var es := EntriesIn(lib, rules);
    forall i | 0 <= i < |rules| ensures RecordsEntry(s.arena, s.metas[i], es[i]) {
      EntryForm(lib, rules, i);
      RecordReads(s.arena, s.metas, rules, i);
      assert RuleFacts(lib, rules[i], s.metas[i], next[i]);
      ClassIndex(s.arena, s.metas, rules, i);
    }
  }

  lemma {:induction false} EntriesIn(lib: Library, rules: seq<Rule>) returns (es: seq<Entry>)
    requires ValidRules(lib, rules)
    ensures es == EntriesOf(lib, rules) && |es| == |rules|
  {
    es := EntriesOf(lib, rules);
  }

  lemma {:induction false} ClassIndex(a: Arena, metas: seq<Meta>, rules: seq<Rule>, i: nat)
    requires RecordsAll(a.text, a.shared, metas, rules) && i < |rules|
    ensures metas[i].tier == Rank(rules[i].tier)
  {
    assert Records(a.text, a.shared, metas[i], rules[i]);
    hide Slice, InText, Interned;
  }

  lemma {:induction false} ExactComplete(lib: Library, s: Snapshot, hash: Key -> nat, rules: seq<Rule>, heads: map<Key, nat>)
    requires ValidRules(lib, rules) && PolicyExact.TableOK(s.exact, hash, heads) && Chained(s.next, heads, ExactKeysOf(lib, rules))
    ensures ExactOK(s, hash, EntriesOf(lib, rules))
  {
    hide PolicyExact.TableOK, Chained, ExactKeyOf, CompileForm, ValidRule;
    var es, keyOf := EntriesOf(lib, rules), ExactKeysOf(lib, rules);
    forall i | 0 <= i < |es| ensures keyOf[i] == ExactKey(es[i].form) { EntryForm(lib, rules, i); }
    assert ExactWith(s, hash, es, heads, keyOf);
  }

  lemma {:induction false} SuffixComplete(lib: Library, s: Snapshot, rules: seq<Rule>, heads: map<Key, nat>)
    requires ValidRules(lib, rules) && SuffixTableOK(s.suffix, heads) && Chained(s.next, heads, SuffixKeysFor(lib, rules))
    ensures SuffixOK(s, EntriesOf(lib, rules))
  {
    hide SuffixTableOK, Chained, SuffixKeyOf, CompileForm, ValidRule, GoodForm;
    var es, keyOf := EntriesOf(lib, rules), SuffixKeysFor(lib, rules);
    forall i | 0 <= i < |es| ensures GoodForm(es[i].form) && keyOf[i] == SuffixKey(es[i].form) { EntryForm(lib, rules, i); }
    assert SuffixWith(s, es, heads, keyOf);
  }

  lemma {:induction false} FallbackComplete(lib: Library, s: Snapshot, rules: seq<Rule>, fallback: seq<Rule>)
    requires ValidRules(lib, rules) && ValidRules(lib, fallback) && FallenBack(rules, fallback, s.fallbackIDs)
    requires |s.fallback| == |fallback| && forall i | 0 <= i < |fallback| :: s.fallback[i] == EntriesOf(lib, fallback)[i].form
    requires |s.next| == |rules| && forall h: nat | h < |rules| && !NeedsIndex(rules[h]) :: s.next[h] == 0
    ensures FallbackOK(s, EntriesOf(lib, rules))
  {
    hide CompileForm, ValidRule, GoodForm;
    var es := EntriesOf(lib, rules);
    forall i | 0 <= i < |s.fallbackIDs| ensures FallbackAt(s, es, i) {
      var j := s.fallbackIDs[i];
      EntryForm(lib, rules, j - 1);
      EntryForm(lib, fallback, i);
      assert Nth(es, j) == es[j - 1] && s.next[j - 1] == 0;
    }
    forall j: nat | 1 <= j <= |es| && !Indexed(Nth(es, j).form) ensures j in s.fallbackIDs {
      EntryForm(lib, rules, j - 1);
    }
  }

  /** Rules outside the suffix index keep their links. */
  lemma {:induction false} LinksKept(lib: Library, rules: seq<Rule>, metas: seq<Meta>, next: seq<nat>, next': seq<nat>, items: seq<Item>, kk: seq<Key>)
    requires AllFacts(lib, rules, metas, next) && ItemsCover(lib, rules, items, kk) && |next'| == |next|
    requires forall h: nat | h < |next| && !HasHead(items, h + 1) :: next'[h] == next[h]
    ensures forall h: nat | h < |rules| && !NeedsIndex(rules[h]) :: next'[h] == 0
  {
    hide CompileForm, Accepted, ScoreOf;
    forall j | 0 <= j < |items| ensures 1 <= items[j].head <= |rules| && NeedsIndex(rules[items[j].head - 1]) {
      assert SuffixItem(lib, rules, items[j], kk[j]);
    }
    forall h: nat | h < |rules| && !NeedsIndex(rules[h]) ensures next'[h] == 0 {
      assert RuleFacts(lib, rules[h], metas[h], next[h]);
      assert !HasHead(items, h + 1);
    }
  }

  lemma {:induction false} NoExactKey(lib: Library, rules: seq<Rule>, items: seq<Item>, kk: seq<Key>)
    requires ItemsCover(lib, rules, items, kk)
    ensures forall i | 0 <= i < |items| :: 1 <= items[i].head <= |rules| && ExactKeysOf(lib, rules)[items[i].head - 1] == None
    ensures forall i | 0 <= i < |kk| :: |kk[i]| <= 254
  {
    hide CompileForm;
    forall i | 0 <= i < |items| ensures 1 <= items[i].head <= |rules| && ExactKeysOf(lib, rules)[items[i].head - 1] == None && |kk[i]| <= 254 {
      assert SuffixItem(lib, rules, items[i], kk[i]);
    }
  }

  // ---- completing ----

  method Complete(b: SnapshotBuild) returns (r: Option<Snapshot>)
    requires b.Valid()
    ensures r.Some? <==> ValidRules(b.lib, b.rules)
    ensures r.Some? ==> Represents(r.value, b.hash, EntriesOf(b.lib, b.rules))
  {
    hide Chained, Suffixed, FallenBack, IdsSeen, CountExact, AllFacts, PolicyExact.ExactBuilder.Valid, RecordsAll, ScopesOK, IndexOK, ValidRules,
      Spelled, NotDescending, ItemsCover, PolicyExact.TableOK, SuffixTableOK, RecordsEntries, ExactOK, SuffixOK, FallbackOK, Weighable, FileUnder, Sort, ExactKeysOf, SuffixKeysFor;
    AcceptedAll(b.lib, b.rules, b.prov.metas, b.next, b.seen);
    FallbackDecides(b.lib, b.rules, b.fallback, b.fallbackIDs);
    var m := CompileMatcher(b.lib, b.fallback);
    if m.None? {
      return None;
    }
    var table := b.exact.Complete();
    SortReady(b.lib, b.rules, b.suffixes, b.ks);
    var sorted := Suffixes(Sort(b.suffixes.keys, b.suffixes.items), b.suffixes.keys);
    ghost var kk := KeysOfItems(sorted.keys, sorted.items);
    NextSize(b.next, b.exact.heads, b.lib, b.rules);
    NoExactKey(b.lib, b.rules, sorted.items, kk);
    CoverDistinct(b.lib, b.rules, sorted.items, kk);
    var suffix, next, heads := BuildSuffixes(sorted, b.next, kk, b.exact.heads, ExactKeysOf(b.lib, b.rules));
    FiledExactly(b.lib, b.rules, sorted.items, kk);
    LinksKept(b.lib, b.rules, b.prov.metas, b.next, next, sorted.items, kk);
    var forms := FormsOf(m.value);
    var s := Snapshot(b.prov.metas, next, Arena(b.prov.text, b.prov.shared, b.prov.scopes), table, suffix, forms, b.fallbackIDs);
    EntriesGood(b.lib, b.rules);
    RecordsComplete(b.lib, s, b.rules, b.next);
    ExactComplete(b.lib, s, b.hash, b.rules, b.exact.heads);
    SuffixComplete(b.lib, s, b.rules, heads);
    FallbackComplete(b.lib, s, b.rules, b.fallback);
    return Some(s);
  }

  method FormsOf(es: seq<Entry>) returns (fs: seq<Form>)
    ensures |fs| == |es| && forall i | 0 <= i < |es| :: fs[i] == es[i].form
  {
    fs := [];
    for i := 0 to |es|
      invariant |fs| == i && forall k | 0 <= k < i :: fs[k] == es[k].form
    {
      fs := fs + [es[i].form];
    }
  }

  lemma {:induction false} AcceptedAll(lib: Library, rules: seq<Rule>, metas: seq<Meta>, next: seq<nat>, seen: set<Text>)
    requires AllFacts(lib, rules, metas, next) && IdsSeen(rules, seen)
    ensures forall i | 0 <= i < |rules| :: Accepted(lib, rules[i])
    ensures forall i, j | 0 <= i < j < |rules| :: rules[i].id != rules[j].id
  {
    hide Accepted, ScoreOf;
    forall i | 0 <= i < |rules| ensures Accepted(lib, rules[i]) { assert RuleFacts(lib, rules[i], metas[i], next[i]); }
  }

  lemma {:induction false} CoverDistinct(lib: Library, rules: seq<Rule>, items: seq<Item>, kk: seq<Key>)
    requires ItemsCover(lib, rules, items, kk)
    ensures forall i, j | 0 <= i < j < |items| :: items[i].head != items[j].head
  {
    hide SuffixItem, HasHead;
  }

  method CountExactRules(rules: seq<Rule>) returns (n: nat)
    ensures n == CountExact(rules, |rules|)
  {
    n := 0;
    for i := 0 to |rules|
      invariant n == CountExact(rules, i)
    {
      if rules[i].kind == Exact {
        n := n + 1;
      }
    }
  }

  /** The compiler accepts exactly the lists the linear compiler accepts, and the result represents them. */
  method CompileSnapshot(lib: Library, hash: Key -> nat, rules: seq<Rule>) returns (r: Option<Snapshot>)
    ensures r.Some? <==> ValidRules(lib, rules)
    ensures r.Some? ==> Represents(r.value, hash, EntriesOf(lib, rules))
  {
    hide Represents, Accepted, EntriesOf, CountExact, ValidRules, SnapshotBuild.Valid;
    var exactCount := CountExactRules(rules);
    var b := new SnapshotBuild(lib, hash, exactCount);
    assert rules[..0] == [];
    for i := 0 to |rules|
      invariant b.Valid() && b.rules == rules[..i] && fresh(b) && fresh(b.prov) && fresh(b.exact)
    {
      assert rules[..i] + [rules[i]] == rules[..i + 1];
      CountWithin(rules, i + 1);
      CountMore(rules, i + 1, |rules|);
      var ok := b.Add(rules[i]);
      if !ok {
        Refused(lib, rules, i);
        return None;
      }
    }
    assert rules[..|rules|] == rules;
    r := Complete(b);
  }

  lemma {:induction false} Refused(lib: Library, rules: seq<Rule>, i: nat)
    requires i < |rules|
    requires !(Accepted(lib, rules[i]) && forall k | 0 <= k < |rules[..i]| :: rules[..i][k].id != rules[i].id)
    ensures !ValidRules(lib, rules)
  {
    hide Accepted, ValidRules;
    if ValidRules(lib, rules) {
      ValidAccepts(lib, rules, i);
    }
  }

  lemma {:induction false} ValidAccepts(lib: Library, rules: seq<Rule>, i: nat)
    requires ValidRules(lib, rules) && i < |rules|
    ensures Accepted(lib, rules[i]) && forall k | 0 <= k < |rules[..i]| :: rules[..i][k].id != rules[i].id
  {
    hide CompileForm;
    assert ValidRule(lib, rules[i]);
    assert forall k | 0 <= k < i :: rules[..i][k] == rules[k];
    KnownKind(lib, rules[i]);
  }

  lemma {:induction false} KnownKind(lib: Library, r: Rule)
    requires CompileForm(lib, r).Some?
    ensures r.kind != OtherKind
  {
  }

  lemma {:induction false} CountWithin(rules: seq<Rule>, n: nat)
    requires n <= |rules|
    ensures CountExact(rules[..n], n) == CountExact(rules, n)
  {
    CountSame(rules[..n], rules, n);
  }

  lemma {:induction false} CountSame(a: seq<Rule>, b: seq<Rule>, n: nat)
    requires n <= |a| && n <= |b| && a[..n] == b[..n]
    ensures CountExact(a, n) == CountExact(b, n)
  {
    if n > 0 {
      assert a[n - 1] == a[..n][n - 1] == b[..n][n - 1] == b[n - 1];
      assert a[..n - 1] == a[..n][..n - 1] && b[..n - 1] == b[..n][..n - 1];
      CountSame(a, b, n - 1);
    }
  }

  // ---- refinement ----

  /**
   For every rule list and every name the snapshot and the linear matcher give the same result,
   rule, scope and set of sources.
   */
  method SnapshotRefinesLinear(lib: Library, hash: Key -> nat, rules: seq<Rule>, name: seq<byte>, explain: bool)
    returns (fast: Option<Decision>, slow: Option<Decision>)
    requires Wire(name)
    ensures fast == slow && (fast.Some? <==> ValidRules(lib, rules))
  {
    hide Represents, EntriesOf, ValidRules, Decides, Weighable, GoodEntries;
    var s := CompileSnapshot(lib, hash, rules);
    var es := CompileMatcher(lib, rules);
    if es.None? {
      return None, None;
    }
    EntriesGood(lib, rules);
    var d, number := Match(lib, s.value, hash, es.value, None, false, name, explain);
    var d', number' := LinearMatch(lib, es.value, name, explain);
    DecidesOnce(lib, es.value, None, name, explain, d, number, d', number');
    return Some(d), Some(d');
  }

  // ---- queries ----

  datatype Query = Query(name: seq<byte>, original: seq<byte>, explain: bool, local: bool, paused: bool)

  /** Local names and pauses come first; an alias is exempt only if its original question is allowed outright. */
  function Judge(q: Query, d: (Decision, nat), original: (Decision, nat)): (Decision, nat) {
    if q.local then (d.0.(result := Local, id := [], scope := NETWORK), 0)
    else if q.paused then (d.0.(result := Paused, id := [], scope := NETWORK), 0)
    else if q.name != q.original && original.0.result == Allow then
      (original.0.(sources := original.0.sources + if q.explain then d.0.sources else {}), original.1)
    else d
  }

  /** What evaluating a query must give. */
  ghost predicate Evaluates(lib: Library, es: seq<Entry>, sel: Option<Selection>, q: Query, r: (Decision, nat))
    requires Wire(q.name) && Wire(q.original) && Weighable(es)
  {
    exists d: (Decision, nat), o: (Decision, nat) ::
      && Decides(lib, es, sel, q.name, q.explain, d.0, d.1) && Decides(lib, es, sel, q.original, q.explain, o.0, o.1)
      && r == Judge(q, d, o)
  }

  lemma {:induction false} EvaluatesOnce(lib: Library, es: seq<Entry>, sel: Option<Selection>, q: Query, r: (Decision, nat), r': (Decision, nat))
    requires Wire(q.name) && Wire(q.original) && Weighable(es) && Evaluates(lib, es, sel, q, r) && Evaluates(lib, es, sel, q, r')
    ensures r == r'
  {
    hide Decides, Judge;
    var d: (Decision, nat), o: (Decision, nat) :|
      Decides(lib, es, sel, q.name, q.explain, d.0, d.1) && Decides(lib, es, sel, q.original, q.explain, o.0, o.1) && r == Judge(q, d, o);
    var d': (Decision, nat), o': (Decision, nat) :|
      Decides(lib, es, sel, q.name, q.explain, d'.0, d'.1) && Decides(lib, es, sel, q.original, q.explain, o'.0, o'.1) && r' == Judge(q, d', o');
    DecidesOnce(lib, es, sel, q.name, q.explain, d.0, d.1, d'.0, d'.1);
    DecidesOnce(lib, es, sel, q.original, q.explain, o.0, o.1, o'.0, o'.1);
  }

  method EvaluateNumber(lib: Library, s: Snapshot, hash: Key -> nat, ghost es: seq<Entry>, sel: Option<Selection>, q: Query) returns (r: (Decision, nat))
    requires Represents(s, hash, es) && Weighable(es) && Wire(q.name) && Wire(q.original)
    ensures Evaluates(lib, es, sel, q, r)
  {
    hide Represents, Weighable, Decides, NoneAdmitted, Wire;
    var d, n := Match(lib, s, hash, es, sel, false, q.name, q.explain);
    if q.local || q.paused {
      ghost var o, k := Decided(lib, es, sel, q.original, q.explain);
      r := (d.(result := if q.local then Local else Paused, id := [], scope := NETWORK), 0);
      assert r == Judge(q, (d, n), (o, k));
      return;
    }
    var o, k := Match(lib, s, hash, es, sel, false, q.original, q.explain);
    r := Judge(q, (d, n), (o, k));
  }

  /** Some decision exists for every name. */
  lemma {:induction false} Decided(lib: Library, es: seq<Entry>, sel: Option<Selection>, name: seq<byte>, explain: bool) returns (d: Decision, n: nat)
    requires Weighable(es) && Wire(name)
    ensures Decides(lib, es, sel, name, explain, d, n)
  {
    hide Weighable, HitSet, SourcesOf, Wire;
    var m := HitSet(lib, es, sel, name, |es|);
    n := BestOf(lib, es, sel, name, |es|);
    d := DecisionOf(es, n, if explain then SourcesOf(es, m) else {});
  }

  lemma {:induction false} BestOf(lib: Library, es: seq<Entry>, sel: Option<Selection>, name: seq<byte>, k: nat) returns (w: nat)
    requires Weighable(es) && Wire(name) && k <= |es|
    ensures Numbers(es, HitSet(lib, es, sel, name, k)) && w <= |es| && IsWinner(es, HitSet(lib, es, sel, name, k), w)
    decreases k
  {
    hide Weighable, HitSet, IsWinner, Hits, Wire;
    if k == 0 {
      NoHits(lib, es, sel, name);
      w := 0;
    } else {
      w := BestOf(lib, es, sel, name, k - 1);
      HitStep(lib, es, sel, name, k - 1);
      if Hits(lib, sel, es[k - 1], name) {
        KeepWins(es, HitSet(lib, es, sel, name, k - 1), w, k);
        w := Keep(es, w, k);
      }
    }
  }
}
