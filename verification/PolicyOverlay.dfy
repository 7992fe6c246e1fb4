/** Owner rules over shared subscriptions (internal/policy/overlay.go, scope.go, compile.go). */
module PolicyOverlay {
  import opened Common
  import opened PolicyNames
  import opened PolicyRules
  import opened PolicyOracle
  import opened PolicyText
  import opened PolicyChains
  import opened PolicySnapshot
  import opened PolicyMatch
  import opened PolicyRefine

  // ---- namespaces ----

  datatype Namespace = CustomSpace | SpecialSpace | SubscriptionSpace

  const CUSTOM: Text := [99, 117, 115, 116, 111, 109, 58]
  const SCOPED: Text := [115, 99, 111, 112, 101, 100, 45, 99, 117, 115, 116, 111, 109, 58]
  const SPECIAL: Text := [115, 112, 101, 99, 105, 97, 108, 58]

  predicate HasPrefix(s: Text, p: Text) { |p| <= |s| && s[..|p|] == p }

  function NamespaceOf(id: Text): Namespace {
    if HasPrefix(id, CUSTOM) || HasPrefix(id, SCOPED) then CustomSpace
    else if HasPrefix(id, SPECIAL) then SpecialSpace
    else SubscriptionSpace
  }

  predicate OwnerRule(r: Rule) {
    || (r.tier in {CustomAllow, CustomDeny} && NamespaceOf(r.id) == CustomSpace)
    || (r.tier == SpecialDeny && NamespaceOf(r.id) == SpecialSpace)
  }

  predicate BaseRule(r: Rule) { r.tier in {SubscriptionAllow, SubscriptionDeny} && NamespaceOf(r.id) == SubscriptionSpace }

  predicate OwnerRules(rules: seq<Rule>) { forall i | 0 <= i < |rules| :: OwnerRule(rules[i]) }
  predicate BaseRules(rules: seq<Rule>) { forall i | 0 <= i < |rules| :: BaseRule(rules[i]) }

  /** The layers share no ID, so together they are a valid list exactly when both are. */
  lemma {:induction false} LayersValid(lib: Library, owner: seq<Rule>, base: seq<Rule>)
    requires OwnerRules(owner) && BaseRules(base)
    ensures ValidRules(lib, owner + base) <==> ValidRules(lib, owner) && ValidRules(lib, base)
  {
    hide ValidRule, NamespaceOf;
    var all := owner + base;
    assert forall i | 0 <= i < |owner| :: all[i] == owner[i];
    assert forall i | 0 <= i < |base| :: all[|owner| + i] == base[i];
    if ValidRules(lib, owner) && ValidRules(lib, base) {
      forall i, j | 0 <= i < j < |all| ensures all[i].id != all[j].id {
        if i < |owner| <= j {
          assert OwnerRule(owner[i]) && BaseRule(base[j - |owner|]);
        }
      }
    }
  }

  lemma {:induction false} LayersEntries(lib: Library, owner: seq<Rule>, base: seq<Rule>)
    requires ValidRules(lib, owner) && ValidRules(lib, base) && ValidRules(lib, owner + base)
    ensures EntriesOf(lib, owner + base) == EntriesOf(lib, owner) + EntriesOf(lib, base)
  {
    hide ValidRule;
  }

  // ---- two layers as one list ----

  ghost function Shift(m: set<nat>, n: nat): set<nat> { set j | j in m :: j + n }

  lemma {:induction false} HitsSplit(lib: Library, a: seq<Entry>, b: seq<Entry>, sel: Option<Selection>, name: seq<byte>)
    requires Wire(name)
    ensures HitSet(lib, a + b, sel, name, |a + b|) == HitSet(lib, a, sel, name, |a|) + Shift(HitSet(lib, b, sel, name, |b|), |a|)
  {
    hide Hits;
    var all := a + b;
    forall j: nat | 1 <= j <= |all| ensures Nth(all, j) == if j <= |a| then Nth(a, j) else Nth(b, j - |a|) {
    }
    forall j: nat
      ensures j in HitSet(lib, all, sel, name, |all|) <==>
              j in HitSet(lib, a, sel, name, |a|) || j in Shift(HitSet(lib, b, sel, name, |b|), |a|)
    {
      if j > |a| && j - |a| in HitSet(lib, b, sel, name, |b|) {
        assert j - |a| + |a| == j;
      }
    }
  }

  lemma {:induction false} SourcesSplit(a: seq<Entry>, b: seq<Entry>, m: set<nat>, n: set<nat>)
    requires Numbers(a, m) && Numbers(b, n)
    ensures Numbers(a + b, m + Shift(n, |a|)) && SourcesOf(a + b, m + Shift(n, |a|)) == SourcesOf(a, m) + SourcesOf(b, n)
  {
    var all := a + b;
    assert forall j :: j in m ==> Nth(all, j) == Nth(a, j);
    assert forall j :: j in n ==> j + |a| in Shift(n, |a|) && Nth(all, j + |a|) == Nth(b, j);
  }

  /** The better of the two layers' winners. */
  ghost function Better(a: seq<Entry>, b: seq<Entry>, wa: nat, wb: nat): nat
    requires wa <= |a| && wb <= |b| && Weighable(a) && Weighable(b)
  {
    if wb != 0 && (wa == 0 || Heavier(WeightOf(Nth(b, wb)), WeightOf(Nth(a, wa)))) then wb + |a| else wa
  }

  /** The heavier of two layers' winners wins both layers. */
  lemma {:induction false} WinnerSplit(a: seq<Entry>, b: seq<Entry>, m: set<nat>, n: set<nat>, wa: nat, wb: nat)
    requires Weighable(a) && Weighable(b) && Weighable(a + b) && Numbers(a, m) && Numbers(b, n) && Numbers(a + b, m + Shift(n, |a|))
    requires IsWinner(a, m, wa) && IsWinner(b, n, wb) && wa <= |a| && wb <= |b|
    ensures IsWinner(a + b, m + Shift(n, |a|), Better(a, b, wa, wb))
  {
    hide Heavier, WeightOf, GoodForm;
    var all, u, w := a + b, m + Shift(n, |a|), Better(a, b, wa, wb);
    forall j: nat | 1 <= j <= |all| ensures Nth(all, j) == if j <= |a| then Nth(a, j) else Nth(b, j - |a|) {
    }
    if m == {} && n == {} {
      assert u == {};
    } else {
      assert wb != 0 ==> wb in n && wb + |a| in u;
      forall j | j in u && j != w ensures Heavier(WeightOf(Nth(all, w)), WeightOf(Nth(all, j))) {
        if j in m {
          BeatsOwner(a, b, m, n, wa, wb, j);
        } else {
          var k :| k in n && k + |a| == j;
          BeatsBase(a, b, m, n, wa, wb, k);
        }
      }
    }
  }

  /** The winner of layer or overlay, as an entry. */
  function Best(a: seq<Entry>, b: seq<Entry>, w: nat): Entry
    requires 1 <= w <= |a| + |b|
  {
    if w <= |a| then Nth(a, w) else Nth(b, w - |a|)
  }

  lemma {:induction false} BetterTwo(a: seq<Entry>, b: seq<Entry>, wa: nat, wb: nat)
    requires Weighable(a) && Weighable(b) && Weighable(a + b) && 1 <= wa <= |a| && 1 <= wb <= |b|
    ensures var w := Better(a, b, wa, wb);
      if w > |a| then w == wb + |a| && Heavier(WeightOf(Nth(b, wb)), WeightOf(Nth(a, wa)))
      else w == wa && Heavier(WeightOf(Nth(a, wa)), WeightOf(Nth(b, wb)))
  {
    hide Heavier, GoodForm;
    var all := a + b;
    assert all[wa - 1] == a[wa - 1] && all[|a| + wb - 1] == b[wb - 1];
    assert all[wa - 1].rule.id != all[|a| + wb - 1].rule.id;
    HeavierTotal(WeightOf(Nth(a, wa)), WeightOf(Nth(b, wb)));
  }

  lemma {:induction false} BeatsOwner(a: seq<Entry>, b: seq<Entry>, m: set<nat>, n: set<nat>, wa: nat, wb: nat, j: nat)
    requires Weighable(a) && Weighable(b) && Weighable(a + b) && Numbers(a, m) && Numbers(b, n)
    requires IsWinner(a, m, wa) && IsWinner(b, n, wb) && wa <= |a| && wb <= |b| && j in m && j != Better(a, b, wa, wb)
    ensures 1 <= Better(a, b, wa, wb) <= |a| + |b| && Heavier(WeightOf(Best(a, b, Better(a, b, wa, wb))), WeightOf(Nth(a, j)))
  {
    hide Heavier, GoodForm, WeightOf;
    if wb != 0 {
      BetterTwo(a, b, wa, wb);
      if Better(a, b, wa, wb) > |a| && j != wa {
        HeavierTransitive(WeightOf(Nth(b, wb)), WeightOf(Nth(a, wa)), WeightOf(Nth(a, j)));
      }
    }
  }

  lemma {:induction false} BeatsBase(a: seq<Entry>, b: seq<Entry>, m: set<nat>, n: set<nat>, wa: nat, wb: nat, k: nat)
    requires Weighable(a) && Weighable(b) && Weighable(a + b) && Numbers(a, m) && Numbers(b, n)
    requires IsWinner(a, m, wa) && IsWinner(b, n, wb) && wa <= |a| && wb <= |b| && k in n && k + |a| != Better(a, b, wa, wb)
    ensures 1 <= Better(a, b, wa, wb) <= |a| + |b| && Heavier(WeightOf(Best(a, b, Better(a, b, wa, wb))), WeightOf(Nth(b, k)))
  {
    hide Heavier, GoodForm, WeightOf;
    if wa != 0 {
      BetterTwo(a, b, wa, wb);
      if Better(a, b, wa, wb) <= |a| && k != wb {
        HeavierTransitive(WeightOf(Nth(a, wa)), WeightOf(Nth(b, wb)), WeightOf(Nth(b, k)));
      }
    }
  }

  // ---- the overlay ----

  /** A view of both layers under one selection; the flags say that a layer's fallback loop has nothing to do. */
  datatype Overlay = Overlay(owner: Snapshot, base: Snapshot, selection: Option<Selection>, noFallback: bool, noBaseFallback: bool)

  ghost predicate OverlayOK(v: Overlay, hashes: (Key -> nat, Key -> nat), a: seq<Entry>, b: seq<Entry>) {
    && Represents(v.owner, hashes.0, a) && Represents(v.base, hashes.1, b) && Weighable(a + b)
    && (v.noFallback ==> NoneAdmitted(v.owner, a, v.selection)) && (v.noBaseFallback ==> NoneAdmitted(v.base, b, v.selection))
  }

  /** Compiles the owner rules over an already compiled base. */
  method CompileOverlay(lib: Library, hashes: (Key -> nat, Key -> nat), owner: seq<Rule>, base: Snapshot, ghost baseRules: seq<Rule>) returns (r: Option<Overlay>)
    requires ValidRules(lib, baseRules) && Represents(base, hashes.1, EntriesOf(lib, baseRules))
    ensures r.Some? <==> BaseRules(baseRules) && OwnerRules(owner) && ValidRules(lib, owner)
    ensures r.Some? ==>
      && OverlayOK(r.value, hashes, EntriesOf(lib, owner), EntriesOf(lib, baseRules))
      && r.value.base == base && r.value.selection == None
  {
    hide Represents, ValidRules, NamespaceOf, Weighable;
    var fine := OnlyBase(lib, base, hashes.1, baseRules);
    if !fine {
      return None;
    }
    for i := 0 to |owner|
      invariant forall k | 0 <= k < i :: OwnerRule(owner[k])
    {
      if !OwnerRule(owner[i]) {
        return None;
      }
    }
    var s := CompileSnapshot(lib, hashes.0, owner);
    if s.None? {
      return None;
    }
    LayersWeighable(lib, owner, baseRules);
    return Some(Overlay(s.value, base, None, false, false));
  }

  lemma {:induction false} LayersWeighable(lib: Library, owner: seq<Rule>, base: seq<Rule>)
    requires ValidRules(lib, owner) && ValidRules(lib, base) && OwnerRules(owner) && BaseRules(base)
    ensures Weighable(EntriesOf(lib, owner) + EntriesOf(lib, base))
  {
    hide ValidRules, Weighable, OwnerRules, BaseRules;
    LayersValid(lib, owner, base);
    LayersEntries(lib, owner, base);
    EntriesGood(lib, owner + base);
  }

  /** The recorded classes and namespaces of the base. */
  method OnlyBase(lib: Library, s: Snapshot, hash: Key -> nat, ghost rules: seq<Rule>) returns (ok: bool)
    requires ValidRules(lib, rules) && Represents(s, hash, EntriesOf(lib, rules))
    ensures ok <==> BaseRules(rules)
  {
    hide RecordsEntries, Weighable, ExactOK, SuffixOK, FallbackOK, NamespaceOf, RuleOf;
    RecordSizes(s, EntriesOf(lib, rules));
    for i := 0 to |s.metas|
      invariant forall k | 0 <= k < i :: BaseRule(rules[k])
    {
      RecordMeans(s, EntriesOf(lib, rules), None, i + 1);
      RuleIs(lib, rules, i);
      var r := RuleOf(s.arena, s.metas[i]);
      if !BaseRule(r) {
        return false;
      }
    }
    return true;
  }

  lemma {:induction false} RuleIs(lib: Library, rules: seq<Rule>, i: nat)
    requires ValidRules(lib, rules) && i < |rules|
    ensures Nth(EntriesOf(lib, rules), i + 1).rule == rules[i]
  {
  }

  /** A view under another selection: all tables are shared, only the flags are recomputed. */
  method WithSelection(v: Overlay, hashes: (Key -> nat, Key -> nat), sel: Option<Selection>, ghost a: seq<Entry>, ghost b: seq<Entry>) returns (r: Overlay)
    requires OverlayOK(v, hashes, a, b)
    ensures OverlayOK(r, hashes, a, b) && r.selection == sel && r.owner == v.owner && r.base == v.base
  {
    hide RecordsEntries, Weighable, ExactOK, SuffixOK, FallbackOK, NoneAdmitted, OnlyRules;
    FallbackRange(v.owner, a);
    FallbackRange(v.base, b);
    var own := HasEligibleFallback(v.owner, a, sel);
    var shared := HasEligibleFallback(v.base, b, sel);
    r := Overlay(v.owner, v.base, sel, !own, !shared);
  }

  /** The two-layer match answers what one list of both layers demands. */
  method MatchOverlay(lib: Library, v: Overlay, hashes: (Key -> nat, Key -> nat), name: seq<byte>, explain: bool, ghost a: seq<Entry>, ghost b: seq<Entry>)
    returns (d: Decision, number: nat)
    requires Wire(name) && OverlayOK(v, hashes, a, b)
    ensures Decides(lib, a + b, v.selection, name, explain, d, number)
  {
    hide Represents, Weighable, HitSet, Numbers, IsWinner, SourcesOf, NoneAdmitted, Wire, Heavier, WeightOf;
    WeighableParts(v, hashes, a, b);
    var own, n := Match(lib, v.owner, hashes.0, a, v.selection, v.noFallback, name, explain);
    var shared, k := Match(lib, v.base, hashes.1, b, v.selection, v.noBaseFallback, name, explain);
    d, number := own, n;
    var better := false;
    if k != 0 {
      better := n == 0;
      if !better {
        FormOf(a, n - 1);
        FormOf(b, k - 1);
        better := LayerBetter(v, hashes, n, k, own.id, shared.id, a, b);
      }
      if better {
        d, number := shared, k + |v.owner.metas|;
      }
    }
    if explain {
      d := d.(sources := own.sources + shared.sources);
    }
    OwnerSize(v, hashes, a, b);
    Combine(lib, a, b, v.selection, name, explain, own, n, shared, k);
  }

  lemma {:induction false} OwnerSize(v: Overlay, hashes: (Key -> nat, Key -> nat), a: seq<Entry>, b: seq<Entry>)
    requires OverlayOK(v, hashes, a, b)
    ensures |v.owner.metas| == |a| && |v.base.metas| == |b|
  {
    hide ExactOK, SuffixOK, FallbackOK, Weighable, NoneAdmitted;
  }

  lemma {:induction false} WeighableParts(v: Overlay, hashes: (Key -> nat, Key -> nat), a: seq<Entry>, b: seq<Entry>)
    requires OverlayOK(v, hashes, a, b)
    ensures Weighable(a) && Weighable(b)
  {
    hide ExactOK, SuffixOK, FallbackOK, Weighable, NoneAdmitted, RecordsEntries;
  }

  /** Compares the two winners by their records. */
  method LayerBetter(v: Overlay, hashes: (Key -> nat, Key -> nat), n: nat, k: nat, ownID: Text, sharedID: Text, ghost a: seq<Entry>, ghost b: seq<Entry>)
    returns (r: bool)
    requires OverlayOK(v, hashes, a, b) && 1 <= n <= |a| && 1 <= k <= |b|
    requires ownID == Nth(a, n).rule.id && sharedID == Nth(b, k).rule.id && GoodForm(Nth(a, n).form) && GoodForm(Nth(b, k).form)
    ensures r == Heavier(WeightOf(Nth(b, k)), WeightOf(Nth(a, n)))
  {
    hide ExactOK, SuffixOK, FallbackOK, Weighable, NoneAdmitted, RecordsEntries, RuleOf, Less, WeightOf;
    RecordSizes(v.owner, a);
    RecordSizes(v.base, b);
    RecordMeans(v.owner, a, None, n);
    RecordMeans(v.base, b, None, k);
    var x, y := v.owner.metas[n - 1], v.base.metas[k - 1];
    var xs := ScopeRank(ScopeIn(v.owner.arena.scopes, IdOf(v.owner.arena, x)).kind);
    var ys := ScopeRank(ScopeIn(v.base.arena.scopes, IdOf(v.base.arena, y)).kind);
    WeightIds(Nth(a, n));
    WeightIds(Nth(b, k));
    r := ys > xs || (ys == xs && (y.tier < x.tier || (y.tier == x.tier && (y.score > x.score || (y.score == x.score && Less(sharedID, ownID))))));
  }

  lemma {:induction false} WeightIds(e: Entry)
    requires GoodForm(e.form)
    ensures WeightOf(e).id == e.rule.id
  {
  }

  lemma {:induction false} Combine(lib: Library, a: seq<Entry>, b: seq<Entry>, sel: Option<Selection>, name: seq<byte>, explain: bool, own: Decision, n: nat, shared: Decision, k: nat)
    requires Wire(name) && Weighable(a) && Weighable(b) && Weighable(a + b)
    requires Decides(lib, a, sel, name, explain, own, n) && Decides(lib, b, sel, name, explain, shared, k)
    ensures n <= |a| && k <= |b|
    ensures var w := Better(a, b, n, k);
      var d := (if w > |a| then shared else own).(sources := if explain then own.sources + shared.sources else {});
      Decides(lib, a + b, sel, name, explain, d, w)
  {
    hide HitSet, IsWinner, SourcesOf, Heavier, WeightOf;
    var m, l := HitSet(lib, a, sel, name, |a|), HitSet(lib, b, sel, name, |b|);
    HitNumbers(lib, a, sel, name);
    HitNumbers(lib, b, sel, name);
    HitsSplit(lib, a, b, sel, name);
    SourcesSplit(a, b, m, l);
    WinnerSplit(a, b, m, l, n, k);
    var w := Better(a, b, n, k);
    assert w > 0 ==> Nth(a + b, w) == if w <= |a| then Nth(a, w) else Nth(b, w - |a|);
  }

  lemma {:induction false} HitNumbers(lib: Library, es: seq<Entry>, sel: Option<Selection>, name: seq<byte>)
    requires Wire(name)
    ensures Numbers(es, HitSet(lib, es, sel, name, |es|))
  {
  }

  /** Numbers of the overlay: owner rules first, then the base. */
  function OverlayRuleAt(v: Overlay, number: nat): Option<Rule> {
    if number > |v.owner.metas| then RuleAt(v.base, number - |v.owner.metas|) else RuleAt(v.owner, number)
  }

  /** The returned number names the winning rule. */
  lemma {:induction false} NumberNamesWinner(lib: Library, v: Overlay, hashes: (Key -> nat, Key -> nat), name: seq<byte>, explain: bool, a: seq<Entry>, b: seq<Entry>, d: Decision, number: nat)
    requires Wire(name) && OverlayOK(v, hashes, a, b) && Decides(lib, a + b, v.selection, name, explain, d, number)
    ensures number > 0 ==>
      && OverlayRuleAt(v, number) == Some(Nth(a + b, number).rule)
      && d.id == Nth(a + b, number).rule.id && d.scope == Nth(a + b, number).rule.scope
    ensures number == 0 <==> d.result == Forward
  {
    hide ExactOK, SuffixOK, FallbackOK, NoneAdmitted, HitSet, SourcesOf, RuleOf, RecordsEntries, IsWinner;
    OwnerSize(v, hashes, a, b);
    if number > 0 {
      if number <= |a| {
        RuleAtMeans(v.owner, a, number);
      } else {
        RuleAtMeans(v.base, b, number - |a|);
      }
    }
  }

  /**
   Compiling the layers separately and matching them under a selection gives the decision and
   the number of one snapshot of all the rules.
   */
  method OverlayEqualsFlat(lib: Library, hashes: (Key -> nat, Key -> nat), hash: Key -> nat, owner: seq<Rule>, base: seq<Rule>, sel: Option<Selection>, name: seq<byte>, explain: bool)
    returns (layered: (Decision, nat), flat: (Decision, nat), rule: Option<Rule>)
    requires Wire(name) && OwnerRules(owner) && BaseRules(base) && ValidRules(lib, owner) && ValidRules(lib, base)
    ensures layered == flat
    ensures if flat.1 == 0 then flat.0.result == Forward else rule.Some? && rule.value.id == flat.0.id && rule.value.scope == flat.0.scope
  {
    hide Represents, EntriesOf, ValidRules, Decides, Weighable, NoneAdmitted, OwnerRules, BaseRules, OverlayOK, Wire;
    var s := CompileSnapshot(lib, hashes.1, base);
    var v := CompileOverlay(lib, hashes, owner, s.value, base);
    ghost var a := EntriesIn(lib, owner);
    ghost var b := EntriesIn(lib, base);
    var w := WithSelection(v.value, hashes, sel, a, b);
    var d, n := MatchOverlay(lib, w, hashes, name, explain, a, b);
    LayersValid(lib, owner, base);
    LayersEntries(lib, owner, base);
    EntriesGood(lib, owner + base);
    var t := CompileSnapshot(lib, hash, owner + base);
    var d', n' := Match(lib, t.value, hash, a + b, sel, false, name, explain);
    DecidesOnce(lib, a + b, sel, name, explain, d, n, d', n');
    NumberNamesWinner(lib, w, hashes, name, explain, a, b, d, n);
    layered, flat, rule := (d, n), (d', n'), OverlayRuleAt(w, n);
  }
}
