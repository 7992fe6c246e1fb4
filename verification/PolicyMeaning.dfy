/**
 What a decision means for the owner (internal/policy/precedence.go), said of the rules alone: which rules apply, which
 of them decide, whether they allow or block, and how a query about an alias, a local name or a pause is answered.
 */
module PolicyMeaning {
  import opened Common
  import opened PolicyNames
  import opened PolicyPresentation
  import opened PolicyRules
  import opened PolicyRefine

  // ---- which rules apply ----

  /** Rules of the network are for everyone, others for one client or profile; a selection names the subscriptions it takes. */
  predicate MeantFor(sel: Option<Selection>, r: Rule) {
    && (match r.scope.kind
        case Client => sel.Some? && sel.value.client == r.scope.id
        case Profile => sel.Some? && sel.value.profile == r.scope.id
        case Network => true
        case OtherScope => true)
    && (r.tier == SubscriptionAllow || r.tier == SubscriptionDeny ==> sel.None? || r.source in sel.value.sources)
  }

  /**
   Which names a rule is about: its own; its own and those below it; only those below it; names whose labels, or whose last
   labels with at least one more before them, each fit a pattern; names whose printed form a regular expression accepts.
   */
  ghost predicate About(lib: Library, r: Rule, name: seq<byte>)
    requires Wire(name)
  {
    var labels := LabelsOf(name);
    match r.kind
    case Exact => lib.normalize(r.pattern) == Some(name)
    case Suffix => exists n :: lib.normalize(r.pattern) == Some(n) && Wire(n) && EndsIn(labels, LabelsOf(n))
    case Wildcard =>
      |r.pattern| >= 2 && exists n :: lib.normalize(r.pattern[2..]) == Some(n) && Wire(n) && EndsIn(labels, LabelsOf(n)) && |labels| > |LabelsOf(n)|
    case Glob =>
      lib.glob(r.pattern).Some? &&
      (var (patterns, below) := lib.glob(r.pattern).value;
       if below then |labels| > |patterns| && AllMatch(patterns, labels[|labels| - |patterns|..]) else AllMatch(patterns, labels))
    case Regex => lib.regexMatches(r.pattern, Display(name))
    case OtherKind => false
  }

  /** The last labels of a name are these. */
  ghost predicate EndsIn(labels: seq<Label>, last: seq<Label>) { exists before :: labels == before + last }

  lemma {:induction false} SuffixMeans(labels: seq<Label>, last: seq<Label>)
    ensures LabelSuffix(labels, last) <==> EndsIn(labels, last)
  {
    if LabelSuffix(labels, last) {
      assert labels == labels[..|labels| - |last|] + last;
    }
  }

  lemma {:induction false} AboutIff(lib: Library, e: Entry, name: seq<byte>)
    requires Wire(name) && CompileForm(lib, e.rule) == Some(e.form)
    ensures Matches(lib, e.form, name) <==> About(lib, e.rule, name)
  {
    hide LabelsOf, Wire, ValidName, LabelSuffix, EndsIn, Display, AllMatch;
    var labels, r := LabelsOf(name), e.rule;
    if e.form.SuffixForm? {
      NormalWire(lib, r.pattern);
      SuffixMeans(labels, LabelsOf(e.form.name));
    } else if e.form.WildcardForm? {
      NormalWire(lib, r.pattern[2..]);
      SuffixMeans(labels, e.form.labels);
    }
  }

  lemma {:induction false} NormalWire(lib: Library, p: Text)
    ensures Normalize(lib, p).Some? ==> lib.normalize(p) == Normalize(lib, p) && Wire(Normalize(lib, p).value)
  {
  }

  ghost predicate Applies(lib: Library, es: seq<Entry>, sel: Option<Selection>, name: seq<byte>, j: nat)
    requires Wire(name)
  {
    1 <= j <= |es| && MeantFor(sel, es[j - 1].rule) && About(lib, es[j - 1].rule, name)
  }

  lemma {:induction false} AppliesIff(lib: Library, es: seq<Entry>, sel: Option<Selection>, name: seq<byte>, j: nat)
    requires Wire(name) && GoodEntries(lib, es)
    ensures Applies(lib, es, sel, name, j) <==> j in HitSet(lib, es, sel, name, |es|)
  {
    hide Matches, Wire, About, CompileForm, ValidScope, DistinctIds;
    if 1 <= j <= |es| {
      assert GoodEntry(lib, es[j - 1]);
      AboutIff(lib, es[j - 1], name);
    }
  }

  /** Which rules are taken: a scope that fits its class, a name, a class, and a pattern of its kind that its library accepts. */
  lemma {:induction false} TakenIff(lib: Library, r: Rule)
    ensures ValidScope(r) && r.id != [] && r.tier != OtherClass && CompileForm(lib, r).Some? <==>
      && (r.scope == Scope(Network, []) || ((r.scope.kind == Profile || r.scope.kind == Client) && r.scope.id != [] && (r.tier == CustomAllow || r.tier == CustomDeny)))
      && r.id != [] && r.tier != OtherClass
      && match r.kind
         case Exact => r.dialect == [] && Normalize(lib, r.pattern).Some?
         case Suffix => r.dialect == [] && Normalize(lib, r.pattern).Some?
         case Wildcard => r.dialect == [] && |r.pattern| >= 2 && r.pattern[..2] == [42, 46] && Normalize(lib, r.pattern[2..]).Some?
         case Glob => r.dialect == [] && lib.glob(r.pattern).Some?
         case Regex => (r.dialect == [] || r.dialect == [103, 111]) && lib.regexOK(r.pattern)
         case OtherKind => false
  {
    hide Normalize;
    if r.kind == Wildcard && |r.pattern| >= 2 {
      assert r.pattern[..2] == [r.pattern[0], r.pattern[1]];
    }
  }

  // ---- which rules decide ----

  /** The more specific scope: a client's before a profile's, a profile's before the network's. */
  predicate Closer(a: ScopeKind, b: ScopeKind) { (a == Client && b != Client) || (a == Profile && b != Client && b != Profile) }

  /** An applicable rule, and none with a more specific scope applies. */
  ghost predicate Foremost(lib: Library, es: seq<Entry>, sel: Option<Selection>, name: seq<byte>, j: nat)
    requires Wire(name)
  {
    && Applies(lib, es, sel, name, j)
    && forall k: nat | Applies(lib, es, sel, name, k) :: !Closer(es[k - 1].rule.scope.kind, es[j - 1].rule.scope.kind)
  }

  /** Some foremost rule is of this class. */
  ghost predicate Speaks(lib: Library, es: seq<Entry>, sel: Option<Selection>, name: seq<byte>, c: Class)
    requires Wire(name)
  {
    exists j: nat :: Foremost(lib, es, sel, name, j) && es[j - 1].rule.tier == c
  }

  /** The class that has the say among foremost rules: the owner's before subscriptions, each time allowing before denying. */
  ghost predicate Deciding(lib: Library, es: seq<Entry>, sel: Option<Selection>, name: seq<byte>, c: Class)
    requires Wire(name)
  {
    && Speaks(lib, es, sel, name, c)
    && (c != CustomAllow ==> !Speaks(lib, es, sel, name, CustomAllow))
    && (c != CustomAllow && c != CustomDeny ==> !Speaks(lib, es, sel, name, CustomDeny))
    && (c == SubscriptionDeny || c == SpecialDeny ==> !Speaks(lib, es, sel, name, SubscriptionAllow))
    && (c == SpecialDeny ==> !Speaks(lib, es, sel, name, SubscriptionDeny))
  }

  /** Labels an exact or suffix rule names; other forms are unspecific. */
  function Labelled(f: Form): nat
    requires GoodForm(f)
  {
    if f.ExactForm? || f.SuffixForm? then |LabelsOf(f.name)| else 0
  }

  /** More labels make a rule more specific, and with equally many an exact name. */
  predicate MoreSpecific(f: Form, g: Form)
    requires GoodForm(f) && GoodForm(g)
  {
    Labelled(f) > Labelled(g) || (Labelled(f) == Labelled(g) && f.ExactForm? && g.SuffixForm?)
  }

  /** The text precedes the other: where they first differ it has the smaller octet, or it ends. */
  ghost predicate Precedes(a: Text, b: Text) {
    exists p: nat :: FirstDifference(a, b, p)
  }

  ghost predicate FirstDifference(a: Text, b: Text, p: nat) {
    p <= |a| && p < |b| && a[..p] == b[..p] && (p == |a| || a[p] < b[p])
  }

  lemma {:induction false} LessPrecedes(a: Text, b: Text)
    ensures Less(a, b) <==> Precedes(a, b)
    decreases |a|
  {
    if b != [] {
      if a == [] || a[0] < b[0] {
        assert FirstDifference(a, b, 0);
      } else {
        if a[0] == b[0] {
          LessPrecedes(a[1..], b[1..]);
          if Precedes(a[1..], b[1..]) {
            var p: nat :| FirstDifference(a[1..], b[1..], p);
            DifferenceLater(a, b, p);
          }
        }
        forall p: nat | FirstDifference(a, b, p) ensures a[0] == b[0] && Precedes(a[1..], b[1..]) {
          DifferenceSooner(a, b, p);
        }
      }
    }
  }

  lemma {:induction false} DifferenceLater(a: Text, b: Text, p: nat)
    requires a != [] && b != [] && a[0] == b[0] && FirstDifference(a[1..], b[1..], p)
    ensures FirstDifference(a, b, p + 1)
  {
    assert a[..p + 1] == [a[0]] + a[1..][..p] && b[..p + 1] == [b[0]] + b[1..][..p];
  }

  lemma {:induction false} DifferenceSooner(a: Text, b: Text, p: nat)
    requires a != [] && b != [] && a[0] >= b[0] && FirstDifference(a, b, p)
    ensures a[0] == b[0] && FirstDifference(a[1..], b[1..], p - 1) && p > 0
  {
    assert p > 0;
    assert a[..p][0] == b[..p][0];
    assert a[1..][..p - 1] == a[..p][1..] && b[1..][..p - 1] == b[..p][1..];
  }

  /** Rule j has the say: foremost, of the deciding class, most specific there, and of those the first by ID. */
  ghost predicate HasTheSay(lib: Library, es: seq<Entry>, sel: Option<Selection>, name: seq<byte>, j: nat)
    requires Wire(name) && Weighable(es)
  {
    && Foremost(lib, es, sel, name, j) && Deciding(lib, es, sel, name, es[j - 1].rule.tier)
    && forall k: nat | Foremost(lib, es, sel, name, k) && es[k - 1].rule.tier == es[j - 1].rule.tier && k != j ::
         && !MoreSpecific(es[k - 1].form, es[j - 1].form)
         && (MoreSpecific(es[j - 1].form, es[k - 1].form) || Precedes(es[j - 1].rule.id, es[k - 1].rule.id))
  }

  // ---- the weights say the same ----

  lemma {:induction false} ScoreMeans(f: Form, g: Form)
    requires GoodForm(f) && GoodForm(g)
    ensures Score(f) > Score(g) <==> MoreSpecific(f, g)
  {
    hide LabelsOf, ValidName;
    SomeLabels(f);
    SomeLabels(g);
  }

  lemma {:induction false} SomeLabels(f: Form)
    requires GoodForm(f)
    ensures f.ExactForm? || f.SuffixForm? ==> Labelled(f) >= 1
  {
  }

  lemma {:induction false} Outweighs(a: Entry, b: Entry)
    requires GoodForm(a.form) && GoodForm(b.form) && a.rule.tier != OtherClass && b.rule.tier != OtherClass
    requires Heavier(WeightOf(a), WeightOf(b))
    ensures !Closer(b.rule.scope.kind, a.rule.scope.kind)
    ensures !Closer(a.rule.scope.kind, b.rule.scope.kind) ==> Before(a.rule.tier, b.rule.tier)
    ensures !Closer(a.rule.scope.kind, b.rule.scope.kind) && a.rule.tier == b.rule.tier ==>
      !MoreSpecific(b.form, a.form) && (MoreSpecific(a.form, b.form) || Precedes(a.rule.id, b.rule.id))
  {
    hide Less, Precedes, MoreSpecific, Score;
    ScoreMeans(a.form, b.form);
    ScoreMeans(b.form, a.form);
    LessPrecedes(a.rule.id, b.rule.id);
  }

  /** A class speaks before another, or is the same. */
  predicate Before(a: Class, b: Class) {
    && (b == CustomAllow ==> a == CustomAllow)
    && (b == CustomDeny ==> a == CustomAllow || a == CustomDeny)
    && (b == SubscriptionAllow ==> a == CustomAllow || a == CustomDeny || a == SubscriptionAllow)
    && (b == SubscriptionDeny ==> a != SpecialDeny)
  }

  /** The rule gives way to the other: by its scope, else its class, else its pattern, else its identifier. */
  ghost predicate Yields(k: Entry, w: Entry) {
    && GoodForm(k.form) && GoodForm(w.form)
    && !Closer(k.rule.scope.kind, w.rule.scope.kind)
    && (!Closer(w.rule.scope.kind, k.rule.scope.kind) ==>
          && Before(w.rule.tier, k.rule.tier)
          && (w.rule.tier == k.rule.tier ==> !MoreSpecific(k.form, w.form) && (MoreSpecific(w.form, k.form) || Precedes(w.rule.id, k.rule.id))))
  }

  lemma {:induction false} OthersYield(lib: Library, es: seq<Entry>, sel: Option<Selection>, name: seq<byte>, w: nat, k: nat)
    requires GoodEntries(lib, es) && Weighable(es) && Wire(name) && IsWinner(es, HitSet(lib, es, sel, name, |es|), w) && w != 0
    requires k in HitSet(lib, es, sel, name, |es|) && k != w && 1 <= k <= |es| && 1 <= w <= |es|
    ensures Yields(es[k - 1], es[w - 1])
  {
    HitNumbers(lib, es, sel, name);
    hide Wire, Heavier, Closer, MoreSpecific, Precedes, WeightOf, HitSet, CompileForm, Before;
    assert GoodEntry(lib, es[k - 1]) && GoodEntry(lib, es[w - 1]);
    Outweighs(es[w - 1], es[k - 1]);
  }

  lemma {:induction false} WinnerHasTheSay(lib: Library, es: seq<Entry>, sel: Option<Selection>, name: seq<byte>, w: nat)
    requires GoodEntries(lib, es) && Weighable(es) && Wire(name) && IsWinner(es, HitSet(lib, es, sel, name, |es|), w) && w != 0
    ensures HasTheSay(lib, es, sel, name, w)
  {
    HitNumbers(lib, es, sel, name);
    WinnerIn(es, HitSet(lib, es, sel, name, |es|), w);
    hide GoodEntries, Wire, Weighable, HitSet, Applies, Yields, IsWinner, HasTheSay;
    forall k: nat ensures Applies(lib, es, sel, name, k) <==> k in HitSet(lib, es, sel, name, |es|) { AppliesIff(lib, es, sel, name, k); }
    forall k: nat | Applies(lib, es, sel, name, k) && k != w ensures 1 <= k <= |es| && Yields(es[k - 1], es[w - 1]) {
      OthersYield(lib, es, sel, name, w, k);
    }
    YieldingHasTheSay(lib, es, sel, name, w);
  }

  lemma {:induction false} HitNumbers(lib: Library, es: seq<Entry>, sel: Option<Selection>, name: seq<byte>)
    requires Wire(name)
    ensures Numbers(es, HitSet(lib, es, sel, name, |es|))
  {
    hide Wire, Hits;
  }

  lemma {:induction false} WinnerIn(es: seq<Entry>, m: set<nat>, w: nat)
    requires Weighable(es) && Numbers(es, m) && IsWinner(es, m, w) && w != 0
    ensures w in m
  {
  }

  lemma {:induction false} YieldingHasTheSay(lib: Library, es: seq<Entry>, sel: Option<Selection>, name: seq<byte>, w: nat)
    requires Wire(name) && Weighable(es) && Applies(lib, es, sel, name, w) && 1 <= w <= |es|
    requires forall k: nat | Applies(lib, es, sel, name, k) && k != w :: 1 <= k <= |es| && Yields(es[k - 1], es[w - 1])
    ensures HasTheSay(lib, es, sel, name, w)
  {
    hide Applies, MoreSpecific, Precedes, Closer;
    NotCloserToItself(es[w - 1].rule.scope.kind);
    assert Foremost(lib, es, sel, name, w);
  }

  lemma {:induction false} NotCloserToItself(k: ScopeKind)
    ensures !Closer(k, k)
  {
  }

  // ---- the decision ----

  /**
   What a decision says: nothing applies and the query is forwarded; or the rule that has the say is named with its scope,
   and the query is allowed when its class allows and blocked when it denies. On request all applicable sources are listed.
   */
  ghost predicate Ruled(lib: Library, es: seq<Entry>, sel: Option<Selection>, name: seq<byte>, explain: bool, d: Decision, number: nat)
    requires Wire(name) && Weighable(es)
  {
    && (if forall j: nat :: !Applies(lib, es, sel, name, j) then number == 0 && d.result == Forward && d.id == [] && d.scope == Scope(Network, [])
        else
          && HasTheSay(lib, es, sel, name, number)
          && d.id == es[number - 1].rule.id && d.scope == es[number - 1].rule.scope
          && (Speaks(lib, es, sel, name, CustomAllow) ==> d.result == Allow)
          && (!Speaks(lib, es, sel, name, CustomAllow) && Speaks(lib, es, sel, name, CustomDeny) ==> d.result == Block)
          && (!Speaks(lib, es, sel, name, CustomAllow) && !Speaks(lib, es, sel, name, CustomDeny) ==>
                if Speaks(lib, es, sel, name, SubscriptionAllow) then d.result == Allow else d.result == Block))
    && (forall s :: s in d.sources <==> explain && s != [] && exists j: nat :: Applies(lib, es, sel, name, j) && es[j - 1].rule.source == s)
  }

  lemma {:induction false} DecisionMeans(lib: Library, es: seq<Entry>, sel: Option<Selection>, name: seq<byte>, explain: bool, d: Decision, number: nat)
    requires GoodEntries(lib, es) && Weighable(es) && Wire(name) && Decides(lib, es, sel, name, explain, d, number)
    ensures Ruled(lib, es, sel, name, explain, d, number)
  {
    hide About, Wire, HitSet, MeantFor, CompileForm, Foremost, GoodEntries, Weighable;
    var m := HitSet(lib, es, sel, name, |es|);
    forall k: nat ensures Applies(lib, es, sel, name, k) <==> k in m { AppliesIff(lib, es, sel, name, k); }
    if number != 0 {
      WinnerHasTheSay(lib, es, sel, name, number);
      KnownClass(lib, es, number);
      hide HasTheSay;
      SayDecides(lib, es, sel, name, number);
    }
    SourcesMean(lib, es, sel, name, m);
  }

  lemma {:induction false} KnownClass(lib: Library, es: seq<Entry>, j: nat)
    requires GoodEntries(lib, es) && 1 <= j <= |es|
    ensures es[j - 1].rule.tier != OtherClass
  {
    hide CompileForm;
    assert GoodEntry(lib, es[j - 1]);
  }

  lemma {:induction false} SayDecides(lib: Library, es: seq<Entry>, sel: Option<Selection>, name: seq<byte>, j: nat)
    requires Weighable(es) && Wire(name) && HasTheSay(lib, es, sel, name, j)
    ensures Applies(lib, es, sel, name, j) && Deciding(lib, es, sel, name, es[j - 1].rule.tier)
  {
    hide Applies, Deciding;
  }

  lemma {:induction false} SourcesMean(lib: Library, es: seq<Entry>, sel: Option<Selection>, name: seq<byte>, m: set<nat>)
    requires Wire(name) && Numbers(es, m) && forall k: nat :: Applies(lib, es, sel, name, k) <==> k in m
    ensures forall s :: s in SourcesOf(es, m) <==> s != [] && exists j: nat :: Applies(lib, es, sel, name, j) && es[j - 1].rule.source == s
  {
    hide Applies;
    forall s ensures s in SourcesOf(es, m) <==> s != [] && exists j: nat :: Applies(lib, es, sel, name, j) && es[j - 1].rule.source == s {
      if j: nat :| Applies(lib, es, sel, name, j) && es[j - 1].rule.source == s && s != [] {
        assert j in m && Nth(es, j).rule.source == s;
      }
    }
  }

  // ---- the query ----

  /**
   How a query is answered: a local name locally, else during a pause as paused, in both cases without rule; else as the
   question the client originally asked if that is allowed, with the sources of both; else as its own name.
   */
  lemma {:induction false} EvaluationMeans(lib: Library, es: seq<Entry>, sel: Option<Selection>, q: Query, r: (Decision, nat))
    requires GoodEntries(lib, es) && Weighable(es) && Wire(q.name) && Wire(q.original) && Evaluates(lib, es, sel, q, r)
    ensures q.local ==> r.0.result == Local
    ensures !q.local && q.paused ==> r.0.result == Paused
    ensures q.local || q.paused ==> r.0.id == [] && r.0.scope == Scope(Network, []) && r.1 == 0
    ensures exists d: (Decision, nat), o: (Decision, nat) ::
      && Ruled(lib, es, sel, q.name, q.explain, d.0, d.1) && Ruled(lib, es, sel, q.original, q.explain, o.0, o.1)
      && (!q.local && !q.paused ==>
            if q.name != q.original && o.0.result == Allow then
              r.0.result == Allow && r.0.id == o.0.id && r.0.scope == o.0.scope && r.1 == o.1 && r.0.sources == o.0.sources + d.0.sources
            else r == d)
      && (q.local || q.paused ==> r.0.sources == d.0.sources)
  {
    hide Decides, Ruled, GoodEntries, Weighable, Wire;
    var d: (Decision, nat), o: (Decision, nat) :|
      Decides(lib, es, sel, q.name, q.explain, d.0, d.1) && Decides(lib, es, sel, q.original, q.explain, o.0, o.1) && r == Judge(q, d, o);
    DecisionMeans(lib, es, sel, q.name, q.explain, d.0, d.1);
    DecisionMeans(lib, es, sel, q.original, q.explain, o.0, o.1);
    if !q.explain {
      NoSources(lib, es, sel, q.name, d.0, d.1);
      assert o.0.sources + {} == o.0.sources;
    }
  }

  lemma {:induction false} NoSources(lib: Library, es: seq<Entry>, sel: Option<Selection>, name: seq<byte>, d: Decision, number: nat)
    requires Wire(name) && Weighable(es) && Ruled(lib, es, sel, name, false, d, number)
    ensures d.sources == {}
  {
    hide HasTheSay, Speaks, Applies;
  }
}
