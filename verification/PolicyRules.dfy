/** Rules, precedence and the linear matcher (internal/policy/rule.go, scope.go, match.go, precedence.go). */
module PolicyRules {
  import opened Common
  import opened PolicyNames
  import opened PolicyPresentation

  type Text = seq<byte>

  datatype Class = CustomAllow | CustomDeny | SubscriptionAllow | SubscriptionDeny | SpecialDeny | OtherClass
  datatype Kind = Exact | Suffix | Wildcard | Glob | Regex | OtherKind
  datatype ScopeKind = Network | Profile | Client | OtherScope
  datatype Scope = Scope(kind: ScopeKind, id: Text)

  const NETWORK: Scope := Scope(Network, [])

  datatype Rule = Rule(scope: Scope, id: Text, source: Text, sourceText: Text, kind: Kind, tier: Class, pattern: Text, dialect: Text)

  /** Name normalisation, glob splitting and regular expressions are foreign code. */
  datatype Library = Library(
    normalize: Text -> Option<seq<byte>>,
    glob: Text -> Option<(seq<Text>, bool)>,
    regexOK: Text -> bool,
    regexMatches: (Text, Text) -> bool)

  // ---- compiled forms ----

  datatype Form =
    | ExactForm(name: seq<byte>)
    | SuffixForm(name: seq<byte>)
    | WildcardForm(labels: seq<Label>)
    | GlobForm(patterns: seq<Text>, descendants: bool)
    | RegexForm(expression: Text)

  predicate GoodForm(f: Form) { (f.ExactForm? || f.SuffixForm?) ==> ValidName(f.name) && f.name != [] }

  /** A configured name: never the root. */
  function Normalize(lib: Library, p: Text): Option<seq<byte>> {
    var n := lib.normalize(p);
    if n.Some? && ValidName(n.value) && n.value != [] then n else None
  }

  const GO: Text := [103, 111]

  function CompileForm(lib: Library, r: Rule): (f: Option<Form>)
    ensures f.Some? ==> GoodForm(f.value)
  {
    if r.kind != Regex && r.dialect != [] then None
    else
      match r.kind
      case Exact => var n := Normalize(lib, r.pattern); if n.Some? then Some(ExactForm(n.value)) else None
      case Suffix => var n := Normalize(lib, r.pattern); if n.Some? then Some(SuffixForm(n.value)) else None
      case Wildcard =>
        if |r.pattern| < 2 || r.pattern[0] != 42 || r.pattern[1] != DOT then None
        else
          var n := Normalize(lib, r.pattern[2..]);
          if n.Some? then Some(WildcardForm(LabelsOf(n.value))) else None
      case Glob => var g := lib.glob(r.pattern); if g.Some? then Some(GlobForm(g.value.0, g.value.1)) else None
      case Regex => if r.dialect in {[], GO} && lib.regexOK(r.pattern) then Some(RegexForm(r.pattern)) else None
      case OtherKind => None
  }

  predicate ValidScope(r: Rule) {
    && (if r.scope.kind == Network then r.scope.id == [] else r.scope.kind in {Profile, Client} && r.scope.id != [])
    && (r.scope.kind != Network ==> r.tier in {CustomAllow, CustomDeny})
  }

  /** Entries pair a rule with its form. */
  datatype Entry = Entry(rule: Rule, form: Form)

  predicate GoodEntry(lib: Library, e: Entry) {
    ValidScope(e.rule) && e.rule.id != [] && e.rule.tier != OtherClass && CompileForm(lib, e.rule) == Some(e.form)
  }

  predicate DistinctIds(es: seq<Entry>) {
    forall i, j | 0 <= i < j < |es| :: es[i].rule.id != es[j].rule.id
  }

  predicate GoodEntries(lib: Library, es: seq<Entry>) {
    (forall i | 0 <= i < |es| :: GoodEntry(lib, es[i])) && DistinctIds(es)
  }

  // ---- matching ----

  /** '*' stands for any octets, '?' for one. */
  predicate GlobMatches(pattern: Text, s: Text)
    decreases |pattern|, |s|
  {
    if pattern == [] then s == []
    else if pattern[0] == 42 then GlobMatches(pattern[1..], s) || (s != [] && GlobMatches(pattern, s[1..]))
    else s != [] && (pattern[0] == 63 || pattern[0] == s[0]) && GlobMatches(pattern[1..], s[1..])
  }

  predicate AllMatch(patterns: seq<Text>, labels: seq<Label>) {
    |patterns| == |labels| && forall i | 0 <= i < |patterns| :: GlobMatches(patterns[i], labels[i])
  }

  predicate Matches(lib: Library, f: Form, name: seq<byte>)
    requires Wire(name)
  {
    match f
    case ExactForm(n) => name == n
    case SuffixForm(n) => Wire(n) && LabelSuffix(LabelsOf(name), LabelsOf(n))
    case WildcardForm(ls) => |LabelsOf(name)| > |ls| && LabelSuffix(LabelsOf(name), ls)
    case GlobForm(ps, descendants) =>
      var ls := LabelsOf(name);
      if descendants then |ls| > |ps| && AllMatch(ps, ls[|ls| - |ps|..]) else AllMatch(ps, ls)
    case RegexForm(x) => lib.regexMatches(x, Display(name))
  }

  // ---- scopes and selections ----

  datatype Selection = Selection(profile: Text, client: Text, sources: set<Text>)

  predicate Eligible(sel: Option<Selection>, scope: Scope, c: Class, source: Text) {
    && (scope.kind == Client ==> sel.Some? && scope.id == sel.value.client)
    && (scope.kind == Profile ==> sel.Some? && scope.id == sel.value.profile)
    && (sel.None? || (c != SubscriptionAllow && c != SubscriptionDeny) || source in sel.value.sources)
  }

  predicate Selected(sel: Option<Selection>, e: Entry) { Eligible(sel, e.rule.scope, e.rule.tier, e.rule.source) }

  function ScopeRank(k: ScopeKind): nat { match k case Client => 2 case Profile => 1 case _ => 0 }

  function Rank(c: Class): int {
    match c
    case CustomAllow => 0
    case CustomDeny => 1
    case SubscriptionAllow => 2
    case SubscriptionDeny => 3
    case SpecialDeny => 4
    case OtherClass => -1
  }

  function Score(f: Form): nat
    requires GoodForm(f)
  {
    match f
    case ExactForm(n) => 2 * |LabelsOf(n)| + 1
    case SuffixForm(n) => 2 * |LabelsOf(n)|
    case _ => 0
  }

  /** Scores fit one octet: a name has at most 127 labels. */
  lemma {:induction false} ScoreFits(f: Form)
    requires GoodForm(f)
    ensures Score(f) <= 255
  {
    if f.ExactForm? || f.SuffixForm? {
      FewLabels(f.name);
    }
  }

  // ---- precedence ----

  /** Byte-wise lexicographic order. */
  predicate Less(a: Text, b: Text)
    decreases |a|
  {
    b != [] && (a == [] || a[0] < b[0] || (a[0] == b[0] && Less(a[1..], b[1..])))
  }

  lemma {:induction false} LessTotal(a: Text, b: Text)
    ensures a != b ==> Less(a, b) || Less(b, a)
    ensures !(Less(a, b) && Less(b, a)) && !Less(a, a)
    decreases |a|
  {
    if a != [] {
      if b != [] {
        LessTotal(a[1..], b[1..]);
        assert a[0] == b[0] && a[1..] == b[1..] ==> a == [a[0]] + a[1..] == [b[0]] + b[1..] == b;
      }
      LessTotal(a[1..], a[1..]);
    }
  }

  lemma {:induction false} LessTransitive(a: Text, b: Text, c: Text)
    requires Less(a, b) && Less(b, c)
    ensures Less(a, c)
    decreases |a|
  {
    if a != [] && a[0] == b[0] == c[0] {
      LessTransitive(a[1..], b[1..], c[1..]);
    }
  }

  /** What decides between two entries: scope, class, score, then the ID. */
  datatype Weight = Weight(scope: nat, tier: int, score: nat, id: Text)

  function WeightOf(e: Entry): Weight
    requires GoodForm(e.form)
  {
    Weight(ScopeRank(e.rule.scope.kind), Rank(e.rule.tier), Score(e.form), e.rule.id)
  }

  predicate Heavier(a: Weight, b: Weight) {
    a.scope > b.scope || (a.scope == b.scope &&
      (a.tier < b.tier || (a.tier == b.tier &&
        (a.score > b.score || (a.score == b.score && Less(a.id, b.id))))))
  }

  lemma {:induction false} HeavierTotal(a: Weight, b: Weight)
    ensures a.id != b.id ==> Heavier(a, b) || Heavier(b, a)
    ensures !(Heavier(a, b) && Heavier(b, a))
  {
    LessTotal(a.id, b.id);
  }

  lemma {:induction false} HeavierTransitive(a: Weight, b: Weight, c: Weight)
    requires Heavier(a, b) && Heavier(b, c)
    ensures Heavier(a, c)
  {
    if Less(a.id, b.id) && Less(b.id, c.id) {
      LessTransitive(a.id, b.id, c.id);
    }
  }

  // ---- winners ----

  /** Rules are numbered from one. */
  function Nth(es: seq<Entry>, j: nat): Entry
    requires 1 <= j <= |es|
  {
    es[j - 1]
  }

  ghost predicate Numbers(es: seq<Entry>, m: set<nat>) { forall j :: j in m ==> 1 <= j <= |es| }

  ghost predicate Weighable(es: seq<Entry>) { DistinctIds(es) && forall i | 0 <= i < |es| :: GoodForm(es[i].form) }

  /** Entry w outweighs all others of the set; no entry wins an empty set. */
  ghost predicate IsWinner(es: seq<Entry>, m: set<nat>, w: nat)
    requires Weighable(es) && Numbers(es, m)
  {
    if m == {} then w == 0
    else w in m && forall j :: j in m && j != w ==> Heavier(WeightOf(Nth(es, w)), WeightOf(Nth(es, j)))
  }

  /** A set has one winner, however it was found. */
  lemma {:induction false} WinnerUnique(es: seq<Entry>, m: set<nat>, v: nat, w: nat)
    requires Weighable(es) && Numbers(es, m) && IsWinner(es, m, v) && IsWinner(es, m, w)
    ensures v == w
  {
    if m != {} && v != w {
      HeavierTotal(WeightOf(Nth(es, v)), WeightOf(Nth(es, w)));
    }
  }

  function Keep(es: seq<Entry>, w: nat, j: nat): nat
    requires Weighable(es) && w <= |es| && 1 <= j <= |es|
  {
    if w == 0 || Heavier(WeightOf(Nth(es, j)), WeightOf(Nth(es, w))) then j else w
  }

  /** Keeping the heavier of two keeps the winner, in whatever order entries come. */
  lemma {:induction false} KeepWins(es: seq<Entry>, m: set<nat>, w: nat, j: nat)
    requires Weighable(es) && Numbers(es, m) && IsWinner(es, m, w) && 1 <= j <= |es|
    ensures w <= |es| && Numbers(es, m + {j}) && (j !in m ==> IsWinner(es, m + {j}, Keep(es, w, j)))
  {
    hide Heavier;
    if j !in m && w != 0 {
      var a, b := WeightOf(Nth(es, w)), WeightOf(Nth(es, j));
      assert Nth(es, w).rule.id != Nth(es, j).rule.id;
      HeavierTotal(a, b);
      forall k | k in m && k != w && Heavier(b, a) ensures Heavier(b, WeightOf(Nth(es, k))) {
        HeavierTransitive(b, a, WeightOf(Nth(es, k)));
      }
    }
  }

  // ---- decisions ----

  datatype Outcome = Forward | Allow | Block | Local | Paused
  datatype Decision = Decision(scope: Scope, result: Outcome, id: Text, sources: set<Text>)

  predicate Hits(lib: Library, sel: Option<Selection>, e: Entry, name: seq<byte>)
    requires Wire(name)
  {
    Selected(sel, e) && Matches(lib, e.form, name)
  }

  /** Numbers, from one, of the entries among the first k that apply to a name. */
  ghost function HitSet(lib: Library, es: seq<Entry>, sel: Option<Selection>, name: seq<byte>, k: nat): set<nat>
    requires Wire(name) && k <= |es|
  {
    set j: nat | 1 <= j <= k && Hits(lib, sel, Nth(es, j), name)
  }

  ghost function SourcesOf(es: seq<Entry>, m: set<nat>): set<Text>
    requires Numbers(es, m)
  {
    set j | j in m && Nth(es, j).rule.source != [] :: Nth(es, j).rule.source
  }

  function ResultFor(c: Class): Outcome { if c in {CustomAllow, SubscriptionAllow} then Allow else Block }

  function DecisionOf(es: seq<Entry>, w: nat, sources: set<Text>): Decision
    requires w <= |es|
  {
    if w == 0 then Decision(NETWORK, Forward, [], sources)
    else Decision(Nth(es, w).rule.scope, ResultFor(Nth(es, w).rule.tier), Nth(es, w).rule.id, sources)
  }

  /** What a matcher must answer: the heaviest applicable entry, and on request the sources of all of them. */
  ghost predicate Decides(lib: Library, es: seq<Entry>, sel: Option<Selection>, name: seq<byte>, explain: bool, d: Decision, number: nat)
    requires Wire(name) && Weighable(es)
  {
    var m := HitSet(lib, es, sel, name, |es|);
    && number <= |es| && IsWinner(es, m, number)
    && d == DecisionOf(es, number, if explain then SourcesOf(es, m) else {})
  }

  /** The answer is determined by the entries alone. */
  lemma {:induction false} DecidesOnce(lib: Library, es: seq<Entry>, sel: Option<Selection>, name: seq<byte>, explain: bool, d: Decision, n: nat, d': Decision, n': nat)
    requires Wire(name) && Weighable(es)
    requires Decides(lib, es, sel, name, explain, d, n) && Decides(lib, es, sel, name, explain, d', n')
    ensures d == d' && n == n'
  {
    WinnerUnique(es, HitSet(lib, es, sel, name, |es|), n, n');
  }

  lemma {:induction false} GoodIsWeighable(lib: Library, es: seq<Entry>)
    requires GoodEntries(lib, es)
    ensures Weighable(es)
  {
    forall i | 0 <= i < |es| ensures GoodForm(es[i].form) {
      assert GoodEntry(lib, es[i]);
    }
  }
}
