/** The linear matcher as it runs (internal/policy/match.go, precedence.go). */
module PolicyOracle {
  import opened Common
  import opened PolicyNames
  import opened PolicyPresentation
  import opened PolicyRules

  // ---- glob labels ----

  lemma {:induction false} StarMatchesAll(s: Text)
    ensures GlobMatches([42], s)
    decreases |s|
  {
    if s != [] {
      StarMatchesAll(s[1..]);
    } else {
      assert [42 as byte][1..] == [];
    }
  }

  /** A glob read from its last character. */
  lemma {:induction false} GlobLast(p: Text, c: byte, s: Text)
    ensures c == 42 ==> (GlobMatches(p + [c], s) <==> GlobMatches(p, s) || (s != [] && GlobMatches(p + [c], s[..|s| - 1])))
    ensures c != 42 ==> (GlobMatches(p + [c], s) <==> s != [] && (c == 63 || c == s[|s| - 1]) && GlobMatches(p, s[..|s| - 1]))
    decreases |p|, |s|
  {
    var q := p + [c];
    if p == [] {
      assert q == [c] && q[1..] == [];
      if c == 42 {
        StarMatchesAll(s);
        if s != [] {
          StarMatchesAll(s[..|s| - 1]);
        }
      } else if |s| == 1 {
        assert s[1..] == [] && s[..0] == [];
      }
    } else {
      assert q[0] == p[0] && q[1..] == p[1..] + [c];
      GlobLast(p[1..], c, s);
      if s != [] {
        var t := s[..|s| - 1];
        GlobLast(p[1..], c, s[1..]);
        GlobLast(p, c, s[1..]);
        if t != [] {
          assert t[0] == s[0] && t[1..] == s[1..][..|s| - 2] && s[1..][|s| - 2] == s[|s| - 1];
        } else {
          assert s[1..] == [] && |s| == 1;
        }
      }
    }
  }

  /** The dynamic program over label octets: row i holds which prefixes the first i pattern characters match. */
  method LabelGlob(pattern: Text, s: Text) returns (r: bool)
    requires |s| <= 63
    ensures r == GlobMatches(pattern, s)
  {
    hide GlobMatches;
    var prev := new bool[64](_ => false);
    prev[0] := true;
    GlobNothing(s);
    for i := 0 to |pattern|
      invariant prev.Length == 64 && fresh(prev)
      invariant forall j | 0 <= j <= |s| :: prev[j] == GlobMatches(pattern[..i], s[..j])
    {
      var c := pattern[i];
      var next := new bool[64](_ => false);
      assert pattern[..i + 1] == pattern[..i] + [c];
      GlobLast(pattern[..i], c, s[..0]);
      if c == 42 {
        next[0] := prev[0];
      }
      for j := 1 to |s| + 1
        invariant next.Length == 64 && fresh(next) && next != prev
        invariant forall k | 0 <= k < j :: next[k] == GlobMatches(pattern[..i + 1], s[..k])
        invariant forall k | 0 <= k <= |s| :: prev[k] == GlobMatches(pattern[..i], s[..k])
      {
        GlobLast(pattern[..i], c, s[..j]);
        assert s[..j][..j - 1] == s[..j - 1] && s[..j][j - 1] == s[j - 1];
        if c == 42 {
          next[j] := prev[j] || next[j - 1];
        } else if c == 63 {
          next[j] := prev[j - 1];
        } else {
          next[j] := prev[j - 1] && c == s[j - 1];
        }
      }
      prev := next;
    }
    assert pattern[..|pattern|] == pattern && s[..|s|] == s;
    r := prev[|s|];
  }

  lemma {:induction false} GlobNothing(s: Text)
    ensures forall j | 0 <= j <= |s| :: GlobMatches([], s[..j]) == (j == 0)
  {
  }

  // ---- one rule ----

  method MatchesForm(lib: Library, f: Form, name: seq<byte>, labels: seq<Label>, display: Text) returns (r: bool)
    requires Wire(name) && labels == LabelsOf(name) && display == Display(name) && GoodForm(f)
    ensures r == Matches(lib, f, name)
  {
    hide GlobMatches, Display, Wire, LabelsOf;
    match f
    case ExactForm(n) => return name == n;
    case SuffixForm(n) =>
      var want := ReadLabels(n);
      r := EndsWith(labels, want);
    case WildcardForm(want) =>
      if |labels| <= |want| {
        return false;
      }
      r := EndsWith(labels, want);
    case GlobForm(ps, descendants) =>
      if descendants {
        if |labels| <= |ps| {
          return false;
        }
        r := GlobAll(ps, labels[|labels| - |ps|..]);
      } else {
        r := GlobAll(ps, labels);
      }
    case RegexForm(x) => return lib.regexMatches(x, display);
  }

  /** Compares the last labels one by one. */
  method EndsWith(labels: seq<Label>, want: seq<Label>) returns (r: bool)
    ensures r == LabelSuffix(labels, want)
  {
    if |labels| < |want| {
      return false;
    }
    var d := |labels| - |want|;
    for i := 0 to |want|
      invariant forall k | 0 <= k < i :: labels[d..][k] == want[k]
    {
      if labels[d + i] != want[i] {
        assert labels[d..][i] != want[i];
        return false;
      }
    }
    return true;
  }

  method GlobAll(ps: seq<Text>, labels: seq<Label>) returns (r: bool)
    requires GoodLabels(labels)
    ensures r == AllMatch(ps, labels)
  {
    hide GlobMatches;
    if |ps| != |labels| {
      return false;
    }
    for i := 0 to |ps|
      invariant forall k | 0 <= k < i :: GlobMatches(ps[k], labels[k])
    {
      var one := LabelGlob(ps[i], labels[i]);
      if !one {
        return false;
      }
    }
    return true;
  }

  // ---- compiling ----

  predicate ValidRule(lib: Library, r: Rule) {
    ValidScope(r) && r.id != [] && r.tier != OtherClass && CompileForm(lib, r).Some?
  }

  predicate ValidRules(lib: Library, rules: seq<Rule>) {
    && (forall i | 0 <= i < |rules| :: ValidRule(lib, rules[i]))
    && (forall i, j | 0 <= i < j < |rules| :: rules[i].id != rules[j].id)
  }

  function EntryOf(lib: Library, r: Rule): Entry
    requires ValidRule(lib, r)
  {
    Entry(r, CompileForm(lib, r).value)
  }

  function EntriesOf(lib: Library, rules: seq<Rule>): (es: seq<Entry>)
    requires forall i | 0 <= i < |rules| :: ValidRule(lib, rules[i])
    ensures |es| == |rules| && forall i | 0 <= i < |rules| :: es[i] == EntryOf(lib, rules[i])
  {
    seq(|rules|, i requires 0 <= i < |rules| => EntryOf(lib, rules[i]))
  }

  lemma {:induction false} EntriesGood(lib: Library, rules: seq<Rule>)
    requires ValidRules(lib, rules)
    ensures GoodEntries(lib, EntriesOf(lib, rules)) && Weighable(EntriesOf(lib, rules))
  {
    GoodIsWeighable(lib, EntriesOf(lib, rules));
  }

  /** Checks every rule before any is used; regular expression budgets are not modelled. */
  method CompileMatcher(lib: Library, rules: seq<Rule>) returns (r: Option<seq<Entry>>)
    ensures r.Some? <==> ValidRules(lib, rules)
    ensures r.Some? ==> r.value == EntriesOf(lib, rules)
  {
    hide CompileForm, ValidScope, Read, EntriesOf;
    var es: seq<Entry> := [];
    var seen: set<Text> := {};
    NothingRead(lib, rules);
    for i := 0 to |rules|
      invariant Read(lib, rules, i, seen, es)
    {
      ReadMeans(lib, rules, i, seen, es);
      var rule := rules[i];
      if !ValidScope(rule) || rule.id == [] || rule.id in seen || rule.tier == OtherClass {
        return None;
      }
      var form := CompileForm(lib, rule);
      if form.None? {
        return None;
      }
      seen := seen + {rule.id};
      es := es + [Entry(rule, form.value)];
    }
    ReadAll(lib, rules, seen, es);
    return Some(es);
  }

  /** The first n rules are valid, have distinct IDs, and were compiled to es. */
  ghost predicate Read(lib: Library, rules: seq<Rule>, n: nat, seen: set<Text>, es: seq<Entry>) {
    && n <= |rules| && |es| == n
    && (forall k | 0 <= k < n :: ValidRule(lib, rules[k]) && rules[k].id in seen && es[k] == Entry(rules[k], CompileForm(lib, rules[k]).value))
    && (forall k, l | 0 <= k < l < n :: rules[k].id != rules[l].id)
    && (forall id :: id in seen ==> exists k :: 0 <= k < n && rules[k].id == id)
  }

  lemma {:induction false} NothingRead(lib: Library, rules: seq<Rule>)
    ensures Read(lib, rules, 0, {}, [])
  {
  }

  /** What the next rule decides. */
  lemma {:induction false} ReadMeans(lib: Library, rules: seq<Rule>, n: nat, seen: set<Text>, es: seq<Entry>)
    requires n < |rules| && Read(lib, rules, n, seen, es)
    ensures rules[n].id in seen || !ValidRule(lib, rules[n]) ==> !ValidRules(lib, rules)
    ensures rules[n].id !in seen && ValidRule(lib, rules[n]) ==>
      Read(lib, rules, n + 1, seen + {rules[n].id}, es + [Entry(rules[n], CompileForm(lib, rules[n]).value)])
  {
    hide ValidRule;
  }

  lemma {:induction false} ReadAll(lib: Library, rules: seq<Rule>, seen: set<Text>, es: seq<Entry>)
    requires Read(lib, rules, |rules|, seen, es)
    ensures ValidRules(lib, rules) && es == EntriesOf(lib, rules)
  {
    hide ValidRule;
  }

  // ---- matching ----

  /** The linear matcher ignores scopes: without a selection only network rules apply. */
  predicate MoreSpecific(a: Weight, b: Weight) {
    if a.tier != b.tier then a.tier < b.tier
    else if a.score != b.score then a.score > b.score
    else Less(a.id, b.id)
  }

  lemma {:induction false} NetworkOnly(a: Entry, b: Entry)
    requires Selected(None, a) && Selected(None, b) && GoodForm(a.form) && GoodForm(b.form)
    ensures MoreSpecific(WeightOf(a), WeightOf(b)) == Heavier(WeightOf(a), WeightOf(b))
  {
    hide Less, Score;
  }

  lemma {:induction false} HitStep(lib: Library, es: seq<Entry>, sel: Option<Selection>, name: seq<byte>, k: nat)
    requires Wire(name) && k < |es|
    ensures HitSet(lib, es, sel, name, k + 1) ==
      if Hits(lib, sel, es[k], name) then HitSet(lib, es, sel, name, k) + {k + 1} else HitSet(lib, es, sel, name, k)
    ensures k + 1 !in HitSet(lib, es, sel, name, k) && Numbers(es, HitSet(lib, es, sel, name, k))
  {
    hide Hits;
    assert Nth(es, k + 1) == es[k];
  }

  lemma {:induction false} SourceStep(es: seq<Entry>, m: set<nat>, j: nat)
    requires Numbers(es, m) && 1 <= j <= |es|
    ensures Numbers(es, m + {j})
    ensures SourcesOf(es, m + {j}) == if Nth(es, j).rule.source != [] then SourcesOf(es, m) + {Nth(es, j).rule.source} else SourcesOf(es, m)
  {
  }

  method LinearMatch(lib: Library, es: seq<Entry>, name: seq<byte>, explain: bool) returns (d: Decision, number: nat)
    requires Wire(name) && GoodEntries(lib, es) && Weighable(es)
    ensures Decides(lib, es, None, name, explain, d, number)
  {
    hide Hits, HitSet, IsWinner, Weighable, Numbers, SourcesOf, WeightOf, Heavier, Selected, Matches, Display, Wire, LabelsOf, GoodEntries;
    var labels := ReadLabels(name);
    var display := DisplayName(name);
    var winner: nat := 0;
    var sources: set<Text> := {};
    ghost var m := HitSet(lib, es, None, name, 0);
    NoHits(lib, es, None, name);
    for k := 0 to |es|
      invariant winner <= k && m == HitSet(lib, es, None, name, k) && Numbers(es, m) && IsWinner(es, m, winner)
      invariant winner > 0 ==> Selected(None, es[winner - 1])
      invariant sources == if explain then SourcesOf(es, m) else {}
    {
      HitStep(lib, es, None, name, k);
      FormOf(es, k);
      assert Hits(lib, None, es[k], name) == (Selected(None, es[k]) && Matches(lib, es[k].form, name)) by { HitsMeans(lib, None, es[k], name); }
      if !Selected(None, es[k]) {
        continue;
      }
      var hit := MatchesForm(lib, es[k].form, name, labels, display);
      if !hit {
        continue;
      }
      SourceStep(es, m, k + 1);
      if explain && es[k].rule.source != [] {
        sources := sources + {es[k].rule.source};
      }
      KeepWins(es, m, winner, k + 1);
      var better := winner == 0;
      if !better {
        FormOf(es, winner - 1);
        NetworkOnly(es[k], es[winner - 1]);
        better := MoreSpecific(WeightOf(es[k]), WeightOf(es[winner - 1]));
      }
      if better {
        winner := k + 1;
      }
      m := m + {k + 1};
    }
    number := winner;
    d := DecisionOf(es, winner, sources);
  }

  lemma {:induction false} HitsMeans(lib: Library, sel: Option<Selection>, e: Entry, name: seq<byte>)
    requires Wire(name)
    ensures Hits(lib, sel, e, name) == (Selected(sel, e) && Matches(lib, e.form, name))
  {
  }

  lemma {:induction false} FormOf(es: seq<Entry>, k: nat)
    requires Weighable(es) && k < |es|
    ensures GoodForm(es[k].form) && Nth(es, k + 1) == es[k]
  {
  }

  lemma {:induction false} NoHits(lib: Library, es: seq<Entry>, sel: Option<Selection>, name: seq<byte>)
    requires Wire(name) && Weighable(es)
    ensures HitSet(lib, es, sel, name, 0) == {} && Numbers(es, {}) && IsWinner(es, {}, 0) && SourcesOf(es, {}) == {}
  {
  }
}
