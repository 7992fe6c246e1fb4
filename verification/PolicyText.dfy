/** Rule records over one shared text arena (internal/policy/provenance.go). */
module PolicyText {
  import opened PolicyRules

  datatype Ref = Ref(off: nat, size: nat)

  /** A rule without its strings: ID, pattern and source text are consecutive, source and dialect are shared. */
  datatype Meta = Meta(
    off: nat, idSize: nat, patternSize: nat, textSize: nat, source: nat, dialect: nat,
    tier: nat, kind: nat, score: nat, samePattern: bool)

  const CLASSES: seq<Class> := [CustomAllow, CustomDeny, SubscriptionAllow, SubscriptionDeny, SpecialDeny]
  const KINDS: seq<Kind> := [Exact, Suffix, Wildcard, Glob, Regex]

  function KindIndex(k: Kind): nat {
    match k
    case Exact => 0
    case Suffix => 1
    case Wildcard => 2
    case Glob => 3
    case Regex => 4
    case OtherKind => 5
  }

  predicate InText(text: Text, r: Ref) { r.off + r.size <= |text| }

  function Slice(text: Text, r: Ref): Text { if InText(text, r) then text[r.off..r.off + r.size] else [] }

  function IdRef(m: Meta): Ref { Ref(m.off, m.idSize) }
  function PatternRef(m: Meta): Ref { Ref(m.off + m.idSize, m.patternSize) }
  function TextRef(m: Meta): Ref {
    if m.samePattern then PatternRef(m) else Ref(m.off + m.idSize + m.patternSize, m.textSize)
  }

  datatype Arena = Arena(text: Text, shared: seq<Ref>, scopes: map<Text, Scope>)

  function SharedText(a: Arena, i: nat): Text { if i < |a.shared| then Slice(a.text, a.shared[i]) else [] }

  function ScopeIn(scopes: map<Text, Scope>, id: Text): Scope { if id in scopes then scopes[id] else NETWORK }

  function IdOf(a: Arena, m: Meta): Text { Slice(a.text, IdRef(m)) }

  /** The rule a record stands for. */
  function RuleOf(a: Arena, m: Meta): Rule {
    Rule(
      ScopeIn(a.scopes, IdOf(a, m)), IdOf(a, m), SharedText(a, m.source), Slice(a.text, TextRef(m)),
      if m.kind < 5 then KINDS[m.kind] else OtherKind, if m.tier < 5 then CLASSES[m.tier] else OtherClass,
      Slice(a.text, PatternRef(m)), SharedText(a, m.dialect))
  }

  /** The record's strings are inside the arena and spell the rule; its shared index is zero only for the empty source. */
  ghost predicate Records(text: Text, shared: seq<Ref>, m: Meta, r: Rule) {
    && InText(text, IdRef(m)) && InText(text, PatternRef(m)) && InText(text, TextRef(m))
    && Slice(text, IdRef(m)) == r.id && Slice(text, PatternRef(m)) == r.pattern && Slice(text, TextRef(m)) == r.sourceText
    && Interned(text, shared, m.source, r.source) && Interned(text, shared, m.dialect, r.dialect)
    && m.kind == KindIndex(r.kind) && m.kind < 5 && m.tier < 5 && CLASSES[m.tier] == r.tier
  }

  ghost predicate Interned(text: Text, shared: seq<Ref>, i: nat, v: Text) {
    i < |shared| && InText(text, shared[i]) && Slice(text, shared[i]) == v && (i == 0 <==> v == [])
  }

  lemma {:induction false} SliceStays(text: Text, more: Text, r: Ref)
    requires InText(text, r)
    ensures InText(text + more, r) && Slice(text + more, r) == Slice(text, r)
  {
  }

  lemma {:induction false} InternedStays(text: Text, shared: seq<Ref>, more: Text, extra: seq<Ref>, i: nat, v: Text)
    requires Interned(text, shared, i, v)
    ensures Interned(text + more, shared + extra, i, v)
  {
    hide Slice;
    SliceStays(text, more, shared[i]);
  }

  /** Nothing already recorded changes when the arena grows. */
  lemma {:induction false} RecordsStay(text: Text, shared: seq<Ref>, more: Text, extra: seq<Ref>, m: Meta, r: Rule)
    requires Records(text, shared, m, r)
    ensures Records(text + more, shared + extra, m, r)
  {
    hide Slice, InText, Interned;
    SliceStays(text, more, IdRef(m));
    SliceStays(text, more, PatternRef(m));
    SliceStays(text, more, TextRef(m));
    InternedStays(text, shared, more, extra, m.source, r.source);
    InternedStays(text, shared, more, extra, m.dialect, r.dialect);
  }

  ghost predicate IndexOK(text: Text, shared: seq<Ref>, index: map<Text, nat>) {
    [] in index && forall v :: v in index ==> Interned(text, shared, index[v], v)
  }

  /** Only rules with an owner have an entry; the others are network-wide. */
  ghost predicate ScopesOK(scopes: map<Text, Scope>, rules: seq<Rule>) {
    && (forall i | 0 <= i < |rules| :: ScopeIn(scopes, rules[i].id) == rules[i].scope)
    && (forall id :: id in scopes ==> exists i :: 0 <= i < |rules| && rules[i].id == id)
  }

  ghost predicate RecordsAll(text: Text, shared: seq<Ref>, metas: seq<Meta>, rules: seq<Rule>) {
    |metas| == |rules| && forall i | 0 <= i < |metas| :: Records(text, shared, metas[i], rules[i])
  }

  /** Growth of the arena keeps every record and every shared string. */
  lemma {:induction false} GrowKeeps(text: Text, shared: seq<Ref>, index: map<Text, nat>, metas: seq<Meta>, rules: seq<Rule>, more: Text, extra: seq<Ref>)
    requires IndexOK(text, shared, index) && RecordsAll(text, shared, metas, rules)
    ensures IndexOK(text + more, shared + extra, index) && RecordsAll(text + more, shared + extra, metas, rules)
  {
    hide Records, Interned;
    forall i | 0 <= i < |metas| ensures Records(text + more, shared + extra, metas[i], rules[i]) {
      RecordsStay(text, shared, more, extra, metas[i], rules[i]);
    }
    forall v | v in index ensures Interned(text + more, shared + extra, index[v], v) {
      InternedStays(text, shared, more, extra, index[v], v);
    }
  }

  lemma {:induction false} NewInterned(text: Text, shared: seq<Ref>, v: Text)
    requires |shared| > 0 && v != []
    ensures Interned(text + v, shared + [Ref(|text|, |v|)], |shared|, v)
  {
  }

  /** One text is the start of another. */
  ghost predicate Extends(a: Text, b: Text) { |a| <= |b| && b[..|a|] == a }

  lemma {:induction false} ExtendsTransitive(a: Text, b: Text, c: Text)
    requires Extends(a, b) && Extends(b, c)
    ensures Extends(a, c)
  {
    assert c[..|a|] == c[..|b|][..|a|];
  }

  lemma {:induction false} SliceExtends(a: Text, b: Text, r: Ref)
    requires Extends(a, b) && InText(a, r)
    ensures InText(b, r) && Slice(b, r) == Slice(a, r)
  {
    assert b == a + b[|a|..];
    SliceStays(a, b[|a|..], r);
  }

  /** A rule's strings, written one after the other. */
  lemma {:induction false} Written(text: Text, id: Text, pattern: Text, rest: Text)
    ensures var t := text + (id + pattern + rest);
      && InText(t, Ref(|text|, |id|)) && Slice(t, Ref(|text|, |id|)) == id
      && InText(t, Ref(|text| + |id|, |pattern|)) && Slice(t, Ref(|text| + |id|, |pattern|)) == pattern
      && InText(t, Ref(|text| + |id| + |pattern|, |rest|)) && Slice(t, Ref(|text| + |id| + |pattern|, |rest|)) == rest
  {
    var t := text + (id + pattern + rest);
    assert t == text + id + pattern + rest;
  }

  lemma {:induction false} NewScope(scopes: map<Text, Scope>, rules: seq<Rule>, r: Rule)
    requires ScopesOK(scopes, rules) && ValidScope(r) && forall i | 0 <= i < |rules| :: rules[i].id != r.id
    ensures ScopesOK(if r.scope.kind == Network then scopes else scopes[r.id := r.scope], rules + [r])
  {
    var all := rules + [r];
    assert all[|rules|] == r && forall i | 0 <= i < |rules| :: all[i] == rules[i];
    assert r.id !in scopes;
  }

  class Provenance {
    var text: Text
    var shared: seq<Ref>
    var index: map<Text, nat>
    var metas: seq<Meta>
    var scopes: map<Text, Scope>
    /** The rules recorded so far. */
    ghost var rules: seq<Rule>

    ghost predicate Valid()
      reads this
    {
      |shared| > 0 && IndexOK(text, shared, index) && ScopesOK(scopes, rules) && RecordsAll(text, shared, metas, rules)
    }

    constructor ()
      ensures Valid() && rules == [] && metas == []
    {
      text, shared, index, metas, scopes, rules := [], [Ref(0, 0)], map[[] := 0], [], map[], [];
    }

    /** Stores a shared string once. */
    method Intern(v: Text) returns (i: nat)
      requires Valid()
      modifies this`text, this`shared, this`index
      ensures Valid() && i < |shared| && Interned(text, shared, i, v)
      ensures Extends(old(text), text) && |old(shared)| <= |shared| && shared[..|old(shared)|] == old(shared)
    {
      hide RecordsAll, Interned, ScopesOK;
      if v in index {
        InternedRange(text, shared, index[v], v);
        return index[v];
      }
      i := |shared|;
      GrowKeeps(text, shared, index, metas, rules, v, [Ref(|text|, |v|)]);
      NewInterned(text, shared, v);
      shared, text := shared + [Ref(|text|, |v|)], text + v;
      index := index[v := i];
    }

    /** Writes one rule's strings and its record. */
    method Record(r: Rule, score: nat)
      requires Valid() && ValidScope(r) && r.tier != OtherClass && r.kind != OtherKind
      requires forall i | 0 <= i < |rules| :: rules[i].id != r.id
      modifies this
      ensures Valid() && rules == old(rules) + [r]
      ensures |metas| == |old(metas)| + 1 && metas[|old(metas)|].score == score && metas[..|old(metas)|] == old(metas)
    {
      hide RecordsAll, Interned, Slice, InText, ScopesOK, ValidScope, IndexOK, Extends;
      var same := r.sourceText == r.pattern;
      var off := |text|;
      var rest := if same then [] else r.sourceText;
      GrowKeeps(text, shared, index, metas, rules, r.id + r.pattern + rest, []);
      assert shared + [] == shared;
      Written(text, r.id, r.pattern, rest);
      text := text + (r.id + r.pattern + rest);
      ghost var written := text;
      var source := Intern(r.source);
      ghost var middle, refs := text, shared;
      var dialect := Intern(r.dialect);
      ExtendsTransitive(written, middle, text);
      var m := Meta(off, |r.id|, |r.pattern|, |rest|, source, dialect, Rank(r.tier), KindIndex(r.kind), score, same);
      InternedExtends(middle, refs, text, shared, source, r.source);
      NewRecord(written, text, shared, m, r);
      RecordsMore(text, shared, metas, rules, m, r);
      NewScope(scopes, rules, r);
      metas := metas + [m];
      if r.scope.kind != Network {
        scopes := scopes[r.id := r.scope];
      }
      rules := rules + [r];
    }
  }

  lemma {:induction false} InternedRange(text: Text, shared: seq<Ref>, i: nat, v: Text)
    requires Interned(text, shared, i, v)
    ensures i < |shared|
  {
  }

  lemma {:induction false} InternedExtends(a: Text, refs: seq<Ref>, b: Text, shared: seq<Ref>, i: nat, v: Text)
    requires Interned(a, refs, i, v) && Extends(a, b) && |refs| <= |shared| && shared[..|refs|] == refs
    ensures Interned(b, shared, i, v)
  {
    hide Slice;
    assert shared[i] == refs[i];
    SliceExtends(a, b, refs[i]);
  }

  lemma {:induction false} NewRecord(written: Text, text: Text, shared: seq<Ref>, m: Meta, r: Rule)
    requires Extends(written, text) && r.tier != OtherClass && r.kind != OtherKind
    requires InText(written, IdRef(m)) && Slice(written, IdRef(m)) == r.id
    requires InText(written, PatternRef(m)) && Slice(written, PatternRef(m)) == r.pattern
    requires InText(written, TextRef(m)) && Slice(written, TextRef(m)) == r.sourceText
    requires Interned(text, shared, m.source, r.source) && Interned(text, shared, m.dialect, r.dialect)
    requires m.kind == KindIndex(r.kind) && m.tier == Rank(r.tier)
    ensures Records(text, shared, m, r)
  {
    hide Slice, Interned, Extends, InText;
    SliceExtends(written, text, IdRef(m));
    SliceExtends(written, text, PatternRef(m));
    SliceExtends(written, text, TextRef(m));
  }

  lemma {:induction false} RecordsMore(text: Text, shared: seq<Ref>, metas: seq<Meta>, rules: seq<Rule>, m: Meta, r: Rule)
    requires RecordsAll(text, shared, metas, rules) && Records(text, shared, m, r)
    ensures RecordsAll(text, shared, metas + [m], rules + [r])
  {
    hide Records;
  }

  /** A record reads back as the rule it was made from, scope included. */
  lemma {:induction false} RecordReads(a: Arena, metas: seq<Meta>, rules: seq<Rule>, i: nat)
    requires RecordsAll(a.text, a.shared, metas, rules) && ScopesOK(a.scopes, rules) && i < |rules|
    ensures RuleOf(a, metas[i]) == rules[i] && (metas[i].source == 0 <==> rules[i].source == [])
  {
    assert Records(a.text, a.shared, metas[i], rules[i]);
    assert ScopeIn(a.scopes, rules[i].id) == rules[i].scope;
    hide Slice, InText;
    assert KINDS[metas[i].kind] == rules[i].kind;
  }
}
