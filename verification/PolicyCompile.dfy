/** Compiling rules into a snapshot (internal/policy/compile.go, compileSnapshot). */
module PolicyCompile {
  import opened Common
  import opened PolicyNames
  import opened PolicyRules
  import opened PolicyText
  import opened PolicyChains
  import opened PolicySnapshot
  import opened PolicySuffix

  // ---- sorting suffix items ----

  function KeyAt(keys: seq<byte>, x: Item): Key {
    if x.off < |keys| && x.off + 1 + keys[x.off] <= |keys| then keys[x.off + 1..x.off + 1 + keys[x.off]] else []
  }

  function Insert(keys: seq<byte>, x: Item, s: seq<Item>): (r: seq<Item>)
    ensures |r| == |s| + 1
  {
    if s == [] || !Less(KeyAt(keys, s[0]), KeyAt(keys, x)) then [x] + s else [s[0]] + Insert(keys, x, s[1..])
  }

  /** The library sort; the index is correct for every order of equal keys. */
  function Sort(keys: seq<byte>, s: seq<Item>): (r: seq<Item>)
    ensures |r| == |s|
  {
    if s == [] then [] else Insert(keys, s[0], Sort(keys, s[1..]))
  }

  ghost predicate SortedItems(keys: seq<byte>, s: seq<Item>) {
    forall i, j | 0 <= i < j < |s| :: !Less(KeyAt(keys, s[j]), KeyAt(keys, s[i]))
  }

  ghost predicate DistinctHeads(s: seq<Item>) { forall i, j | 0 <= i < j < |s| :: s[i].head != s[j].head }

  lemma {:induction false} InsertMembers(keys: seq<byte>, x: Item, s: seq<Item>, y: Item)
    ensures y in Insert(keys, x, s) <==> y == x || y in s
  {
    if s != [] {
      InsertMembers(keys, x, s[1..], y);
      assert s == [s[0]] + s[1..];
    }
  }

  lemma {:induction false} SortMembers(keys: seq<byte>, s: seq<Item>, y: Item)
    ensures y in Sort(keys, s) <==> y in s
  {
    if s != [] {
      SortMembers(keys, s[1..], y);
      InsertMembers(keys, s[0], Sort(keys, s[1..]), y);
      assert s == [s[0]] + s[1..];
    }
  }

  lemma {:induction false} InsertSorted(keys: seq<byte>, x: Item, s: seq<Item>)
    requires SortedItems(keys, s)
    ensures SortedItems(keys, Insert(keys, x, s))
  {
    hide KeyAt, Less;
    var r := Insert(keys, x, s);
    if s == [] {
    } else if !Less(KeyAt(keys, s[0]), KeyAt(keys, x)) {
      forall i, j | 0 <= i < j < |r| ensures !Less(KeyAt(keys, r[j]), KeyAt(keys, r[i])) {
        assert r[j] == s[j - 1];
        if i == 0 && j > 1 { NotLessTransitive(KeyAt(keys, x), KeyAt(keys, s[0]), KeyAt(keys, s[j - 1])); }
      }
    } else {
      var rest := s[1..];
      InsertSorted(keys, x, rest);
      var t := Insert(keys, x, rest);
      forall j | 0 <= j < |t| ensures !Less(KeyAt(keys, t[j]), KeyAt(keys, s[0])) {
        InsertMembers(keys, x, rest, t[j]);
        if t[j] != x {
          var k :| 0 <= k < |rest| && rest[k] == t[j];
          assert rest[k] == s[k + 1];
        } else {
          LessTotal(KeyAt(keys, s[0]), KeyAt(keys, x));
        }
      }
      assert r == [s[0]] + t;
    }
  }

  lemma {:induction false} NotLessTransitive(a: Key, b: Key, c: Key)
    requires !Less(b, a) && !Less(c, b)
    ensures !Less(c, a)
  {
    hide Less;
    LessTotal(a, b);
    LessTotal(b, c);
    if Less(c, a) {
      if a != b { LessTransitive(c, a, b); }
    }
  }

  lemma {:induction false} SortSorted(keys: seq<byte>, s: seq<Item>)
    ensures SortedItems(keys, Sort(keys, s))
  {
    if s != [] {
      SortSorted(keys, s[1..]);
      InsertSorted(keys, s[0], Sort(keys, s[1..]));
    }
  }

  lemma {:induction false} InsertDistinct(keys: seq<byte>, x: Item, s: seq<Item>)
    requires DistinctHeads(s) && forall y :: y in s ==> y.head != x.head
    ensures DistinctHeads(Insert(keys, x, s))
  {
    if s != [] && Less(KeyAt(keys, s[0]), KeyAt(keys, x)) {
      var rest := s[1..];
      assert forall y :: y in rest ==> y in s;
      InsertDistinct(keys, x, rest);
      var t := Insert(keys, x, rest);
      forall j | 0 <= j < |t| ensures t[j].head != s[0].head {
        InsertMembers(keys, x, rest, t[j]);
        assert s[0] in s;
        if t[j] != x {
          var k :| 0 <= k < |rest| && rest[k] == t[j];
          assert rest[k] == s[k + 1];
        }
      }
      assert Insert(keys, x, s) == [s[0]] + t;
    }
  }

  lemma {:induction false} SortDistinct(keys: seq<byte>, s: seq<Item>)
    requires DistinctHeads(s)
    ensures DistinctHeads(Sort(keys, s))
  {
    if s != [] {
      var rest := s[1..];
      SortDistinct(keys, rest);
      forall y | y in Sort(keys, rest) ensures y.head != s[0].head {
        SortMembers(keys, rest, y);
        var k :| 0 <= k < |rest| && rest[k] == y;
        assert rest[k] == s[k + 1];
      }
      InsertDistinct(keys, s[0], Sort(keys, rest));
    }
  }

  // ---- the compile loop ----

  /** Checks made before a rule is indexed. */
  predicate Admissible(r: Rule) { ValidScope(r) && r.id != [] && r.tier != OtherClass && r.kind != OtherKind }

  predicate NeedsIndex(r: Rule) { r.kind == Exact || r.kind == Suffix }

  /** A rule the loop has accepted. */
  predicate Accepted(lib: Library, r: Rule) { Admissible(r) && (NeedsIndex(r) ==> CompileForm(lib, r).Some?) }

  function ExactKeyOf(lib: Library, r: Rule): Option<Key> {
    if r.kind == Exact && CompileForm(lib, r).Some? then ExactKey(CompileForm(lib, r).value) else None
  }

  function SuffixKeyOf(lib: Library, r: Rule): Option<Key> {
    if r.kind == Suffix && CompileForm(lib, r).Some? then SuffixKey(CompileForm(lib, r).value) else None
  }

  function ScoreOf(lib: Library, r: Rule): nat {
    if NeedsIndex(r) && CompileForm(lib, r).Some? then Score(CompileForm(lib, r).value) else 0
  }

  function ExactKeysOf(lib: Library, rules: seq<Rule>): (r: seq<Option<Key>>)
    ensures |r| == |rules| && forall i | 0 <= i < |rules| :: r[i] == ExactKeyOf(lib, rules[i])
  {
    seq(|rules|, i requires 0 <= i < |rules| => ExactKeyOf(lib, rules[i]))
  }

  function SuffixKeysFor(lib: Library, rules: seq<Rule>): (r: seq<Option<Key>>)
    ensures |r| == |rules| && forall i | 0 <= i < |rules| :: r[i] == SuffixKeyOf(lib, rules[i])
  {
    seq(|rules|, i requires 0 <= i < |rules| => SuffixKeyOf(lib, rules[i]))
  }

  function CountExact(rules: seq<Rule>, n: nat): (r: nat)
    requires n <= |rules|
    ensures r <= n
  {
    if n == 0 then 0 else CountExact(rules, n - 1) + if rules[n - 1].kind == Exact then 1 else 0
  }

  lemma {:induction false} CountMore(rules: seq<Rule>, n: nat, m: nat)
    requires n <= m <= |rules|
    ensures CountExact(rules, n) <= CountExact(rules, m)
    decreases m - n
  {
    if n < m {
      CountMore(rules, n, m - 1);
    }
  }

  /** Counts labels by twos in one octet; a name is too short for the count to wrap. */
  method LabelScore(name: seq<byte>) returns (score: nat)
    requires ValidName(name)
    ensures score == 2 * |LabelsOf(name)|
  {
    hide LabelsOf, Wire;
    FewLabels(name);
    score := 0;
    var i: nat := 0;
    ghost var ls: seq<Label> := [];
    assert name[0..] == name;
    while i < |name|
      invariant i <= |name| && Wire(name[i..]) && LabelsOf(name) == ls + LabelsOf(name[i..]) && score == 2 * |ls|
      decreases |name| - i
    {
      LabelsStep(name, i);
      score := (score + 2) % 256;
      ls := ls + [name[i + 1..i + 1 + name[i]]];
      i := i + 1 + name[i];
    }
    LabelsNone();
    assert name[i..] == [] && ls + [] == ls;
  }

  /** Suffix items of the rules read so far: one per suffix rule, in order, under its reversed name. */
  ghost predicate Suffixed(lib: Library, rules: seq<Rule>, t: Suffixes, ks: seq<Key>) {
    && Spelled(t, ks)
    && (forall j | 0 <= j < |ks| :: SuffixItem(lib, rules, t.items[j], ks[j]))
    && DistinctHeads(t.items)
    && (forall h: nat | 1 <= h <= |rules| && SuffixKeyOf(lib, rules[h - 1]).Some? :: HasHead(t.items, h))
  }

  ghost predicate SuffixItem(lib: Library, rules: seq<Rule>, x: Item, k: Key) {
    1 <= x.head <= |rules| && SuffixKeyOf(lib, rules[x.head - 1]) == Some(k) && |k| <= 254
  }

  /** Fallback rules read so far, with their numbers. */
  ghost predicate FallenBack(rules: seq<Rule>, fallback: seq<Rule>, ids: seq<nat>) {
    && |fallback| == |ids|
    && (forall i | 0 <= i < |ids| :: 1 <= ids[i] <= |rules| && fallback[i] == rules[ids[i] - 1] && !NeedsIndex(fallback[i]))
    && (forall i, j | 0 <= i < j < |ids| :: ids[i] < ids[j])
    && (forall h: nat | 1 <= h <= |rules| && !NeedsIndex(rules[h - 1]) :: h in ids)
  }

  // ---- one more rule ----

  lemma {:induction false} ExactPlain(lib: Library, next: seq<nat>, heads: map<Key, nat>, rules: seq<Rule>, r: Rule)
    requires Chained(next, heads, ExactKeysOf(lib, rules)) && ExactKeyOf(lib, r) == None
    ensures Chained(next + [0], heads, ExactKeysOf(lib, rules + [r]))
  {
    hide Chained, ExactKeyOf;
    AppendPlain(next, heads, ExactKeysOf(lib, rules));
    assert ExactKeysOf(lib, rules + [r]) == ExactKeysOf(lib, rules) + [None];
  }

  lemma {:induction false} ExactLink(lib: Library, next: seq<nat>, heads: map<Key, nat>, rules: seq<Rule>, r: Rule, k: Key)
    requires Chained(next, heads, ExactKeysOf(lib, rules)) && ExactKeyOf(lib, r) == Some(k)
    ensures |next| == |rules| && Chained(next + [HeadOf(heads, k)], heads[k := |next| + 1], ExactKeysOf(lib, rules + [r]))
  {
    hide ExactKeyOf, Listed, Filed;
    var keys := ExactKeysOf(lib, rules);
    AppendPlain(next, heads, keys);
    LinkIn(next + [0], heads, keys + [None], |next| + 1, k);
    assert (next + [0])[|next| := HeadOf(heads, k)] == next + [HeadOf(heads, k)];
    assert (keys + [None])[|next| := Some(k)] == keys + [Some(k)] == ExactKeysOf(lib, rules + [r]);
  }

  lemma {:induction false} SuffixedPlain(lib: Library, rules: seq<Rule>, t: Suffixes, ks: seq<Key>, r: Rule)
    requires Suffixed(lib, rules, t, ks) && SuffixKeyOf(lib, r) == None
    ensures Suffixed(lib, rules + [r], t, ks)
  {
    hide SuffixKeyOf, HasHead, Spelled, DistinctHeads;
    SpelledSize(t, ks);
    var all := rules + [r];
    forall j | 0 <= j < |ks| ensures SuffixItem(lib, all, t.items[j], ks[j]) {
      assert SuffixItem(lib, rules, t.items[j], ks[j]);
    }
    forall h: nat | 1 <= h <= |all| && SuffixKeyOf(lib, all[h - 1]).Some? ensures HasHead(t.items, h) {
      assert all[h - 1] == if h - 1 < |rules| then rules[h - 1] else r;
    }
  }

  lemma {:induction false} SuffixedMore(lib: Library, rules: seq<Rule>, t: Suffixes, t': Suffixes, ks: seq<Key>, r: Rule, k: Key)
    requires Suffixed(lib, rules, t, ks) && SuffixKeyOf(lib, r) == Some(k) && |k| <= 254
    requires Spelled(t', ks + [k]) && |t'.items| == |t.items| + 1 && t'.items[|t.items|].head == |rules| + 1
    requires forall j | 0 <= j < |t.items| :: t'.items[j] == t.items[j]
    ensures Suffixed(lib, rules + [r], t', ks + [k])
  {
    hide SuffixKeyOf, Spelled;
    SpelledSize(t, ks);
    var all, kk := rules + [r], ks + [k];
    forall j | 0 <= j < |kk| ensures SuffixItem(lib, all, t'.items[j], kk[j]) {
      if j < |ks| {
        assert SuffixItem(lib, rules, t.items[j], ks[j]);
      }
    }
    forall i, j | 0 <= i < j < |t'.items| ensures t'.items[i].head != t'.items[j].head {
      assert SuffixItem(lib, rules, t.items[i], ks[i]);
    }
    forall h: nat | 1 <= h <= |all| && SuffixKeyOf(lib, all[h - 1]).Some? ensures HasHead(t'.items, h) {
      if h <= |rules| {
        assert HasHead(t.items, h);
        var j :| 0 <= j < |t.items| && t.items[j].head == h;
        assert t'.items[j].head == h;
      } else {
        assert t'.items[|t.items|].head == h;
      }
    }
  }

  lemma {:induction false} SpelledSize(t: Suffixes, ks: seq<Key>)
    requires Spelled(t, ks)
    ensures |t.items| == |ks|
  {
  }

  lemma {:induction false} FallenPlain(rules: seq<Rule>, fallback: seq<Rule>, ids: seq<nat>, r: Rule)
    requires FallenBack(rules, fallback, ids) && NeedsIndex(r)
    ensures FallenBack(rules + [r], fallback, ids)
  {
    var all := rules + [r];
    forall h: nat | 1 <= h <= |all| && !NeedsIndex(all[h - 1]) ensures h in ids {
      assert all[h - 1] == if h - 1 < |rules| then rules[h - 1] else r;
    }
  }

  lemma {:induction false} FallenMore(rules: seq<Rule>, fallback: seq<Rule>, ids: seq<nat>, r: Rule)
    requires FallenBack(rules, fallback, ids) && !NeedsIndex(r)
    ensures FallenBack(rules + [r], fallback + [r], ids + [|rules| + 1])
  {
    var all, more := rules + [r], ids + [|rules| + 1];
    forall h: nat | 1 <= h <= |all| && !NeedsIndex(all[h - 1]) ensures h in more {
      if h <= |rules| {
        assert rules[h - 1] == all[h - 1];
      } else {
        assert more[|ids|] == h;
      }
    }
  }

  /** The form of an indexed rule. */
  lemma {:induction false} IndexedForm(lib: Library, r: Rule)
    requires NeedsIndex(r)
    ensures CompileForm(lib, r).Some? <==> r.dialect == [] && Normalize(lib, r.pattern).Some?
    ensures CompileForm(lib, r).Some? ==>
      && var n := Normalize(lib, r.pattern).value;
         ValidName(n) && CompileForm(lib, r).value == if r.kind == Exact then ExactForm(n) else SuffixForm(n)
  {
    hide Wire;
  }

  lemma {:induction false} ReversedSize(w: seq<byte>)
    requires Wire(w)
    ensures |Reversed(w)| == |w|
  {
    hide Wire, LabelsOf;
    EncodeLabels(w);
    RevGood(LabelsOf(w));
    RevSize(LabelsOf(w));
  }

  lemma {:induction false} RevSize(ls: seq<Label>)
    requires GoodLabels(ls)
    ensures GoodLabels(Rev(ls)) && |Encode(Rev(ls))| == |Encode(ls)|
  {
    RevGood(ls);
    if ls != [] {
      RevSize(ls[1..]);
      RevGood(ls[1..]);
      assert Rev(ls) == Rev(ls[1..]) + [ls[0]];
      EncodeAppend(Rev(ls[1..]), [ls[0]]);
      EncodeOne(ls[0]);
    }
  }

  // ---- the builder ----

  ghost predicate IdsSeen(rules: seq<Rule>, seen: set<Text>) {
    && (forall i | 0 <= i < |rules| :: rules[i].id in seen)
    && (forall id :: id in seen ==> exists i :: 0 <= i < |rules| && rules[i].id == id)
    && (forall i, j | 0 <= i < j < |rules| :: rules[i].id != rules[j].id)
  }

  lemma {:induction false} SeenMore(rules: seq<Rule>, seen: set<Text>, r: Rule)
    requires IdsSeen(rules, seen) && r.id !in seen
    ensures IdsSeen(rules + [r], seen + {r.id})
  {
    var all := rules + [r];
    assert all[|rules|] == r && forall i | 0 <= i < |rules| :: all[i] == rules[i];
  }

  /** Per-rule facts: accepted, scored, and linked only if exact. */
  ghost predicate RuleFacts(lib: Library, r: Rule, m: Meta, next: nat) {
    Accepted(lib, r) && m.score == ScoreOf(lib, r) && (r.kind != Exact ==> next == 0)
  }

  ghost predicate AllFacts(lib: Library, rules: seq<Rule>, metas: seq<Meta>, next: seq<nat>) {
    |metas| == |next| == |rules| && forall i | 0 <= i < |rules| :: RuleFacts(lib, rules[i], metas[i], next[i])
  }

  class SnapshotBuild {
    const lib: Library
    const hash: Key -> nat
    const prov: Provenance
    const exact: PolicyExact.ExactBuilder
    var next: seq<nat>
    var suffixes: Suffixes
    var fallback: seq<Rule>
    var fallbackIDs: seq<nat>
    var seen: set<Text>
    ghost const total: nat
    ghost var rules: seq<Rule>
    ghost var ks: seq<Key>

    ghost predicate Valid()
      reads this, prov, exact
    {
      && prov.Valid() && prov.rules == rules && exact.Valid() && exact.hash == hash
      && Chained(next, exact.heads, ExactKeysOf(lib, rules))
      && Suffixed(lib, rules, suffixes, ks) && FallenBack(rules, fallback, fallbackIDs)
      && IdsSeen(rules, seen) && AllFacts(lib, rules, prov.metas, next)
      && |exact.heads.Keys| <= CountExact(rules, |rules|) <= total
      && if total == 0 then exact.slots == [] else |exact.slots| > total
    }

    constructor (lib: Library, hash: Key -> nat, total: nat)
      ensures Valid() && fresh(prov) && fresh(exact) && rules == [] && this.lib == lib && this.hash == hash && this.total == total
    {
      this.lib, this.hash, this.total := lib, hash, total;
      prov := new Provenance();
      exact := new PolicyExact.ExactBuilder(hash, total);
      next, suffixes, fallback, fallbackIDs, seen := [], Suffixes([], []), [], [], {};
      rules, ks := [], [];
      new;
      NoChains();
      assert ExactKeysOf(lib, []) == [];
    }

    /** The indexes know one rule more than the records. */
    ghost predicate Ahead(r: Rule, link: nat)
      reads this, exact
    {
      && exact.Valid() && exact.hash == hash && Chained(next + [link], exact.heads, ExactKeysOf(lib, rules + [r]))
      && Suffixed(lib, rules + [r], suffixes, ks) && FallenBack(rules + [r], fallback, fallbackIDs)
      && |exact.heads.Keys| <= CountExact(rules + [r], |rules| + 1)
    }

    method FileExact(r: Rule, name: seq<byte>) returns (link: nat)
      requires Valid() && CountExact(rules + [r], |rules| + 1) <= total
      requires r.kind == Exact && ValidName(name) && CompileForm(lib, r) == Some(ExactForm(name))
      modifies exact
      ensures Ahead(r, link) && |exact.slots| == |old(exact.slots)|
    {
      hide Chained, Suffixed, FallenBack, CompileForm, IdsSeen, AllFacts, ValidName, PolicyExact.ExactBuilder.Valid, Provenance.Valid, CountExact, ExactKeysOf;
      KeyOfExact(lib, r);
      NextSize(next, exact.heads, lib, rules);
      ExactLink(lib, next, exact.heads, rules, r, name);
      SuffixedPlain(lib, rules, suffixes, ks, r);
      FallenPlain(rules, fallback, fallbackIDs, r);
      UpdateSize(exact.heads, name, |next| + 1);
      ghost var count := CountStep(rules, r);
      NameSize(name);
      link := exact.Insert(name, |next| + 1);
    }

    method FileSuffix(r: Rule, name: seq<byte>)
      requires Valid() && CountExact(rules + [r], |rules| + 1) <= total
      requires r.kind == Suffix && ValidName(name) && CompileForm(lib, r) == Some(SuffixForm(name))
      modifies this`suffixes, this`ks
      ensures Ahead(r, 0)
    {
      hide Chained, Suffixed, FallenBack, CompileForm, IdsSeen, AllFacts, Wire, Reversed, PolicyExact.ExactBuilder.Valid, Provenance.Valid, CountExact, ExactKeysOf, Spelled;
      KeyOfSuffix(lib, r);
      NextSize(next, exact.heads, lib, rules);
      var key := ReverseName(name);
      ReversedSize(name);
      ExactPlain(lib, next, exact.heads, rules, r);
      SuffixedSpelled(lib, rules, suffixes, ks);
      FallenPlain(rules, fallback, fallbackIDs, r);
      ghost var count := CountStep(rules, r);
      var more := Append(suffixes, key, |next| + 1, ks);
      SuffixedMore(lib, rules, suffixes, more, ks, r, key);
      suffixes, ks := more, ks + [key];
    }

    method FileFallback(r: Rule)
      requires Valid() && CountExact(rules + [r], |rules| + 1) <= total && !NeedsIndex(r)
      modifies this`fallback, this`fallbackIDs
      ensures Ahead(r, 0)
    {
      hide Chained, Suffixed, FallenBack, CompileForm, IdsSeen, AllFacts, PolicyExact.ExactBuilder.Valid, Provenance.Valid, CountExact, ExactKeysOf;
      NextSize(next, exact.heads, lib, rules);
      ExactPlain(lib, next, exact.heads, rules, r);
      SuffixedPlain(lib, rules, suffixes, ks, r);
      FallenMore(rules, fallback, fallbackIDs, r);
      ghost var count := CountStep(rules, r);
      fallback, fallbackIDs := fallback + [r], fallbackIDs + [|next| + 1];
    }

    /** Takes one rule; a refusal ends the build. */
    method Add(r: Rule) returns (ok: bool)
      requires Valid() && CountExact(rules + [r], |rules| + 1) <= total
      modifies this, prov, exact
      ensures ok <==> Accepted(lib, r) && forall i | 0 <= i < |old(rules)| :: old(rules)[i].id != r.id
      ensures ok ==> Valid() && rules == old(rules) + [r]
    {
      hide Chained, Suffixed, FallenBack, CompileForm, ValidScope, Normalize, IdsSeen, AllFacts, Score, ValidName, CountExact, PolicyExact.ExactBuilder.Valid, Provenance.Valid, ExactKeysOf, LabelsOf;
      SeenMeans(rules, seen, r);
      if !ValidScope(r) || r.id == [] || r.id in seen || r.tier == OtherClass || r.kind == OtherKind {
        return false;
      }
      SeenMore(rules, seen, r);
      var score: nat, link: nat := 0, 0;
      if r.kind == Exact || r.kind == Suffix {
        IndexedForm(lib, r);
        if r.dialect != [] {
          return false;
        }
        var n := Normalize(lib, r.pattern);
        if n.None? {
          return false;
        }
        ScoreMeans(lib, r, n.value);
        score := LabelScore(n.value);
        if r.kind == Exact {
          score := score + 1;
          link := FileExact(r, n.value);
        } else {
          FileSuffix(r, n.value);
        }
      } else {
        FileFallback(r);
      }
      Finish(r, score, link);
      return true;
    }

    /** Records a rule that is filed. */
    method Finish(r: Rule, score: nat, link: nat)
      requires prov.Valid() && prov.rules == rules && IdsSeen(rules, seen) && r.id !in seen && AllFacts(lib, rules, prov.metas, next)
      requires Ahead(r, link) && CountExact(rules + [r], |rules| + 1) <= total && (if total == 0 then exact.slots == [] else |exact.slots| > total)
      requires Accepted(lib, r) && score == ScoreOf(lib, r) && (r.kind != Exact ==> link == 0)
      modifies this, prov
      ensures Valid() && rules == old(rules) + [r]
    {
      hide Chained, Suffixed, FallenBack, CompileForm, ValidScope, ScoreOf, AllFacts, PolicyExact.ExactBuilder.Valid, Provenance.Valid, CountExact, ExactKeysOf;
      SeenMeans(rules, seen, r);
      SeenMore(rules, seen, r);
      hide IdsSeen;
      ghost var metas := prov.metas;
      prov.Record(r, score);
      FactsMore(lib, rules, metas, next, r, prov.metas, link);
      seen := seen + {r.id};
      next := next + [link];
      rules := rules + [r];
    }
  }

  lemma {:induction false} KeyOfExact(lib: Library, r: Rule)
    requires r.kind == Exact && CompileForm(lib, r).Some? && CompileForm(lib, r).value.ExactForm?
    ensures ExactKeyOf(lib, r) == Some(CompileForm(lib, r).value.name) && SuffixKeyOf(lib, r) == None && NeedsIndex(r)
  {
    hide CompileForm;
  }

  lemma {:induction false} KeyOfSuffix(lib: Library, r: Rule)
    requires r.kind == Suffix && CompileForm(lib, r).Some? && CompileForm(lib, r).value.SuffixForm? && Wire(CompileForm(lib, r).value.name)
    ensures SuffixKeyOf(lib, r) == Some(Reversed(CompileForm(lib, r).value.name)) && ExactKeyOf(lib, r) == None && NeedsIndex(r)
  {
    hide CompileForm, Reversed;
  }

  lemma {:induction false} ScoreMeans(lib: Library, r: Rule, n: seq<byte>)
    requires NeedsIndex(r) && ValidName(n) && CompileForm(lib, r) == Some(if r.kind == Exact then ExactForm(n) else SuffixForm(n))
    ensures ScoreOf(lib, r) == 2 * |LabelsOf(n)| + if r.kind == Exact then 1 else 0
  {
    hide CompileForm, LabelsOf;
  }

  lemma {:induction false} NameSize(w: seq<byte>)
    requires ValidName(w)
    ensures |w| <= 254
  {
  }

  lemma {:induction false} SeenMeans(rules: seq<Rule>, seen: set<Text>, r: Rule)
    requires IdsSeen(rules, seen)
    ensures r.id in seen <==> exists i :: 0 <= i < |rules| && rules[i].id == r.id
  {
  }

  lemma {:induction false} NextSize(next: seq<nat>, heads: map<Key, nat>, lib: Library, rules: seq<Rule>)
    requires Chained(next, heads, ExactKeysOf(lib, rules))
    ensures |next| == |rules|
  {
  }

  lemma {:induction false} CountStep(rules: seq<Rule>, r: Rule) returns (count: nat)
    ensures count == CountExact(rules, |rules|)
    ensures CountExact(rules + [r], |rules| + 1) == count + if r.kind == Exact then 1 else 0
  {
    CountPrefix(rules, r, |rules|);
    count := CountExact(rules, |rules|);
  }

  lemma {:induction false} CountPrefix(rules: seq<Rule>, r: Rule, n: nat)
    requires n <= |rules|
    ensures CountExact(rules + [r], n) == CountExact(rules, n)
  {
    if n > 0 {
      CountPrefix(rules, r, n - 1);
    }
  }

  lemma {:induction false} UpdateSize(heads: map<Key, nat>, k: Key, v: nat)
    ensures |heads[k := v].Keys| <= |heads.Keys| + 1
  {
    assert heads[k := v].Keys == heads.Keys + {k};
  }

  lemma {:induction false} SuffixedSpelled(lib: Library, rules: seq<Rule>, t: Suffixes, ks: seq<Key>)
    requires Suffixed(lib, rules, t, ks)
    ensures Spelled(t, ks)
  {
  }

  lemma {:induction false} FactsMore(lib: Library, rules: seq<Rule>, metas: seq<Meta>, next: seq<nat>, r: Rule, metas': seq<Meta>, link: nat)
    requires AllFacts(lib, rules, metas, next) && |metas'| == |metas| + 1 && metas'[..|metas|] == metas
    requires Accepted(lib, r) && metas'[|metas|].score == ScoreOf(lib, r) && (r.kind != Exact ==> link == 0)
    ensures AllFacts(lib, rules + [r], metas', next + [link])
  {
    hide Accepted, ScoreOf;
    assert forall i | 0 <= i < |metas| :: metas'[i] == metas'[..|metas|][i];
  }

  // ---- completing the build ----

  ghost function KeysOfItems(keys: seq<byte>, items: seq<Item>): (ks: seq<Key>)
    ensures |ks| == |items| && forall j | 0 <= j < |items| :: ks[j] == KeyAt(keys, items[j])
  {
    seq(|items|, j requires 0 <= j < |items| => KeyAt(keys, items[j]))
  }

  /** Every sorted item is one of the collected ones, under the same key. */
  lemma {:induction false} SortedFrom(lib: Library, rules: seq<Rule>, t: Suffixes, ks: seq<Key>, x: Item)
    requires Suffixed(lib, rules, t, ks) && x in t.items
    ensures SuffixItem(lib, rules, x, KeyAt(t.keys, x)) && PolicyExact.HoldsKey(t.keys, x.off, KeyAt(t.keys, x))
  {
    hide SuffixKeyOf, HasHead, DistinctHeads;
    var j :| 0 <= j < |t.items| && t.items[j] == x;
    assert SuffixItem(lib, rules, t.items[j], ks[j]);
    KeyIs(t, ks, j);
  }

  lemma {:induction false} SortReady(lib: Library, rules: seq<Rule>, t: Suffixes, ks: seq<Key>)
    requires Suffixed(lib, rules, t, ks)
    ensures var items := Sort(t.keys, t.items);
      var kk := KeysOfItems(t.keys, items);
      Spelled(Suffixes(items, t.keys), kk) && NotDescending(kk) && ItemsCover(lib, rules, items, kk)
  {
    hide SuffixItem, PolicyExact.HoldsKey, KeyAt, Sort, Less, Suffixed, SuffixKeyOf, HasHead;
    var items := Sort(t.keys, t.items);
    var kk := KeysOfItems(t.keys, items);
    forall x ensures x in items <==> x in t.items { SortMembers(t.keys, t.items, x); }
    forall j | 0 <= j < |items| ensures SuffixItem(lib, rules, items[j], kk[j]) && PolicyExact.HoldsKey(t.keys, items[j].off, kk[j]) {
      assert items[j] in items;
      SortedFrom(lib, rules, t, ks, items[j]);
    }
    SortSorted(t.keys, t.items);
    SuffixedDistinct(lib, rules, t, ks);
    SortDistinct(t.keys, t.items);
    forall h: nat | h < |rules| && SuffixKeyOf(lib, rules[h]).Some? ensures HasHead(items, h + 1) {
      SuffixedHead(lib, rules, t, ks, h + 1);
      HeadMembers(t.items, items, h + 1);
    }
  }

  lemma {:induction false} SuffixedHead(lib: Library, rules: seq<Rule>, t: Suffixes, ks: seq<Key>, h: nat)
    requires Suffixed(lib, rules, t, ks) && 1 <= h <= |rules| && SuffixKeyOf(lib, rules[h - 1]).Some?
    ensures HasHead(t.items, h)
  {
    hide SuffixKeyOf, HasHead;
  }

  lemma {:induction false} HeadMembers(a: seq<Item>, b: seq<Item>, h: nat)
    requires HasHead(a, h) && forall x :: x in a ==> x in b
    ensures HasHead(b, h)
  {
    var j :| 0 <= j < |a| && a[j].head == h;
    assert a[j] in b;
    var k :| 0 <= k < |b| && b[k] == a[j];
  }

  lemma {:induction false} SuffixedDistinct(lib: Library, rules: seq<Rule>, t: Suffixes, ks: seq<Key>)
    requires Suffixed(lib, rules, t, ks)
    ensures DistinctHeads(t.items)
  {
  }

  ghost predicate ItemsCover(lib: Library, rules: seq<Rule>, items: seq<Item>, kk: seq<Key>) {
    && |items| == |kk| && DistinctHeads(items)
    && (forall j | 0 <= j < |items| :: SuffixItem(lib, rules, items[j], kk[j]))
    && (forall h: nat | h < |rules| && SuffixKeyOf(lib, rules[h]).Some? :: HasHead(items, h + 1))
  }

  lemma {:induction false} ItemRange(lib: Library, rules: seq<Rule>, items: seq<Item>, kk: seq<Key>)
    requires ItemsCover(lib, rules, items, kk)
    ensures forall i | 0 <= i < |items| :: 1 <= items[i].head <= |rules|
  {
    hide SuffixKeyOf;
    forall i | 0 <= i < |items| ensures 1 <= items[i].head <= |rules| { assert SuffixItem(lib, rules, items[i], kk[i]); }
  }

  lemma {:induction false} FiledOne(lib: Library, rules: seq<Rule>, items: seq<Item>, kk: seq<Key>, none: seq<Option<Key>>, h: nat)
    requires ItemsCover(lib, rules, items, kk) && h < |rules| == |none| && none[h] == None
    requires forall i | 0 <= i < |items| :: 1 <= items[i].head <= |rules|
    ensures FileUnder(none, items, kk, |items|)[h] == SuffixKeyOf(lib, rules[h])
  {
    hide SuffixKeyOf, FileUnder;
    if HasHead(items, h + 1) {
      var i: nat :| i < |items| && items[i].head == h + 1;
      assert SuffixItem(lib, rules, items[i], kk[i]);
      FiledAt(none, items, kk, |items|, i);
    } else {
      FiledBefore(none, items, kk, |items|, h + 1);
    }
  }

  /** Filing the items puts exactly the suffix rules under their keys. */
  lemma {:induction false} FiledExactly(lib: Library, rules: seq<Rule>, items: seq<Item>, kk: seq<Key>)
    requires ItemsCover(lib, rules, items, kk)
    ensures forall i | 0 <= i < |items| :: 1 <= items[i].head <= |rules|
    ensures FileUnder(seq(|rules|, _ => None), items, kk, |items|) == SuffixKeysFor(lib, rules)
  {
    hide SuffixKeyOf, FileUnder, ItemsCover;
    var none: seq<Option<Key>> := seq(|rules|, _ => None);
    CoverSize(lib, rules, items, kk);
    ItemRange(lib, rules, items, kk);
    forall h: nat | h < |rules| ensures FileUnder(none, items, kk, |items|)[h] == SuffixKeyOf(lib, rules[h]) {
      FiledOne(lib, rules, items, kk, none, h);
    }
  }

  lemma {:induction false} CoverSize(lib: Library, rules: seq<Rule>, items: seq<Item>, kk: seq<Key>)
    requires ItemsCover(lib, rules, items, kk)
    ensures |items| == |kk|
  {
  }
}
