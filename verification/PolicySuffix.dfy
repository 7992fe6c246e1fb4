/** The suffix index: reversed keys in one sorted arena (internal/policy/index_suffix.go). */
module PolicySuffix {
  import opened Common
  import opened PolicyRules
  import opened PolicyExact
  import opened PolicyChains

  datatype Item = Item(off: nat, head: nat)
  datatype Suffixes = Suffixes(items: seq<Item>, keys: seq<byte>)

  function KeyOf(keys: seq<byte>, off: nat): PolicyChains.Key
    requires off < |keys| && off + 1 + keys[off] <= |keys|
  {
    keys[off + 1..off + 1 + keys[off]]
  }

  /** Item j has key ks[j]. */
  ghost predicate Spelled(t: Suffixes, ks: seq<PolicyChains.Key>) {
    |ks| == |t.items| && forall j | 0 <= j < |ks| :: HoldsKey(t.keys, t.items[j].off, ks[j])
  }

  lemma {:induction false} KeyIs(t: Suffixes, ks: seq<PolicyChains.Key>, j: nat)
    requires Spelled(t, ks) && j < |ks|
    ensures var off := t.items[j].off; off < |t.keys| && off + 1 + t.keys[off] <= |t.keys| && KeyOf(t.keys, off) == ks[j]
  {
    assert HoldsKey(t.keys, t.items[j].off, ks[j]);
  }

  /** Appends one item and its key. */
  method Append(t: Suffixes, key: PolicyChains.Key, head: nat, ghost ks: seq<PolicyChains.Key>) returns (r: Suffixes)
    requires Spelled(t, ks) && |key| <= 254
    ensures Spelled(r, ks + [key]) && |r.items| == |t.items| + 1 && r.items[|t.items|].head == head
    ensures forall j | 0 <= j < |t.items| :: r.items[j] == t.items[j]
  {
    hide HoldsKey;
    r := Suffixes(t.items + [Item(|t.keys|, head)], t.keys + [|key|] + key);
    assert r.keys == t.keys + ([|key|] + key);
    forall j | 0 <= j < |t.items| ensures HoldsKey(r.keys, r.items[j].off, ks[j]) {
      KeyStays(t.keys, t.items[j].off, ks[j], [|key|] + key);
    }
    NewKey(t.keys, key);
  }

  lemma {:induction false} NewKey(keys: seq<byte>, key: PolicyChains.Key)
    requires |key| <= 254
    ensures HoldsKey(keys + [|key|] + key, |keys|, key)
  {
  }

  // ---- sorted order ----

  ghost predicate Ascending(ks: seq<PolicyChains.Key>) { forall i, j | 0 <= i < j < |ks| :: Less(ks[i], ks[j]) }
  ghost predicate NotDescending(ks: seq<PolicyChains.Key>) { forall i, j | 0 <= i < j < |ks| :: !Less(ks[j], ks[i]) }

  /** The index maps each key to its first rule. */
  ghost predicate SuffixesOK(t: Suffixes, ks: seq<PolicyChains.Key>, heads: map<PolicyChains.Key, nat>) {
    && Spelled(t, ks) && Ascending(ks)
    && (forall j | 0 <= j < |ks| :: ks[j] in heads && heads[ks[j]] == t.items[j].head)
    && (forall k :: k in heads ==> k in ks)
  }

  ghost predicate SuffixTableOK(t: Suffixes, heads: map<PolicyChains.Key, nat>) { exists ks :: SuffixesOK(t, ks, heads) }

  /** The first n keys are below the wanted one, the others are not. */
  ghost predicate SplitAt(ks: seq<PolicyChains.Key>, key: PolicyChains.Key, lo: nat, hi: nat) {
    && lo <= hi <= |ks|
    && (forall j | 0 <= j < lo :: Less(ks[j], key)) && (forall j | hi <= j < |ks| :: !Less(ks[j], key))
  }

  lemma {:induction false} Halve(ks: seq<PolicyChains.Key>, key: PolicyChains.Key, lo: nat, mid: nat, hi: nat)
    requires Ascending(ks) && SplitAt(ks, key, lo, hi) && lo <= mid < hi
    ensures if Less(ks[mid], key) then SplitAt(ks, key, mid + 1, hi) else SplitAt(ks, key, lo, mid)
  {
    hide Less;
    if Less(ks[mid], key) {
      forall j | 0 <= j <= mid ensures Less(ks[j], key) {
        if j < mid { LessTransitive(ks[j], ks[mid], key); }
      }
    } else {
      forall j | mid <= j < |ks| ensures !Less(ks[j], key) {
        if j > mid && Less(ks[j], key) { LessTransitive(ks[mid], ks[j], key); }
      }
    }
  }

  lemma {:induction false} SearchEnds(t: Suffixes, ks: seq<PolicyChains.Key>, heads: map<PolicyChains.Key, nat>, key: PolicyChains.Key, at: nat)
    requires SuffixesOK(t, ks, heads) && SplitAt(ks, key, at, at)
    ensures if at < |ks| && ks[at] == key then HeadOf(heads, key) == t.items[at].head else HeadOf(heads, key) == 0
  {
    hide Less, HoldsKey;
    if !(at < |ks| && ks[at] == key) {
      LessTotal(key, key);
      forall j | 0 <= j < |ks| ensures ks[j] != key {
        assert j > at ==> Less(ks[at], ks[j]);
      }
    }
  }

  /** Binary search for the first key not below the wanted one. */
  method FindSuffix(t: Suffixes, key: PolicyChains.Key, ghost heads: map<PolicyChains.Key, nat>) returns (head: nat)
    requires SuffixTableOK(t, heads)
    ensures head == HeadOf(heads, key)
  {
    hide Less, SplitAt, SuffixesOK, Spelled, Ascending, HeadOf;
    ghost var ks :| SuffixesOK(t, ks, heads);
    SearchStarts(t, ks, heads, key);
    var lo: nat, hi: nat := 0, |t.items|;
    while lo < hi
      invariant lo <= hi <= |ks| && SplitAt(ks, key, lo, hi)
    {
      var mid := (lo + hi) / 2;
      KeyIs(t, ks, mid);
      Halve(ks, key, lo, mid, hi);
      if Less(KeyOf(t.keys, t.items[mid].off), key) {
        lo := mid + 1;
      } else {
        hi := mid;
      }
    }
    SearchEnds(t, ks, heads, key, lo);
    if lo < |t.items| {
      KeyIs(t, ks, lo);
      if KeyOf(t.keys, t.items[lo].off) == key {
        return t.items[lo].head;
      }
    }
    return 0;
  }

  lemma {:induction false} SearchStarts(t: Suffixes, ks: seq<PolicyChains.Key>, heads: map<PolicyChains.Key, nat>, key: PolicyChains.Key)
    requires SuffixesOK(t, ks, heads)
    ensures |ks| == |t.items| && Spelled(t, ks) && Ascending(ks) && SplitAt(ks, key, 0, |ks|)
  {
  }

  // ---- building ----

  ghost predicate HasHead(items: seq<Item>, h: nat) { exists j :: 0 <= j < |items| && items[j].head == h }

  /** The rules an input item stands for, filed under its key. */
  ghost function FileUnder(keyOf: seq<Option<PolicyChains.Key>>, items: seq<Item>, ks: seq<PolicyChains.Key>, n: nat): (r: seq<Option<PolicyChains.Key>>)
    requires n <= |items| == |ks| && forall i | 0 <= i < n :: 1 <= items[i].head <= |keyOf|
    ensures |r| == |keyOf|
  {
    if n == 0 then keyOf else FileUnder(keyOf, items, ks, n - 1)[items[n - 1].head - 1 := Some(ks[n - 1])]
  }

  lemma {:induction false} FiledBefore(keyOf: seq<Option<PolicyChains.Key>>, items: seq<Item>, ks: seq<PolicyChains.Key>, n: nat, h: nat)
    requires n <= |items| == |ks| && (forall i | 0 <= i < n :: 1 <= items[i].head <= |keyOf|) && 1 <= h <= |keyOf|
    requires forall i | 0 <= i < n :: items[i].head != h
    ensures FileUnder(keyOf, items, ks, n)[h - 1] == keyOf[h - 1]
  {
    if n > 0 {
      FiledBefore(keyOf, items, ks, n - 1, h);
    }
  }

  lemma {:induction false} FiledAt(keyOf: seq<Option<PolicyChains.Key>>, items: seq<Item>, ks: seq<PolicyChains.Key>, n: nat, i: nat)
    requires i < n <= |items| == |ks| && (forall i | 0 <= i < n :: 1 <= items[i].head <= |keyOf|)
    requires forall a, b | 0 <= a < b < n :: items[a].head != items[b].head
    ensures FileUnder(keyOf, items, ks, n)[items[i].head - 1] == Some(ks[i])
  {
    if i < n - 1 {
      FiledAt(keyOf, items, ks, n - 1, i);
      assert items[i].head != items[n - 1].head;
    }
  }

  /**
   Joins equal keys of the sorted input into chains. The sort may leave equal keys in any order.
   */
  method BuildSuffixes(input: Suffixes, next: seq<nat>, ghost ks: seq<PolicyChains.Key>, ghost others: map<PolicyChains.Key, nat>,
                       ghost otherKeys: seq<Option<PolicyChains.Key>>)
    returns (t: Suffixes, next': seq<nat>, ghost heads: map<PolicyChains.Key, nat>)
    requires Spelled(input, ks) && NotDescending(ks) && (forall j | 0 <= j < |ks| :: |ks[j]| <= 254)
    requires Chained(next, others, otherKeys)
    requires forall i | 0 <= i < |ks| :: 1 <= input.items[i].head <= |next| && otherKeys[input.items[i].head - 1] == None
    requires forall i, j | 0 <= i < j < |ks| :: input.items[i].head != input.items[j].head
    ensures SuffixTableOK(t, heads)
    ensures |next'| == |next| && forall h: nat | h < |next| && !HasHead(input.items, h + 1) :: next'[h] == next[h]
    ensures Chained(next', heads, FileUnder(seq(|next|, _ => None), input.items, ks, |ks|)) && Chained(next', others, otherKeys)
  {
    hide HoldsKey, Less, Chained, FileUnder;
    t := Suffixes([], []);
    next' := next;
    heads := map[];
    ghost var done: seq<PolicyChains.Key> := [];
    ghost var none: seq<Option<PolicyChains.Key>> := seq(|next|, _ => None);
    NothingFiled(next, others, otherKeys, input.items, ks);
    for i := 0 to |input.items|
      invariant SuffixesOK(t, done, heads)
      invariant |next'| == |next| && forall h: nat | h < |next| && !HasHead(input.items, h + 1) :: next'[h] == next[h]
      invariant Chained(next', heads, FileUnder(none, input.items, ks, i)) && Chained(next', others, otherKeys)
      invariant if i == 0 then done == [] else done != [] && done[|done| - 1] == ks[i - 1]
    {
      var v := input.items[i];
      assert HasHead(input.items, v.head);
      KeyIs(input, ks, i);
      var key := KeyOf(input.keys, v.off);
      var same := |t.items| > 0;
      if same {
        KeyIs(t, done, |t.items| - 1);
        same := KeyOf(t.keys, t.items[|t.items| - 1].off) == key;
      }
      FiledBefore(none, input.items, ks, i, v.head);
      LinkIn(next', heads, FileUnder(none, input.items, ks, i), v.head, key);
      RelinkOther(next', others, otherKeys, v.head, HeadOf(heads, key));
      FileStep(none, input.items, ks, i);
      if same {
        var p := t.items[|t.items| - 1];
        next' := next'[v.head - 1 := p.head];
        ReplaceHead(t, done, heads, v.head);
        t := t.(items := t.items[|t.items| - 1 := p.(head := v.head)]);
      } else {
        assert i > 0 ==> !Less(ks[i], ks[i - 1]);
        NewLast(t, done, heads, key);
        next' := next'[v.head - 1 := 0];
        ghost var before := t;
        t := Append(t, key, v.head, done);
        AppendOK(before, t, done, heads, key, v.head);
        done := done + [key];
      }
      heads := heads[key := v.head];
    }
  }

  lemma {:induction false} NothingFiled(next: seq<nat>, others: map<PolicyChains.Key, nat>, otherKeys: seq<Option<PolicyChains.Key>>, items: seq<Item>, ks: seq<PolicyChains.Key>)
    requires Chained(next, others, otherKeys) && |items| == |ks|
    ensures Chained(next, map[], FileUnder(seq(|next|, _ => None), items, ks, 0)) && |otherKeys| == |next|
    ensures SuffixesOK(Suffixes([], []), [], map[])
  {
    hide Chain;
  }

  lemma {:induction false} FileStep(keyOf: seq<Option<PolicyChains.Key>>, items: seq<Item>, ks: seq<PolicyChains.Key>, n: nat)
    requires n < |items| == |ks| && forall i | 0 <= i < |items| :: 1 <= items[i].head <= |keyOf|
    ensures FileUnder(keyOf, items, ks, n + 1) == FileUnder(keyOf, items, ks, n)[items[n].head - 1 := Some(ks[n])]
  {
  }

  lemma {:induction false} ReplaceHead(t: Suffixes, ks: seq<PolicyChains.Key>, heads: map<PolicyChains.Key, nat>, h: nat)
    requires SuffixesOK(t, ks, heads) && ks != []
    ensures var last := |ks| - 1;
      SuffixesOK(t.(items := t.items[last := t.items[last].(head := h)]), ks, heads[ks[last] := h])
    ensures HeadOf(heads, ks[|ks| - 1]) == t.items[|ks| - 1].head
  {
    hide HoldsKey, Less;
    var last := |ks| - 1;
    forall j | 0 <= j < last ensures ks[j] != ks[last] {
      assert Less(ks[j], ks[last]);
      LessTotal(ks[j], ks[j]);
    }
  }

  /** A key that is not the last one is above all of them. */
  lemma {:induction false} NewLast(t: Suffixes, ks: seq<PolicyChains.Key>, heads: map<PolicyChains.Key, nat>, key: PolicyChains.Key)
    requires SuffixesOK(t, ks, heads) && (ks != [] ==> ks[|ks| - 1] != key && !Less(key, ks[|ks| - 1]))
    ensures key !in heads && forall j | 0 <= j < |ks| :: Less(ks[j], key)
  {
    hide HoldsKey, Less;
    if ks != [] {
      var last := ks[|ks| - 1];
      LessTotal(last, key);
      forall j | 0 <= j < |ks| ensures Less(ks[j], key) && ks[j] != key {
        if j < |ks| - 1 { LessTransitive(ks[j], last, key); }
        LessTotal(ks[j], ks[j]);
      }
    }
  }

  lemma {:induction false} AppendOK(t: Suffixes, t': Suffixes, ks: seq<PolicyChains.Key>, heads: map<PolicyChains.Key, nat>, key: PolicyChains.Key, h: nat)
    requires SuffixesOK(t, ks, heads) && key !in heads && (forall j | 0 <= j < |ks| :: Less(ks[j], key))
    requires Spelled(t', ks + [key]) && |t'.items| == |t.items| + 1 && t'.items[|t.items|].head == h
    requires forall j | 0 <= j < |t.items| :: t'.items[j] == t.items[j]
    ensures SuffixesOK(t', ks + [key], heads[key := h])
  {
    hide HoldsKey, Less;
  }
}
