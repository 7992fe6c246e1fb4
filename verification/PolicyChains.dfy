/** Membership chains: rules that share an index key are linked through their next field. */
module PolicyChains {
  import opened Common

  type Key = seq<byte>

  /** Following next from head visits exactly this list. */
  ghost predicate Chain(next: seq<nat>, head: nat, list: seq<nat>)
    decreases |list|
  {
    if list == [] then head == 0 else head == list[0] && 1 <= head <= |next| && Chain(next, next[head - 1], list[1..])
  }

  ghost predicate NoRepeats(list: seq<nat>) { forall i, j | 0 <= i < j < |list| :: list[i] != list[j] }

  /** Rule j is filed under k. */
  ghost predicate Filed(keyOf: seq<Option<Key>>, j: nat, k: Key) { 1 <= j <= |keyOf| && keyOf[j - 1] == Some(k) }

  ghost predicate Lists(next: seq<nat>, head: nat, keyOf: seq<Option<Key>>, k: Key, list: seq<nat>) {
    Chain(next, head, list) && NoRepeats(list) && forall j :: j in list <==> Filed(keyOf, j, k)
  }

  ghost predicate Listed(next: seq<nat>, head: nat, keyOf: seq<Option<Key>>, k: Key) { exists list :: Lists(next, head, keyOf, k, list) }

  /** The chain of every key lists exactly the rules filed under it. */
  ghost predicate Chained(next: seq<nat>, heads: map<Key, nat>, keyOf: seq<Option<Key>>) {
    && |keyOf| == |next|
    && (forall k :: k in heads ==> heads[k] > 0 && Listed(next, heads[k], keyOf, k))
    && (forall j: nat, k | Filed(keyOf, j, k) :: k in heads)
  }

  lemma {:induction false} ChainFrame(next: seq<nat>, next': seq<nat>, head: nat, list: seq<nat>)
    requires Chain(next, head, list) && |next| <= |next'|
    requires forall j :: j in list && 1 <= j <= |next| ==> next'[j - 1] == next[j - 1]
    ensures Chain(next', head, list)
    decreases |list|
  {
    if list != [] {
      assert head in list;
      assert forall j :: j in list[1..] ==> j in list;
      ChainFrame(next, next', next[head - 1], list[1..]);
    }
  }

  /** A further rule under no key changes no chain. */
  lemma {:induction false} AppendPlain(next: seq<nat>, heads: map<Key, nat>, keyOf: seq<Option<Key>>)
    requires Chained(next, heads, keyOf)
    ensures Chained(next + [0], heads, keyOf + [None])
  {
    hide Chain, NoRepeats;
    forall j: nat, k ensures Filed(keyOf + [None], j, k) <==> Filed(keyOf, j, k) {
    }
    forall k | k in heads ensures Listed(next + [0], heads[k], keyOf + [None], k) {
      assert Listed(next, heads[k], keyOf, k);
      var list :| Lists(next, heads[k], keyOf, k, list);
      ChainFrame(next, next + [0], heads[k], list);
      assert Lists(next + [0], heads[k], keyOf + [None], k, list);
    }
  }

  /** Changing the link of a rule that is under no key changes no chain. */
  lemma {:induction false} RelinkOther(next: seq<nat>, heads: map<Key, nat>, keyOf: seq<Option<Key>>, h: nat, x: nat)
    requires Chained(next, heads, keyOf) && 1 <= h <= |next| && keyOf[h - 1] == None
    ensures Chained(next[h - 1 := x], heads, keyOf)
  {
    hide Chain, NoRepeats;
    var next' := next[h - 1 := x];
    forall k | k in heads ensures Listed(next', heads[k], keyOf, k) {
      assert Listed(next, heads[k], keyOf, k);
      var list :| Lists(next, heads[k], keyOf, k, list);
      assert h in list ==> Filed(keyOf, h, k);
      ChainFrame(next, next', heads[k], list);
      assert Lists(next', heads[k], keyOf, k, list);
    }
  }

  function HeadOf(heads: map<Key, nat>, k: Key): nat { if k in heads then heads[k] else 0 }

  /** Filing a rule under a key puts it in front of that key's chain. */
  lemma {:induction false} LinkIn(next: seq<nat>, heads: map<Key, nat>, keyOf: seq<Option<Key>>, h: nat, k: Key)
    requires Chained(next, heads, keyOf) && 1 <= h <= |next| && keyOf[h - 1] == None
    ensures Chained(next[h - 1 := HeadOf(heads, k)], heads[k := h], keyOf[h - 1 := Some(k)])
  {
    hide Chain, NoRepeats;
    var head := HeadOf(heads, k);
    RelinkOther(next, heads, keyOf, h, head);
    var next', heads', keyOf' := next[h - 1 := head], heads[k := h], keyOf[h - 1 := Some(k)];
    forall j: nat, key ensures Filed(keyOf', j, key) <==> Filed(keyOf, j, key) || (j == h && key == k) {
    }
    forall key | key in heads' ensures Listed(next', heads'[key], keyOf', key) {
      var list: seq<nat> := [];
      if key in heads {
        assert Listed(next', heads[key], keyOf, key);
        list :| Lists(next', heads[key], keyOf, key, list);
      } else {
        EmptyChain(next', keyOf, heads, key);
      }
      if key == k {
        assert h !in list;
        FrontChain(next', h, list);
        assert forall j :: j in [h] + list <==> j == h || j in list;
        assert Lists(next', h, keyOf', key, [h] + list);
      } else {
        assert Lists(next', heads[key], keyOf', key, list);
      }
    }
  }

  lemma {:induction false} EmptyChain(next: seq<nat>, keyOf: seq<Option<Key>>, heads: map<Key, nat>, k: Key)
    requires (forall j: nat, k | Filed(keyOf, j, k) :: k in heads) && k !in heads
    ensures Lists(next, 0, keyOf, k, [])
  {
  }

  lemma {:induction false} FrontChain(next: seq<nat>, h: nat, list: seq<nat>)
    requires 1 <= h <= |next| && Chain(next, next[h - 1], list) && NoRepeats(list) && h !in list
    ensures Chain(next, h, [h] + list) && NoRepeats([h] + list)
  {
    assert ([h] + list)[1..] == list;
  }

  lemma {:induction false} NoChains()
    ensures Chained([], map[], [])
  {
  }
}
