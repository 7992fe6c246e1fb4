/** What a put may forget (internal/dnscache/cache.go and clock.go): one key of a full bucket, and keys in the way of the blob. */
module DnsEviction {
  import opened Common
  import opened DnsArena
  import opened DnsCache

  // ---- slots that stay ----

  /** The slot is the same, but for a reference bit that was cleared. */
  predicate Unmoved(s: Slot, t: Slot) { t == s || (s.Full? && t == s.(referenced := false)) }

  /** Every slot but those of `gone` is the same, and those are empty. */
  ghost predicate Emptied(slots: seq<Slot>, slots': seq<Slot>, gone: set<nat>) {
    && |slots'| == |slots|
    && forall i: nat | i < |slots| :: if i in gone then slots'[i].Empty? else Unmoved(slots[i], slots'[i])
  }

  lemma {:induction false} EmptiedTwice(a: seq<Slot>, b: seq<Slot>, c: seq<Slot>, gone: set<nat>, more: set<nat>)
    requires Emptied(a, b, gone) && Emptied(b, c, more)
    ensures Emptied(a, c, gone + more)
  {
    forall i: nat | i < |a| ensures if i in gone + more then c[i].Empty? else Unmoved(a[i], c[i]) {
      assert if i in gone then b[i].Empty? else Unmoved(a[i], b[i]);
      assert if i in more then c[i].Empty? else Unmoved(b[i], c[i]);
    }
  }

  lemma {:induction false} EmptiedFull(a: seq<Slot>, b: seq<Slot>, gone: set<nat>)
    requires Emptied(a, b, gone)
    ensures FullSet(b) == FullSet(a) - gone
  {
    forall i: nat | i < |a| ensures i in FullSet(b) <==> i in FullSet(a) - gone {
      assert if i in gone then b[i].Empty? else Unmoved(a[i], b[i]);
    }
  }

  /** The keys in some slots. */
  ghost function KeysIn(arena: seq<byte>, slots: seq<Slot>, some: set<nat>): set<Key> {
    set i | i in some && i < |slots| && slots[i].Full? :: KeyAt(arena, slots[i])
  }

  lemma {:induction false} KeysSame(arena: seq<byte>, a: seq<Slot>, b: seq<Slot>, gone: set<nat>, some: set<nat>)
    requires Emptied(a, b, gone) && some <= FullSet(b)
    ensures KeysIn(arena, b, some) == KeysIn(arena, a, some)
  {
    forall i | i in some ensures i < |a| && a[i].Full? && b[i].Full? && KeyAt(arena, b[i]) == KeyAt(arena, a[i]) {
      assert i in FullSet(b) && i !in gone && Unmoved(a[i], b[i]);
    }
  }

  lemma {:induction false} KeysMore(arena: seq<byte>, slots: seq<Slot>, some: set<nat>, i: nat)
    requires i < |slots| && slots[i].Full?
    ensures KeysIn(arena, slots, {i} + some) == {KeyAt(arena, slots[i])} + KeysIn(arena, slots, some)
    ensures KeysIn(arena, slots, {}) == {}
  {
  }

  // ---- room for a blob ----

  /** The run of n blocks is clear of the kept slots. */
  ghost predicate ClearRun(slots: seq<Slot>, keep: set<nat>, blocks: nat, first: nat, n: nat) {
    first + n <= blocks && forall i | i in keep && i < |slots| :: ClearOf(slots[i], first, n)
  }

  ghost predicate ClearOf(s: Slot, first: nat, n: nat) { forall b: nat | first <= b < first + n :: !Owns(s, b) }

  /** Some run of n blocks is clear of the kept slots. */
  ghost predicate RoomBeside(slots: seq<Slot>, keep: set<nat>, blocks: nat, n: nat) {
    exists first: nat :: ClearRun(slots, keep, blocks, first, n)
  }

  /** The fewer slots are kept, the more room there is. */
  lemma {:induction false} RoomGrows(slots: seq<Slot>, more: set<nat>, less: set<nat>, blocks: nat, n: nat)
    requires less <= more && RoomBeside(slots, more, blocks, n)
    ensures RoomBeside(slots, less, blocks, n)
  {
    hide ClearOf;
    var first: nat :| ClearRun(slots, more, blocks, first, n);
    assert ClearRun(slots, less, blocks, first, n);
  }

  lemma {:induction false} UnmovedClear(s: Slot, t: Slot, first: nat, n: nat)
    requires Unmoved(s, t) && ClearOf(s, first, n)
    ensures ClearOf(t, first, n)
  {
    assert forall b: nat :: Owns(t, b) <==> Owns(s, b);
  }

  lemma {:induction false} RoomSame(a: seq<Slot>, b: seq<Slot>, gone: set<nat>, keep: set<nat>, blocks: nat, n: nat)
    requires Emptied(a, b, gone) && keep <= FullSet(b) && RoomBeside(a, keep, blocks, n)
    ensures RoomBeside(b, keep, blocks, n)
  {
    var first: nat :| ClearRun(a, keep, blocks, first, n);
    forall i | i in keep && i < |b| ensures ClearOf(b[i], first, n) {
      assert i in FullSet(b) && i !in gone && Unmoved(a[i], b[i]);
      UnmovedClear(a[i], b[i], first, n);
    }
    assert ClearRun(b, keep, blocks, first, n);
  }

  /** A run that is clear of all stored blobs is free. */
  lemma {:induction false} ClearIsFree(slots: seq<Slot>, used: seq<bool>, first: nat, n: nat)
    requires Layout(slots, used) && ClearRun(slots, FullSet(slots), |used|, first, n)
    ensures FreeRun(used, first, n)
  {
    forall b | first <= b < first + n ensures !used[b] {
      forall i | 0 <= i < |slots| ensures !Owns(slots[i], b) {
        if slots[i].Full? { assert i in FullSet(slots) && ClearOf(slots[i], first, n); }
      }
      assert !OwnedBy(slots, b);
    }
  }

  /** A search that found no run means that the stored blobs leave no room. */
  lemma {:induction false} NoRoom(slots: seq<Slot>, used: seq<bool>, n: nat)
    requires Layout(slots, used) && NoRun(used, 0, |used|, n)
    ensures !RoomBeside(slots, FullSet(slots), |used|, n)
  {
    hide Layout, FreeRun;
    forall first: nat ensures !ClearRun(slots, FullSet(slots), |used|, first, n) {
      if ClearRun(slots, FullSet(slots), |used|, first, n) { ClearIsFree(slots, used, first, n); }
    }
  }

  // ---- what a blob drives out ----

  /** Each of the slots driven out was in the way: the last of them together with those that stay leaves no room. */
  ghost predicate InTheWay(slots: seq<Slot>, evicted: set<nat>, blocks: nat, n: nat) {
    && evicted <= FullSet(slots)
    && (evicted != {} ==> exists last :: last in evicted && !RoomBeside(slots, FullSet(slots) - evicted + {last}, blocks, n))
  }

  lemma {:induction false} NothingInTheWay(slots: seq<Slot>, arena: seq<byte>, blocks: nat, n: nat)
    ensures Emptied(slots, slots, {}) && InTheWay(slots, {}, blocks, n) && KeysIn(arena, slots, {}) == {}
  {
  }

  /** One more slot goes after the others, while what is left has no room. */
  lemma {:induction false} OneMoreInTheWay(slots: seq<Slot>, now: seq<Slot>, next: seq<Slot>, evicted: set<nat>, i: nat, blocks: nat, n: nat)
    requires Emptied(slots, now, evicted) && evicted <= FullSet(slots) && !RoomBeside(now, FullSet(now), blocks, n)
    requires i < |now| && now[i].Full? && Emptied(now, next, {i})
    ensures Emptied(slots, next, evicted + {i}) && InTheWay(slots, evicted + {i}, blocks, n)
  {
    hide RoomBeside, Emptied;
    EmptiedTwice(slots, now, next, evicted, {i});
    EmptiedFull(slots, now, evicted);
    assert i in FullSet(now);
    assert FullSet(slots) - (evicted + {i}) + {i} == FullSet(now);
    if RoomBeside(slots, FullSet(now), blocks, n) {
      RoomSame(slots, now, evicted, FullSet(now), blocks, n);
    }
  }

  // ---- what a put forgets ----

  /** The bucket has a way for the key: an empty one, or the one that holds it. */
  ghost predicate HasWay(slots: seq<Slot>, arena: seq<byte>, bucket: nat, key: Key) {
    exists i: nat :: bucket <= i < bucket + WAYS && i < |slots| && (slots[i].Empty? || HasKey(slots[i], arena, key))
  }

  /** Second chance: a referenced slot goes only where all are referenced. */
  ghost predicate SecondChance(slots: seq<Slot>, lo: nat, hi: nat, i: nat) {
    lo <= i < hi <= |slots| && slots[i].Full? && (slots[i].referenced ==> forall j: nat | lo <= j < hi && slots[j].Full? :: slots[j].referenced)
  }

  /** The slots of other keys, less one that makes way in the bucket. */
  ghost function Others(slots: seq<Slot>, arena: seq<byte>, key: Key, victim: set<nat>): set<nat> {
    set i: nat | i < |slots| && slots[i].Full? && KeyAt(arena, slots[i]) != key && i !in victim
  }

  /**
   What a put of a key drives out besides the key's old value. One slot of the bucket goes exactly when the bucket is
   full of other keys, by second chance; further slots go only while what stays leaves no room for the blob.
   */
  ghost predicate Forgotten(slots: seq<Slot>, arena: seq<byte>, bucket: nat, key: Key, blocks: nat, n: nat, victim: set<nat>, evicted: set<nat>) {
    && (if HasWay(slots, arena, bucket, key) then victim == {} else exists i :: victim == {i} && SecondChance(slots, bucket, bucket + WAYS, i))
    && evicted <= Others(slots, arena, key, victim)
    && (evicted != {} ==> exists last :: last in evicted && !RoomBeside(slots, Others(slots, arena, key, victim) - evicted + {last}, blocks, n))
  }

  /** With a way in the bucket and room beside the other keys, a put forgets no other key. */
  lemma {:induction false} NothingForgotten(slots: seq<Slot>, arena: seq<byte>, bucket: nat, key: Key, blocks: nat, n: nat, victim: set<nat>, evicted: set<nat>)
    requires Forgotten(slots, arena, bucket, key, blocks, n, victim, evicted)
    requires HasWay(slots, arena, bucket, key) && RoomBeside(slots, Others(slots, arena, key, {}), blocks, n)
    ensures victim == {} && evicted == {}
  {
    hide RoomBeside, Others, HasWay;
    if evicted != {} {
      var all := Others(slots, arena, key, {});
      var last :| last in evicted && !RoomBeside(slots, all - evicted + {last}, blocks, n);
      RoomGrows(slots, all, all - evicted + {last}, blocks, n);
    }
  }

  /** Once the bucket has made way, the slots that stand are those of the other keys. */
  lemma {:induction false} WayMade(slots: seq<Slot>, arena: seq<byte>, bucket: nat, key: Key, blocks: nat, n: nat, victim: set<nat>, next: seq<Slot>, gone: set<nat>, evicted: set<nat>)
    requires if HasWay(slots, arena, bucket, key) then victim == {} else exists i :: victim == {i} && SecondChance(slots, bucket, bucket + WAYS, i)
    requires Emptied(slots, next, gone) && FullSet(next) == Others(slots, arena, key, victim) && InTheWay(next, evicted, blocks, n)
    ensures Forgotten(slots, arena, bucket, key, blocks, n, victim, evicted)
  {
    hide RoomBeside, HasWay, SecondChance, Emptied, Others;
    if evicted != {} {
      var last :| last in evicted && !RoomBeside(next, FullSet(next) - evicted + {last}, blocks, n);
      var keep := FullSet(next) - evicted + {last};
      if RoomBeside(slots, keep, blocks, n) {
        RoomSame(slots, next, gone, keep, blocks, n);
      }
    }
  }

  lemma {:induction false} StandingOthers(slots: seq<Slot>, next: seq<Slot>, arena: seq<byte>, hash: Key -> nat, shards: nat, contents: map<Key, Stored>,
                                          gone: set<nat>, victim: set<nat>, key: Key)
    requires Emptied(slots, next, gone) && Indexed(next, arena, hash, shards, contents) && key !in contents && victim <= gone
    requires forall i | i in gone && i !in victim && i < |slots| :: slots[i].Empty? || HasKey(slots[i], arena, key)
    ensures FullSet(next) == Others(slots, arena, key, victim)
  {
    hide Bucket, StoredAt, KeyAt;
    forall i: nat | i < |slots| ensures i in FullSet(next) <==> i in Others(slots, arena, key, victim) {
      assert if i in gone then next[i].Empty? else Unmoved(slots[i], next[i]);
      assert Mirrored(next[i], arena, contents);
      SameKey(arena, slots[i], next[i]);
    }
  }

  lemma {:induction false} SameKey(arena: seq<byte>, s: Slot, t: Slot)
    ensures s.Full? && Unmoved(s, t) ==> t.Full? && KeyAt(arena, t) == KeyAt(arena, s)
  {
  }

  /** What leaves in two steps leaves in one. */
  lemma {:induction false} LeaveTogether(m: map<Key, Stored>, key: Key, arena: seq<byte>, slots: seq<Slot>, victim: set<nat>, evicted: set<nat>, value: Stored)
    ensures (m - {key} - KeysIn(arena, slots, victim) - KeysIn(arena, slots, evicted))[key := value] ==
            (m - KeysIn(arena, slots, victim + evicted))[key := value]
  {
    hide KeyAt;
    assert KeysIn(arena, slots, victim + evicted) == KeysIn(arena, slots, victim) + KeysIn(arena, slots, evicted);
  }

  lemma {:induction false} VictimFull(slots: seq<Slot>, lo: nat, i: nat)
    ensures forall hi: nat :: SecondChance(slots, lo, hi, i) ==> lo <= i < hi <= |slots| && slots[i].Full?
  {
  }

  /** An empty slot stays empty. */
  lemma {:induction false} EmptiedStays(slots: seq<Slot>, next: seq<Slot>, gone: set<nat>, i: nat)
    requires Emptied(slots, next, gone) && i < |slots| && slots[i].Empty?
    ensures |next| == |slots| && next[i].Empty?
  {
  }

  lemma {:induction false} WaysInside(slots: seq<Slot>, evicted: set<nat>, blocks: nat, n: nat)
    requires InTheWay(slots, evicted, blocks, n)
    ensures evicted <= FullSet(slots)
  {
  }

  /** The key of one more slot leaves. */
  lemma {:induction false} LeavesOneMore(m: map<Key, Stored>, arena: seq<byte>, slots: seq<Slot>, now: seq<Slot>, evicted: set<nat>, i: nat)
    requires Emptied(slots, now, evicted) && i < |now| && now[i].Full?
    ensures m - KeysIn(arena, slots, evicted) - {KeyAt(arena, now[i])} == m - KeysIn(arena, slots, evicted + {i})
  {
    hide KeyAt;
    assert i !in evicted && Unmoved(slots[i], now[i]);
    SameKey(arena, slots[i], now[i]);
    KeysMore(arena, slots, evicted, i);
    assert {i} + evicted == evicted + {i};
  }

  /** The two stages of a put taken together. */
  lemma {:induction false} PutForgets(slots: seq<Slot>, arena: seq<byte>, bucket: nat, key: Key, blocks: nat, n: nat, victim: set<nat>,
                                      next: seq<Slot>, gone: set<nat>, evicted: set<nat>, m: map<Key, Stored>, value: Stored)
    requires if HasWay(slots, arena, bucket, key) then victim == {} else exists i :: victim == {i} && SecondChance(slots, bucket, bucket + WAYS, i)
    requires Emptied(slots, next, gone) && FullSet(next) == Others(slots, arena, key, victim) && InTheWay(next, evicted, blocks, n)
    ensures Forgotten(slots, arena, bucket, key, blocks, n, victim, evicted)
    ensures (m - {key} - KeysIn(arena, slots, victim) - KeysIn(arena, next, evicted))[key := value] == (m - KeysIn(arena, slots, victim + evicted))[key := value]
    ensures HasWay(slots, arena, bucket, key) && RoomBeside(slots, Others(slots, arena, key, {}), blocks, n) ==>
      (m - KeysIn(arena, slots, victim + evicted))[key := value] == m[key := value]
  {
    hide RoomBeside, HasWay, SecondChance, Emptied, Others, InTheWay, KeysIn, FullSet, Forgotten;
    WayMade(slots, arena, bucket, key, blocks, n, victim, next, gone, evicted);
    WaysInside(next, evicted, blocks, n);
    KeysSame(arena, slots, next, gone, evicted);
    LeaveTogether(m, key, arena, slots, victim, evicted, value);
    if HasWay(slots, arena, bucket, key) && RoomBeside(slots, Others(slots, arena, key, {}), blocks, n) {
      NothingForgotten(slots, arena, bucket, key, blocks, n, victim, evicted);
      NoKeys(arena, slots);
      assert {} + {} == victim + evicted;
      assert m - {} == m;
    }
  }

  lemma {:induction false} NoKeys(arena: seq<byte>, slots: seq<Slot>)
    ensures KeysIn(arena, slots, {}) == {}
  {
  }
}
