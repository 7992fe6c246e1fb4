/** The cache shard as the mutex-protected object it is (internal/dnscache/cache.go, arena.go, clock.go). */
module DnsShard {
  import opened Common
  import opened WireBytes
  import opened CacheReply
  import opened DnsArena
  import opened DnsCache
  import opened DnsEviction

  const SECOND: int := 1_000_000_000

  datatype CacheResult = CacheResult(hit: bool, negative: bool, stale: bool, staleAge: nat, length: nat)
  const MISS: CacheResult := CacheResult(false, false, false, 0, 0)

  /** A template as the preparation step hands it over. */
  ghost predicate Template(v: Stored, question: nat) {
    TableFits(v.message, v.table, v.lifetime, question) && |v.table| % 8 == 0
  }

  /** The name part of a key is what follows its 31 fixed bytes. */
  function NameLen(k: Key): nat { if |k| >= 31 then |k| - 31 else 0 }

  // ---- a map that forgets ----

  /** Entries may vanish at any time. */
  ghost predicate Forgets(m: map<Key, Stored>, m': map<Key, Stored>) {
    forall j :: j in m' ==> j in m && m'[j] == m[j]
  }

  /** An accepted put. */
  datatype Accepted = Accepted(key: Key, value: Stored)

  function LatestPut(puts: seq<Accepted>, k: Key): Option<Stored> {
    if puts == [] then None
    else
      var last := puts[|puts| - 1];
      if last.key == k then Some(last.value) else LatestPut(puts[..|puts| - 1], k)
  }

  /** Whatever is held for a key is the latest accepted put for it. */
  ghost predicate HoldsLatest(contents: map<Key, Stored>, puts: seq<Accepted>) {
    forall k :: k in contents ==> LatestPut(puts, k) == Some(contents[k])
  }

  lemma {:induction false} LatestForgets(m: map<Key, Stored>, m': map<Key, Stored>, puts: seq<Accepted>)
    requires HoldsLatest(m, puts) && Forgets(m, m')
    ensures HoldsLatest(m', puts)
  {
  }

  lemma {:induction false} LatestAfterPut(m: map<Key, Stored>, puts: seq<Accepted>, key: Key, value: Stored)
    requires HoldsLatest(m, puts)
    ensures HoldsLatest(m[key := value], puts + [Accepted(key, value)])
  {
    var more := puts + [Accepted(key, value)];
    assert more[..|more| - 1] == puts;
  }

  // ---- the shard ----

  class Shard {
    const hash: Key -> nat
    const shards: nat
    var slots: seq<Slot>
    var arena: seq<byte>
    var used: seq<bool>
    var hand: nat
    var cursor: nat
    var entries: int
    var occupied: int
    ghost var contents: map<Key, Stored>
    ghost var puts: seq<Accepted>

    ghost predicate Valid()
      reads this
    {
      && |slots| >= WAYS && |slots| % WAYS == 0 && |used| > 0 && |arena| == BLOCK * |used|
      && hand < |slots| && cursor < |used| && shards > 0
      && Layout(slots, used)
      && entries == |FullSet(slots)| && occupied == BLOCK * |UsedSet(used)|
      && Indexed(slots, arena, hash, shards, contents)
      && (forall k :: k in contents ==> Template(contents[k], NameLen(k)))
      && HoldsLatest(contents, puts)
    }

    constructor (hash: Key -> nat, shards: nat, buckets: nat, blocks: nat)
      requires shards > 0 && buckets > 0 && blocks > 0
      ensures Valid() && contents == map[] && puts == [] && |used| == blocks && |slots| == buckets * WAYS
    {
      this.hash, this.shards := hash, shards;
      slots := seq(buckets * WAYS, i => Empty);
      arena := seq(blocks * BLOCK, i => 0);
      used := seq(blocks, i => false);
      hand, cursor, entries, occupied := 0, 0, 0, 0;
      contents, puts := map[], [];
      new;
      assert buckets * WAYS >= WAYS && buckets * WAYS % WAYS == 0;
      assert forall i | 0 <= i < |slots| :: slots[i].Empty?;
      assert forall b | 0 <= b < |used| :: !used[b];
      assert FullSet(slots) == {};
      assert UsedSet(used) == {};
      assert Layout(slots, used) by { hide Indexed; }
    }

    /** Frees a slot and its blocks; its key is forgotten. */
    method Remove(i: nat)
      requires Valid() && i < |slots| && slots[i].Full?
      modifies this
      ensures Valid() && slots == old(slots)[i := Empty] && entries == old(entries) - 1
      ensures hand == old(hand) && cursor == old(cursor) && |used| == |old(used)| && arena == old(arena)
      ensures KeyAt(old(arena), old(slots)[i]) in old(contents)
      ensures contents == old(contents) - {KeyAt(old(arena), old(slots)[i])} && puts == old(puts)
    {
      hide Layout, Indexed, KeyAt, Template, HoldsLatest;
      SlotContents(slots, arena, hash, shards, contents, i);
      LatestForgets(contents, contents - {KeyAt(arena, slots[i])}, puts);
      var s := slots[i];
      LayoutRemove(slots, used, i);
      IndexRemove(slots, arena, hash, shards, contents, i);
      ClearCounts(used, s.first, s.count);
      assert FullSet(slots[i := Empty]) == FullSet(slots) - {i};
      used := Fill(used, s.first, s.count, false);
      occupied := occupied - BLOCK * s.count;
      entries := entries - 1;
      contents := contents - {KeyAt(arena, s)};
      slots := slots[i := Empty];
    }

    /** Finds and marks a run of blocks; fails only if no free run of that length exists anywhere. */
    method Allocate(size: nat) returns (first: Option<nat>)
      requires |used| > 0 && cursor < |used| && size > 0
      modifies this`used, this`cursor, this`occupied
      ensures cursor < |used| == |old(used)|
      ensures first.Some? ==> FreeRun(old(used), first.value, Need(size)) && used == Fill(old(used), first.value, Need(size), true)
                              && occupied == old(occupied) + BLOCK * Need(size)
      ensures first.None? ==> used == old(used) && occupied == old(occupied) && NoRun(used, 0, |used|, Need(size))
      decreases cursor
    {
      var need := Need(size);
      var blocks := |used|;
      first := FindRun(used, cursor, blocks, need);
      if first.None? {
        first := FindRun(used, 0, cursor, need);
      }
      if first.Some? {
        used := Fill(used, first.value, need, true);
        cursor := (first.value + need) % blocks;
        occupied := occupied + need * BLOCK;
        return;
      }
      // a free run crossing the cursor can be missed above
      if cursor != 0 {
        cursor := 0;
        first := Allocate(size);
      }
    }

    /** Clears one reference bit. */
    method Unreference(i: nat)
      requires Valid() && i < |slots| && slots[i].Full?
      modifies this`slots
      ensures Valid() && slots == old(slots)[i := old(slots)[i].(referenced := false)]
    {
      hide Layout, Indexed, Template;
      var s := slots[i].(referenced := false);
      LayoutTouch(slots, used, i, s);
      IndexTouch(slots, arena, hash, shards, contents, i, s);
      assert FullSet(slots[i := s]) == FullSet(slots);
      slots := slots[i := s];
    }

    /** The CLOCK: sweeps at most twice around and evicts one entry by second chance whenever there is any. */
    method Evict() returns (ok: bool, ghost victim: nat)
      requires Valid()
      modifies this
      ensures Valid() && ok == (old(entries) > 0) && puts == old(puts)
      ensures ok ==> SecondChance(old(slots), 0, |old(slots)|, victim) && Emptied(old(slots), slots, {victim})
      ensures ok ==> entries == old(entries) - 1 && KeyAt(arena, old(slots)[victim]) in old(contents)
                     && contents == old(contents) - {KeyAt(arena, old(slots)[victim])}
      ensures !ok ==> contents == old(contents) && Emptied(old(slots), slots, {})
      ensures |slots| == |old(slots)| && |used| == |old(used)| && arena == old(arena) && cursor == old(cursor)
    {
      hide Shard.Valid, Around, KeyAt;
      var n := |slots|;
      ghost var h0 := hand;
      HandInside();
      AroundStart(h0, n);
      for scans := 0 to 2 * n
        invariant Valid() && |slots| == n && hand < n && |used| == |old(used)| && arena == old(arena) && cursor == old(cursor)
        invariant entries == old(entries) && contents == old(contents) && puts == old(puts)
        invariant Around(h0, hand, n) == if scans < n then scans else if scans < 2 * n then scans - n else 0
        invariant Emptied(old(slots), slots, {})
        invariant forall i: nat | i < n && scans < n && Around(h0, i, n) >= scans :: slots[i] == old(slots)[i]
        invariant forall i: nat | i < n && slots[i].Full? && (scans >= n || Around(h0, i, n) < scans) ::
                    old(slots)[i].referenced && !slots[i].referenced
        invariant scans >= n ==> forall i: nat | i < n && (scans == 2 * n || Around(h0, i, n) < scans - n) :: slots[i].Empty?
      {
        var i := hand;
        AroundNext(h0, hand, n);
        var way := Advance();
        if slots[i].Full? {
          if slots[i].referenced {
            Unreference(i);
          } else {
            Counted(i);
            ghost var before := slots;
            assert before[i].Full? && SecondChance(old(slots), 0, n, i);
            SameKey(arena, old(slots)[i], before[i]);
            Remove(i);
            EmptiedTwice(old(slots), before, slots, {}, {i});
            assert {} + {i} == {i};
            return true, i;
          }
        }
      }
      NothingLeft();
      return false, 0;
    }

    lemma {:induction false} HandInside()
      requires Valid()
      ensures hand < |slots|
    {
      hide Layout, Indexed, Template;
    }

    lemma {:induction false} Counted(i: nat)
      requires Valid() && i < |slots| && slots[i].Full?
      ensures entries > 0
    {
      hide Layout, Indexed, Template;
      assert i in FullSet(slots);
    }

    lemma {:induction false} NothingLeft()
      requires Valid() && forall i: nat | i < |slots| :: slots[i].Empty?
      ensures entries == 0
    {
      hide Layout, Indexed, Template;
      assert FullSet(slots) == {};
    }

    /** Moves the hand on and tells the way it stood at. */
    method Advance() returns (way: nat)
      requires Valid()
      modifies this`hand
      ensures Valid() && way == old(hand) % WAYS < WAYS && hand % WAYS == (way + 1) % WAYS
      ensures hand < |slots| && hand == (old(hand) + 1) % |slots|
    {
      hide Layout, Indexed, Template;
      WaysNext(hand, |slots|);
      way := hand % WAYS;
      hand := (hand + 1) % |slots|;
    }

    /** Second chance inside one full bucket: a victim always turns up within the 2 * WAYS steps. */
    method PickVictim(bucket: nat) returns (target: nat)
      requires Valid() && bucket + WAYS <= |slots| && forall i: nat | bucket <= i < bucket + WAYS :: slots[i].Full?
      modifies this
      ensures |slots| == |old(slots)| && |used| == |old(used)| && arena == old(arena)
      ensures SecondChance(old(slots), bucket, bucket + WAYS, target) && Emptied(old(slots), slots, {})
      ensures contents == old(contents) && entries == old(entries) && puts == old(puts) && Valid()
    {
      hide Shard.Valid, Around;
      target := bucket;
      ghost var h0 := hand % WAYS;
      AroundStart(h0, WAYS);
      for n := 0 to 2 * WAYS
        invariant Valid() && n <= WAYS && |slots| == |old(slots)| && |used| == |old(used)| && arena == old(arena)
        invariant contents == old(contents) && entries == old(entries) && puts == old(puts)
        invariant Around(h0, hand % WAYS, WAYS) == if n == WAYS then 0 else n
        invariant Emptied(old(slots), slots, {})
        invariant forall i: nat | bucket <= i < bucket + WAYS :: slots[i].Full?
        invariant forall i: nat | bucket <= i < bucket + WAYS && n < WAYS && Around(h0, i - bucket, WAYS) >= n :: slots[i] == old(slots)[i]
        invariant forall i: nat | bucket <= i < bucket + WAYS && Around(h0, i - bucket, WAYS) < n :: old(slots)[i].referenced && !slots[i].referenced
      {
        var j := Advance();
        AroundNext(h0, j, WAYS);
        var i := bucket + j;
        if slots[i].referenced {
          Unreference(i);
        } else {
          return i;
        }
      }
      assert false;
    }

    /** Finds the key's slot, or else the last empty slot of the bucket; the key itself is removed. */
    method ClearWay(key: Key, bucket: nat) returns (target: Option<nat>)
      requires Valid() && bucket == Bucket(hash(key), shards, |slots|) && bucket + WAYS <= |slots|
      modifies this
      ensures Valid() && key !in contents && contents == old(contents) - {key} && puts == old(puts)
      ensures |used| == |old(used)| && arena == old(arena)
      ensures target.Some? <==> HasWay(old(slots), arena, bucket, key)
      ensures target.Some? ==>
        && bucket <= target.value < bucket + WAYS && slots == old(slots)[target.value := Empty]
        && (old(slots)[target.value].Empty? || HasKey(old(slots)[target.value], arena, key))
      ensures target.None? ==> slots == old(slots) && forall i: nat | bucket <= i < bucket + WAYS :: slots[i].Full?
    {
      hide Layout, Indexed, Template, KeyAt, Bucket;
      target := None;
      var h := hash(key);
      for i := bucket to bucket + WAYS
        invariant Valid() && contents == old(contents) && puts == old(puts) && slots == old(slots) && used == old(used) && arena == old(arena)
        invariant target.Some? ==> bucket <= target.value < i && slots[target.value].Empty?
        invariant target.None? ==> forall j: nat | bucket <= j < i :: slots[j].Full?
        invariant forall j: nat | bucket <= j < i :: !HasKey(slots[j], arena, key)
      {
        if slots[i].Empty? {
          target := Some(i);
        } else {
          HashDecides(slots, arena, hash, shards, contents, i, key);
          if slots[i].hash == h && slots[i].keyLen == |key| && KeyAt(arena, slots[i]) == key {
            Remove(i);
            return Some(i);
          }
        }
      }
      NotInBucket(slots, arena, hash, shards, contents, key);
      assert contents - {key} == contents;
    }

    lemma {:induction false} InBounds()
      requires Valid()
      ensures |slots| >= WAYS && shards > 0 && Indexed(slots, arena, hash, shards, contents)
    {
      hide Layout, Indexed, Template;
    }

    /** Makes way in a full bucket by second chance. */
    method TakeVictim(bucket: nat) returns (target: nat)
      requires Valid() && bucket + WAYS <= |slots| && forall i: nat | bucket <= i < bucket + WAYS :: slots[i].Full?
      modifies this
      ensures Valid() && |slots| == |old(slots)| && |used| == |old(used)| && arena == old(arena) && puts == old(puts)
      ensures SecondChance(old(slots), bucket, bucket + WAYS, target) && Emptied(old(slots), slots, {target})
      ensures slots[target].Empty? && contents == old(contents) - {KeyAt(arena, old(slots)[target])}
    {
      hide Shard.Valid, KeyAt, SecondChance;
      target := PickVictim(bucket);
      VictimFull(old(slots), bucket, target);
      ghost var before := slots;
      assert Unmoved(old(slots)[target], before[target]);
      SameKey(arena, old(slots)[target], before[target]);
      Remove(target);
      EmptiedTwice(old(slots), before, slots, {}, {target});
      assert {} + {target} == {target};
    }

    /** Empties a way of the bucket for the key: its own, an empty one, or one taken by second chance. */
    method MakeWay(key: Key, bucket: nat) returns (target: nat, ghost victim: set<nat>, ghost gone: set<nat>)
      requires Valid() && bucket == Bucket(hash(key), shards, |slots|) && bucket + WAYS <= |slots|
      modifies this
      ensures Valid() && key !in contents && |used| == |old(used)| && arena == old(arena) && puts == old(puts)
      ensures bucket <= target < bucket + WAYS && |slots| == |old(slots)| && slots[target].Empty?
      ensures Emptied(old(slots), slots, gone) && FullSet(slots) == Others(old(slots), arena, key, victim)
      ensures if HasWay(old(slots), arena, bucket, key) then victim == {} else exists i :: victim == {i} && SecondChance(old(slots), bucket, bucket + WAYS, i)
      ensures contents == old(contents) - {key} - KeysIn(arena, old(slots), victim)
    {
      hide Shard.Valid, KeyAt, Indexed, HasWay, Others, SecondChance, HasKey, FullSet, Bucket;
      InBounds();
      var way := ClearWay(key, bucket);
      if way.Some? {
        target, victim, gone := way.value, {}, {way.value};
        assert contents == old(contents) - {key} - KeysIn(arena, old(slots), {});
      } else {
        target := TakeVictim(bucket);
        victim, gone := {target}, {target};
        VictimFull(old(slots), bucket, target);
        KeysMore(arena, old(slots), {}, target);
        assert {target} + {} == {target};
      }
      InBounds();
      StandingOthers(old(slots), slots, arena, hash, shards, contents, gone, victim, key);
    }

    /**
     Stores a template; it is refused only if it cannot fit an empty arena. Nothing else is forgotten but one key of a
     full bucket and keys in the way of the blob.
     */
    method PutEntry(key: Key, value: Stored) returns (ok: bool, ghost victim: set<nat>, ghost evicted: set<nat>)
      requires Valid() && Template(value, NameLen(key)) && |key| >= 32
      modifies this
      ensures Valid() && ok == (|key| + |value.message| + |value.table| <= |old(arena)|)
      ensures |slots| == |old(slots)| && |used| == |old(used)|
      ensures ok ==> Forgotten(old(slots), old(arena), Bucket(hash(key), shards, |slots|), key, |used|, Need(|Blob(key, value)|), victim, evicted)
      ensures ok ==> contents == (old(contents) - KeysIn(old(arena), old(slots), victim + evicted))[key := value]
                     && puts == old(puts) + [Accepted(key, value)]
      ensures ok && HasWay(old(slots), old(arena), Bucket(hash(key), shards, |slots|), key)
              && RoomBeside(old(slots), Others(old(slots), old(arena), key, {}), |used|, Need(|Blob(key, value)|))
              ==> contents == old(contents)[key := value]
      ensures !ok ==> contents == old(contents) && puts == old(puts)
    {
      hide Layout, Indexed, Template, KeyAt, StoredAt, Bucket, Need, HasWay, Others, SecondChance, FullSet, RoomBeside, Emptied, Forgotten;
      var size := |key| + |value.message| + |value.table|;
      victim, evicted := {}, {};
      if size > |arena| {
        ok := false;
        return;
      }
      var bucket := Bucket(hash(key), shards, |slots|);
      BucketFits(hash(key), shards, |slots|);
      var target;
      ghost var gone, before;
      target, victim, gone := MakeWay(key, bucket);
      before := slots;
      evicted := PlaceBlob(target, key, value);
      PutForgets(old(slots), old(arena), bucket, key, |used|, Need(|Blob(key, value)|), victim, before, gone, evicted, old(contents), value);
      ok := true;
    }

    /** Evicts until a run is free, then stores; at worst the arena ends up empty and the blob fits. */
    method PlaceBlob(target: nat, key: Key, value: Stored) returns (ghost evicted: set<nat>)
      requires Valid() && target < |slots| && slots[target].Empty? && key !in contents
      requires Template(value, NameLen(key)) && |key| >= 32 && |Blob(key, value)| <= |arena|
      requires Bucket(hash(key), shards, |slots|) <= target < Bucket(hash(key), shards, |slots|) + WAYS
      modifies this
      ensures Valid() && puts == old(puts) + [Accepted(key, value)] && |slots| == |old(slots)| && |used| == |old(used)|
      ensures InTheWay(old(slots), evicted, |used|, Need(|Blob(key, value)|))
      ensures contents == (old(contents) - KeysIn(old(arena), old(slots), evicted))[key := value]
    {
      hide Layout, Indexed, Template, Bucket, Need, RoomBeside, InTheWay, Emptied, KeyAt, FullSet, KeysIn, SecondChance, HoldsLatest;
      ghost var n := Need(|Blob(key, value)|);
      evicted := {};
      NothingInTheWay(slots, arena, |used|, n);
      assert contents - {} == contents;
      while true
        invariant Valid() && puts == old(puts) && |slots| == |old(slots)| && |used| == |old(used)| && arena == old(arena)
        invariant Emptied(old(slots), slots, evicted) && InTheWay(old(slots), evicted, |used|, n)
        invariant contents == old(contents) - KeysIn(old(arena), old(slots), evicted)
        decreases entries
      {
        ghost var used0, now := used, slots;
        EmptiedStays(old(slots), slots, evicted, target);
        var first := Allocate(|Blob(key, value)|);
        if first.Some? {
          Store(target, first.value, key, value, used0);
          return;
        }
        RoomWhenEmpty(slots, used, |arena|, |Blob(key, value)|);
        NoRoom(slots, used, n);
        WaysInside(old(slots), evicted, |used|, n);
        var more, i := Evict();
        VictimFull(now, 0, i);
        OneMoreInTheWay(old(slots), now, slots, evicted, i, |used|, n);
        LeavesOneMore(old(contents), arena, old(slots), now, evicted, i);
        evicted := evicted + {i};
      }
    }

    /** Everything but the freshly marked run is in order. */
    ghost predicate ValidBefore(used0: seq<bool>, marked: nat)
      reads this
    {
      && |slots| >= WAYS && |slots| % WAYS == 0 && |used0| > 0 && |used| == |used0| && |arena| == BLOCK * |used0|
      && hand < |slots| && cursor < |used0| && shards > 0
      && Layout(slots, used0)
      && entries == |FullSet(slots)| && occupied == BLOCK * |UsedSet(used0)| + BLOCK * marked
      && Indexed(slots, arena, hash, shards, contents)
      && (forall k :: k in contents ==> Template(contents[k], NameLen(k)))
      && HoldsLatest(contents, puts)
    }

    /** Writes the blob and its slot record into a freshly marked run. */
    method Store(target: nat, first: nat, key: Key, value: Stored, ghost used0: seq<bool>)
      requires ValidBefore(used0, Need(|Blob(key, value)|))
      requires FreeRun(used0, first, Need(|Blob(key, value)|)) && used == Fill(used0, first, Need(|Blob(key, value)|), true)
      requires target < |slots| && slots[target].Empty? && key !in contents && Template(value, NameLen(key)) && |key| >= 32
      requires Bucket(hash(key), shards, |slots|) <= target < Bucket(hash(key), shards, |slots|) + WAYS
      modifies this
      ensures Valid() && contents == old(contents)[key := value] && puts == old(puts) + [Accepted(key, value)]
      ensures |slots| == |old(slots)| && |used| == |old(used)|
    {
      hide Layout, Indexed, Template, Bucket, Need, Write, FullSet, UsedSet, Fill, HoldsLatest;
      LatestAfterPut(contents, puts, key, value);
      StoreKeeps(slots, arena, hash, shards, contents, used0, target, first, key, value);
      WriteSize(arena, BLOCK * first, Blob(key, value));
      arena := Write(arena, BLOCK * first, Blob(key, value));
      slots := slots[target := Record(hash, first, key, value)];
      entries := entries + 1;
      contents, puts := contents[key := value], puts + [Accepted(key, value)];
    }

    /**
     A hit copies the stored message into the caller's buffer with the client's header, question
     and remaining TTLs; a miss leaves the buffer as it was. Nothing else is ever served.
     */
    method LookupEntry(key: Key, c: Client, dst: array<byte>, tick: int, maxStale: uint32, staleTTL: uint32) returns (r: CacheResult)
      requires Valid() && |key| >= 32 && |c.question| == NameLen(key)
      modifies this, dst
      ensures Valid() && puts == old(puts)
      ensures r.hit <==>
        && key in old(contents)
        && var v := old(contents)[key];
           && v.inserted <= tick && |v.message| <= dst.Length
           && (tick < v.inserted + v.lifetime * SECOND || (!v.negative && tick < v.inserted + (v.lifetime + maxStale) * SECOND))
      ensures !r.hit ==> r == MISS && dst[..] == old(dst[..])
      ensures contents == if key in old(contents) && Outlived(old(contents)[key], tick, maxStale) then old(contents) - {key} else old(contents)
      ensures r.hit ==> key in contents && LatestPut(puts, key) == Some(contents[key]) && Serves(contents[key], tick, maxStale, dst.Length)
      ensures r.hit ==>
                var v := contents[key];
                && r == HitResult(v, tick)
                && dst[..|v.message|] == Personal(v.message, v.table, c, Age(v, tick), r.stale, staleTTL)
                && dst[|v.message|..] == old(dst[|v.message|..])
      ensures r.hit ==>
                var v := contents[key];
                && 4 <= |v.message| <= dst.Length && U16(dst[..], 0) == c.id
                && FlagsServed(U16(v.message, 2), ClientFlags(c.flagsHigh, c.flagsLow), U16(dst[..], 2))
                && r.negative == v.negative && r.length == |v.message|
                && (r.stale <==> v.inserted + v.lifetime * SECOND <= tick)
                && (if r.stale then v.inserted + (v.lifetime + r.staleAge) * SECOND <= tick < v.inserted + (v.lifetime + r.staleAge + 1) * SECOND else r.staleAge == 0)
      ensures r.hit ==> exists i :: 0 <= i < |old(slots)| && HasKey(old(slots)[i], old(arena), key) && slots == old(slots)[i := old(slots)[i].(referenced := true)]
    {
      hide Layout, Indexed, KeyAt, StoredAt, Bucket, Personal, TableFits, Serves, Outlived, FlagsServed, HoldsLatest;
      var bucket := Bucket(hash(key), shards, |slots|);
      BucketFits(hash(key), shards, |slots|);
      var h := hash(key);
      for i := bucket to bucket + WAYS
        invariant Valid() && contents == old(contents) && puts == old(puts) && slots == old(slots) && arena == old(arena) && dst[..] == old(dst[..])
        invariant forall j: nat | bucket <= j < i :: !HasKey(slots[j], arena, key)
      {
        if slots[i].Empty? {
          continue;
        }
        HashDecides(slots, arena, hash, shards, contents, i, key);
        if slots[i].hash != h || slots[i].keyLen != |key| || KeyAt(arena, slots[i]) != key {
          continue;
        }
        SlotContents(slots, arena, hash, shards, contents, i);
        var v := StoredAt(arena, slots[i]);
        assert contents[key] == v && Template(v, NameLen(key));
        ServesMeans(v, tick, maxStale, dst.Length);
        LatestHeld(contents, puts, key);
        if tick < v.inserted {
          return MISS;
        }
        var stale := Age(v, tick) >= v.lifetime;
        if stale && (v.negative || Age(v, tick) - v.lifetime >= maxStale) {
          Remove(i);
          return MISS;
        }
        if dst.Length < |v.message| {
          return MISS;
        }
        WriteReply(v.message, v.table, v.lifetime, c, Age(v, tick), stale, staleTTL, dst);
        FlagsOfHit(v, c, Age(v, tick), stale, staleTTL, dst[..]);
        Reference(i);
        return HitResult(v, tick);
      }
      NotInBucket(slots, arena, hash, shards, contents, key);
      return MISS;
    }

    method Reference(i: nat)
      requires Valid() && i < |slots| && slots[i].Full?
      modifies this`slots
      ensures Valid() && slots == old(slots)[i := old(slots)[i].(referenced := true)]
    {
      hide Layout, Indexed, Template;
      var s := slots[i].(referenced := true);
      LayoutTouch(slots, used, i, s);
      IndexTouch(slots, arena, hash, shards, contents, i, s);
      assert FullSet(slots[i := s]) == FullSet(slots);
      slots := slots[i := s];
    }
  }

  /** Whole seconds since insertion. */
  function Age(v: Stored, tick: int): nat { if tick < v.inserted then 0 else (tick - v.inserted) / SECOND }

  /** An entry is served while fresh; stale only if positive and within the stale window. */
  predicate Serves(v: Stored, tick: int, maxStale: uint32, room: nat) {
    && v.inserted <= tick && |v.message| <= room
    && (Age(v, tick) >= v.lifetime ==> !v.negative && Age(v, tick) - v.lifetime < maxStale)
  }

  /** Nothing can be served from the entry any more. */
  predicate Outlived(v: Stored, tick: int, maxStale: uint32) {
    v.inserted + v.lifetime * SECOND <= tick && (v.negative || v.inserted + (v.lifetime + maxStale) * SECOND <= tick)
  }

  lemma {:induction false} AgeMeans(v: Stored, tick: int, n: nat)
    requires v.inserted <= tick
    ensures n <= Age(v, tick) <==> v.inserted + n * SECOND <= tick
  {
  }

  /** The times at which an entry is served, and at which it is given up. */
  lemma {:induction false} ServesMeans(v: Stored, tick: int, maxStale: uint32, room: nat)
    ensures Serves(v, tick, maxStale, room) <==>
      && v.inserted <= tick && |v.message| <= room
      && (tick < v.inserted + v.lifetime * SECOND || (!v.negative && tick < v.inserted + (v.lifetime + maxStale) * SECOND))
    ensures v.inserted <= tick ==>
      var r := HitResult(v, tick);
      && (r.stale <==> v.inserted + v.lifetime * SECOND <= tick)
      && (if r.stale then v.inserted + (v.lifetime + r.staleAge) * SECOND <= tick < v.inserted + (v.lifetime + r.staleAge + 1) * SECOND else r.staleAge == 0)
    ensures Outlived(v, tick, maxStale) <==>
      v.inserted <= tick && Age(v, tick) >= v.lifetime && (v.negative || Age(v, tick) - v.lifetime >= maxStale)
  {
    if v.inserted <= tick {
      AgeMeans(v, tick, v.lifetime);
      AgeMeans(v, tick, v.lifetime + maxStale);
      AgeMeans(v, tick, Age(v, tick));
      AgeMeans(v, tick, Age(v, tick) + 1);
    }
  }

  lemma {:induction false} LatestHeld(contents: map<Key, Stored>, puts: seq<Accepted>, key: Key)
    requires HoldsLatest(contents, puts) && key in contents
    ensures LatestPut(puts, key) == Some(contents[key])
  {
  }

  lemma {:induction false} FlagsOfHit(v: Stored, c: Client, elapsed: nat, stale: bool, staleTTL: uint32, dst: seq<byte>)
    requires TableFits(v.message, v.table, v.lifetime, |c.question|) && (stale <==> elapsed >= v.lifetime)
    requires |v.message| <= |dst| && dst[..|v.message|] == Personal(v.message, v.table, c, elapsed, stale, staleTTL)
    ensures 4 <= |v.message| && U16(dst, 0) == c.id && FlagsServed(U16(v.message, 2), ClientFlags(c.flagsHigh, c.flagsLow), U16(dst, 2))
  {
    hide TableFits, Personal, FlagsServed, ServedTTL, Unpatched;
    HitReply(v.message, v.table, v.lifetime, c, elapsed, stale, staleTTL);
    LongEnough(v.message, v.table, v.lifetime, |c.question|);
    assert dst[..|v.message|][2] == dst[2] && dst[..|v.message|][3] == dst[3] && dst[..|v.message|][0] == dst[0] && dst[..|v.message|][1] == dst[1];
  }

  lemma {:induction false} LongEnough(message: seq<byte>, table: seq<byte>, lifetime: nat, question: nat)
    requires TableFits(message, table, lifetime, question)
    ensures |message| >= 12
  {
  }

  function HitResult(v: Stored, tick: int): CacheResult {
    var stale := Age(v, tick) >= v.lifetime;
    CacheResult(true, v.negative, stale, if stale then Age(v, tick) - v.lifetime else 0, |v.message|)
  }

  /** A negative entry is never served stale, and a fresh one never with a zero TTL. */
  lemma {:induction false} ServedHonestly(v: Stored, question: nat, c: Client, tick: int, maxStale: uint32, staleTTL: uint32, room: nat)
    requires Template(v, question) && |c.question| == question && Serves(v, tick, maxStale, room)
    ensures HitResult(v, tick).stale ==> !v.negative && HitResult(v, tick).staleAge < maxStale
    ensures var r := Personal(v.message, v.table, c, Age(v, tick), HitResult(v, tick).stale, staleTTL);
      && |r| == |v.message| && U16(r, 0) == c.id && r[12..12 + |c.question|] == c.question
      && forall j: nat | j < Patches(v.table) :: ServedTTL(r, v.table, j, Age(v, tick), HitResult(v, tick).stale, staleTTL)
  {
    hide TableFits, Personal, ServedTTL, Unpatched;
    HitReply(v.message, v.table, v.lifetime, c, Age(v, tick), HitResult(v, tick).stale, staleTTL);
  }

  lemma {:induction false} SlotContents(slots: seq<Slot>, arena: seq<byte>, hash: Key -> nat, shards: nat, contents: map<Key, Stored>, i: nat)
    requires Indexed(slots, arena, hash, shards, contents) && i < |slots| && slots[i].Full?
    ensures KeyAt(arena, slots[i]) in contents && contents[KeyAt(arena, slots[i])] == StoredAt(arena, slots[i])
  {
    hide KeyAt, StoredAt;
    assert Mirrored(slots[i], arena, contents);
  }

  /** The in-place patching of the caller's buffer. */
  method WriteReply(message: seq<byte>, table: seq<byte>, ghost lifetime: nat, c: Client, elapsed: nat, stale: bool, staleTTL: uint32, dst: array<byte>)
    requires TableFits(message, table, lifetime, |c.question|) && |message| <= dst.Length
    modifies dst
    ensures dst[..|message|] == Personal(message, table, c, elapsed, stale, staleTTL)
    ensures dst[|message|..] == old(dst[|message|..])
  {
    hide Remaining, PatchOffset, PatchTTL, Addressed, Be32, Put;
    WriteHead(message, c, dst);
    var n := |message|;
    for j := 0 to Patches(table)
      invariant dst[..n] == PatchFirst(Addressed(message, c), table, j, elapsed, stale, staleTTL)
      invariant dst[n..] == old(dst[n..])
    {
      PutPart(dst, n, PatchOffset(table, j), Be32(Remaining(PatchTTL(table, j), elapsed, stale, staleTTL)));
    }
  }

  /** Overwrites a window of the first n bytes. */
  method PutPart(dst: array<byte>, ghost n: nat, off: nat, s: seq<byte>)
    requires n <= dst.Length && off + |s| <= n
    modifies dst
    ensures dst[..n] == Put(old(dst[..n]), off, s) && dst[n..] == old(dst[n..])
  {
    for i := 0 to |s|
      invariant forall k | 0 <= k < dst.Length :: dst[k] == if off <= k < off + i then s[k - off] else old(dst[k])
    {
      dst[off + i] := s[i];
    }
  }

  method WriteHead(message: seq<byte>, c: Client, dst: array<byte>)
    requires 12 + |c.question| <= |message| <= dst.Length
    modifies dst
    ensures dst[..|message|] == Addressed(message, c) && dst[|message|..] == old(dst[|message|..])
  {
    hide FlagsHigh, FlagsLow, Put, Be16;
    CopyMessage(message, dst);
    PutPart(dst, |message|, 0, Be16(c.id));
    PutPart(dst, |message|, 2, [FlagsHigh(message[2], c.flagsHigh), FlagsLow(message[3], c.flagsLow)]);
    PutPart(dst, |message|, 12, c.question);
  }

  method CopyMessage(message: seq<byte>, dst: array<byte>)
    requires |message| <= dst.Length
    modifies dst
    ensures dst[..|message|] == message && dst[|message|..] == old(dst[|message|..])
  {
    forall i | 0 <= i < |message| { dst[i] := message[i]; }
  }

  /** The slot count is a multiple of WAYS, so the hand walks every way of a bucket in turn. */
  lemma {:induction false} WaysNext(hand: nat, slots: nat)
    requires slots % WAYS == 0 && hand < slots
    ensures ((hand + 1) % slots) % WAYS == (hand % WAYS + 1) % WAYS
  {
    if hand + 1 < slots { ModSmall(hand + 1, slots); } else { ModSelf(slots); }
  }

  lemma {:induction false} EmptyHasRoom(slots: seq<Slot>, used: seq<bool>, size: nat)
    requires Layout(slots, used) && FullSet(slots) == {} && 0 < size <= BLOCK * |used|
    ensures FreeRun(used, 0, Need(size))
  {
    hide Layout;
    NeedCovers(size);
    EmptyLayout(slots, used);
  }

  /** An empty arena has room for anything no larger than itself, so a failed search means something is stored. */
  lemma {:induction false} RoomWhenEmpty(slots: seq<Slot>, used: seq<bool>, arena: nat, size: nat)
    requires Layout(slots, used) && arena == BLOCK * |used| && 0 < size <= arena
    requires NoRun(used, 0, |used|, Need(size))
    ensures |FullSet(slots)| > 0
  {
    hide Layout;
    if FullSet(slots) == {} {
      EmptyHasRoom(slots, used, size);
    }
  }

  lemma {:induction false} HashDecides(slots: seq<Slot>, arena: seq<byte>, hash: Key -> nat, shards: nat, contents: map<Key, Stored>, i: nat, key: Key)
    requires Indexed(slots, arena, hash, shards, contents) && i < |slots| && slots[i].Full?
    ensures KeyAt(arena, slots[i]) == key ==> slots[i].hash == hash(key) && slots[i].keyLen == |key|
  {
    assert Placed(slots[i], i, |slots|, arena, hash, shards);
  }

  lemma {:induction false} NotInBucket(slots: seq<Slot>, arena: seq<byte>, hash: Key -> nat, shards: nat, contents: map<Key, Stored>, key: Key)
    requires Indexed(slots, arena, hash, shards, contents)
    requires var b := Bucket(hash(key), shards, |slots|);
      forall j: nat | b <= j < b + WAYS && j < |slots| :: !HasKey(slots[j], arena, key)
    ensures key !in contents
  {
    hide Bucket, KeyAt, StoredAt;
    forall i: nat | i < |slots| ensures !HasKey(slots[i], arena, key) {
      assert Placed(slots[i], i, |slots|, arena, hash, shards);
    }
    assert key in contents ==> HeldBy(slots, arena, key);
  }
}
