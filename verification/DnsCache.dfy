/** One shard of the answer cache, updated in place (internal/dnscache). */
module DnsCache {
  import opened Common
  import opened DnsArena

  const WAYS: nat := 8

  /** A slot record; `first` and `count` are its byte offset and allocation in blocks. */
  datatype Slot =
    | Empty
    | Full(hash: nat, inserted: int, first: nat, count: nat, lifetime: nat,
           keyLen: nat, messageLen: nat, tableLen: nat, referenced: bool, negative: bool)

  type Key = seq<byte>

  /** What a put stores under a key. */
  datatype Stored = Stored(inserted: int, lifetime: nat, message: seq<byte>, table: seq<byte>, negative: bool)

  predicate Owns(s: Slot, b: nat) { s.Full? && s.first <= b < s.first + s.count }

  ghost predicate Fits(s: Slot, blocks: nat) {
    s.Full? ==> s.count > 0 && s.first + s.count <= blocks && s.keyLen + s.messageLen + s.tableLen <= BLOCK * s.count
  }

  function Sub(a: seq<byte>, lo: nat, n: nat): seq<byte> {
    if lo + n <= |a| then a[lo..lo + n] else []
  }

  function KeyAt(arena: seq<byte>, s: Slot): Key
    requires s.Full?
  {
    Sub(arena, BLOCK * s.first, s.keyLen)
  }

  function StoredAt(arena: seq<byte>, s: Slot): Stored
    requires s.Full?
  {
    var m := BLOCK * s.first + s.keyLen;
    Stored(s.inserted, s.lifetime, Sub(arena, m, s.messageLen), Sub(arena, m + s.messageLen, s.tableLen), s.negative)
  }

  function FullSet(slots: seq<Slot>): set<nat> { set i: nat | i < |slots| && slots[i].Full? }

  /** Used blocks are exactly the disjoint union of the slots' blocks, and the counters say so. */
  ghost predicate Layout(slots: seq<Slot>, used: seq<bool>) {
    && (forall i | 0 <= i < |slots| :: Fits(slots[i], |used|))
    && Apart(slots)
    && Marked(slots, used)
    && (forall b: nat | b < |used| && used[b] :: OwnedBy(slots, b))
  }

  ghost predicate Apart(slots: seq<Slot>) {
    forall i, j | 0 <= i < j < |slots| :: Clear(slots[i], slots[j])
  }

  ghost predicate Clear(s: Slot, t: Slot) { forall b: nat :: !(Owns(s, b) && Owns(t, b)) }

  ghost predicate Marked(slots: seq<Slot>, used: seq<bool>) {
    forall i | 0 <= i < |slots| :: OnlyUsed(slots[i], used)
  }

  ghost predicate OnlyUsed(s: Slot, used: seq<bool>) { forall b: nat | Owns(s, b) :: b < |used| && used[b] }

  ghost predicate OwnedBy(slots: seq<Slot>, b: nat) { exists i :: 0 <= i < |slots| && Owns(slots[i], b) }

  /** Emptying a slot frees exactly its blocks. */
  lemma {:induction false} LayoutRemove(slots: seq<Slot>, used: seq<bool>, i: nat)
    requires Layout(slots, used) && i < |slots| && slots[i].Full?
    ensures slots[i].first + slots[i].count <= |used|
    ensures forall b | slots[i].first <= b < slots[i].first + slots[i].count :: used[b]
    ensures Layout(slots[i := Empty], Fill(used, slots[i].first, slots[i].count, false))
  {
    var s := slots[i];
    assert Fits(s, |used|);
    forall b: nat | s.first <= b < s.first + s.count ensures used[b] { assert Owns(s, b); }
    var slots', used' := slots[i := Empty], Fill(used, s.first, s.count, false);
    forall j | 0 <= j < |slots'| ensures Fits(slots'[j], |used'|) {
      assert j != i ==> slots'[j] == slots[j];
    }
    assert Marked(slots', used') by {
      forall j | 0 <= j < |slots'| ensures OnlyUsed(slots'[j], used') {
        if j != i {
          assert slots'[j] == slots[j] && OnlyUsed(slots[j], used);
          assert if j < i then Clear(slots[j], s) else Clear(s, slots[j]);
        }
      }
    }
    assert Apart(slots') by {
      forall j, k | 0 <= j < k < |slots'| ensures Clear(slots'[j], slots'[k]) {
        assert Clear(slots[j], slots[k]);
      }
    }
    forall b: nat | b < |used'| && used'[b] ensures OwnedBy(slots', b) {
      assert OwnedBy(slots, b);
      var j :| 0 <= j < |slots| && Owns(slots[j], b);
      assert slots'[j] == slots[j];
    }
  }

  /** Filling an empty slot with a free run keeps the union exact. */
  lemma {:induction false} LayoutInsert(slots: seq<Slot>, used: seq<bool>, i: nat, s: Slot)
    requires Layout(slots, used) && i < |slots| && slots[i].Empty? && s.Full?
    requires Fits(s, |used|) && FreeRun(used, s.first, s.count)
    ensures Layout(slots[i := s], Fill(used, s.first, s.count, true))
  {
    var slots', used' := slots[i := s], Fill(used, s.first, s.count, true);
    forall j | 0 <= j < |slots'| ensures Fits(slots'[j], |used'|) {
      assert j != i ==> slots'[j] == slots[j];
    }
    assert Marked(slots', used') by {
      forall j | 0 <= j < |slots'| ensures OnlyUsed(slots'[j], used') {
        assert j != i ==> slots'[j] == slots[j] && OnlyUsed(slots[j], used);
      }
    }
    assert Apart(slots') by {
      forall j, k | 0 <= j < k < |slots'| ensures Clear(slots'[j], slots'[k]) {
        assert Clear(slots[j], slots[k]) && OnlyUsed(slots[j], used) && OnlyUsed(slots[k], used);
      }
    }
    forall b: nat | b < |used'| && used'[b] ensures OwnedBy(slots', b) {
      if s.first <= b < s.first + s.count {
        assert Owns(slots'[i], b);
      } else {
        assert OwnedBy(slots, b);
        var j :| 0 <= j < |slots| && Owns(slots[j], b);
        assert slots'[j] == slots[j];
      }
    }
  }

  /** Reference bits do not take part in the layout. */
  lemma {:induction false} LayoutTouch(slots: seq<Slot>, used: seq<bool>, i: nat, s: Slot)
    requires Layout(slots, used) && i < |slots| && slots[i].Full? && s.Full? && s == slots[i].(referenced := s.referenced)
    ensures Layout(slots[i := s], used)
  {
    var slots' := slots[i := s];
    assert forall j, b: nat | 0 <= j < |slots| :: Owns(slots'[j], b) <==> Owns(slots[j], b);
    forall b: nat | b < |used| && used[b] ensures OwnedBy(slots', b) {
      assert OwnedBy(slots, b);
      var j :| 0 <= j < |slots| && Owns(slots[j], b);
      assert Owns(slots'[j], b);
    }
  }

  /** With every slot empty the whole arena is one free run. */
  lemma {:induction false} EmptyLayout(slots: seq<Slot>, used: seq<bool>)
    requires Layout(slots, used) && FullSet(slots) == {}
    ensures FreeRun(used, 0, |used|)
  {
    forall i | 0 <= i < |slots| ensures slots[i].Empty? {
      assert i in FullSet(slots) <==> slots[i].Full?;
    }
    forall b: nat | b < |used| ensures !used[b] {
      assert used[b] ==> OwnedBy(slots, b);
    }
  }

  // ---- keys ----

  /** First slot of the bucket a hash selects. */
  function Bucket(hash: nat, shards: nat, slots: nat): (b: nat)
    requires shards > 0 && slots >= WAYS
  {
    (hash / shards) % (slots / WAYS) * WAYS
  }

  /** Every bucket lies inside the table. */
  lemma {:induction false} BucketFits(hash: nat, shards: nat, slots: nat)
    requires shards > 0 && slots >= WAYS && slots % WAYS == 0
    ensures Bucket(hash, shards, slots) + WAYS <= slots && Bucket(hash, shards, slots) % WAYS == 0
  {
    var n := slots / WAYS;
    var q := (hash / shards) % n;
    assert 0 <= q < n && n * WAYS == slots;
    assert (q + 1) * WAYS <= n * WAYS;
  }

  /** Slot i holds a well-placed key: its stored hash is the key's, i is in that hash's bucket, its bytes are in range. */
  ghost predicate Placed(s: Slot, i: nat, slots: nat, arena: seq<byte>, hash: Key -> nat, shards: nat)
    requires shards > 0 && slots >= WAYS
  {
    s.Full? ==>
      && BLOCK * s.first + BLOCK * s.count <= |arena|
      && s.keyLen + s.messageLen + s.tableLen <= BLOCK * s.count
      && s.hash == hash(KeyAt(arena, s))
      && Bucket(s.hash, shards, slots) <= i < Bucket(s.hash, shards, slots) + WAYS
  }

  ghost predicate Mirrored(s: Slot, arena: seq<byte>, contents: map<Key, Stored>) {
    s.Full? ==> KeyAt(arena, s) in contents && contents[KeyAt(arena, s)] == StoredAt(arena, s)
  }

  ghost predicate HasKey(s: Slot, arena: seq<byte>, k: Key) { s.Full? && KeyAt(arena, s) == k }

  ghost predicate HeldBy(slots: seq<Slot>, arena: seq<byte>, k: Key) {
    exists i: nat :: i < |slots| && HasKey(slots[i], arena, k)
  }

  /** Each key occupies at most one slot, in its own bucket, and the abstract map mirrors the slots. */
  ghost predicate Indexed(slots: seq<Slot>, arena: seq<byte>, hash: Key -> nat, shards: nat, contents: map<Key, Stored>) {
    && shards > 0 && |slots| >= WAYS
    && (forall i: nat | i < |slots| :: Placed(slots[i], i, |slots|, arena, hash, shards))
    && (forall i: nat, j: nat, k | i < j < |slots| && HasKey(slots[i], arena, k) :: !HasKey(slots[j], arena, k))
    && (forall i: nat | i < |slots| :: Mirrored(slots[i], arena, contents))
    && (forall k :: k in contents ==> HeldBy(slots, arena, k))
  }

  lemma {:induction false} IndexRemove(slots: seq<Slot>, arena: seq<byte>, hash: Key -> nat, shards: nat, contents: map<Key, Stored>, i: nat)
    requires Indexed(slots, arena, hash, shards, contents) && i < |slots| && slots[i].Full?
    ensures Indexed(slots[i := Empty], arena, hash, shards, contents - {KeyAt(arena, slots[i])})
  {
    hide Bucket, KeyAt, StoredAt;
    var slots', contents' := slots[i := Empty], contents - {KeyAt(arena, slots[i])};
    assert HasKey(slots[i], arena, KeyAt(arena, slots[i]));
    forall j: nat | j < |slots'| ensures Mirrored(slots'[j], arena, contents') {
      assert Mirrored(slots[j], arena, contents);
      if slots'[j].Full? {
        assert HasKey(slots[j], arena, KeyAt(arena, slots[j]));
      }
    }
    forall k | k in contents' ensures HeldBy(slots', arena, k) {
      assert HeldBy(slots, arena, k);
      var j: nat :| j < |slots| && HasKey(slots[j], arena, k);
      assert HasKey(slots'[j], arena, k);
    }
  }

  lemma {:induction false} TouchReads(arena: seq<byte>, s: Slot, t: Slot)
    requires s.Full? && t.Full? && t == s.(referenced := t.referenced)
    ensures KeyAt(arena, t) == KeyAt(arena, s) && StoredAt(arena, t) == StoredAt(arena, s)
  {
  }

  lemma {:induction false} IndexTouch(slots: seq<Slot>, arena: seq<byte>, hash: Key -> nat, shards: nat, contents: map<Key, Stored>, i: nat, s: Slot)
    requires Indexed(slots, arena, hash, shards, contents) && i < |slots| && slots[i].Full? && s.Full? && s == slots[i].(referenced := s.referenced)
    ensures Indexed(slots[i := s], arena, hash, shards, contents)
  {
    hide Bucket, KeyAt, StoredAt;
    TouchReads(arena, slots[i], s);
    var slots' := slots[i := s];
    assert forall j: nat, k | j < |slots| :: HasKey(slots'[j], arena, k) <==> HasKey(slots[j], arena, k);
    forall k | k in contents ensures HeldBy(slots', arena, k) {
      assert HeldBy(slots, arena, k);
      var j: nat :| j < |slots| && HasKey(slots[j], arena, k);
      assert HasKey(slots'[j], arena, k);
    }
  }

  /** Copying a blob into the arena. */
  function Write(arena: seq<byte>, off: nat, blob: seq<byte>): (r: seq<byte>)
    requires off + |blob| <= |arena|
    ensures |r| == |arena| && r[off..off + |blob|] == blob
    ensures forall a, b | 0 <= a <= b <= |arena| && (b <= off || off + |blob| <= a) :: r[a..b] == arena[a..b]
  {
    arena[..off] + blob + arena[off + |blob|..]
  }

  lemma {:induction false} Blocks(a: nat, b: nat)
    requires a <= b
    ensures BLOCK * a <= BLOCK * b
  {
  }

  /** Slots that own other blocks do not see the write. */
  lemma {:induction false} WriteElsewhere(arena: seq<byte>, s: Slot, n: Slot, blob: seq<byte>)
    requires s.Full? && n.Full? && BLOCK * n.first + |blob| <= |arena| && |blob| <= BLOCK * n.count
    requires s.keyLen + s.messageLen + s.tableLen <= BLOCK * s.count && BLOCK * s.first + BLOCK * s.count <= |arena|
    requires s.first + s.count <= n.first || n.first + n.count <= s.first
    ensures var arena' := Write(arena, BLOCK * n.first, blob);
      KeyAt(arena', s) == KeyAt(arena, s) && StoredAt(arena', s) == StoredAt(arena, s)
  {
    if s.first + s.count <= n.first { Blocks(s.first + s.count, n.first); } else { Blocks(n.first + n.count, s.first); }
  }

  /** n is a slot record for this key and value. */
  ghost predicate Describes(n: Slot, key: Key, value: Stored) {
    && n.Full? && n.keyLen == |key| && n.messageLen == |value.message| && n.tableLen == |value.table|
    && n.inserted == value.inserted && n.lifetime == value.lifetime && n.negative == value.negative
    && |key| + |value.message| + |value.table| <= BLOCK * n.count
  }

  /** The other slots read the same bytes before and after. */
  ghost predicate SameReads(slots: seq<Slot>, arena: seq<byte>, arena': seq<byte>) {
    forall j: nat | j < |slots| && slots[j].Full? ::
      KeyAt(arena', slots[j]) == KeyAt(arena, slots[j]) && StoredAt(arena', slots[j]) == StoredAt(arena, slots[j])
  }

  lemma {:induction false} WriteKeepsReads(slots: seq<Slot>, arena: seq<byte>, hash: Key -> nat, shards: nat, contents: map<Key, Stored>,
                        used: seq<bool>, n: Slot, blob: seq<byte>)
    requires Indexed(slots, arena, hash, shards, contents) && Layout(slots, used) && |arena| == BLOCK * |used|
    requires n.Full? && n.count > 0 && FreeRun(used, n.first, n.count) && |blob| <= BLOCK * n.count
    ensures BLOCK * n.first + BLOCK * n.count <= |arena|
    ensures SameReads(slots, arena, Write(arena, BLOCK * n.first, blob))
  {
    hide Bucket, Layout, KeyAt, StoredAt, Write;
    Blocks(n.first + n.count, |used|);
    forall j: nat | j < |slots| && slots[j].Full?
      ensures KeyAt(Write(arena, BLOCK * n.first, blob), slots[j]) == KeyAt(arena, slots[j])
      ensures StoredAt(Write(arena, BLOCK * n.first, blob), slots[j]) == StoredAt(arena, slots[j])
    {
      assert Placed(slots[j], j, |slots|, arena, hash, shards);
      Disjoint(slots, used, j, n);
      WriteElsewhere(arena, slots[j], n, blob);
    }
  }

  /** Adding a new key to an empty slot of its bucket. */
  lemma {:induction false} IndexInsert(slots: seq<Slot>, arena: seq<byte>, arena': seq<byte>, hash: Key -> nat, shards: nat, contents: map<Key, Stored>,
                    i: nat, n: Slot, key: Key, value: Stored)
    requires Indexed(slots, arena, hash, shards, contents) && SameReads(slots, arena, arena') && |arena'| == |arena|
    requires i < |slots| && slots[i].Empty? && key !in contents
    requires Describes(n, key, value) && KeyAt(arena', n) == key && StoredAt(arena', n) == value
    requires n.hash == hash(key) && BLOCK * n.first + BLOCK * n.count <= |arena|
    requires Bucket(n.hash, shards, |slots|) <= i < Bucket(n.hash, shards, |slots|) + WAYS
    ensures Indexed(slots[i := n], arena', hash, shards, contents[key := value])
  {
    hide Bucket, KeyAt, StoredAt;
    var slots', contents' := slots[i := n], contents[key := value];
    forall j: nat | j < |slots| && slots[j].Full? ensures KeyAt(arena, slots[j]) != key {
      assert Mirrored(slots[j], arena, contents);
    }
    forall j: nat | j < |slots'|
      ensures Placed(slots'[j], j, |slots'|, arena', hash, shards) && Mirrored(slots'[j], arena', contents')
    {
      assert Placed(slots[j], j, |slots|, arena, hash, shards) && Mirrored(slots[j], arena, contents);
    }
    forall j: nat, m: nat, k | j < m < |slots'| && HasKey(slots'[j], arena', k) ensures !HasKey(slots'[m], arena', k) {
      if j != i { assert HasKey(slots[j], arena, k); }
      if m != i && slots'[m].Full? { assert HasKey(slots[m], arena, KeyAt(arena, slots[m])); }
    }
    forall k | k in contents' ensures HeldBy(slots', arena', k) {
      if k == key {
        assert HasKey(slots'[i], arena', k);
      } else {
        assert HeldBy(slots, arena, k);
        var j: nat :| j < |slots| && HasKey(slots[j], arena, k);
        assert HasKey(slots'[j], arena', k);
      }
    }
  }

  lemma {:induction false} Disjoint(slots: seq<Slot>, used: seq<bool>, j: nat, n: Slot)
    requires Layout(slots, used) && j < |slots| && slots[j].Full? && n.Full? && n.count > 0 && FreeRun(used, n.first, n.count)
    ensures slots[j].first + slots[j].count <= n.first || n.first + n.count <= slots[j].first
  {
    assert Fits(slots[j], |used|);
    var s := slots[j];
    var b := if s.first >= n.first then s.first else n.first;
    assert Owns(s, b) ==> used[b];
  }

  lemma {:induction false} BlobReads(arena: seq<byte>, n: Slot, key: Key, value: Stored)
    requires Describes(n, key, value) && BLOCK * n.first + BLOCK * n.count <= |arena|
    ensures var arena' := Write(arena, BLOCK * n.first, key + value.message + value.table);
      KeyAt(arena', n) == key && StoredAt(arena', n) == value
  {
    hide Write;
    BlobSlices(Write(arena, BLOCK * n.first, key + value.message + value.table), BLOCK * n.first, key, value.message, value.table);
  }

  lemma {:induction false} BlobSlices(a: seq<byte>, off: nat, x: seq<byte>, y: seq<byte>, z: seq<byte>)
    requires off + |x| + |y| + |z| <= |a| && a[off..off + |x + y + z|] == x + y + z
    ensures Sub(a, off, |x|) == x && Sub(a, off + |x|, |y|) == y && Sub(a, off + |x| + |y|, |z|) == z
  {
    var blob := x + y + z;
    SliceOf(a, off, blob, 0, |x|);
    SliceOf(a, off, blob, |x|, |x| + |y|);
    SliceOf(a, off, blob, |x| + |y|, |blob|);
    BlobParts(x, y, z);
  }

  lemma {:induction false} BlobParts(a: seq<byte>, b: seq<byte>, c: seq<byte>)
    ensures var blob := a + b + c;
      blob[0..|a|] == a && blob[|a|..|a| + |b|] == b && blob[|a| + |b|..|blob|] == c
  {
  }

  lemma {:induction false} SliceOf(a: seq<byte>, off: nat, blob: seq<byte>, lo: nat, hi: nat)
    requires off + |blob| <= |a| && a[off..off + |blob|] == blob && lo <= hi <= |blob|
    ensures a[off + lo..off + hi] == blob[lo..hi]
  {
    var whole := a[off..off + |blob|];
    forall k | 0 <= k < hi - lo ensures a[off + lo..off + hi][k] == blob[lo..hi][k] {
      assert a[off + lo..off + hi][k] == a[off + (lo + k)] == whole[lo + k];
    }
  }

  /** The slot record of a blob placed at a block. */
  function Record(hash: Key -> nat, first: nat, key: Key, value: Stored): Slot {
    Full(hash(key), value.inserted, first, Need(|key| + |value.message| + |value.table|), value.lifetime,
         |key|, |value.message|, |value.table|, true, value.negative)
  }

  function Blob(key: Key, value: Stored): seq<byte> { key + value.message + value.table }

  lemma {:induction false} NeedCovers(size: nat)
    requires size > 0
    ensures Need(size) > 0 && size <= BLOCK * Need(size) < size + BLOCK
  {
  }

  /** Writing a new blob and its record keeps layout, index and both counters exact. */
  lemma {:induction false} StoreKeeps(slots: seq<Slot>, arena: seq<byte>, hash: Key -> nat, shards: nat, contents: map<Key, Stored>,
                   used: seq<bool>, i: nat, first: nat, key: Key, value: Stored)
    requires Indexed(slots, arena, hash, shards, contents) && Layout(slots, used) && |arena| == BLOCK * |used|
    requires i < |slots| && slots[i].Empty? && key !in contents && |key| > 0
    requires Bucket(hash(key), shards, |slots|) <= i < Bucket(hash(key), shards, |slots|) + WAYS
    requires FreeRun(used, first, Need(|Blob(key, value)|))
    ensures BLOCK * first + |Blob(key, value)| <= |arena|
    ensures var n := Record(hash, first, key, value);
      && Layout(slots[i := n], Fill(used, first, n.count, true))
      && Indexed(slots[i := n], Write(arena, BLOCK * first, Blob(key, value)), hash, shards, contents[key := value])
      && |FullSet(slots[i := n])| == |FullSet(slots)| + 1
      && |UsedSet(Fill(used, first, n.count, true))| == |UsedSet(used)| + n.count
  {
    hide Layout, Indexed, KeyAt, StoredAt, Bucket, Write;
    var n := Record(hash, first, key, value);
    var blob := Blob(key, value);
    NeedCovers(|blob|);
    WriteKeepsReads(slots, arena, hash, shards, contents, used, n, blob);
    BlobReads(arena, n, key, value);
    LayoutInsert(slots, used, i, n);
    FillCounts(used, first, n.count);
    WriteSize(arena, BLOCK * first, blob);
    IndexInsert(slots, arena, Write(arena, BLOCK * first, blob), hash, shards, contents, i, n, key, value);
    assert FullSet(slots[i := n]) == FullSet(slots) + {i};
  }

  lemma {:induction false} WriteSize(arena: seq<byte>, off: nat, blob: seq<byte>)
    requires off + |blob| <= |arena|
    ensures |Write(arena, off, blob)| == |arena|
  {
  }
}
