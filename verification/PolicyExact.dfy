/** The exact-name index: paged key arena and open addressing (internal/policy/exact_build.go, index_exact.go). */
module PolicyExact {
  import opened Common

  type Key = seq<byte>

  const PAGE: nat := 65536

  datatype Slot = Slot(hash: nat, off: nat, head: nat)
  const FREE: Slot := Slot(0, 0, 0)

  // ---- the paged arena ----

  /** A key stored at an offset of some bytes: its length, then itself. */
  ghost predicate HoldsKey(bytes: seq<byte>, at: nat, key: Key) {
    at < |bytes| && bytes[at] == |key| && at + 1 + |key| <= |bytes| && bytes[at + 1..at + 1 + |key|] == key
  }

  ghost predicate PagesOK(pages: seq<seq<byte>>) { forall i | 0 <= i < |pages| :: |pages[i]| <= PAGE }

  /** The key at an offset of the pages; keys never straddle a page. */
  ghost predicate PagedKey(pages: seq<seq<byte>>, off: nat, key: Key) {
    off / PAGE < |pages| && HoldsKey(pages[off / PAGE], off % PAGE, key)
  }

  function Size(pages: seq<seq<byte>>): nat {
    if pages == [] then 0 else (|pages| - 1) * PAGE + |pages[|pages| - 1]|
  }

  lemma {:induction false} PageOf(page: nat, at: nat)
    requires at < PAGE
    ensures (page * PAGE + at) / PAGE == page && (page * PAGE + at) % PAGE == at
  {
  }

  /** Appends a key, on a new page if the last one is too full. */
  method AddKey(pages: seq<seq<byte>>, key: Key) returns (more: seq<seq<byte>>, off: nat)
    requires PagesOK(pages) && |key| <= 254
    ensures PagesOK(more) && PagedKey(more, off, key)
    ensures forall o: nat, k | PagedKey(pages, o, k) :: PagedKey(more, o, k) && o != off
    ensures (forall i | 0 <= i < |pages| :: |pages[i]| > 0) ==> forall i | 0 <= i < |more| :: |more[i]| > 0
  {
    var need := |key| + 1;
    var newPage := pages == [] || |pages[|pages| - 1]| + need > PAGE;
    off := if newPage then |pages| * PAGE else Size(pages);
    more := if newPage then pages + [[]] else pages;
    var i := |more| - 1;
    ghost var before := more[i];
    assert off == i * PAGE + |before|;
    PageOf(i, |before|);
    more := more[i := more[i] + [|key|] + key];
    assert HoldsKey(more[i], |before|, key);
    forall o: nat, k | PagedKey(pages, o, k) ensures PagedKey(more, o, k) && o != off {
      KeyStays(pages[o / PAGE], o % PAGE, k, [|key|] + key);
      assert pages[o / PAGE] + ([|key|] + key) == pages[o / PAGE] + [|key|] + key;
    }
  }

  lemma {:induction false} KeyStays(bytes: seq<byte>, at: nat, key: Key, more: seq<byte>)
    requires HoldsKey(bytes, at, key)
    ensures HoldsKey(bytes + more, at, key)
  {
  }

  /** Reads a key back from its page. */
  method ReadPaged(pages: seq<seq<byte>>, off: nat, ghost key: Key) returns (k: Key)
    requires PagedKey(pages, off, key)
    ensures k == key
  {
    var page, i := pages[off / PAGE], off % PAGE;
    return page[i + 1..i + 1 + page[i]];
  }

  /** Page i sits at offset i times the page size of the finished arena. */
  ghost predicate Copied(pages: seq<seq<byte>>, keys: seq<byte>, n: nat)
    requires n <= |pages|
  {
    forall i: nat | i < n :: SitsAt(keys, i * PAGE, pages[i])
  }

  ghost predicate SitsAt(keys: seq<byte>, at: nat, page: seq<byte>) {
    at + |page| <= |keys| && keys[at..at + |page|] == page
  }

  /** Copies the pages into one contiguous arena. */
  method Finish(pages: seq<seq<byte>>) returns (keys: seq<byte>)
    requires PagesOK(pages) && forall i | 0 <= i < |pages| :: |pages[i]| > 0
    ensures |keys| == Size(pages)
    ensures forall o: nat, k | PagedKey(pages, o, k) :: HoldsKey(keys, o, k)
  {
    hide Size, Overwrite;
    keys := seq(Size(pages), i => 0);
    for i := 0 to |pages|
      invariant |keys| == Size(pages) && Copied(pages, keys, i)
    {
      PageEnds(pages, i);
      CopyKeeps(pages, keys, i);
      keys := Overwrite(keys, i * PAGE, pages[i]);
    }
    forall o: nat, k | PagedKey(pages, o, k) ensures HoldsKey(keys, o, k) {
      FinishedKey(pages, keys, o, k);
    }
  }

  function Overwrite(keys: seq<byte>, at: nat, page: seq<byte>): (r: seq<byte>)
    requires at + |page| <= |keys|
    ensures |r| == |keys| && forall i | 0 <= i < |keys| :: r[i] == if at <= i < at + |page| then page[i - at] else keys[i]
  {
    keys[..at] + page + keys[at + |page|..]
  }

  lemma {:induction false} PageEnds(pages: seq<seq<byte>>, i: nat)
    requires PagesOK(pages) && i < |pages| && forall k | 0 <= k < |pages| :: |pages[k]| > 0
    ensures i * PAGE + |pages[i]| <= Size(pages)
  {
  }

  lemma {:induction false} CopyKeeps(pages: seq<seq<byte>>, keys: seq<byte>, n: nat)
    requires PagesOK(pages) && n < |pages| && Copied(pages, keys, n) && n * PAGE + |pages[n]| <= |keys|
    ensures Copied(pages, Overwrite(keys, n * PAGE, pages[n]), n + 1)
  {
    hide Overwrite;
    var r := Overwrite(keys, n * PAGE, pages[n]);
    forall i: nat | i < n + 1 ensures SitsAt(r, i * PAGE, pages[i]) {
      if i < n {
        assert SitsAt(keys, i * PAGE, pages[i]) && i * PAGE + |pages[i]| <= n * PAGE;
        assert r[i * PAGE..i * PAGE + |pages[i]|] == keys[i * PAGE..i * PAGE + |pages[i]|];
      } else {
        assert r[n * PAGE..n * PAGE + |pages[n]|] == pages[n];
      }
    }
  }

  /** Offsets keep their meaning when the pages are joined. */
  lemma {:induction false} FinishedKey(pages: seq<seq<byte>>, keys: seq<byte>, off: nat, key: Key)
    requires Copied(pages, keys, |pages|) && PagedKey(pages, off, key)
    ensures HoldsKey(keys, off, key)
  {
    hide HoldsKey, SitsAt;
    var i: nat := off / PAGE;
    assert SitsAt(keys, i * PAGE, pages[i]);
    HoldsInside(keys, i * PAGE, pages[i], off % PAGE, key);
  }

  lemma {:induction false} HoldsInside(keys: seq<byte>, base: nat, page: seq<byte>, at: nat, key: Key)
    requires SitsAt(keys, base, page) && HoldsKey(page, at, key)
    ensures HoldsKey(keys, base + at, key)
  {
    var part := keys[base..base + |page|];
    assert part[at] == keys[base + at];
    var a, b := part[at + 1..at + 1 + |key|], keys[base + at + 1..base + at + 1 + |key|];
    assert |a| == |b| && forall j | 0 <= j < |key| :: a[j] == part[at + 1 + j] == b[j];
  }

  // ---- open addressing ----

  function Home(hash: nat, n: nat): (r: nat)
    requires n > 0
    ensures r < n
  {
    hash % n
  }

  function Onward(i: nat, n: nat): (r: nat)
    requires n > 0
    ensures r < n
  {
    (i + 1) % n
  }

  /** Slots from home up to i, exclusive, are taken. */
  ghost predicate Taken(slots: seq<Slot>, home: nat, i: nat) {
    forall j | 0 <= j < |slots| && Around(home, j, |slots|) < Around(home, i, |slots|) :: slots[j].head != 0
  }

  /**
   A taken slot holds a key of the map, its hash and its head, reachable from the key's home
   without crossing a free slot. at maps offsets to keys.
   */
  ghost predicate SlotOK(slots: seq<Slot>, i: nat, at: map<nat, Key>, hash: Key -> nat, heads: map<Key, nat>)
    requires i < |slots|
  {
    slots[i].head != 0 ==>
      && slots[i].off in at
      && var k := at[slots[i].off];
         k in heads && heads[k] == slots[i].head && slots[i].hash == hash(k) && Taken(slots, Home(hash(k), |slots|), i)
  }

  ghost predicate AtSlot(slots: seq<Slot>, at: map<nat, Key>, k: Key, i: nat) {
    i < |slots| && slots[i].head != 0 && slots[i].off in at && at[slots[i].off] == k
  }

  ghost predicate Stored(slots: seq<Slot>, at: map<nat, Key>, k: Key) { exists i: nat :: AtSlot(slots, at, k, i) }

  /** The table is a map from keys to heads. */
  ghost predicate Indexes(slots: seq<Slot>, at: map<nat, Key>, hash: Key -> nat, heads: map<Key, nat>) {
    && |slots| > 0
    && (forall i: nat | i < |slots| :: SlotOK(slots, i, at, hash, heads))
    && (forall k :: k in heads ==> heads[k] > 0 && Stored(slots, at, k))
    && (forall i: nat, j: nat, k | AtSlot(slots, at, k, i) && AtSlot(slots, at, k, j) :: i == j)
  }

  lemma {:induction false} OnwardNext(home: nat, i: nat, n: nat)
    requires home < n && i < n
    ensures Around(home, i, n) < n - 1 ==> Around(home, Onward(i, n), n) == Around(home, i, n) + 1
    ensures forall j: nat | j < n :: Around(home, j, n) == Around(home, i, n) <==> j == i
  {
    AroundNext(home, i, n);
  }

  /** Slots before i have been looked at: all taken, none holds the key. */
  ghost predicate Passed(slots: seq<Slot>, at: map<nat, Key>, key: Key, home: nat, i: nat) {
    forall j: nat | j < |slots| && Around(home, j, |slots|) < Around(home, i, |slots|) :: slots[j].head != 0 && !AtSlot(slots, at, key, j)
  }

  lemma {:induction false} PassOne(slots: seq<Slot>, at: map<nat, Key>, key: Key, home: nat, i: nat)
    requires home < |slots| && i < |slots| && Passed(slots, at, key, home, i) && slots[i].head != 0 && !AtSlot(slots, at, key, i)
    ensures Around(home, i, |slots|) < |slots| - 1 ==> Passed(slots, at, key, home, Onward(i, |slots|))
    ensures Around(home, i, |slots|) == |slots| - 1 ==> forall j: nat | j < |slots| :: slots[j].head != 0
  {
    hide AtSlot;
    OnwardNext(home, i, |slots|);
  }

  /** A free slot behind the passed ones ends the search: the key is nowhere. */
  lemma {:induction false} FreeEnds(slots: seq<Slot>, at: map<nat, Key>, hash: Key -> nat, heads: map<Key, nat>, key: Key, i: nat)
    requires Indexes(slots, at, hash, heads) && i < |slots| && slots[i].head == 0 && Passed(slots, at, key, Home(hash(key), |slots|), i)
    ensures key !in heads
  {
    if key in heads {
      assert Stored(slots, at, key);
      var j: nat :| AtSlot(slots, at, key, j);
      assert SlotOK(slots, j, at, hash, heads);
      OnwardNext(Home(hash(key), |slots|), j, |slots|);
    }
  }

  /** A taken slot with another hash or another key is not the key's. */
  lemma {:induction false} OtherKey(slots: seq<Slot>, at: map<nat, Key>, hash: Key -> nat, heads: map<Key, nat>, key: Key, i: nat)
    requires Indexes(slots, at, hash, heads) && i < |slots| && slots[i].head != 0
    ensures slots[i].off in at && (AtSlot(slots, at, key, i) <==> at[slots[i].off] == key)
    ensures AtSlot(slots, at, key, i) ==> slots[i].hash == hash(key) && key in heads && heads[key] == slots[i].head
  {
    assert SlotOK(slots, i, at, hash, heads);
  }

  // ---- room ----

  lemma {:induction false} TakenCount(slots: seq<Slot>, at: map<nat, Key>, n: nat) returns (keys: set<Key>)
    requires n <= |slots| && (forall i: nat | i < n :: slots[i].head != 0 && slots[i].off in at)
    requires forall i: nat, j: nat, k | AtSlot(slots, at, k, i) && AtSlot(slots, at, k, j) :: i == j
    ensures |keys| == n && forall k :: k in keys ==> exists i: nat :: i < n && AtSlot(slots, at, k, i)
  {
    if n == 0 {
      keys := {};
    } else {
      var front := TakenCount(slots, at, n - 1);
      var last := at[slots[n - 1].off];
      assert AtSlot(slots, at, last, n - 1);
      assert last !in front;
      keys := front + {last};
    }
  }

  /** While there are fewer keys than slots, some slot is free. */
  lemma {:induction false} SomeFree(slots: seq<Slot>, at: map<nat, Key>, hash: Key -> nat, heads: map<Key, nat>)
    requires Indexes(slots, at, hash, heads) && |heads.Keys| < |slots|
    ensures exists i: nat :: i < |slots| && slots[i].head == 0
  {
    if forall i: nat | i < |slots| :: slots[i].head != 0 {
      forall i: nat | i < |slots| ensures slots[i].off in at { assert SlotOK(slots, i, at, hash, heads); }
      var keys := TakenCount(slots, at, |slots|);
      forall k | k in keys ensures k in heads {
        var i: nat :| i < |slots| && AtSlot(slots, at, k, i);
        assert SlotOK(slots, i, at, hash, heads);
      }
      SubsetSize(keys, heads.Keys);
    }
  }

  /** The table is sized for a load of at most 70 percent, so it never fills. */
  lemma {:induction false} LoadLeavesRoom(count: nat)
    requires count > 0
    ensures (count * 100 + 69) / 70 > count
  {
  }

  // ---- lookup ----

  datatype Table = Table(slots: seq<Slot>, keys: seq<byte>)

  /** The contiguous arena holds each key at its offset. */
  ghost predicate KeysAt(keys: seq<byte>, at: map<nat, Key>) { forall o :: o in at ==> HoldsKey(keys, o, at[o]) }

  /** A finished table for a map from keys to heads; an empty one may have no slots at all. */
  ghost predicate TableOK(t: Table, hash: Key -> nat, heads: map<Key, nat>) {
    if t.slots == [] then heads == map[]
    else exists at: map<nat, Key> :: KeysAt(t.keys, at) && Indexes(t.slots, at, hash, heads) && |heads.Keys| < |t.slots|
  }

  lemma {:induction false} KeyReads(keys: seq<byte>, at: map<nat, Key>, off: nat)
    requires KeysAt(keys, at) && off in at
    ensures off < |keys| && off + 1 + keys[off] <= |keys| && keys[off + 1..off + 1 + keys[off]] == at[off]
  {
    assert HoldsKey(keys, off, at[off]);
  }

  lemma {:induction false} TableMap(t: Table, hash: Key -> nat, heads: map<Key, nat>) returns (at: map<nat, Key>)
    requires TableOK(t, hash, heads)
    ensures t.slots == [] ==> heads == map[]
    ensures t.slots != [] ==> KeysAt(t.keys, at) && Indexes(t.slots, at, hash, heads) && |heads.Keys| < |t.slots|
  {
    hide KeysAt, Indexes;
    if t.slots == [] {
      at := map[];
    } else {
      at :| KeysAt(t.keys, at) && Indexes(t.slots, at, hash, heads) && |heads.Keys| < |t.slots|;
    }
  }

  method Find(t: Table, hash: Key -> nat, key: Key, ghost heads: map<Key, nat>) returns (head: nat)
    requires TableOK(t, hash, heads)
    ensures head == if key in heads then heads[key] else 0
  {
    hide Indexes, KeysAt, Passed, Around, Home, Onward, AtSlot, TableOK;
    ghost var at := TableMap(t, hash, heads);
    if |t.slots| == 0 {
      return 0;
    }
    var n := |t.slots|;
    var home: nat := Home(hash(key), n);
    var i: nat := home;
    StartPasses(t.slots, at, key, home);
    while true
      invariant i < n && Passed(t.slots, at, key, home, i)
      decreases n - Around(home, i, n)
    {
      ProbeStep(t.slots, at, hash, heads, key, i);
      var p := t.slots[i];
      if p.head == 0 {
        return 0;
      }
      KeyReads(t.keys, at, p.off);
      if p.hash == hash(key) && t.keys[p.off + 1..p.off + 1 + t.keys[p.off]] == key {
        return p.head;
      }
      i := Onward(i, n);
    }
  }

  lemma {:induction false} StartPasses(slots: seq<Slot>, at: map<nat, Key>, key: Key, home: nat)
    requires home < |slots|
    ensures Passed(slots, at, key, home, home)
  {
  }

  /** One probe: a free slot decides, the key's own slot answers, any other leads on, and never all the way round. */
  lemma {:induction false} ProbeStep(slots: seq<Slot>, at: map<nat, Key>, hash: Key -> nat, heads: map<Key, nat>, key: Key, i: nat)
    requires Indexes(slots, at, hash, heads) && |heads.Keys| < |slots| && i < |slots| && Passed(slots, at, key, Home(hash(key), |slots|), i)
    ensures slots[i].head == 0 ==> key !in heads
    ensures slots[i].head != 0 ==> slots[i].off in at
    ensures slots[i].head != 0 && at[slots[i].off] == key ==>
      AtSlot(slots, at, key, i) && slots[i].hash == hash(key) && key in heads && heads[key] == slots[i].head
    ensures slots[i].head != 0 && at[slots[i].off] != key ==>
      && var home, next := Home(hash(key), |slots|), Onward(i, |slots|);
         next < |slots| && Passed(slots, at, key, home, next) && Around(home, i, |slots|) < Around(home, next, |slots|) < |slots|
  {
    hide SlotOK, Taken, Stored;
    var home: nat := Home(hash(key), |slots|);
    if slots[i].head == 0 {
      FreeEnds(slots, at, hash, heads, key, i);
    } else {
      OtherKey(slots, at, hash, heads, key, i);
      SomeFree(slots, at, hash, heads);
      hide Indexes;
      if at[slots[i].off] != key {
        PassOne(slots, at, key, home, i);
        OnwardNext(home, i, |slots|);
      }
    }
  }

  // ---- building ----

  lemma {:induction false} TakenMore(slots: seq<Slot>, i: nat, s: Slot, home: nat, j: nat)
    requires i < |slots| && s.head != 0 && Taken(slots, home, j)
    ensures Taken(slots[i := s], home, j)
  {
  }

  /** Filling a free slot reached from home adds the key. */
  lemma {:induction false} InsertKeeps(slots: seq<Slot>, at: map<nat, Key>, hash: Key -> nat, heads: map<Key, nat>, key: Key, i: nat, off: nat, head: nat)
    requires Indexes(slots, at, hash, heads) && i < |slots| && slots[i].head == 0 && Passed(slots, at, key, Home(hash(key), |slots|), i)
    requires key !in heads && head > 0 && off !in at
    ensures Indexes(slots[i := Slot(hash(key), off, head)], at[off := key], hash, heads[key := head])
  {
    hide Taken;
    var s := Slot(hash(key), off, head);
    var slots', at', heads' := slots[i := s], at[off := key], heads[key := head];
    forall k, j: nat ensures AtSlot(slots', at', k, j) <==> (if j == i then k == key else AtSlot(slots, at, k, j)) {
      if j < |slots| && j != i && slots[j].head != 0 {
        assert SlotOK(slots, j, at, hash, heads);
      }
    }
    forall j: nat | j < |slots'| ensures SlotOK(slots', j, at', hash, heads') {
      if j == i {
        PassedTaken(slots, at, key, Home(hash(key), |slots|), i);
        TakenMore(slots, i, s, Home(hash(key), |slots|), i);
      } else if slots[j].head != 0 {
        assert SlotOK(slots, j, at, hash, heads);
        TakenMore(slots, i, s, Home(hash(at[slots[j].off]), |slots|), j);
      }
    }
    forall k | k in heads' ensures Stored(slots', at', k) {
      if k == key {
        assert AtSlot(slots', at', k, i);
      } else {
        assert Stored(slots, at, k);
        var j: nat :| AtSlot(slots, at, k, j);
        assert AtSlot(slots', at', k, j);
      }
    }
    forall a: nat, b: nat, k | AtSlot(slots', at', k, a) && AtSlot(slots', at', k, b) ensures a == b {
      if a == i || b == i {
        assert k == key;
        NotStored(slots, at, hash, heads, key);
      }
    }
  }

  lemma {:induction false} PassedTaken(slots: seq<Slot>, at: map<nat, Key>, key: Key, home: nat, i: nat)
    requires Passed(slots, at, key, home, i)
    ensures Taken(slots, home, i)
  {
  }

  lemma {:induction false} NotStored(slots: seq<Slot>, at: map<nat, Key>, hash: Key -> nat, heads: map<Key, nat>, key: Key)
    requires Indexes(slots, at, hash, heads) && key !in heads
    ensures forall j: nat :: !AtSlot(slots, at, key, j)
  {
    forall j: nat ensures !AtSlot(slots, at, key, j) {
      assert j < |slots| ==> SlotOK(slots, j, at, hash, heads);
    }
  }

  /** Replacing the head of a key's slot updates the key. */
  lemma {:induction false} ReplaceKeeps(slots: seq<Slot>, at: map<nat, Key>, hash: Key -> nat, heads: map<Key, nat>, key: Key, i: nat, head: nat)
    requires Indexes(slots, at, hash, heads) && AtSlot(slots, at, key, i) && head > 0
    ensures Indexes(slots[i := slots[i].(head := head)], at, hash, heads[key := head])
  {
    hide Taken;
    var s := slots[i].(head := head);
    var slots', heads' := slots[i := s], heads[key := head];
    assert forall k, j: nat :: AtSlot(slots', at, k, j) <==> AtSlot(slots, at, k, j);
    assert SlotOK(slots, i, at, hash, heads);
    forall j: nat | j < |slots'| ensures SlotOK(slots', j, at, hash, heads') {
      if slots[j].head != 0 {
        assert SlotOK(slots, j, at, hash, heads);
        TakenMore(slots, i, s, Home(hash(at[slots[j].off]), |slots|), j);
        assert AtSlot(slots, at, at[slots[j].off], j);
      }
    }
    forall k | k in heads' ensures Stored(slots', at, k) {
      assert Stored(slots, at, k);
      var j: nat :| AtSlot(slots, at, k, j);
      assert AtSlot(slots', at, k, j);
    }
  }

  /** The index under construction. */
  class ExactBuilder {
    const hash: Key -> nat
    var slots: seq<Slot>
    var pages: seq<seq<byte>>
    /** Where keys are, and what the table maps them to. */
    ghost var at: map<nat, Key>
    ghost var heads: map<Key, nat>

    ghost predicate Valid()
      reads this
    {
      && PagesOK(pages) && (forall i | 0 <= i < |pages| :: |pages[i]| > 0)
      && (forall o :: o in at ==> PagedKey(pages, o, at[o]))
      && if slots == [] then heads == map[] else Indexes(slots, at, hash, heads)
    }

    constructor (hash: Key -> nat, count: nat)
      ensures Valid() && heads == map[] && this.hash == hash
      ensures if count == 0 then slots == [] else |slots| > count
    {
      this.hash := hash;
      slots := if count == 0 then [] else seq((count * 100 + 69) / 70, i => FREE);
      pages, at, heads := [], map[], map[];
      if count > 0 {
        LoadLeavesRoom(count);
      }
    }

    /** Adds a key, or replaces its head; the old head becomes the next link of the chain. */
    method Insert(key: Key, head: nat) returns (before: nat)
      requires Valid() && |key| <= 254 && head > 0 && |heads.Keys| < |slots|
      modifies this
      ensures Valid() && |slots| == |old(slots)| && heads == old(heads)[key := head]
      ensures before == if key in old(heads) then old(heads)[key] else 0
    {
      hide Indexes, Passed, Around, Home, Onward, AtSlot, PagedKey, PagesOK;
      var n := |slots|;
      var home: nat := Home(hash(key), n);
      var i: nat := home;
      StartPasses(slots, at, key, home);
      while true
        invariant i < n == |slots| && Passed(slots, at, key, home, i)
        invariant Valid() && slots == old(slots) && heads == old(heads) && pages == old(pages) && at == old(at)
        decreases n - Around(home, i, n)
      {
        ProbeStep(slots, at, hash, heads, key, i);
        var p := slots[i];
        if p.head == 0 {
          var more, off := AddKey(pages, key);
          InsertKeeps(slots, at, hash, heads, key, i, off, head);
          slots, pages := slots[i := Slot(hash(key), off, head)], more;
          at, heads := at[off := key], heads[key := head];
          return 0;
        }
        var stored := ReadPaged(pages, p.off, at[p.off]);
        if p.hash == hash(key) && stored == key {
          ReplaceKeeps(slots, at, hash, heads, key, i, head);
          slots := slots[i := p.(head := head)];
          heads := heads[key := head];
          return p.head;
        }
        i := Onward(i, n);
      }
    }

    /** The finished, contiguous table means the same. */
    method Complete() returns (t: Table)
      requires Valid() && (slots == [] || |heads.Keys| < |slots|)
      ensures TableOK(t, hash, heads)
    {
      hide Indexes, PagedKey, HoldsKey, PagesOK, Size;
      var keys := Finish(pages);
      t := Table(slots, keys);
      assert KeysAt(keys, at);
    }
  }
}
