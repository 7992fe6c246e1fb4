/** The block allocator of the answer cache (internal/dnscache/arena.go), on values. */
module DnsArena {
  import opened Common

  const BLOCK: nat := 256

  /** Blocks needed for a blob. */
  function Need(size: nat): nat { (size + BLOCK - 1) / BLOCK }

  /** n consecutive block numbers. */
  function Range(first: nat, n: nat): (r: set<nat>)
    ensures forall b: nat :: b in r <==> first <= b < first + n
    ensures |r| == n
  {
    if n == 0 then {} else Range(first, n - 1) + {first + n - 1}
  }

  function UsedSet(used: seq<bool>): set<nat> { set b: nat | b < |used| && used[b] }

  /** The bitmap with a run of blocks switched on or off. */
  function Fill(used: seq<bool>, first: nat, n: nat, on: bool): (r: seq<bool>)
    requires first + n <= |used|
    ensures |r| == |used|
    ensures forall b | 0 <= b < |used| :: r[b] == if first <= b < first + n then on else used[b]
  {
    seq(|used|, b requires 0 <= b < |used| => if first <= b < first + n then on else used[b])
  }

  ghost predicate FreeRun(used: seq<bool>, first: nat, n: nat) {
    first + n <= |used| && forall b | first <= b < first + n :: !used[b]
  }

  /** No run of n free blocks starts in a window. */
  ghost predicate NoRun(used: seq<bool>, lo: nat, hi: nat, n: nat) {
    forall f: nat | lo <= f && f + n <= hi && hi <= |used| :: !FreeRun(used, f, n)
  }

  /** Filling a free run adds exactly its length to the number of used blocks. */
  lemma {:induction false} FillCounts(used: seq<bool>, first: nat, n: nat)
    requires FreeRun(used, first, n)
    ensures |UsedSet(Fill(used, first, n, true))| == |UsedSet(used)| + n
  {
    assert UsedSet(Fill(used, first, n, true)) == UsedSet(used) + Range(first, n);
    assert UsedSet(used) !! Range(first, n);
  }

  /** Clearing a used run takes exactly its length off. */
  lemma {:induction false} ClearCounts(used: seq<bool>, first: nat, n: nat)
    requires first + n <= |used| && forall b | first <= b < first + n :: used[b]
    ensures |UsedSet(Fill(used, first, n, false))| == |UsedSet(used)| - n
  {
    assert UsedSet(Fill(used, first, n, false)) == UsedSet(used) - Range(first, n);
    assert Range(first, n) <= UsedSet(used);
  }

  /** Scans a window for the first run of `need` free blocks ending inside it. */
  method FindRun(used: seq<bool>, start: nat, end: nat, need: nat) returns (first: Option<nat>)
    requires start <= end <= |used| && need > 0
    ensures first.Some? ==> start <= first.value && first.value + need <= end && FreeRun(used, first.value, need)
    ensures first.None? ==> NoRun(used, start, end, need)
  {
    var run := 0;
    for i := start to end
      invariant run < need && start + run <= i
      invariant forall b | i - run <= b < i :: !used[b]
      invariant i - run == start || used[i - run - 1]
      invariant forall f: nat | start <= f && f + need <= i :: !FreeRun(used, f, need)
    {
      if used[i] {
        run := 0;
      } else {
        run := run + 1;
        if run == need {
          return Some(i + 1 - need);
        }
      }
    }
    return None;
  }
}
