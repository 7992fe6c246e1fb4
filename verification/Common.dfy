/** Small shared vocabulary. */
module Common {
  datatype Option<+T> = None | Some(value: T)

  type byte = b: int | 0 <= b < 256
  type uint16 = n: int | 0 <= n < 0x1_0000
  type uint32 = n: int | 0 <= n < 0x1_0000_0000

  /** A finite set keeps its size or grows when elements are added to it. */
  lemma {:induction false} SubsetSize<T>(a: set<T>, b: set<T>)
    requires a <= b
    ensures |a| <= |b|
  {
    assert b == a + (b - a);
    assert a !! (b - a);
  }

  /** Replacing one map entry does not change the key set when the key is present. */
  lemma {:induction false} UpdateKeepsKeys<K, V>(m: map<K, V>, k: K, v: V)
    requires k in m
    ensures m[k := v].Keys == m.Keys
  {
  }

  /** Two to the power n. */
  function Pow2(n: nat): (r: nat)
    ensures r >= 1
  {
    if n == 0 then 1 else 2 * Pow2(n - 1)
  }

  // ---- rings ----

  /** Steps from home forward to i around a ring of n. */
  function Around(home: nat, i: nat, n: nat): int { if i >= home then i - home else i - home + n }

  lemma {:induction false} AroundStart(home: nat, n: nat)
    requires home < n
    ensures Around(home, home, n) == 0 && forall i: nat | i < n :: 0 <= Around(home, i, n) < n
  {
  }

  /** Moving on by one place. */
  lemma {:induction false} AroundNext(home: nat, i: nat, n: nat)
    requires home < n && i < n
    ensures (i + 1) % n < n
    ensures Around(home, (i + 1) % n, n) == if Around(home, i, n) + 1 == n then 0 else Around(home, i, n) + 1
    ensures forall j: nat | j < n :: Around(home, j, n) == Around(home, i, n) <==> j == i
  {
    if i + 1 < n { ModSmall(i + 1, n); } else { ModSelf(n); }
  }

  lemma {:induction false} ModSmall(a: nat, n: nat)
    requires a < n
    ensures a % n == a
  {
  }

  lemma {:induction false} ModSelf(n: nat)
    requires n > 0
    ensures n % n == 0
  {
  }
}
