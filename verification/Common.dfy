/** Small shared datatypes. */
module Common {

  datatype Option<+T> = None | Some(value: T)

  datatype Result<+T, +E> = Ok(value: T) | Err(error: E)

  /** The entry of a map, or a default where the source reads a missing key as its zero value. */
  function GetOr<K, V>(m: map<K, V>, k: K, default: V): V {
    if k in m then m[k] else default
  }

  function Least(a: real, b: real): real { if a < b then a else b }

  function Min(a: int, b: int): int { if a < b then a else b }

  lemma Fewer<T>(a: set<T>, b: set<T>)
    requires a <= b
    ensures |a| <= |b|
  {
    assert b == a + (b - a);
  }

  /** As many pairs as a number says; sums of counts are numbers of such pairs. */
  function PairsOf<K(==)>(k: K, n: nat): set<(K, nat)> { set i | 0 <= i < n :: (k, i) }

  lemma {:induction false} CountPairs<K>(k: K, n: nat)
    ensures |PairsOf(k, n)| == n
  {
    if n == 0 {
      assert PairsOf(k, n) == {};
    } else {
      CountPairs(k, n - 1);
      assert PairsOf(k, n) == PairsOf(k, n - 1) + {(k, n - 1)};
    }
  }
}
