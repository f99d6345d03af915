/** Types and facts shared by every layer: optional values, Go's int64, Go's string order, finite sums. */
module Base {

  datatype Option<+T> = None | Some(value: T)

  datatype Result<+T, +E> = Ok(value: T) | Err(error: E)

  // ----- int64 -----

  const TWO_64: int := 0x1_0000_0000_0000_0000
  const MAX_INT64: int := 0x7FFF_FFFF_FFFF_FFFF
  const MIN_INT64: int := -0x8000_0000_0000_0000

  type Int64 = x: int | MIN_INT64 <= x <= MAX_INT64

  /** Go's `a + b` and `a - b` on int64: the exact result, shifted by 2^64 back into range. */
  function Wrap64(x: int): int {
    if x > MAX_INT64 then x - TWO_64 else if x < MIN_INT64 then x + TWO_64 else x
  }

  function WrapAdd(a: Int64, b: Int64): Int64 { Wrap64(a + b) }

  function WrapSub(a: Int64, b: Int64): Int64 { Wrap64(a - b) }

  /** A wrapped sum of two non-negative int64 is negative exactly when the exact sum does not fit,
      and is the exact sum otherwise: the sign test of a CHECK (balance >= 0) detects every overflow. */
  lemma WrappedSumIsNegativeIffOverflow(a: Int64, b: Int64)
    requires a >= 0 && b >= 0
    ensures WrapAdd(a, b) < 0 <==> a + b > MAX_INT64
    ensures a + b <= MAX_INT64 ==> WrapAdd(a, b) == a + b
  {
  }

  // ----- Go's order on strings -----

  /** `a < b` on Go strings: the first differing byte decides, a proper prefix comes first. */
  predicate LexLess(a: string, b: string) {
    if b == "" then false
    else if a == "" then true
    else if a[0] != b[0] then a[0] < b[0]
    else LexLess(a[1..], b[1..])
  }

  /** Position by position: `a` is a proper prefix of `b`, or is less where they first differ. */
  lemma {:induction false} LexLessMeans(a: string, b: string)
    ensures LexLess(a, b) <==>
      a < b || exists i :: 0 <= i < |a| && i < |b| && a[..i] == b[..i] && a[i] < b[i]
  {
    if a != "" && b != "" && a[0] == b[0] {
      LexLessMeans(a[1..], b[1..]);
      assert a == [a[0]] + a[1..] && b == [b[0]] + b[1..];
      if i :| 0 <= i < |a| - 1 && i < |b| - 1 && a[1..][..i] == b[1..][..i] && a[1..][i] < b[1..][i] {
        assert a[..i + 1] == [a[0]] + a[1..][..i] && b[..i + 1] == [b[0]] + b[1..][..i];
        assert a[i + 1] < b[i + 1];
      }
      if i :| 0 <= i < |a| && i < |b| && a[..i] == b[..i] && a[i] < b[i] {
        assert i > 0 && a[1..][..i - 1] == a[..i][1..] && b[1..][..i - 1] == b[..i][1..];
        assert a[1..][i - 1] < b[1..][i - 1];
      }
    } else if a != "" && b != "" {
      assert a[..0] == b[..0];
    }
  }

  lemma {:induction false} LexTransitive(a: string, b: string, c: string)
    requires LexLess(a, b) && LexLess(b, c)
    ensures LexLess(a, c)
  {
    if a != "" && a[0] == b[0] && b[0] == c[0] {
      LexTransitive(a[1..], b[1..], c[1..]);
    }
  }

  lemma {:induction false} LexIrreflexive(a: string)
    ensures !LexLess(a, a)
  {
    if a != "" {
      LexIrreflexive(a[1..]);
    }
  }

  lemma {:induction false} LexTotal(a: string, b: string)
    ensures a == b || LexLess(a, b) || LexLess(b, a)
  {
    if a != "" && b != "" && a[0] == b[0] {
      LexTotal(a[1..], b[1..]);
      assert a == [a[0]] + a[1..] && b == [b[0]] + b[1..];
    }
  }

  // ----- sums over finite maps -----

  ghost function Sum<K>(m: map<K, int>): int
    decreases |m|
  {
    if m == map[] then 0
    else
      var k :| k in m;
      m[k] + Sum(m - {k})
  }

  lemma {:induction false} SumWithout<K>(m: map<K, int>, k: K)
    requires k in m
    ensures Sum(m) == m[k] + Sum(m - {k})
    decreases |m|
  {
    var j :| j in m && Sum(m) == m[j] + Sum(m - {j});
    if j != k {
      SumWithout(m - {j}, k);
      SumWithout(m - {k}, j);
      assert m - {j} - {k} == m - {k} - {j};
    }
  }

  lemma SumPut<K>(m: map<K, int>, k: K, v: int)
    ensures Sum(m[k := v]) == Sum(m) - (if k in m then m[k] else 0) + v
  {
    var n := m[k := v];
    SumWithout(n, k);
    if k in m {
      SumWithout(m, k);
      assert n - {k} == m - {k};
    } else {
      assert n - {k} == m;
    }
  }

  /** Two maps with the same keys, equal except at `k`. */
  lemma SumsDifferAt<K>(m: map<K, int>, n: map<K, int>, k: K)
    requires k in m && m.Keys == n.Keys
    requires forall j | j in m && j != k :: m[j] == n[j]
    ensures Sum(n) - Sum(m) == n[k] - m[k]
  {
    SumPut(m, k, n[k]);
    assert m[k := n[k]] == n;
  }
}
