/** Small types and arithmetic shared by the other modules. */
module Prelude {

  datatype Option<+T> = None | Some(value: T)

  function Pow2(k: nat): (p: nat)
    ensures p > k
  {
    if k == 0 then 1 else 2 * Pow2(k - 1)
  }

  lemma {:induction false} Pow2Add(i: nat, j: nat)
    ensures Pow2(i + j) == Pow2(i) * Pow2(j)
  {
    if i == 0 {
      assert Pow2(i) == 1;
    } else {
      Pow2Add(i - 1, j);
      assert i + j - 1 == (i - 1) + j;
      MulAssociates(2, Pow2(i - 1), Pow2(j));
    }
  }

  lemma MulAssociates(x: int, y: int, z: int)
    ensures x * (y * z) == (x * y) * z
  {
  }

  /** Quotient and remainder are unique. */
  lemma ModIsUnique(x: int, m: nat, q: int, r: nat)
    requires r < m && x == m * q + r
    ensures x % m == r
  {
    var e := q - x / m;
    assert m * e == x % m - r by {
      MulDistributes(m, q, x / m);
    }
    if e >= 1 {
      MulMonotone(m, 1, e);
    } else if e <= -1 {
      MulMonotone(m, e, -1);
    }
  }

  lemma MulDistributes(m: int, x: int, y: int)
    ensures m * (x - y) == m * x - m * y
  {
  }

  lemma MulMonotone(m: nat, x: int, y: int)
    requires x <= y
    ensures m * x <= m * y && x * m <= y * m
  {
  }

  lemma {:induction false} Pow2Monotone(i: nat, j: nat)
    requires i <= j
    ensures Pow2(i) <= Pow2(j)
  {
    if i < j {
      Pow2Monotone(i, j - 1);
    }
  }

  const TWO_TO_THE_64: int := 0x1_0000_0000_0000_0000

  /** Conversion to `size_t` or `unsigned long long`. */
  function U64(x: int): (r: nat)
    ensures r < TWO_TO_THE_64
    ensures 0 <= x < TWO_TO_THE_64 ==> r == x
  {
    x % TWO_TO_THE_64
  }
}
