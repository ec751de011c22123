/** The string hash of the table (lib/prom/src/prom_map.c, lines 170 to 203). */
module Hashing {
  import opened Prelude

  const SEED: nat := 31415
  const FACTOR: nat := 27183

  /** The value of a signed `char`: bytes above 127 are negative. */
  function CharValue(c: char): (v: int)
    ensures -128 <= v < 128
  {
    var byte := c as int % 256;
    if byte < 128 then byte else byte - 256
  }

  /** One round of the loop in `size_t` arithmetic, where everything wraps at 2^64. */
  function NextIndex64(a: nat, index: nat, c: char, m: nat): (r: nat)
    requires m > 0
    ensures r < m
  {
    U64(U64(a * index) + U64(CharValue(c))) % m
  }

  function NextCoefficient64(a: nat, m: nat): nat
    requires m > 1
  {
    U64(a * FACTOR) % (m - 1)
  }

  function IndexFrom64(key: string, m: nat, a: nat, index: nat): (r: nat)
    requires m > 1 && index < m
    ensures r < m
  {
    if key == [] then index
    else IndexFrom64(key[1..], m, NextCoefficient64(a, m), NextIndex64(a, index, key[0], m))
  }

  /** The bucket that the table gives a key. */
  function Index(key: string, m: nat): (r: nat)
    requires m > 1
    ensures r < m
  {
    IndexFrom64(key, m, SEED, 0)
  }

  method GetIndex(key: string, maxSize: nat) returns (index: nat)
    requires maxSize > 1
    ensures index == Index(key, maxSize) && index < maxSize
  {
    index := 0;
    var a: nat := SEED;
    for i := 0 to |key|
      invariant index < maxSize
      invariant IndexFrom64(key[i..], maxSize, a, index) == Index(key, maxSize)
    {
      assert key[i..][1..] == key[i + 1..];
      index := U64(U64(a * index) + U64(CharValue(key[i]))) % maxSize;
      a := U64(a * FACTOR) % (maxSize - 1);
    }
  }

  /** The same recurrence over the unbounded integers, with a mathematical remainder. */
  function HornerFrom(key: string, m: nat, a: nat, index: nat): (r: nat)
    requires m > 1 && index < m
    ensures r < m
  {
    if key == [] then index
    else HornerFrom(key[1..], m, a * FACTOR % (m - 1), (a * index + CharValue(key[0])) % m)
  }

  /** The sizes the table takes: 32, doubled k times. */
  ghost predicate TableSize(m: nat, k: nat) {
    m == 32 * Pow2(k)
  }

  /** Reducing modulo a multiple of `m` first does not change the remainder modulo `m`. */
  lemma ModOfMod(x: int, m: nat, n: nat, q: nat)
    requires m > 0 && n > 0 && n == m * q
    ensures x % n % m == x % m
  {
    var d, r := x / n, x % n;
    MulAssociates(m, q, d);
    assert x == m * (q * d) + r;
    assert x == m * (q * d + r / m) + r % m;
    ModIsUnique(x, m, q * d + r / m, r % m);
  }

  /** One round: for sizes up to 2^32 neither product leaves 64 bits, and the sum's wrap-around
      for a negative character does not show, because the size divides 2^64. */
  lemma RoundIsExact(a: nat, index: nat, c: char, m: nat, k: nat)
    requires TableSize(m, k) && k <= 27 && index < m
    requires a < m - 1 || a == SEED
    ensures a * index < TWO_TO_THE_64 && a * FACTOR < TWO_TO_THE_64
    ensures NextIndex64(a, index, c, m) == (a * index + CharValue(c)) % m
    ensures CharValue(c) == if c as int % 256 < 128 then c as int % 256 else c as int % 256 - 256
    ensures NextCoefficient64(a, m) == a * 27183 % (m - 1) < m - 1
  {
    SizeDivides(m, k);
    Products(a, 0xffff_ffff, index, 0xffff_ffff);
    U64Sum(a * index, CharValue(c));
    ModOfMod(a * index + CharValue(c), m, TWO_TO_THE_64, Pow2(59 - k));
  }

  lemma U64Sum(x: int, y: int)
    ensures U64(U64(x) + U64(y)) == U64(x + y)
  {
  }

  lemma SizeDivides(m: nat, k: nat)
    requires TableSize(m, k) && k <= 27
    ensures 32 <= m <= 0x1_0000_0000
    ensures TWO_TO_THE_64 == m * Pow2(59 - k)
  {
    Pow2Monotone(k, 27);
    SmallPowers();
    Pow2Add(k, 59 - k);
    MulAssociates(32, Pow2(k), Pow2(59 - k));
  }

  lemma Products(x: nat, x': nat, y: nat, y': nat)
    requires x <= x' && y <= y'
    ensures x * y <= x' * y'
  {
    MulMonotone(y, x, x');
    MulMonotone(x', y, y');
  }

  lemma SmallPowers()
    ensures Pow2(27) == 0x800_0000 && Pow2(59) == 0x800_0000_0000_0000
  {
    assert Pow2(3) == 8 && Pow2(5) == 32;
    Pow2Add(3, 3);
    Pow2Add(6, 3);
    assert Pow2(9) == 512;
    Pow2Add(9, 9);
    Pow2Add(18, 9);
    Pow2Add(27, 27);
    Pow2Add(54, 5);
  }

  /** The 64-bit loop computes the unbounded-integer definition for every key and every
      table size up to 2^32. */
  lemma {:induction false} IndexIsExact(key: string, m: nat, k: nat)
    requires TableSize(m, k) && k <= 27
    ensures Index(key, m) == HornerFrom(key, m, SEED, 0)
  {
    IndexFromIsExact(key, m, k, SEED, 0);
  }

  lemma {:induction false} IndexFromIsExact(key: string, m: nat, k: nat, a: nat, index: nat)
    requires TableSize(m, k) && k <= 27 && index < m
    requires a < m - 1 || a == SEED
    ensures IndexFrom64(key, m, a, index) == HornerFrom(key, m, a, index)
  {
    if key != [] {
      RoundIsExact(a, index, key[0], m, k);
      IndexFromIsExact(key[1..], m, k, NextCoefficient64(a, m), NextIndex64(a, index, key[0], m));
    }
  }

  // ----- What the index is -----

  /** The coefficient of round i. */
  function Coefficient(i: nat, m: nat): nat
    requires m > 1
  {
    if i == 0 then 31415 else Coefficient(i - 1, m) * 27183 % (m - 1)
  }

  /** What a character read in round i - 1 is multiplied with by the rounds from i to n - 1. */
  function Weight(i: nat, n: nat, m: nat): nat
    requires m > 1
    decreases n - i
  {
    if i >= n then 1 else Coefficient(i, m) * Weight(i + 1, n, m)
  }

  /** The bytes from position i on as C reads them in a `char`, each times its weight. */
  function WeightedSum(key: string, i: nat, m: nat): int
    requires m > 1
    decreases |key| - i
  {
    if i >= |key| then 0
    else
      var byte := key[i] as int;
      (if byte < 128 then byte else byte - 256) * Weight(i + 1, |key|, m) + WeightedSum(key, i + 1, m)
  }

  ghost predicate Bytes(key: string) {
    forall i :: 0 <= i < |key| ==> key[i] as int < 256
  }

  /** Equal up to a multiple of m, equal remainders. */
  lemma SameRemainder(x: int, y: int, m: nat, q: int)
    requires m > 0 && x == y + m * q
    ensures x % m == y % m
  {
    assert y == m * (y / m) + y % m;
    MulDistributes(m, y / m, -q);
    ModIsUnique(x, m, y / m + q, y % m);
  }

  /** One round of Horner's scheme, multiplied out. */
  lemma RoundMultiplied(a: int, index: int, v: int, m: nat, w: int, rest: int)
    requires m > 0
    ensures (((a * index + v) % m) * w + rest) % m == (index * (a * w) + (v * w + rest)) % m
  {
    var x := a * index + v;
    var q := x / m;
    assert x == m * q + x % m;
    assert (x % m) * w + rest == x * w + rest + m * (-(q * w));
    assert x * w + rest == index * (a * w) + (v * w + rest);
    SameRemainder((x % m) * w + rest, x * w + rest, m, -(q * w));
  }

  lemma {:induction false} HornerIsSum(key: string, i: nat, m: nat, index: nat)
    requires m > 1 && index < m && i <= |key| && Bytes(key)
    ensures HornerFrom(key[i..], m, Coefficient(i, m), index)
            == (index * Weight(i, |key|, m) + WeightedSum(key, i, m)) % m
    decreases |key| - i
  {
    if i == |key| {
      assert index % m == index by {
        ModIsUnique(index, m, 0, index);
      }
    } else {
      var a, v, next := Coefficient(i, m), CharValue(key[i]), NextIndex(i, m, index, key[i]);
      var w, rest := Weight(i + 1, |key|, m), WeightedSum(key, i + 1, m);
      assert key[i..][1..] == key[i + 1..];
      HornerIsSum(key, i + 1, m, next);
      RoundMultiplied(a, index, v, m, w, rest);
      SumStep(key, i, m);
    }
  }

  /** The round of Horner's scheme at position i. */
  function NextIndex(i: nat, m: nat, index: nat, c: char): (r: nat)
    requires m > 1
    ensures r < m
  {
    (Coefficient(i, m) * index + CharValue(c)) % m
  }

  lemma SumStep(key: string, i: nat, m: nat)
    requires m > 1 && i < |key| && Bytes(key)
    ensures Weight(i, |key|, m) == Coefficient(i, m) * Weight(i + 1, |key|, m)
    ensures WeightedSum(key, i, m) == CharValue(key[i]) * Weight(i + 1, |key|, m) + WeightedSum(key, i + 1, m)
    ensures Coefficient(i + 1, m) == Coefficient(i, m) * FACTOR % (m - 1)
  {
    assert key[i] as int % 256 == key[i] as int;
  }

  /** For every key the index is the sum of its bytes times their weights, modulo the table's size. */
  lemma IndexIsSum(key: string, m: nat, k: nat)
    requires m == 32 * Pow2(k) && k <= 27 && Bytes(key)
    ensures m > 1 && Index(key, m) == WeightedSum(key, 0, m) % m
  {
    SizeDivides(m, k);
    IndexIsExact(key, m, k);
    HornerIsSum(key, 0, m, 0);
    assert key[0..] == key;
    assert 0 * Weight(0, |key|, m) == 0;
  }

  /** The index of the empty key and of a key with one byte. */
  lemma OneByte(c: char, m: nat, k: nat)
    requires m == 32 * Pow2(k) && k <= 27 && c as int < 256
    ensures m > 1 && Index("", m) == 0
    ensures Index([c], m) == (if c as int < 128 then c as int else c as int - 256) % m
  {
    hide Index, Coefficient, Weight, WeightedSum, Pow2;
    SizeDivides(m, k);
    EmptyKey(m);
    IndexIsSum([c], m, k);
    SumStep([c], 0, m);
    Ends([c], m);
  }

  lemma EmptyKey(m: nat)
    requires m > 1
    ensures Index("", m) == 0
  {
  }

  /** The index of a key with two bytes, coefficients included. */
  lemma TwoBytes(c: char, d: char, m: nat, k: nat)
    requires m == 32 * Pow2(k) && k <= 27 && c as int < 256 && d as int < 256
    ensures m > 1
    ensures var x := if c as int < 128 then c as int else c as int - 256;
            var y := if d as int < 128 then d as int else d as int - 256;
            Index([c, d], m) == (x * (31415 * 27183 % (m - 1)) + y) % m
  {
    hide *;
    SizeDivides(m, k);
    BytesOf(c, d);
    IndexIsSum([c, d], m, k);
    TwoTerms(c, d, m);
  }

  lemma BytesOf(c: char, d: char)
    requires c as int < 256 && d as int < 256
    ensures Bytes([c, d])
  {
  }

  lemma TwoTerms(c: char, d: char, m: nat)
    requires m > 1 && c as int < 256 && d as int < 256
    ensures var x := if c as int < 128 then c as int else c as int - 256;
            var y := if d as int < 128 then d as int else d as int - 256;
            WeightedSum([c, d], 0, m) == x * (31415 * 27183 % (m - 1)) + y
  {
    hide Coefficient, Weight, WeightedSum;
    SumStep([c, d], 0, m);
    SumStep([c, d], 1, m);
    Ends([c, d], m);
  }

  lemma Ends(key: string, m: nat)
    requires m > 1
    ensures WeightedSum(key, |key|, m) == 0 && Weight(|key|, |key|, m) == 1
    ensures Coefficient(0, m) == 31415
  {
  }
}
