/**
  The growable string of lib/prom/src/prom_string_builder.c. Growing reallocates the buffer but
  never records the new size in `allocated` (here `allocatedSize`), so the real capacity is `str.Length`.
  */
module StringBuilders {
  import opened Prelude

  const INIT_SIZE: nat := 128

  /** Where the doubling loop of psb_ensure_space stops. */
  function Doubled(sz: nat, need: nat): (r: nat)
    requires sz > 0
    ensures r >= need && r >= sz
    decreases if need > sz then need - sz else 0
  {
    if sz < need then Doubled(2 * sz, need) else sz
  }

  /** A size the buffer can take: 128, doubled any number of times. */
  ghost predicate Capacity(n: nat) {
    exists k: nat :: n == 128 * Pow2(k)
  }

  /** The loop stops at the least capacity that is enough. */
  lemma DoubledIsLeast(need: nat, j: nat)
    ensures Capacity(Doubled(128, need))
    ensures 128 * Pow2(j) >= need ==> Doubled(128, need) <= 128 * Pow2(j)
  {
    DoubledFrom(0, need, j);
  }

  lemma {:induction false} DoubledFrom(i: nat, need: nat, j: nat)
    requires i > 0 ==> INIT_SIZE * Pow2(i - 1) < need
    ensures Capacity(Doubled(INIT_SIZE * Pow2(i), need))
    ensures INIT_SIZE * Pow2(j) >= need ==> Doubled(INIT_SIZE * Pow2(i), need) <= INIT_SIZE * Pow2(j)
    decreases if need > INIT_SIZE * Pow2(i) then need - INIT_SIZE * Pow2(i) else 0
  {
    var sz := INIT_SIZE * Pow2(i);
    if sz < need {
      assert Pow2(i + 1) == 2 * Pow2(i);
      DoubledFrom(i + 1, need, j);
    } else if i > 0 && j < i {
      Pow2Monotone(j, i - 1);
    } else {
      Pow2Monotone(i, j);
    }
  }

  /** The k-th value of `sz` in the loop as `size_t` computes it, wrapping at 2^64. */
  function SizeT(k: nat): nat {
    if k == 0 then INIT_SIZE else U64(2 * SizeT(k - 1))
  }

  /** In `size_t` arithmetic the loop reaches a large enough size exactly when at most 2^63 bytes
      are needed; beyond that `sz` becomes zero and the loop never ends. */
  lemma GrowthTerminates(need: nat)
    requires need < TWO_TO_THE_64
    ensures (exists k: nat :: SizeT(k) >= need) <==> need <= TWO_TO_THE_64 / 2
  {
    SizeTValue(56);
    assert SizeT(56) == TWO_TO_THE_64 / 2 by {
      PowerOf56();
    }
    if k: nat :| SizeT(k) >= need {
      SizeTValue(k);
      if k <= 56 {
        Pow2Monotone(k, 56);
        PowerOf56();
      }
    }
  }

  lemma PowerOf56()
    ensures Pow2(56) == 0x100_0000_0000_0000
  {
    assert Pow2(7) == 128;
    Pow2Add(7, 7);
    Pow2Add(14, 14);
    Pow2Add(28, 28);
  }

  /** Up to 2^63 nothing wraps; the next doubling gives zero for good. */
  lemma {:induction false} SizeTValue(k: nat)
    ensures SizeT(k) == if k <= 56 then INIT_SIZE * Pow2(k) else 0
  {
    PowerOf56();
    if k > 0 {
      SizeTValue(k - 1);
      if k <= 56 {
        Pow2Monotone(k, 56);
      }
    }
  }

  class StringBuilder {
    var str: array<char>
    var allocatedSize: nat
    var len: nat

    /** The buffer's real size is a capacity, at least `allocatedSize` and more than `len`, and the
        terminator stands right after the contents. */
    ghost predicate Valid()
      reads this, str
    {
      && allocatedSize == INIT_SIZE <= str.Length
      && Capacity(str.Length)
      && len < str.Length && str[len] == '\0'
    }

    ghost function Contents(): string
      requires Valid()
      reads this, str
    {
      str[..len]
    }

    constructor ()
      ensures Valid() && Contents() == [] && fresh(str) && str.Length == 128
    {
      str, allocatedSize, len := new char[INIT_SIZE], INIT_SIZE, 0;
      new;
      str[0] := '\0';
      assert INIT_SIZE == INIT_SIZE * Pow2(0);
    }

    method Clear()
      modifies this
      ensures Valid() && Contents() == [] && fresh(str) && str.Length == 128
    {
      str, allocatedSize, len := new char[INIT_SIZE], INIT_SIZE, 0;
      str[0] := '\0';
      assert INIT_SIZE == INIT_SIZE * Pow2(0);
    }

    method Truncate(n: nat)
      requires Valid()
      modifies this, str
      ensures Valid() && str == old(str)
      ensures Contents() == if n < |old(Contents())| then old(Contents())[..n] else old(Contents())
    {
      if n >= len {
        return;
      }
      len := n;
      str[len] := '\0';
    }

    /** Afterwards `addLen` characters and a terminator fit behind the contents. Because the loop
        starts from the initial size, growing can also shrink a buffer that was truncated. */
    method EnsureSpace(addLen: nat)
      requires Valid()
      modifies this
      ensures Valid() && len == old(len) && Contents() == old(Contents())
      ensures addLen > 0 ==> len + addLen < str.Length
      ensures if addLen == 0 || len + addLen + 1 <= 128 then str == old(str)
              else fresh(str) && str.Length == Doubled(128, len + addLen + 1)
    {
      if addLen == 0 || allocatedSize >= len + addLen + 1 {
        return;
      }
      var sz := allocatedSize;
      while sz < len + addLen + 1
        invariant sz > 0 && Doubled(sz, len + addLen + 1) == Doubled(allocatedSize, len + addLen + 1)
      {
        sz := 2 * sz;
      }
      DoubledIsLeast(len + addLen + 1, 0);
      str := Realloc(str, sz);
    }

    method AddStr(s: string)
      requires Valid()
      modifies this, str
      ensures Valid() && Contents() == old(Contents()) + s
      ensures if s == [] || len + 1 <= 128 then str == old(str)
              else fresh(str) && str.Length == Doubled(128, len + 1)
    {
      if s == [] {
        return;
      }
      EnsureSpace(|s|);
      forall i | 0 <= i < |s| {
        str[len + i] := s[i];
      }
      len := len + |s|;
      str[len] := '\0';
    }

    method AddChar(c: char)
      requires Valid()
      modifies this, str
      ensures Valid() && Contents() == old(Contents()) + [c]
      ensures if len + 1 <= 128 then str == old(str)
              else fresh(str) && str.Length == Doubled(128, len + 1)
    {
      EnsureSpace(1);
      str[len] := c;
      len := len + 1;
      str[len] := '\0';
    }

    method Len() returns (n: nat)
      requires Valid()
      ensures n == |Contents()|
    {
      n := len;
    }

    /** A copy of the contents. */
    method Dump() returns (s: string)
      requires Valid()
      ensures s == Contents()
    {
      s := str[..len];
    }
  }

  /** The bytes that fit are kept; what a larger block gains is unspecified. */
  method Realloc(str: array<char>, sz: nat) returns (r: array<char>)
    ensures fresh(r) && r.Length == sz
    ensures forall i :: 0 <= i < sz && i < str.Length ==> r[i] == str[i]
  {
    r := new char[sz];
    forall i | 0 <= i < sz && i < str.Length {
      r[i] := str[i];
    }
  }
}
