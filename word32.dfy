/** The 32-bit view of the logic-analyser probe bus.

    The firmware writes its milestone into the low 32 bits of `la_data_in`; the
    testbench keeps `int(la_data_in.value) & 0xFFFFFFFF`.  Python integers are
    unbounded and `&` works on their infinite two's-complement form, so the mask
    is the remainder modulo 2^32 rounded towards minus infinity, which is what
    Dafny's Euclidean `%` computes for a positive divisor.  `AndBits` is an
    independent, bit-by-bit definition of `&` on non-negative integers, and
    `MaskIsAnd` proves the two agree. */
module Word32 {

  const WORD: int := 0x1_0000_0000
  const MASK: int := 0xFFFF_FFFF

  /** A value the cached copy can hold: an unsigned 32-bit integer. */
  type u32 = x: int | 0 <= x < WORD

  /** `raw & 0xFFFFFFFF`: keeps the low 32 bits of `raw`. */
  function Mask32(raw: int): (r: u32)
    ensures (raw - r) % WORD == 0
    ensures 0 <= raw < WORD ==> r == raw
  {
    raw % WORD
  }

  /** Bitwise AND of two non-negative integers, least significant bit first. */
  function AndBits(a: nat, b: nat): nat
    decreases a
  {
    if a == 0 || b == 0 then 0
    else 2 * AndBits(a / 2, b / 2) + (a % 2) * (b % 2)
  }

  function Pow2(n: nat): (r: nat)
    ensures r >= 1
  {
    if n == 0 then 1 else 2 * Pow2(n - 1)
  }

  lemma MulAtLeast(d: int, k: int)
    requires d > 0 && k >= 1
    ensures d * k >= d
  {
  }

  /** The quotient and remainder of a division are unique. */
  lemma ModUnique(x: int, d: int, q: int, m: int)
    requires d > 0 && 0 <= m < d && x == d * q + m
    ensures x % d == m
  {
    var q', m' := x / d, x % d;
    assert x == d * q' + m';
    assert d * (q - q') == m' - m by {
      assert d * q - d * q' == d * (q - q');
    }
    if q > q' {
      MulAtLeast(d, q - q');
    } else if q < q' {
      MulAtLeast(d, q' - q);
    }
  }

  /** Halving `x` and taking the remainder modulo `p` keeps every bit of `x`
      below position `1 + log2 p`, once the dropped low bit is put back. */
  lemma HalveMod(x: nat, p: nat)
    requires p >= 1
    ensures 2 * ((x / 2) % p) + x % 2 == x % (2 * p)
  {
    var h := x / 2;
    var q, m := h / p, h % p;
    assert x == (2 * p) * q + (2 * m + x % 2);
    ModUnique(x, 2 * p, q, 2 * m + x % 2);
  }

  /** AND with a run of n one-bits keeps exactly the low n bits. */
  lemma {:induction false} AndLowOnes(x: nat, n: nat)
    ensures AndBits(x, Pow2(n) - 1) == x % Pow2(n)
  {
    if n == 0 || x == 0 {
    } else {
      var p := Pow2(n - 1);
      var ones: nat := Pow2(n) - 1;
      assert ones == 2 * (p - 1) + 1;
      assert ones / 2 == p - 1 && ones % 2 == 1;
      var low := AndBits(x / 2, p - 1);
      assert AndBits(x, ones) == 2 * low + x % 2;
      AndLowOnes(x / 2, n - 1);
      HalveMod(x, p);
    }
  }

  lemma {:induction false} Pow2Add(a: nat, b: nat)
    ensures Pow2(a + b) == Pow2(a) * Pow2(b)
  {
    if a > 0 {
      Pow2Add(a - 1, b);
      assert Pow2(a + b) == 2 * Pow2(a - 1 + b);
    }
  }

  lemma Pow2Word()
    ensures Pow2(32) == WORD
  {
    assert Pow2(1) == 2;
    Pow2Add(1, 1);
    Pow2Add(2, 2);
    Pow2Add(4, 4);
    Pow2Add(8, 8);
    Pow2Add(16, 16);
  }

  /** On the values the simulator hands out (unsigned integers), `Mask32` is
      Python's `raw & 0xFFFFFFFF`. */
  lemma MaskIsAnd(raw: nat)
    ensures Mask32(raw) == AndBits(raw, MASK)
  {
    Pow2Word();
    AndLowOnes(raw, 32);
  }
}
