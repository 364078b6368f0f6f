/** 16-bit machine arithmetic shared by the assembler and the simulator.
    The source holds every register, address and memory cell in a `uint16_t`
    and every sign-extended offset in an `int16_t`; Dafny integers are
    unbounded, so the wrap-around of those C++ types is written out here. */
module Word16 {

  /** An unsigned 16-bit value (`uint16_t`). */
  type Word = x: int | 0 <= x < 0x10000

  /** A signed 16-bit value (`int16_t`). */
  type Int16 = x: int | -0x8000 <= x < 0x8000

  /** Assignment of an integer to a `uint16_t`: reduction modulo 2^16. */
  function Wrap(x: int): Word
  {
    x % 0x10000
  }

  /** Assignment of an integer to an `int16_t` (two's-complement truncation). */
  function ToInt16(x: int): (v: Int16)
    ensures Wrap(v) == Wrap(x)
  {
    var w := x % 0x10000;
    if w >= 0x8000 then w - 0x10000 else w
  }

  /** Bitwise AND of two 16-bit values. */
  function And(a: Word, b: Word): Word
  {
    Pow2Values();
    AndBits(a, b, 16)
  }

  /** The AND of the low `n` bits of `a` and `b`, lowest bit first. */
  function AndBits(a: nat, b: nat, n: nat): (r: nat)
    ensures r < Pow2(n)
  {
    if n == 0 then 0
    else 2 * AndBits(a / 2, b / 2, n - 1) + (if a % 2 == 1 && b % 2 == 1 then 1 else 0)
  }

  /** Bitwise complement `~a` stored back into 16 bits. */
  function Not(a: Word): (r: Word)
    ensures r + a == 0xFFFF
  {
    0xFFFF - a
  }

  function Pow2(n: nat): (r: int)
    ensures r >= 1
  {
    if n == 0 then 1 else 2 * Pow2(n - 1)
  }

  lemma Pow2Values()
    ensures Pow2(1) == 2 && Pow2(3) == 8 && Pow2(4) == 16 && Pow2(5) == 32
    ensures Pow2(6) == 64 && Pow2(7) == 128 && Pow2(8) == 256
    ensures Pow2(9) == 512 && Pow2(11) == 2048 && Pow2(16) == 0x10000
  {
  }

  /** Reads the low `width` bits of `x` as a two's-complement number. */
  function SignExtend(x: int, width: nat): (v: int)
    requires 1 <= width && 0 <= x < Pow2(width)
    ensures -Pow2(width - 1) <= v < Pow2(width - 1)
    ensures (v - x) % Pow2(width) == 0
  {
    if x >= Pow2(width - 1) then x - Pow2(width) else x
  }

  lemma MulAtLeast(d: int, k: int)
    requires d > 0 && k >= 1
    ensures d * k >= d
    decreases k
  {
    if k > 1 {
      MulAtLeast(d, k - 1);
      assert d * k == d * (k - 1) + d;
    }
  }

  /** Euclidean division is determined by its defining equation. */
  lemma DivModUnique(x: int, d: int, q: int, r: int)
    requires d > 0 && x == d * q + r && 0 <= r < d
    ensures x / d == q && x % d == r
  {
    var q', r' := x / d, x % d;
    assert x == d * q' + r';
    var k := q - q';
    assert d * k == r' - r by {
      assert d * q - d * q' == d * k;
    }
    if k >= 1 {
      MulAtLeast(d, k);
    } else if k <= -1 {
      MulAtLeast(d, -k);
    }
    assert k == 0;
  }

  /** The remainder modulo 2P, rebuilt from the remainder of the halved value. */
  lemma ModDouble(x: int, p: int)
    requires p > 0
    ensures 2 * ((x / 2) % p) + x % 2 == x % (2 * p)
  {
    var h, b := x / 2, x % 2;
    var q, r := h / p, h % p;
    assert x == (2 * p) * q + (2 * r + b);
    DivModUnique(x, 2 * p, q, 2 * r + b);
  }

  /** Values in [-P, P) reduce modulo P without a multiple of P in between. */
  lemma ModSmall(v: int, p: int)
    requires p > 0 && -p <= v < p
    ensures v % p == if v < 0 then v + p else v
  {
    if v < 0 {
      DivModUnique(v, p, -1, v + p);
    } else {
      DivModUnique(v, p, 0, v);
    }
  }
}
