/** The assembler's bit-string codec: `toBinary(value, bits)` renders an
    integer as `bits` characters '0'/'1', two's complement for negative
    values, and `QString::toUInt(&ok, 2)` reads such a string back. */
module Codec {
  import opened Word16
  import opened Numbers
  import opened Optional

  function Bit(c: char): int
  {
    if c == '1' then 1 else 0
  }

  /** Every character is '0' or '1'. */
  predicate IsBinary(s: string)
    decreases |s|
  {
    s == [] || (IsBinary(s[..|s| - 1]) && (s[|s| - 1] == '0' || s[|s| - 1] == '1'))
  }

  /** Unsigned value of a string of '0'/'1' characters, most significant first. */
  function BinValue(s: string): (v: nat)
    decreases |s|
  {
    if s == [] then 0 else 2 * BinValue(s[..|s| - 1]) + Bit(s[|s| - 1])
  }

  /** The `n` low-order bits of `v`, most significant first. Dafny's `/` and
      `%` are Euclidean, so a negative `v` yields its two's complement. */
  function Bits(v: int, n: nat): (s: string)
    ensures |s| == n
    decreases n
  {
    if n == 0 then "" else Bits(v / 2, n - 1) + [if v % 2 == 1 then '1' else '0']
  }

  /** `std::bitset<16>(v).to_string()`: the conversion to `unsigned long long`
      keeps `v` modulo 2^64, the bitset its 16 low-order bits. */
  function Bitset16(v: int): (s: string)
    ensures |s| == 16
  {
    Bits(v, BitsetWidth())
  }

  /** The width of `std::bitset<16>`. */
  function BitsetWidth(): nat
  {
    16
  }

  /** `QString::right(n)`: the last `n` characters, or all of them. */
  function Right(s: string, n: nat): (r: string)
    ensures |r| == if n >= |s| then |s| else n
    decreases |s|
  {
    if n >= |s| then s else Right(s[1..], n)
  }

  /** `QString::rightJustified(n, fill)` without truncation: pads on the left. */
  function RightJustified(s: string, n: nat, fill: char): (r: string)
    ensures |r| == if |s| >= n then |s| else n
    decreases n - |s|
  {
    if |s| >= n then s else RightJustified([fill] + s, n, fill)
  }

  /** `toBinary(value, bits)` as written (AssemblerLogic.cpp and assembler.cpp):
      a negative value first gets 2^bits added, then the 16-bit bitset string is
      cut to its last `bits` characters and padded on the left. `1 << bits`
      is only defined for `bits` below 31. */
  function ToBinary(value: int, bits: nat): string
    requires bits <= 30
  {
    var twos := if value < 0 then Pow2(bits) + value else value;
    var fill := if value < 0 then '1' else '0';
    RightJustified(Right(Bitset16(twos), bits), bits, fill)
  }

  // ----- lemmas about the bit strings -----

  lemma {:induction false} BitsSuffix(v: int, n: nat, k: nat)
    requires k <= n
    ensures Bits(v, n)[n - k..] == Bits(v, k)
    decreases k
  {
    if k > 0 {
      var b := [if v % 2 == 1 then '1' else '0'];
      BitsSuffix(v / 2, n - 1, k - 1);
      calc {
        Bits(v, n)[n - k..];
        (Bits(v / 2, n - 1) + b)[n - k..];
        { assert n - k <= |Bits(v / 2, n - 1)|; }
        Bits(v / 2, n - 1)[(n - 1) - (k - 1)..] + b;
        Bits(v / 2, k - 1) + b;
      }
    }
  }

  /** Adding 2^n does not change the n low-order bits. */
  lemma {:induction false} BitsShift(v: int, n: nat)
    ensures Bits(v + Pow2(n), n) == Bits(v, n)
    decreases n
  {
    if n > 0 {
      var h := Pow2(n - 1);
      assert (v + Pow2(n)) / 2 == v / 2 + h && (v + Pow2(n)) % 2 == v % 2;
      BitsShift(v / 2, n - 1);
    }
  }

  /** The bit string denotes `v` modulo 2^n. */
  lemma {:induction false} BitsValue(v: int, n: nat)
    ensures IsBinary(Bits(v, n)) && BinValue(Bits(v, n)) == v % Pow2(n)
    decreases n
  {
    if n > 0 {
      var s := Bits(v, n);
      assert s[..n - 1] == Bits(v / 2, n - 1);
      BitsValue(v / 2, n - 1);
      ModDouble(v, Pow2(n - 1));
    }
  }

  /** For the widths the encoder uses, `toBinary` is exactly the `bits`
      low-order bits of `value`: the padding by `rightJustified` never applies,
      and the unsigned value of the result is `value` modulo 2^bits. */
  lemma ToBinaryIsLowBits(value: int, bits: nat)
    requires 1 <= bits <= 16
    ensures ToBinary(value, bits) == Bits(value, bits)
    ensures |ToBinary(value, bits)| == bits && IsBinary(ToBinary(value, bits))
    ensures BinValue(ToBinary(value, bits)) == value % Pow2(bits)
  {
    ToBinaryCut(value, bits);
    BitsValue(value, bits);
  }

  lemma ToBinaryCut(value: int, bits: nat)
    requires 1 <= bits <= 16
    ensures ToBinary(value, bits) == Bits(value, bits)
  {
    var twos := if value < 0 then Pow2(bits) + value else value;
    RightOfBitset(twos, bits);
    if value < 0 {
      BitsShift(value, bits);
    }
  }

  lemma RightOfBitset(x: int, bits: nat)
    requires bits <= 16
    ensures Right(Bitset16(x), bits) == Bits(x, bits)
    ensures RightJustified(Bits(x, bits), bits, '0') == Bits(x, bits)
    ensures RightJustified(Bits(x, bits), bits, '1') == Bits(x, bits)
  {
    RightOfBits(x, BitsetWidth(), bits);
  }

  lemma RightOfBits(x: int, w: nat, bits: nat)
    requires bits <= w
    ensures Right(Bits(x, w), bits) == Bits(x, bits)
  {
    RightIsSuffix(Bits(x, w), bits);
    BitsSuffix(x, w, bits);
  }

  /** `right(n)` keeps the last `n` characters. */
  lemma {:induction false} RightIsSuffix(s: string, n: nat)
    requires n <= |s|
    ensures Right(s, n) == s[|s| - n..]
    decreases |s|
  {
    if n < |s| {
      RightIsSuffix(s[1..], n);
      assert s[1..][|s| - 1 - n..] == s[|s| - n..];
    }
  }

  /** Reading `toBinary(v, bits)` back as a two's-complement number gives `v`
      whenever `v` is representable in `bits` bits. */
  lemma ToBinarySignedRoundTrip(v: int, bits: nat)
    requires 1 <= bits <= 16
    requires -Pow2(bits - 1) <= v < Pow2(bits - 1)
    ensures IsBinary(ToBinary(v, bits)) && BinValue(ToBinary(v, bits)) < Pow2(bits)
    ensures SignExtend(BinValue(ToBinary(v, bits)), bits) == v
  {
    ToBinaryIsLowBits(v, bits);
    ModSmall(v, Pow2(bits));
  }

  /** Reading `toBinary(v, bits)` back as an unsigned number gives `v`
      whenever `0 <= v < 2^bits`. */
  lemma ToBinaryUnsignedRoundTrip(v: int, bits: nat)
    requires 1 <= bits <= 16
    requires 0 <= v < Pow2(bits)
    ensures IsBinary(ToBinary(v, bits))
    ensures BinValue(ToBinary(v, bits)) == v
  {
    ToBinaryIsLowBits(v, bits);
    ModSmall(v, Pow2(bits));
  }

  /** A non-empty binary string of at most 32 characters converts with
      `toUInt(&ok, 2)` to its unsigned value. */
  lemma ToUIntOfBinary(s: string)
    requires IsBinary(s) && 1 <= |s| <= 32
    ensures ToUInt(s, Binary) == Some(BinValue(s))
  {
    assert StripPrefix(s, Binary) == s;
    BinaryDigits(s);
    BinValueBelow(s);
    Pow2Values();
    assert Pow2(32) == 0x1_0000_0000 by {
      Pow2Add(16, 16);
    }
    Pow2Monotone(|s|, 32);
  }

  /** A binary string is a digit string of radix 2 with the same value. */
  lemma {:induction false} BinaryDigits(s: string)
    requires IsBinary(s)
    ensures AllDigits(s, Binary) && DigitsValue(s, Binary) == BinValue(s)
    decreases |s|
  {
    if s != [] {
      var init := s[..|s| - 1];
      BinaryDigits(init);
      assert forall i :: 0 <= i < |init| ==> s[i] == init[i];
    }
  }

  lemma {:induction false} BinValueBelow(s: string)
    ensures BinValue(s) < Pow2(|s|)
    decreases |s|
  {
    if s != [] {
      BinValueBelow(s[..|s| - 1]);
    }
  }

  lemma {:induction false} Pow2Add(a: nat, b: nat)
    ensures Pow2(a + b) == Pow2(a) * Pow2(b)
    decreases b
  {
    if b > 0 {
      Pow2Add(a, b - 1);
      assert Pow2(a + b) == 2 * Pow2(a + b - 1);
    }
  }

  lemma {:induction false} Pow2Monotone(a: nat, b: nat)
    requires a <= b
    ensures Pow2(a) <= Pow2(b)
    decreases b - a
  {
    if a < b {
      Pow2Monotone(a, b - 1);
    }
  }

  lemma ShiftStep(x: int, p: int, y: int, d: int)
    ensures 2 * (x * p + y) + d == x * (2 * p) + (2 * y + d)
  {
  }

  /** Concatenating binary strings shifts the first by the width of the second. */
  lemma {:induction false} BinValueAppend(a: string, b: string)
    ensures IsBinary(a) && IsBinary(b) ==> IsBinary(a + b)
    ensures BinValue(a + b) == BinValue(a) * Pow2(|b|) + BinValue(b)
    decreases |b|
  {
    if b == [] {
      assert a + b == a;
    } else {
      var b' := b[..|b| - 1];
      var ab := a + b;
      assert ab[..|ab| - 1] == a + b';
      assert ab[|ab| - 1] == b[|b| - 1];
      BinValueAppend(a, b');
      ShiftStep(BinValue(a), Pow2(|b'|), BinValue(b'), Bit(b[|b| - 1]));
    }
  }

  // ----- bit strings that denote a value -----

  /** `s` is a binary string whose unsigned value is `v`. */
  predicate Encodes(s: string, v: int)
  {
    IsBinary(s) && BinValue(s) == v
  }

  /** A concatenation denotes the first value shifted past the second
      (`p` is 2 to the width of the second part). */
  lemma EncodesAppend(a: string, av: int, b: string, bv: int, p: int)
    requires Encodes(a, av) && Encodes(b, bv) && p == Pow2(|b|)
    ensures Encodes(a + b, av * p + bv)
  {
    BinValueAppend(a, b);
  }

  /** One more bit on the right doubles the value and adds the bit. */
  lemma EncodesSnoc(s: string, v: int, c: char)
    requires Encodes(s, v) && (c == '0' || c == '1')
    ensures Encodes(s + [c], 2 * v + Bit(c))
  {
    assert (s + [c])[..|s|] == s;
  }

  /** A bit string denotes its value modulo 2^n. */
  lemma BitsEncode(s: string, v: int, n: nat)
    requires s == Bits(v, n)
    ensures |s| == n && Encodes(s, v % Pow2(n))
  {
    BitsValue(v, n);
  }
}
