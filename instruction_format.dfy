/** The LC-3 instruction layout, written as arithmetic on field values: an
    independent reference for the bit strings `assembleInstruction` builds,
    and the bridge from the assembler's strings to the machine's words. */
module InstructionFormat {
  import opened Text
  import opened Numbers
  import opened Optional
  import opened Word16
  import opened Codec
  import opened Syntax
  import opened Encoder

  /** The 4-bit opcode of each instruction keyword (bits 15..12). */
  function OpcodeOf(m: Mnemonic): nat
    requires m.IsInstruction()
  {
    match m
    case BR => 0 case ADD => 1 case LD => 2 case ST => 3 case JSR => 4 case JSRR => 4
    case AND => 5 case LDR => 6 case STR => 7 case NOT => 9 case LDI => 10 case STI => 11
    case JMP => 12 case RET => 12 case LEA => 14 case HALT => 15
  }

  /** The register number a register operand selects: `mid(1).toInt()` kept to
      three bits. */
  function Reg(token: string): int
  {
    Operand(token) % 8
  }

  /** The n, z and p bits (11..9) of a branch mnemonic. */
  function Cond(op: string): int
  {
    (if 'n' in op then 4 else 0) + (if 'z' in op then 2 else 0) + (if 'p' in op then 1 else 0)
  }

  /** Bits 5..0 of ADD and AND: a source register, or the immediate flag and
      the immediate modulo 32. */
  function Source2Value(token: string): int
  {
    if StartsWith(token, "R") then Reg(token) else 32 + Operand(token) % 32
  }

  /** The instruction word for keyword `m` with tokens `ts` at `current`. */
  function Expected(m: Mnemonic, ts: seq<string>, labels: Labels, current: Word): (v: int)
    requires m.IsInstruction() && ts != []
    ensures 0 <= v < 0x10000
  {
    var t1, t2, t3 := Tok(ts, 1), Tok(ts, 2), Tok(ts, 3);
    var op := OpcodeOf(m) * 0x1000;
    match m
    case ADD => op + Reg(t1) * 512 + Reg(t2) * 64 + Source2Value(t3)
    case AND => op + Reg(t1) * 512 + Reg(t2) * 64 + Source2Value(t3)
    case BR => op + Cond(ts[0]) * 512 + PcOffset(labels, t1, current) % 512
    case JMP => op + Reg(t1) * 64
    case JSR => op + 0x800 + PcOffset(labels, t1, current) % 2048
    case JSRR => op + Reg(t1) * 64
    case LD => op + Reg(t1) * 512 + PcOffset(labels, t2, current) % 512
    case LDI => op + Reg(t1) * 512 + PcOffset(labels, t2, current) % 512
    case LEA => op + Reg(t1) * 512 + PcOffset(labels, t2, current) % 512
    case ST => op + Reg(t1) * 512 + PcOffset(labels, t2, current) % 512
    case STI => op + Reg(t1) * 512 + PcOffset(labels, t2, current) % 512
    case LDR => op + Reg(t1) * 512 + Reg(t2) * 64 + Operand(t3) % 64
    case STR => op + Reg(t1) * 512 + Reg(t2) * 64 + Operand(t3) % 64
    case NOT => op + Reg(t1) * 512 + Reg(t2) * 64 + 63
    case RET => op + 7 * 64
    case HALT => op + 0x25
  }

  // ----- the encoder's strings denote the reference word -----

  /** A literal field: the bit string of a value that fits its width. */
  lemma Literal(s: string, v: int, n: nat)
    requires s == Bits(v, n) && 0 <= v < Pow2(n)
    ensures |s| == n && Encodes(s, v)
  {
    BitsEncode(s, v, n);
    DivModUnique(v, Pow2(n), 0, v);
  }

  /** `toBinary` at width `w` denotes the value modulo 2^w. */
  lemma LowBits(x: int, w: nat)
    requires 1 <= w <= 16
    ensures |ToBinary(x, w)| == w && Encodes(ToBinary(x, w), x % Pow2(w))
  {
    ToBinaryIsLowBits(x, w);
  }

  lemma RegisterField(token: string)
    ensures |RegBits(token)| == 3 && Encodes(RegBits(token), Reg(token))
  {
    assert Pow2(3) == 8 by { Pow2Values(); }
    LowBits(Operand(token), 3);
  }

  lemma RegisterSource(token: string)
    ensures |"000" + RegBits(token)| == 6 && Encodes("000" + RegBits(token), Reg(token))
  {
    var p := Pow2(3);
    assert p == 8 by { Pow2Values(); }
    Literal("000", 0, 3);
    RegisterField(token);
    EncodesAppend("000", 0, RegBits(token), Reg(token), p);
  }

  lemma ImmediateSource(token: string)
    ensures |"1" + ToBinary(Operand(token), 5)| == 6
    ensures Encodes("1" + ToBinary(Operand(token), 5), 32 + Operand(token) % 32)
  {
    assert Pow2(5) == 32 by { Pow2Values(); }
    LowBits(Operand(token), 5);
    FlagPrefix(ToBinary(Operand(token), 5), Operand(token) % 32);
  }

  /** The immediate flag in front of five bits of immediate. */
  lemma FlagPrefix(t: string, tv: int)
    requires |t| == 5 && Encodes(t, tv)
    ensures |"1" + t| == 6 && Encodes("1" + t, 32 + tv)
  {
    var p := Pow2(5);
    assert p == 32 && Pow2(1) == 2 by { Pow2Values(); }
    Literal("1", 1, 1);
    EncodesAppend("1", 1, t, tv, p);
  }

  lemma Source2Field(token: string)
    ensures |Source2(token)| == 6 && Encodes(Source2(token), Source2Value(token))
  {
    if StartsWith(token, "R") {
      RegisterSource(token);
    } else {
      ImmediateSource(token);
    }
  }

  /** Fields of 4, 3, 3 and 6 bits (ADD, AND, NOT, LDR, STR). */
  lemma Layout4336(a: string, av: int, b: string, bv: int, c: string, cv: int, d: string, dv: int)
    requires |a| == 4 && Encodes(a, av) && |b| == 3 && Encodes(b, bv)
    requires |c| == 3 && Encodes(c, cv) && |d| == 6 && Encodes(d, dv)
    ensures |a + b + c + d| == 16 && Encodes(a + b + c + d, av * 0x1000 + bv * 512 + cv * 64 + dv)
  {
    var p3, p6 := Pow2(3), Pow2(6);
    assert p3 == 8 && p6 == 64 by { Pow2Values(); }
    EncodesAppend(a, av, b, bv, p3);
    EncodesAppend(a + b, av * p3 + bv, c, cv, p3);
    EncodesAppend(a + b + c, (av * p3 + bv) * p3 + cv, d, dv, p6);
    Shift4336(av, bv, cv, dv, p3, p6);
  }

  lemma Shift4336(av: int, bv: int, cv: int, dv: int, p3: int, p6: int)
    requires p3 == 8 && p6 == 64
    ensures ((av * p3 + bv) * p3 + cv) * p6 + dv == av * 0x1000 + bv * 512 + cv * 64 + dv
  {
  }

  /** Fields of 4, 3 and 9 bits (BR, LD, LDI, LEA, ST, STI). */
  lemma Layout439(a: string, av: int, b: string, bv: int, c: string, cv: int)
    requires |a| == 4 && Encodes(a, av) && |b| == 3 && Encodes(b, bv) && |c| == 9 && Encodes(c, cv)
    ensures |a + b + c| == 16 && Encodes(a + b + c, av * 0x1000 + bv * 512 + cv)
  {
    var p3, p9 := Pow2(3), Pow2(9);
    assert p3 == 8 && p9 == 512 by { Pow2Values(); }
    EncodesAppend(a, av, b, bv, p3);
    EncodesAppend(a + b, av * p3 + bv, c, cv, p9);
    Shift439(av, bv, cv, p3, p9);
  }

  lemma Shift439(av: int, bv: int, cv: int, p3: int, p9: int)
    requires p3 == 8 && p9 == 512
    ensures (av * p3 + bv) * p9 + cv == av * 0x1000 + bv * 512 + cv
  {
  }

  /** Fields of 7, 3 and 6 bits (JMP, JSRR). */
  lemma Layout736(a: string, av: int, b: string, bv: int, c: string, cv: int)
    requires |a| == 7 && Encodes(a, av) && |b| == 3 && Encodes(b, bv) && |c| == 6 && Encodes(c, cv)
    ensures |a + b + c| == 16 && Encodes(a + b + c, av * 512 + bv * 64 + cv)
  {
    var p3, p6 := Pow2(3), Pow2(6);
    assert p3 == 8 && p6 == 64 by { Pow2Values(); }
    EncodesAppend(a, av, b, bv, p3);
    EncodesAppend(a + b, av * p3 + bv, c, cv, p6);
    Shift736(av, bv, cv, p3, p6);
  }

  lemma Shift736(av: int, bv: int, cv: int, p3: int, p6: int)
    requires p3 == 8 && p6 == 64
    ensures (av * p3 + bv) * p6 + cv == av * 512 + bv * 64 + cv
  {
  }

  lemma ArithField(prefix: string, opcode: int, t1: string, t2: string, t3: string)
    requires |prefix| == 4 && Encodes(prefix, opcode)
    ensures |Arith(prefix, t1, t2, t3)| == 16
    ensures Encodes(Arith(prefix, t1, t2, t3), opcode * 0x1000 + Reg(t1) * 512 + Reg(t2) * 64 + Source2Value(t3))
  {
    RegisterField(t1);
    RegisterField(t2);
    Source2Field(t3);
    Layout4336(prefix, opcode, RegBits(t1), Reg(t1), RegBits(t2), Reg(t2), Source2(t3), Source2Value(t3));
  }

  lemma PcRelativeField(prefix: string, opcode: int, reg: string, offset: int)
    requires |prefix| == 4 && Encodes(prefix, opcode)
    ensures |PcRelative(prefix, reg, offset)| == 16
    ensures Encodes(PcRelative(prefix, reg, offset), opcode * 0x1000 + Reg(reg) * 512 + offset % 512)
  {
    assert Pow2(9) == 512 by { Pow2Values(); }
    RegisterField(reg);
    LowBits(offset, 9);
    Layout439(prefix, opcode, RegBits(reg), Reg(reg), ToBinary(offset, 9), offset % 512);
  }

  lemma BaseOffsetField(prefix: string, opcode: int, t1: string, t2: string, t3: string)
    requires |prefix| == 4 && Encodes(prefix, opcode)
    ensures |BaseOffset(prefix, t1, t2, t3)| == 16
    ensures Encodes(BaseOffset(prefix, t1, t2, t3), opcode * 0x1000 + Reg(t1) * 512 + Reg(t2) * 64 + Operand(t3) % 64)
  {
    assert Pow2(6) == 64 by { Pow2Values(); }
    RegisterField(t1);
    RegisterField(t2);
    LowBits(Operand(t3), 6);
    Layout4336(prefix, opcode, RegBits(t1), Reg(t1), RegBits(t2), Reg(t2), ToBinary(Operand(t3), 6), Operand(t3) % 64);
  }

  lemma NotField(t1: string, t2: string)
    ensures |Complement(t1, t2)| == 16
    ensures Encodes(Complement(t1, t2), 0x9000 + Reg(t1) * 512 + Reg(t2) * 64 + 63)
  {
    assert Pow2(4) == 16 && Pow2(6) == 64 by { Pow2Values(); }
    Literal("1001", 9, 4);
    Literal("111111", 63, 6);
    RegisterField(t1);
    RegisterField(t2);
    Layout4336("1001", 9, RegBits(t1), Reg(t1), RegBits(t2), Reg(t2), "111111", 63);
  }

  lemma BaseRegisterField(high: string, h: int, reg: string)
    requires |high| == 7 && Encodes(high, h)
    ensures |BaseRegister(high, reg)| == 16 && Encodes(BaseRegister(high, reg), h * 512 + Reg(reg) * 64)
  {
    assert Pow2(6) == 64 by { Pow2Values(); }
    Literal("000000", 0, 6);
    RegisterField(reg);
    Layout736(high, h, RegBits(reg), Reg(reg), "000000", 0);
  }

  /** The three condition letters denote `Cond(op)`. */
  lemma ConditionField(op: string)
    ensures |Conditions(op)| == 3 && Encodes(Conditions(op), Cond(op))
  {
    var p1 := Pow2(1);
    assert p1 == 2 by { Pow2Values(); }
    var n, z, p := if 'n' in op then 1 else 0, if 'z' in op then 1 else 0, if 'p' in op then 1 else 0;
    FlagField(op, 'n');
    FlagField(op, 'z');
    FlagField(op, 'p');
    EncodesAppend(Flag(op, 'n'), n, Flag(op, 'z'), z, p1);
    EncodesAppend(Flag(op, 'n') + Flag(op, 'z'), n * p1 + z, Flag(op, 'p'), p, p1);
    assert (n * p1 + z) * p1 + p == Cond(op);
  }

  lemma FlagField(op: string, c: char)
    ensures |Flag(op, c)| == 1 && Encodes(Flag(op, c), if c in op then 1 else 0)
  {
    assert Pow2(1) == 2 by { Pow2Values(); }
    if c in op {
      Literal("1", 1, 1);
    } else {
      Literal("0", 0, 1);
    }
  }

  lemma BranchField(op: string, offset: int)
    ensures |Branch(op, offset)| == 16 && Encodes(Branch(op, offset), Cond(op) * 512 + offset % 512)
  {
    assert Pow2(4) == 16 && Pow2(9) == 512 by { Pow2Values(); }
    Literal("0000", 0, 4);
    ConditionField(op);
    LowBits(offset, 9);
    Layout439("0000", 0, Conditions(op), Cond(op), ToBinary(offset, 9), offset % 512);
  }

  /** Truncation to `int16_t` keeps the eleven low-order bits. */
  lemma Int16Low11(x: int)
    ensures ToInt16(x) % 2048 == x % 2048
  {
    var v := ToInt16(x);
    var q := x / 0x10000;
    assert v == x - 0x10000 * q || v == x - 0x10000 * q - 0x10000;
    var k := if v == x - 0x10000 * q then -q * 32 else -q * 32 - 32;
    assert v == x + 2048 * k;
    DivModUnique(v, 2048, x / 2048 + k, x % 2048);
  }

  lemma SubroutineField(offset: int)
    ensures |Subroutine(offset)| == 16 && Encodes(Subroutine(offset), 0x4800 + offset % 2048)
  {
    var p11 := Pow2(11);
    assert Pow2(5) == 32 && p11 == 2048 by { Pow2Values(); }
    Literal("01001", 9, 5);
    LowBits(ToInt16(offset), 11);
    Int16Low11(offset);
    assert Subroutine(offset) == "01001" + ToBinary(ToInt16(offset), 11);
    EncodesAppend("01001", 9, ToBinary(ToInt16(offset), 11), offset % 2048, p11);
  }

  /** A literal field of four bits. */
  lemma Nibble(a: char, b: char, c: char, d: char)
    requires (a == '0' || a == '1') && (b == '0' || b == '1')
    requires (c == '0' || c == '1') && (d == '0' || d == '1')
    ensures |[a, b, c, d]| == 4 && Encodes([a, b, c, d], 8 * Bit(a) + 4 * Bit(b) + 2 * Bit(c) + Bit(d))
  {
    EncodesSnoc([], 0, a);
    assert [] + [a] == [a];
    EncodesSnoc([a], Bit(a), b);
    assert [a] + [b] == [a, b];
    EncodesSnoc([a, b], 2 * Bit(a) + Bit(b), c);
    assert [a, b] + [c] == [a, b, c];
    EncodesSnoc([a, b, c], 4 * Bit(a) + 2 * Bit(b) + Bit(c), d);
    assert [a, b, c] + [d] == [a, b, c, d];
  }

  /** Four fields of four bits. */
  lemma Nibbles(a: string, av: int, b: string, bv: int, c: string, cv: int, d: string, dv: int)
    requires |a| == 4 && Encodes(a, av) && |b| == 4 && Encodes(b, bv)
    requires |c| == 4 && Encodes(c, cv) && |d| == 4 && Encodes(d, dv)
    ensures |a + b + c + d| == 16 && Encodes(a + b + c + d, av * 0x1000 + bv * 0x100 + cv * 0x10 + dv)
  {
    var p4 := Pow2(4);
    assert p4 == 16 by { Pow2Values(); }
    EncodesAppend(a, av, b, bv, p4);
    EncodesAppend(a + b, av * p4 + bv, c, cv, p4);
    EncodesAppend(a + b + c, (av * p4 + bv) * p4 + cv, d, dv, p4);
    Shift4444(av, bv, cv, dv, p4);
  }

  lemma Shift4444(av: int, bv: int, cv: int, dv: int, p4: int)
    requires p4 == 16
    ensures ((av * p4 + bv) * p4 + cv) * p4 + dv == av * 0x1000 + bv * 0x100 + cv * 0x10 + dv
  {
  }

  /** RET is the fixed word 0xC1C0 (JMP R7). */
  lemma ReturnField()
    ensures |"1100000111000000"| == 16 && Encodes("1100000111000000", 0xC1C0)
  {
    Nibble('1', '1', '0', '0');
    Nibble('0', '0', '0', '1');
    Nibble('0', '0', '0', '0');
    Nibbles("1100", 12, "0001", 1, "1100", 12, "0000", 0);
    assert "1100" + "0001" + "1100" + "0000" == "1100000111000000";
  }

  /** HALT is the fixed word 0xF025 (TRAP x25). */
  lemma HaltField()
    ensures |"1111000000100101"| == 16 && Encodes("1111000000100101", 0xF025)
  {
    Nibble('1', '1', '1', '1');
    Nibble('0', '0', '0', '0');
    Nibble('0', '0', '1', '0');
    Nibble('0', '1', '0', '1');
    Nibbles("1111", 15, "0000", 0, "0010", 2, "0101", 5);
    assert "1111" + "0000" + "0010" + "0101" == "1111000000100101";
  }

  /** The opcode bits `assembleInstruction` writes in front of the keywords
      whose four top bits are a literal. */
  function OpcodeField(m: Mnemonic): string
  {
    match m
    case ADD => "0001" case AND => "0101" case LD => "0010" case LDI => "1010"
    case LEA => "1110" case ST => "0011" case STI => "1011" case LDR => "0110"
    case STR => "0111" case _ => ""
  }

  predicate HasOpcodeField(m: Mnemonic)
  {
    m == ADD || m == AND || m == LD || m == LDI || m == LEA || m == ST || m == STI || m == LDR || m == STR
  }

  lemma OpcodeFieldValue(m: Mnemonic)
    requires HasOpcodeField(m)
    ensures m.IsInstruction() && |OpcodeField(m)| == 4 && Encodes(OpcodeField(m), OpcodeOf(m))
  {
    match m
    case ADD => Nibble('0', '0', '0', '1');
    case AND => Nibble('0', '1', '0', '1');
    case LD => Nibble('0', '0', '1', '0');
    case LDI => Nibble('1', '0', '1', '0');
    case LEA => Nibble('1', '1', '1', '0');
    case ST => Nibble('0', '0', '1', '1');
    case STI => Nibble('1', '0', '1', '1');
    case LDR => Nibble('0', '1', '1', '0');
    case STR => Nibble('0', '1', '1', '1');
  }

  /** The seven fixed bits of JMP (0x60) and JSRR (0x20). */
  lemma JumpHigh(m: Mnemonic)
    requires m == JMP || m == JSRR
    ensures var high := if m == JMP then "1100000" else "0100000";
            |high| == 7 && Encodes(high, if m == JMP then 0x60 else 0x20)
  {
    var p3 := Pow2(3);
    assert p3 == 8 by { Pow2Values(); }
    Literal("000", 0, 3);
    if m == JMP {
      Nibble('1', '1', '0', '0');
      EncodesAppend("1100", 12, "000", 0, p3);
      assert "1100" + "000" == "1100000";
    } else {
      Nibble('0', '1', '0', '0');
      EncodesAppend("0100", 4, "000", 0, p3);
      assert "0100" + "000" == "0100000";
    }
  }

  // ----- each group of keywords: the encoder's case, the reference word -----
  // These lemmas are proof steps, not claims: each unfolds Encode and
  // Expected for one group of keywords, so that the layout lemmas below do not
  // carry every case of the two definitions at once.

  lemma ArithShape(m: Mnemonic, ts: seq<string>, labels: Labels, current: Word)
    requires (m == ADD || m == AND) && ts != []
    ensures Encode(m, ts, labels, current) == Arith(OpcodeField(m), Tok(ts, 1), Tok(ts, 2), Tok(ts, 3))
    ensures Expected(m, ts, labels, current) ==
            OpcodeOf(m) * 0x1000 + Reg(Tok(ts, 1)) * 512 + Reg(Tok(ts, 2)) * 64 + Source2Value(Tok(ts, 3))
  {
  }

  lemma PcRelativeShape(m: Mnemonic, ts: seq<string>, labels: Labels, current: Word)
    requires (m == LD || m == LDI || m == LEA || m == ST || m == STI) && ts != []
    ensures Encode(m, ts, labels, current) == PcRelative(OpcodeField(m), Tok(ts, 1), PcOffset(labels, Tok(ts, 2), current))
    ensures Expected(m, ts, labels, current) ==
            OpcodeOf(m) * 0x1000 + Reg(Tok(ts, 1)) * 512 + PcOffset(labels, Tok(ts, 2), current) % 512
  {
  }

  lemma BaseOffsetShape(m: Mnemonic, ts: seq<string>, labels: Labels, current: Word)
    requires (m == LDR || m == STR) && ts != []
    ensures Encode(m, ts, labels, current) == BaseOffset(OpcodeField(m), Tok(ts, 1), Tok(ts, 2), Tok(ts, 3))
    ensures Expected(m, ts, labels, current) ==
            OpcodeOf(m) * 0x1000 + Reg(Tok(ts, 1)) * 512 + Reg(Tok(ts, 2)) * 64 + Operand(Tok(ts, 3)) % 64
  {
  }

  lemma NotShape(ts: seq<string>, labels: Labels, current: Word)
    requires ts != []
    ensures Encode(NOT, ts, labels, current) == Complement(Tok(ts, 1), Tok(ts, 2))
    ensures Expected(NOT, ts, labels, current) == 0x9000 + Reg(Tok(ts, 1)) * 512 + Reg(Tok(ts, 2)) * 64 + 63
  {
  }

  lemma BranchShape(ts: seq<string>, labels: Labels, current: Word)
    requires ts != []
    ensures Encode(BR, ts, labels, current) == Branch(ts[0], PcOffset(labels, Tok(ts, 1), current))
    ensures Expected(BR, ts, labels, current) == Cond(ts[0]) * 512 + PcOffset(labels, Tok(ts, 1), current) % 512
  {
  }

  lemma JumpShape(m: Mnemonic, ts: seq<string>, labels: Labels, current: Word)
    requires (m == JMP || m == JSRR) && ts != []
    ensures Encode(m, ts, labels, current) == BaseRegister(if m == JMP then "1100000" else "0100000", Tok(ts, 1))
    ensures Expected(m, ts, labels, current) == (if m == JMP then 0x60 else 0x20) * 512 + Reg(Tok(ts, 1)) * 64
  {
  }

  lemma SubroutineShape(ts: seq<string>, labels: Labels, current: Word)
    requires ts != []
    ensures Encode(JSR, ts, labels, current) == Subroutine(PcOffset(labels, Tok(ts, 1), current))
    ensures Expected(JSR, ts, labels, current) == 0x4800 + PcOffset(labels, Tok(ts, 1), current) % 2048
  {
  }

  lemma FixedShape(m: Mnemonic, ts: seq<string>, labels: Labels, current: Word)
    requires (m == RET || m == HALT) && ts != []
    ensures Encode(m, ts, labels, current) == if m == RET then "1100000111000000" else "1111000000100101"
    ensures Expected(m, ts, labels, current) == if m == RET then 0xC1C0 else 0xF025
  {
  }

  lemma OperateLayout(m: Mnemonic, ts: seq<string>, labels: Labels, current: Word)
    requires (m == ADD || m == AND || m == NOT) && ts != []
    ensures |Encode(m, ts, labels, current)| == 16
    ensures Encodes(Encode(m, ts, labels, current), Expected(m, ts, labels, current))
  {
    if m == NOT {
      NotShape(ts, labels, current);
      NotField(Tok(ts, 1), Tok(ts, 2));
    } else {
      ArithShape(m, ts, labels, current);
      OpcodeFieldValue(m);
      ArithField(OpcodeField(m), OpcodeOf(m), Tok(ts, 1), Tok(ts, 2), Tok(ts, 3));
    }
  }

  lemma PcRelativeLayout(m: Mnemonic, ts: seq<string>, labels: Labels, current: Word)
    requires (m == LD || m == LDI || m == LEA || m == ST || m == STI) && ts != []
    ensures |Encode(m, ts, labels, current)| == 16
    ensures Encodes(Encode(m, ts, labels, current), Expected(m, ts, labels, current))
  {
    OpcodeFieldValue(m);
    PcRelativeShape(m, ts, labels, current);
    PcRelativeField(OpcodeField(m), OpcodeOf(m), Tok(ts, 1), PcOffset(labels, Tok(ts, 2), current));
  }

  lemma BaseOffsetLayout(m: Mnemonic, ts: seq<string>, labels: Labels, current: Word)
    requires (m == LDR || m == STR) && ts != []
    ensures |Encode(m, ts, labels, current)| == 16
    ensures Encodes(Encode(m, ts, labels, current), Expected(m, ts, labels, current))
  {
    OpcodeFieldValue(m);
    BaseOffsetShape(m, ts, labels, current);
    BaseOffsetField(OpcodeField(m), OpcodeOf(m), Tok(ts, 1), Tok(ts, 2), Tok(ts, 3));
  }

  lemma ControlLayout(m: Mnemonic, ts: seq<string>, labels: Labels, current: Word)
    requires (m == BR || m == JMP || m == JSR || m == JSRR || m == RET || m == HALT) && ts != []
    ensures |Encode(m, ts, labels, current)| == 16
    ensures Encodes(Encode(m, ts, labels, current), Expected(m, ts, labels, current))
  {
    var t1 := Tok(ts, 1);
    if m == BR {
      BranchShape(ts, labels, current);
      BranchField(ts[0], PcOffset(labels, t1, current));
    } else if m == JMP || m == JSRR {
      JumpShape(m, ts, labels, current);
      JumpHigh(m);
      BaseRegisterField(if m == JMP then "1100000" else "0100000", if m == JMP then 0x60 else 0x20, t1);
    } else if m == JSR {
      SubroutineShape(ts, labels, current);
      SubroutineField(PcOffset(labels, t1, current));
    } else {
      FixedShape(m, ts, labels, current);
      if m == RET {
        ReturnField();
      } else {
        HaltField();
      }
    }
  }

  /** ADD and AND, field by field: the opcode in bits 15..12, the destination
      in bits 11..9 and the first source in bits 8..6; then either bit 5 clear
      and the second source register in bits 2..0 (the last operand starts
      with 'R'), or bit 5 set and the immediate modulo 32 in bits 4..0. */
  lemma ArithFields(m: Mnemonic, ts: seq<string>, labels: Labels, current: Word)
    requires (m == ADD || m == AND) && ts != []
    ensures var r := Encode(m, ts, labels, current);
            var w := BinValue(r);
            |r| == 16 && IsBinary(r) &&
            w / 0x1000 == OpcodeOf(m) && w / 512 % 8 == Reg(Tok(ts, 1)) && w / 64 % 8 == Reg(Tok(ts, 2)) &&
            if StartsWith(Tok(ts, 3), "R") then w % 64 == Reg(Tok(ts, 3))
            else w % 64 == 32 + Operand(Tok(ts, 3)) % 32
  {
    OperateLayout(m, ts, labels, current);
    ArithExpected(m, ts, labels, current);
  }

  lemma ArithExpected(m: Mnemonic, ts: seq<string>, labels: Labels, current: Word)
    requires (m == ADD || m == AND) && ts != []
    ensures var w := Expected(m, ts, labels, current);
            w / 0x1000 == OpcodeOf(m) && w / 512 % 8 == Reg(Tok(ts, 1)) && w / 64 % 8 == Reg(Tok(ts, 2)) &&
            if StartsWith(Tok(ts, 3), "R") then w % 64 == Reg(Tok(ts, 3))
            else w % 64 == 32 + Operand(Tok(ts, 3)) % 32
  {
    OperateFields(OpcodeOf(m), Reg(Tok(ts, 1)), Reg(Tok(ts, 2)), Source2Value(Tok(ts, 3)));
  }

  /** The four fields of an operate word come back out by division. */
  lemma OperateFields(op: int, a: int, b: int, c: int)
    requires 0 <= op < 16 && 0 <= a < 8 && 0 <= b < 8 && 0 <= c < 64
    ensures var w := op * 0x1000 + a * 512 + b * 64 + c;
            w / 0x1000 == op && w / 512 % 8 == a && w / 64 % 8 == b && w % 64 == c
  {
    var w := op * 0x1000 + a * 512 + b * 64 + c;
    DivModUnique(w, 0x1000, op, a * 512 + b * 64 + c);
    DivModUnique(w, 512, op * 8 + a, b * 64 + c);
    DivModUnique(op * 8 + a, 8, op, a);
    DivModUnique(w, 64, op * 64 + a * 8 + b, c);
    DivModUnique(op * 64 + a * 8 + b, 8, op * 8 + a, b);
  }

  /** RET and HALT ignore their operands: RET is 0xC1C0 (JMP R7) and HALT is
      0xF025 (TRAP x25). */
  lemma FixedWords(ts: seq<string>, labels: Labels, current: Word)
    requires ts != []
    ensures var r := Encode(RET, ts, labels, current);
            |r| == 16 && IsBinary(r) && BinValue(r) == 0xC1C0
    ensures var h := Encode(HALT, ts, labels, current);
            |h| == 16 && IsBinary(h) && BinValue(h) == 0xF025
  {
    FixedShape(RET, ts, labels, current);
    FixedShape(HALT, ts, labels, current);
    ReturnField();
    HaltField();
  }

  /** Every instruction keyword encodes as sixteen bits denoting the reference
      word. */
  lemma EncodeMatchesLayout(m: Mnemonic, ts: seq<string>, labels: Labels, current: Word)
    requires m.IsInstruction() && ts != []
    ensures |Encode(m, ts, labels, current)| == 16
    ensures Encodes(Encode(m, ts, labels, current), Expected(m, ts, labels, current))
  {
    if m == ADD || m == AND || m == NOT {
      OperateLayout(m, ts, labels, current);
    } else if m == BR || m == JMP || m == JSR || m == JSRR || m == RET || m == HALT {
      ControlLayout(m, ts, labels, current);
    } else if m == LDR || m == STR {
      BaseOffsetLayout(m, ts, labels, current);
    } else {
      PcRelativeLayout(m, ts, labels, current);
    }
  }

  /** The top four bits of the reference word are the opcode. */
  lemma ExpectedOpcode(m: Mnemonic, ts: seq<string>, labels: Labels, current: Word)
    requires m.IsInstruction() && ts != []
    ensures Expected(m, ts, labels, current) / 0x1000 == OpcodeOf(m)
  {
    var v := Expected(m, ts, labels, current);
    ExpectedLow(m, ts, labels, current);
    DivModUnique(v, 0x1000, OpcodeOf(m), v - OpcodeOf(m) * 0x1000);
  }

  /** Below the opcode, the reference word holds twelve bits of fields. */
  lemma ExpectedLow(m: Mnemonic, ts: seq<string>, labels: Labels, current: Word)
    requires m.IsInstruction() && ts != []
    ensures 0 <= Expected(m, ts, labels, current) - OpcodeOf(m) * 0x1000 < 0x1000
  {
  }

  /** A statement whose first token is an instruction keyword assembles to a
      string that `toUInt(&ok, 2)` reads as the reference word, unless
      AssemblerLogic.cpp's operand-count guard answers "". */
  lemma AssembleInstruction(instruction: string, labels: Labels, current: Word, ed: Edition, m: Mnemonic)
    requires Tokens(instruction) != [] && Classify(Tokens(instruction)[0]) == Some(m) && m.IsInstruction()
    ensures var ts := Tokens(instruction);
            var r := Assemble(instruction, labels, current, ed);
            if ed == AssemblerLogic && |ts| < MinTokens(m) then r == ""
            else |r| == 16 && ToUInt(r, Binary) == Some(Expected(m, ts, labels, current))
  {
    var ts := Tokens(instruction);
    AssembleDispatch(instruction, labels, current, ed, m);
    if !(ed == AssemblerLogic && |ts| < MinTokens(m)) {
      EncodeMatchesLayout(m, ts, labels, current);
      ToUIntOfBinary(Encode(m, ts, labels, current));
    }
  }

  /** The top four bits of every assembled instruction are its opcode. */
  lemma AssembledOpcode(instruction: string, labels: Labels, current: Word, ed: Edition, m: Mnemonic)
    requires Tokens(instruction) != [] && Classify(Tokens(instruction)[0]) == Some(m) && m.IsInstruction()
    requires ed == AssemblerDriver || |Tokens(instruction)| >= MinTokens(m)
    ensures var r := Assemble(instruction, labels, current, ed);
            IsBinary(r) && |r| == 16 && BinValue(r) / 0x1000 == OpcodeOf(m)
  {
    var ts := Tokens(instruction);
    AssembleDispatch(instruction, labels, current, ed, m);
    EncodeMatchesLayout(m, ts, labels, current);
    ExpectedOpcode(m, ts, labels, current);
  }
}
