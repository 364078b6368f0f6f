/** The data directives of assembler.cpp: what the 16-bit word of `DEC`,
    `HEX`, `WORD` and `BYTE` holds, for every operand, and the disagreement
    between the validator, which reads a WORD or BYTE operand as unsigned
    decimal, and the encoder, which reads it as hexadecimal. */
module DataFormat {
  import opened Text
  import opened Numbers
  import opened Optional
  import opened Word16
  import opened Codec
  import opened Syntax
  import opened Validator
  import opened Encoder

  /** `HEX v`: the operand read with `toUInt(&ok, 16)` and kept in a
      `uint16_t`; an operand that does not convert gives "". */
  lemma HexDirective(ts: seq<string>, labels: Labels, current: Word)
    requires ts != []
    ensures var r := Encode(HEX, ts, labels, current);
            match ToUInt(Tok(ts, 1), Hex)
            case None => r == ""
            case Some(v) => |r| == 16 && IsBinary(r) && BinValue(r) == v % 0x10000
  {
    match ToUInt(Tok(ts, 1), Hex) {
      case None =>
      case Some(v) =>
        ToBinaryIsLowBits(Wrap(v), 16);
        Pow2Values();
        WrapAgain(v);
    }
  }

  /** `DEC v`: the operand read with `toInt(&ok)` and kept in an `int16_t`,
      so the word is its 16-bit two's complement; an operand that does not
      convert gives "". */
  lemma DecDirective(ts: seq<string>, labels: Labels, current: Word)
    requires ts != []
    ensures var r := Encode(DEC, ts, labels, current);
            match ToInt(Tok(ts, 1), Decimal)
            case None => r == ""
            case Some(v) => |r| == 16 && IsBinary(r) && BinValue(r) == v % 0x10000
  {
    match ToInt(Tok(ts, 1), Decimal) {
      case None =>
      case Some(v) =>
        ToBinaryIsLowBits(ToInt16(v), 16);
        Pow2Values();
        assert Wrap(ToInt16(v)) == Wrap(v);
    }
  }

  /** `WORD v` with one operand: the operand read with `toInt(&ok, 16)` and
      kept in a `uint16_t`; an operand that does not convert gives "". */
  lemma WordDirective(ts: seq<string>, labels: Labels, current: Word)
    requires |ts| == 2
    ensures var r := Encode(WORD, ts, labels, current);
            match ToInt(ts[1], Hex)
            case None => r == ""
            case Some(v) => |r| == 16 && IsBinary(r) && BinValue(r) == v % 0x10000
  {
    DataEncode(ts, WORD, labels, current);
    WordLine(ts[1]);
  }

  lemma WordLine(token: string)
    ensures var r := Trim(DataLine(token, WORD));
            match ToInt(token, Hex)
            case None => r == ""
            case Some(v) => |r| == 16 && IsBinary(r) && BinValue(r) == v % 0x10000
  {
    match ToInt(token, Hex) {
      case None =>
        TrimEmpty();
      case Some(v) =>
        var bits := ToBinary(Wrap(v), 16);
        ToBinaryIsLowBits(Wrap(v), 16);
        Pow2Values();
        WrapAgain(v);
        assert DataLine(token, WORD) == bits + "\n";
        TrimLine(bits);
    }
  }

  /** `BYTE v` with one operand: the operand read with `toInt(&ok, 16)` and
      kept in a `uint8_t`, written as 8 bits padded with '0' to 16; an
      operand that does not convert gives "". */
  lemma ByteDirective(ts: seq<string>, labels: Labels, current: Word)
    requires |ts| == 2
    ensures var r := Encode(BYTE, ts, labels, current);
            match ToInt(ts[1], Hex)
            case None => r == ""
            case Some(v) => |r| == 16 && IsBinary(r) && BinValue(r) == v % 0x100
  {
    DataEncode(ts, BYTE, labels, current);
    ByteLine(ts[1]);
  }

  lemma ByteLine(token: string)
    ensures var r := Trim(DataLine(token, BYTE));
            match ToInt(token, Hex)
            case None => r == ""
            case Some(v) => |r| == 16 && IsBinary(r) && BinValue(r) == v % 0x100
  {
    match ToInt(token, Hex) {
      case None =>
        TrimEmpty();
      case Some(v) =>
        var line := RightJustified(ToBinary(v % 0x100, 8), 16, '0');
        ByteDataLine(token, v);
        BytePadded(v % 0x100);
        TrimLine(line);
    }
  }

  lemma ByteDataLine(token: string, v: int)
    requires ToInt(token, Hex) == Some(v)
    ensures DataLine(token, BYTE) == RightJustified(ToBinary(v % 0x100, 8), 16, '0') + "\n"
  {
  }

  /** Eight bits of a byte, padded with '0' to sixteen. */
  lemma BytePadded(b: int)
    requires 0 <= b < 0x100
    ensures var line := RightJustified(ToBinary(b, 8), 16, '0');
            |line| == 16 && IsBinary(line) && BinValue(line) == b
  {
    ToBinaryIsLowBits(b, 8);
    Pow2Values();
    DivModUnique(b, 0x100, 0, b);
    var bits := ToBinary(b, 8);
    ZeroPadding(bits, 16);
  }

  /** A one-operand WORD whose operand reads as a hexadecimal `h` below
      2^16 encodes `h` itself. */
  lemma WordOperandValue(ts: seq<string>, labels: Labels, current: Word, h: int)
    requires |ts| == 2 && ToInt(ts[1], Hex) == Some(h) && 0 <= h < 0x10000
    ensures BinValue(Encode(WORD, ts, labels, current)) == h
  {
    WordDirective(ts, labels, current);
    DivModUnique(h, 0x10000, 0, h);
  }

  /** The operand of a one-operand WORD is accepted when it reads as unsigned
      decimal, and the word emitted is its value read as hexadecimal. */
  lemma WordOperandReadAsHex(ts: seq<string>, labels: Labels, current: Word, d: nat, h: int)
    requires |ts| == 2 && Classify(Trim(ts[0])) == Some(WORD)
    requires ToUInt(ts[1], Decimal) == Some(d) && ToInt(ts[1], Hex) == Some(h)
    ensures Validate(ts, labels)
    ensures BinValue(Encode(WORD, ts, labels, current)) == h % 0x10000
  {
    WordDirective(ts, labels, current);
  }

  /** WORD and BYTE are known to assembler.cpp only: AssemblerLogic.cpp
      answers "" for them, while assembler.cpp emits a 16-bit word for a
      one-operand statement whose operand reads as hexadecimal. */
  lemma DataOnlyInDriver(instruction: string, labels: Labels, current: Word, m: Mnemonic)
    requires Tokens(instruction) != [] && Classify(Tokens(instruction)[0]) == Some(m)
    requires m == WORD || m == BYTE
    ensures Assemble(instruction, labels, current, AssemblerLogic) == ""
    ensures var ts := Tokens(instruction);
            |ts| == 2 && ToInt(ts[1], Hex).Some? ==>
              |Assemble(instruction, labels, current, AssemblerDriver)| == 16
  {
    var ts := Tokens(instruction);
    AssembleDispatch(instruction, labels, current, AssemblerDriver, m);
    if |ts| == 2 {
      if m == WORD {
        WordDirective(ts, labels, current);
      } else {
        ByteDirective(ts, labels, current);
      }
    }
  }

  // ----- helpers -----

  lemma WrapAgain(v: int)
    ensures Wrap(v) % 0x10000 == v % 0x10000
  {
    DivModUnique(Wrap(v), 0x10000, 0, Wrap(v));
  }

  /** A one-operand WORD or BYTE is its single line, trimmed. */
  lemma DataEncode(ts: seq<string>, m: Mnemonic, labels: Labels, current: Word)
    requires |ts| == 2 && (m == WORD || m == BYTE)
    ensures Encode(m, ts, labels, current) == Trim(DataLine(ts[1], m))
  {
    SingleDataLine(ts, m);
  }

  /** One operand gives one line of the directive's loop. */
  lemma SingleDataLine(ts: seq<string>, m: Mnemonic)
    requires |ts| == 2
    ensures DataLines(ts[1..], m) == DataLine(ts[1], m)
  {
    var rest := ts[1..];
    assert rest[..|rest| - 1] == [] && rest[|rest| - 1] == ts[1];
  }

  /** `trimmed()` drops the newline after a line of bits. */
  lemma TrimLine(s: string)
    requires IsBinary(s) && s != ""
    ensures Trim(s + "\n") == s
  {
    EndsBinary(s);
    LeftKept(s + "\n");
    RightNewline(s);
  }

  lemma TrimEmpty()
    ensures Trim("") == ""
  {
  }

  lemma LeftKept(t: string)
    requires t != "" && (t[0] == '0' || t[0] == '1')
    ensures TrimLeft(t) == t
  {
  }

  lemma RightNewline(s: string)
    requires s != "" && (s[|s| - 1] == '0' || s[|s| - 1] == '1')
    ensures TrimRight(s + "\n") == s
  {
    var t := s + "\n";
    assert t[..|t| - 1] == s;
  }

  /** The first and the last character of a bit string are bits. */
  lemma EndsBinary(s: string)
    requires IsBinary(s) && s != ""
    ensures s[|s| - 1] == '0' || s[|s| - 1] == '1'
    ensures s[0] == '0' || s[0] == '1'
    decreases |s|
  {
    if |s| > 1 {
      EndsBinary(s[..|s| - 1]);
    }
  }

  /** `rightJustified(n, '0')` keeps the binary value. */
  lemma {:induction false} ZeroPadding(s: string, n: nat)
    requires IsBinary(s)
    ensures IsBinary(RightJustified(s, n, '0'))
    ensures BinValue(RightJustified(s, n, '0')) == BinValue(s)
    decreases n - |s|
  {
    if |s| < n {
      BinValueAppend("0", s);
      assert BinValue("0") == 0 by { assert "0"[..0] == ""; }
      assert IsBinary("0") by { assert "0"[..0] == ""; }
      ZeroPadding("0" + s, n);
    }
  }
}
