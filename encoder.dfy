/** `assembleInstruction(instruction, labels, currentAddress)`: the encoding of
    one statement as a string of '0'/'1' characters. The statement is split at
    white space, every token loses its commas and is trimmed, and the first
    token picks the encoding. The two copies of the function differ:
    AssemblerLogic.cpp returns "" when an instruction has too few operands and
    has no WORD/BYTE case; assembler.cpp has no operand-count guards and does
    encode WORD and BYTE. `Edition` selects between them. */
module Encoder {
  import opened Text
  import opened Numbers
  import opened Optional
  import opened Word16
  import opened Codec
  import opened Syntax

  datatype Edition = AssemblerLogic | AssemblerDriver

  // ----- tokens -----

  /** `tokens[i].remove(',').trimmed()`. */
  function NormalizeToken(w: string): string
  {
    Trim(RemoveChar(w, ','))
  }

  /** A normalised token holds no comma and no white space at either end. */
  lemma NormalizedToken(w: string)
    ensures ',' !in NormalizeToken(w) && Trimmed(NormalizeToken(w))
  {
    TrimChars(RemoveChar(w, ','));
  }

  /** Every token normalised. */
  function Normalized(ws: seq<string>): (ts: seq<string>)
    ensures |ts| == |ws|
  {
    seq(|ws|, i requires 0 <= i < |ws| => NormalizeToken(ws[i]))
  }

  /** The tokens the encoder sees are comma-free and trimmed, one per word. */
  lemma NormalizedTokens(ws: seq<string>)
    ensures forall i :: 0 <= i < |ws| ==> ',' !in Normalized(ws)[i] && Trimmed(Normalized(ws)[i])
  {
    forall i | 0 <= i < |ws| {
      NormalizedToken(ws[i]);
    }
  }

  /** The loop of `assembleInstruction` that rewrites each token in place. */
  method NormalizeTokens(ws: seq<string>) returns (ts: seq<string>)
    ensures ts == Normalized(ws)
  {
    ts := ws;
    var i := 0;
    while i < |ts|
      invariant 0 <= i <= |ts| == |ws|
      invariant forall k :: 0 <= k < i ==> ts[k] == NormalizeToken(ws[k])
      invariant forall k :: i <= k < |ts| ==> ts[k] == ws[k]
    {
      ts := ts[i := NormalizeToken(ts[i])];
      i := i + 1;
    }
  }

  /** The tokens the encoder works on. */
  function Tokens(instruction: string): seq<string>
  {
    Normalized(Words(instruction))
  }

  /** `tokens[k]`, read as "" when the statement has fewer tokens (the source
      reads out of bounds there). */
  function Tok(ts: seq<string>, k: nat): string
  {
    if k < |ts| then ts[k] else ""
  }

  // ----- operand fields -----

  /** `token.mid(1).toInt()`: the number after the first character
      ("R3" gives 3, "#-5" gives -5), or 0 when there is none. */
  function Operand(token: string): int
  {
    ToIntOrZero(Mid(token, 1), Decimal)
  }

  /** `labels.value(name)`: the label's address, or 0 for an unknown name. */
  function Lookup(labels: Labels, name: string): (a: Word)
    ensures name !in labels ==> a == 0
  {
    if name in labels then labels[name] else 0
  }

  /** The PC-relative offset `labels.value(name) - currentAddress - 1`. */
  function PcOffset(labels: Labels, name: string, current: Word): int
  {
    Lookup(labels, name) - current - 1
  }

  /** A register field: `toBinary(token.mid(1).toInt(), 3)`. */
  function RegBits(token: string): string
  {
    ToBinary(Operand(token), 3)
  }

  /** The condition letter of a branch mnemonic. */
  function Flag(op: string, c: char): string
  {
    if c in op then "1" else "0"
  }

  /** The last operand of ADD and AND: a register, or the immediate flag and
      five bits of immediate. */
  function Source2(token: string): string
  {
    if StartsWith(token, "R") then "000" + RegBits(token) else "1" + ToBinary(Operand(token), 5)
  }

  /** The operand count below which AssemblerLogic.cpp answers "". */
  function MinTokens(m: Mnemonic): nat
  {
    match m
    case ADD => 4 case AND => 4 case LDR => 4
    case LD => 3 case LDI => 3 case LEA => 3 case NOT => 3 case ST => 3 case STI => 3
    case BR => 2 case JMP => 2 case JSR => 2 case JSRR => 2
    case _ => 0
  }

  // ----- the encoder -----

  /** `assembleInstruction(instruction, labels, currentAddress)`. A statement with
      no tokens at all (never validated) encodes as "". */
  function Assemble(instruction: string, labels: Labels, current: Word, ed: Edition): string
  {
    var ts := Tokens(instruction);
    if ts == [] then ""
    else
      match Classify(ts[0])
      case None => ""
      case Some(m) =>
        if ed == AssemblerLogic && (|ts| < MinTokens(m) || m == WORD || m == BYTE) then ""
        else Encode(m, ts, labels, current)
  }

  /** The dispatch: a statement starting with keyword `m` is encoded by `m`'s
      case, except that AssemblerLogic.cpp answers "" below `m`'s operand count
      and for WORD and BYTE, which it does not know. This only unfolds
      Assemble, as a proof step that keeps its cases out of larger proofs. */
  lemma AssembleDispatch(instruction: string, labels: Labels, current: Word, ed: Edition, m: Mnemonic)
    requires Tokens(instruction) != [] && Classify(Tokens(instruction)[0]) == Some(m)
    ensures Assemble(instruction, labels, current, ed) ==
            if ed == AssemblerLogic && (|Tokens(instruction)| < MinTokens(m) || m == WORD || m == BYTE) then ""
            else Encode(m, Tokens(instruction), labels, current)
  {
  }

  /** Every keyword but WORD and BYTE reads at most three operands, and reads
      a missing one as "": appending empty tokens to a statement does not
      change its encoding. */
  lemma MissingOperandsReadEmpty(m: Mnemonic, ts: seq<string>, labels: Labels, current: Word)
    requires ts != [] && m != WORD && m != BYTE
    ensures Encode(m, ts, labels, current) == Encode(m, ts + ["", "", ""], labels, current)
  {
    var padded := ts + ["", "", ""];
    assert padded[0] == ts[0];
    PaddedTok(ts, 1);
    PaddedTok(ts, 2);
    PaddedTok(ts, 3);
  }

  lemma PaddedTok(ts: seq<string>, k: nat)
    ensures Tok(ts, k) == Tok(ts + ["", "", ""], k)
  {
    if k < |ts| {
      assert (ts + ["", "", ""])[k] == ts[k];
    }
  }

  /** The encoding of keyword `m` once the guards have passed. */
  function Encode(m: Mnemonic, ts: seq<string>, labels: Labels, current: Word): string
    requires ts != []
  {
    var t1, t2, t3 := Tok(ts, 1), Tok(ts, 2), Tok(ts, 3);
    match m
    case ADD => Arith("0001", t1, t2, t3)
    case AND => Arith("0101", t1, t2, t3)
    case BR => Branch(ts[0], PcOffset(labels, t1, current))
    case JMP => BaseRegister("1100000", t1)
    case JSR => Subroutine(PcOffset(labels, t1, current))
    case JSRR => BaseRegister("0100000", t1)
    case LD => PcRelative("0010", t1, PcOffset(labels, t2, current))
    case LDI => PcRelative("1010", t1, PcOffset(labels, t2, current))
    case LDR => BaseOffset("0110", t1, t2, t3)
    case LEA => PcRelative("1110", t1, PcOffset(labels, t2, current))
    case NOT => Complement(t1, t2)
    case RET => "1100000111000000"
    case ST => PcRelative("0011", t1, PcOffset(labels, t2, current))
    case STI => PcRelative("1011", t1, PcOffset(labels, t2, current))
    case STR => BaseOffset("0111", t1, t2, t3)
    case HALT => "1111000000100101"
    case END => ""
    case WORD => Trim(DataLines(ts[1..], WORD))
    case BYTE => Trim(DataLines(ts[1..], BYTE))
    case DEC =>
      (match ToInt(t1, Decimal)
       case Some(v) => ToBinary(ToInt16(v), 16)
       case None => "")
    case HEX =>
      (match ToUInt(t1, Hex)
       case Some(v) => ToBinary(Wrap(v), 16)
       case None => "")
  }

  /** ADD and AND: opcode, destination, first source, then `Source2`. */
  function Arith(opcode: string, dr: string, sr1: string, src2: string): string
  {
    opcode + RegBits(dr) + RegBits(sr1) + Source2(src2)
  }

  /** NOT: opcode, destination, source, six one bits. */
  function Complement(dr: string, sr: string): string
  {
    "1001" + RegBits(dr) + RegBits(sr) + "111111"
  }

  /** The n, z and p letters of a branch mnemonic, as three flag bits. */
  function Conditions(op: string): string
  {
    Flag(op, 'n') + Flag(op, 'z') + Flag(op, 'p')
  }

  /** BR: the condition flags of the mnemonic, then a 9-bit offset. */
  function Branch(op: string, offset: int): string
  {
    "0000" + Conditions(op) + ToBinary(offset, 9)
  }

  /** JMP and JSRR: seven fixed bits, the base register, six zero bits. */
  function BaseRegister(high: string, baseR: string): string
  {
    high + RegBits(baseR) + "000000"
  }

  /** JSR: the offset is first stored in an `int16_t`, then cut to 11 bits. */
  function Subroutine(offset: int): string
  {
    "0100" + "1" + ToBinary(ToInt16(offset), 11)
  }

  /** LD, LDI, LEA, ST and STI: opcode, register, 9-bit PC-relative offset. */
  function PcRelative(opcode: string, reg: string, offset: int): string
  {
    opcode + RegBits(reg) + ToBinary(offset, 9)
  }

  /** LDR and STR: opcode, register, base register, and a 6-bit offset read
      with `mid(1)` like a register operand. */
  function BaseOffset(opcode: string, reg: string, baseR: string, offset: string): string
  {
    opcode + RegBits(reg) + RegBits(baseR) + ToBinary(Operand(offset), 6)
  }

  // ----- WORD and BYTE (assembler.cpp) -----

  /** One value of a WORD or BYTE directive: read as base-16 `int`, kept in a
      `uint16_t` or a `uint8_t`, then written as 16 bits and a newline; a value
      that does not convert contributes nothing. The `value > 0xFF` test of
      BYTE can never hold for a `uint8_t` and is not modelled. */
  function DataLine(token: string, m: Mnemonic): string
  {
    match ToInt(token, Hex)
    case None => ""
    case Some(v) =>
      (if m == BYTE then RightJustified(ToBinary(v % 0x100, 8), 16, '0') else ToBinary(Wrap(v), 16)) + "\n"
  }

  /** The text the directive's loop accumulates over `tokens`. */
  function DataLines(tokens: seq<string>, m: Mnemonic): string
  {
    if tokens == [] then "" else DataLines(tokens[..|tokens| - 1], m) + DataLine(tokens[|tokens| - 1], m)
  }

  /** The WORD and BYTE loops of assembler.cpp. */
  method EncodeData(ts: seq<string>, m: Mnemonic) returns (r: string)
    requires ts != []
    ensures r == Trim(DataLines(ts[1..], m))
  {
    var result := "";
    var i := 1;
    while i < |ts|
      invariant 1 <= i <= |ts|
      invariant result == DataLines(ts[1..i], m)
    {
      DataLinesSnoc(ts, m, i);
      var value := ToInt(ts[i], Hex);
      if value.Some? {
        var v := value.value;
        var line := if m == BYTE then RightJustified(ToBinary(v % 0x100, 8), 16, '0') else ToBinary(Wrap(v), 16);
        assert line + "\n" == DataLine(ts[i], m);
        result := result + (line + "\n");
      }
      i := i + 1;
    }
    assert ts[1..i] == ts[1..];
    r := Trim(result);
  }

  lemma DataLinesSnoc(ts: seq<string>, m: Mnemonic, i: nat)
    requires 1 <= i < |ts|
    ensures DataLines(ts[1..i + 1], m) == DataLines(ts[1..i], m) + DataLine(ts[i], m)
  {
    var s := ts[1..i + 1];
    assert s[..|s| - 1] == ts[1..i] && s[|s| - 1] == ts[i];
  }
}
