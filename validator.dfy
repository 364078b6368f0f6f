/** `validateInstruction` (AssemblerLogic.cpp, repeated in assembler.cpp): the
    syntax check of one statement, given as the tokens of `Split(line, ' ')`
    (so a trailing comma stays on its token) and the labels of the first pass.
    It checks the operand count, that register operands are registers, that
    label operands are defined, and the ranges of immediates and offsets. */
module Validator {
  import opened Text
  import opened Numbers
  import opened Optional
  import opened Syntax

  /** The `isRegister` lambda: 'R' followed by a digit 0..7; only the first two
      characters are looked at, so "R12" is a register (R1) and so is "R1,".
      The source reads the second character of an empty or one-character token
      out of bounds; here such a token is not a register. */
  predicate IsRegister(token: string)
  {
    |token| >= 2 && token[0] == 'R' && 0 <= DecimalDigit(token[1]) <= 7
  }

  /** The immediate operand of ADD/AND: its first character (the '#') is
      dropped and the rest read as a signed decimal in [-16, 15]. */
  predicate IsImm5(token: string)
  {
    match ToInt(Mid(token, 1), Decimal)
    case Some(imm) => -16 <= imm <= 15
    case None => false
  }

  /** The offset operand of LDR/STR: a signed decimal in [-32, 31]. */
  predicate IsOffset6(token: string)
  {
    match ToInt(token, Decimal)
    case Some(off) => -32 <= off <= 31
    case None => false
  }

  /** `validateInstruction(tokens, labels)`. An accepted statement starts with
      a known keyword and has exactly that keyword's number of operands,
      registers where registers belong, and labels that the symbol table
      defines; an empty statement and an unknown keyword are rejected. */
  function Validate(tokens: seq<string>, labels: Labels): bool
  {
    if tokens == [] then false
    else
      match Classify(Trim(tokens[0]))
      case None => false
      case Some(m) => Operands(m, tokens, labels)
  }

  /** The operand rules of keyword `m`; `tokens[0]` is the keyword itself. */
  function Operands(m: Mnemonic, tokens: seq<string>, labels: Labels): bool
  {
    match m
    case ADD => RegRegOrImm(tokens)
    case AND => RegRegOrImm(tokens)
    case BR => |tokens| == 2 && tokens[1] in labels
    case JMP => |tokens| == 2 && IsRegister(tokens[1])
    case JSRR => |tokens| == 2 && IsRegister(tokens[1])
    case JSR => |tokens| == 2 && tokens[1] in labels
    case LD => RegLabel(tokens, labels)
    case LDI => RegLabel(tokens, labels)
    case LEA => RegLabel(tokens, labels)
    case ST => RegLabel(tokens, labels)
    case STI => RegLabel(tokens, labels)
    case LDR => RegRegOffset(tokens)
    case STR => RegRegOffset(tokens)
    case NOT => |tokens| == 3 && IsRegister(tokens[1]) && IsRegister(tokens[2])
    case RET => |tokens| == 1
    case HALT => |tokens| == 1
    case END => |tokens| == 1
    case WORD => |tokens| == 2 && ToUInt(tokens[1], Decimal).Some?
    case BYTE => |tokens| == 2 && ToUInt(tokens[1], Decimal).Some?
    case DEC => |tokens| == 2 && ToInt(tokens[1], Decimal).Some?
    case HEX => |tokens| == 2 && ToUInt(tokens[1], Hex).Some?
  }

  predicate RegRegOrImm(tokens: seq<string>)
  {
    |tokens| == 4 && IsRegister(tokens[1]) && IsRegister(tokens[2]) &&
    (if StartsWith(tokens[3], "R") then IsRegister(tokens[3]) else IsImm5(tokens[3]))
  }

  predicate RegLabel(tokens: seq<string>, labels: Labels)
  {
    |tokens| == 3 && IsRegister(tokens[1]) && tokens[2] in labels
  }

  predicate RegRegOffset(tokens: seq<string>)
  {
    |tokens| == 4 && IsRegister(tokens[1]) && IsRegister(tokens[2]) && IsOffset6(tokens[3])
  }

  /** The number of tokens keyword `m` takes, keyword included. */
  function Arity(m: Mnemonic): nat
  {
    match m
    case ADD => 4 case AND => 4 case LDR => 4 case STR => 4
    case LD => 3 case LDI => 3 case LEA => 3 case ST => 3 case STI => 3 case NOT => 3
    case RET => 1 case HALT => 1 case END => 1
    case _ => 2
  }

  /** Does keyword `m` name a label in operand position `k`? */
  predicate LabelOperand(m: Mnemonic, k: nat)
  {
    ((m.BR? || m.JSR?) && k == 1) || ((m.LD? || m.LDI? || m.LEA? || m.ST? || m.STI?) && k == 2)
  }

  /** Does keyword `m` take a register in operand position `k`? */
  predicate RegisterOperand(m: Mnemonic, k: nat)
  {
    match m
    case ADD => k == 1 || k == 2
    case AND => k == 1 || k == 2
    case JMP => k == 1
    case JSRR => k == 1
    case LD => k == 1 case LDI => k == 1 case LEA => k == 1 case ST => k == 1 case STI => k == 1
    case LDR => k == 1 || k == 2
    case STR => k == 1 || k == 2
    case NOT => k == 1 || k == 2
    case _ => false
  }

  // ----- properties -----

  /** What an accepted statement is: it starts with a known keyword and has
      exactly that keyword's number of tokens, registers where registers
      belong and labels that the symbol table defines. An empty statement and
      an unknown keyword are rejected. */
  lemma ValidateChecks(tokens: seq<string>, labels: Labels)
    ensures (tokens == [] || Classify(Trim(tokens[0])).None?) ==> !Validate(tokens, labels)
    ensures Validate(tokens, labels) ==>
      var m := Classify(Trim(tokens[0])).value;
      |tokens| == Arity(m) &&
      (forall k :: 1 <= k < |tokens| && RegisterOperand(m, k) ==> IsRegister(tokens[k])) &&
      (forall k :: 1 <= k < |tokens| && LabelOperand(m, k) ==> tokens[k] in labels)
    ensures |tokens| == 4 && Classify(Trim(tokens[0])) in {Some(ADD), Some(AND)} && Validate(tokens, labels) ==>
              if StartsWith(tokens[3], "R") then IsRegister(tokens[3]) else IsImm5(tokens[3])
    ensures |tokens| == 4 && Classify(Trim(tokens[0])) in {Some(LDR), Some(STR)} && Validate(tokens, labels) ==>
              IsOffset6(tokens[3])
  {
    if Validate(tokens, labels) {
      OperandsChecked(Classify(Trim(tokens[0])).value, tokens, labels);
    }
  }

  /** The operand rules of every keyword, spelled out position by position. */
  lemma OperandsChecked(m: Mnemonic, tokens: seq<string>, labels: Labels)
    requires Operands(m, tokens, labels)
    ensures |tokens| == Arity(m)
    ensures forall k :: 1 <= k < |tokens| && RegisterOperand(m, k) ==> IsRegister(tokens[k])
    ensures forall k :: 1 <= k < |tokens| && LabelOperand(m, k) ==> tokens[k] in labels
    ensures (m == ADD || m == AND) ==>
              if StartsWith(tokens[3], "R") then IsRegister(tokens[3]) else IsImm5(tokens[3])
    ensures (m == LDR || m == STR) ==> IsOffset6(tokens[3])
    ensures (m == WORD || m == BYTE) ==> ToUInt(tokens[1], Decimal).Some?
    ensures m == DEC ==> ToInt(tokens[1], Decimal).Some?
    ensures m == HEX ==> ToUInt(tokens[1], Hex).Some?
  {
  }

  /** Defining more labels never makes a statement invalid. */
  lemma LabelsMonotone(tokens: seq<string>, labels: Labels, more: Labels)
    requires labels.Keys <= more.Keys
    requires Validate(tokens, labels)
    ensures Validate(tokens, more)
  {
  }

  /** An operand that names a label is checked against the symbol table: if it is
      missing there, the statement is rejected, whatever else it holds. */
  lemma UndefinedLabelRejected(tokens: seq<string>, labels: Labels, k: nat)
    requires tokens != [] && Classify(Trim(tokens[0])).Some?
    requires 1 <= k < |tokens| && LabelOperand(Classify(Trim(tokens[0])).value, k)
    requires tokens[k] !in labels
    ensures !Validate(tokens, labels)
  {
    ValidateChecks(tokens, labels);
  }

  /** An ADD or AND with an immediate is accepted exactly when that immediate
      is in [-16, 15]. */
  lemma Imm5Range(tokens: seq<string>, labels: Labels, m: Mnemonic, imm: int)
    requires (m == ADD || m == AND) && |tokens| == 4 && Classify(Trim(tokens[0])) == Some(m)
    requires IsRegister(tokens[1]) && IsRegister(tokens[2]) && !StartsWith(tokens[3], "R")
    requires ToInt(Mid(tokens[3], 1), Decimal) == Some(imm)
    ensures Validate(tokens, labels) <==> -16 <= imm <= 15
  {
  }

  /** An ADD or AND whose last operand starts with 'R' is accepted exactly
      when that operand is a register. */
  lemma Reg3Operand(tokens: seq<string>, labels: Labels, m: Mnemonic)
    requires (m == ADD || m == AND) && |tokens| == 4 && Classify(Trim(tokens[0])) == Some(m)
    requires IsRegister(tokens[1]) && IsRegister(tokens[2]) && StartsWith(tokens[3], "R")
    ensures Validate(tokens, labels) <==> IsRegister(tokens[3])
  {
  }

  /** An LDR or STR is accepted exactly when its offset, a signed decimal
      with nothing dropped, is in [-32, 31]. */
  lemma Offset6Range(tokens: seq<string>, labels: Labels, m: Mnemonic, off: int)
    requires (m == LDR || m == STR) && |tokens| == 4 && Classify(Trim(tokens[0])) == Some(m)
    requires IsRegister(tokens[1]) && IsRegister(tokens[2])
    requires ToInt(tokens[3], Decimal) == Some(off)
    ensures Validate(tokens, labels) <==> -32 <= off <= 31
  {
  }
}
