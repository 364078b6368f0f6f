/** The vocabulary shared by the validator and the encoder: the mnemonics
    both dispatch on and the symbol table that the first pass builds. */
module Syntax {
  import opened Text
  import opened Word16
  import opened Optional

  /** The symbol table (`QMap<QString, uint16_t>`). */
  type Labels = map<string, Word>

  /** The opcode keywords of the assembly language. */
  datatype Mnemonic =
    | ADD | AND | BR | JMP | JSR | JSRR | LD | LDI | LDR | LEA | NOT | RET
    | ST | STI | STR | HALT | END | WORD | BYTE | DEC | HEX
  {
    /** The keywords that assemble to an LC-3 instruction word. */
    predicate IsInstruction()
    {
      !(END? || WORD? || BYTE? || DEC? || HEX?)
    }
  }

  /** The dispatch of `validateInstruction` and `assembleInstruction`: exact,
      case-sensitive keywords, except that any word beginning with "BR" is a
      branch (its condition letters are read later). No exact keyword begins
      with "BR", so testing the branch first gives the same answer as the
      source's `if` chain. */
  function Classify(op: string): (m: Option<Mnemonic>)
    ensures m == Some(BR) <==> StartsWith(op, "BR")
  {
    if StartsWith(op, "BR") then Some(BR)
    else if op == "ADD" then Some(ADD)
    else if op == "AND" then Some(AND)
    else if op == "JMP" then Some(JMP)
    else if op == "JSR" then Some(JSR)
    else if op == "JSRR" then Some(JSRR)
    else if op == "LD" then Some(LD)
    else if op == "LDI" then Some(LDI)
    else if op == "LDR" then Some(LDR)
    else if op == "LEA" then Some(LEA)
    else if op == "NOT" then Some(NOT)
    else if op == "RET" then Some(RET)
    else if op == "ST" then Some(ST)
    else if op == "STI" then Some(STI)
    else if op == "STR" then Some(STR)
    else if op == "HALT" then Some(HALT)
    else if op == "END" then Some(END)
    else if op == "WORD" then Some(WORD)
    else if op == "BYTE" then Some(BYTE)
    else if op == "DEC" then Some(DEC)
    else if op == "HEX" then Some(HEX)
    else None
  }

  /** The keyword spelled out (the branch as plain "BR"). */
  function Keyword(m: Mnemonic): string
  {
    match m
    case ADD => "ADD" case AND => "AND" case BR => "BR" case JMP => "JMP"
    case JSR => "JSR" case JSRR => "JSRR" case LD => "LD" case LDI => "LDI"
    case LDR => "LDR" case LEA => "LEA" case NOT => "NOT" case RET => "RET"
    case ST => "ST" case STI => "STI" case STR => "STR" case HALT => "HALT"
    case END => "END" case WORD => "WORD" case BYTE => "BYTE" case DEC => "DEC"
    case HEX => "HEX"
  }

  /** Every keyword is recognised as itself, so the dispatch misses none. */
  lemma ClassifyKeyword(m: Mnemonic)
    ensures Classify(Keyword(m)) == Some(m)
  {
    var k := Keyword(m);
    if m != BR {
      assert k[0] != 'B' || k[1] != 'R';
      assert !StartsWith(k, "BR");
    }
  }
}
