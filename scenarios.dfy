/** Concrete runs of the assembler and the simulator on small inputs: the
    data directive DEC with a negative value, WORD with an operand that
    reads differently in decimal and in hexadecimal, and a three-instruction program
    executed cycle by cycle until HALT. */
module Scenarios {
  import opened Word16
  import opened Optional
  import opened Text
  import opened Numbers
  import opened Codec
  import opened Syntax
  import opened Tokenizer
  import opened Validator
  import opened Encoder
  import opened Isa
  import opened Cpu
  import opened Refinement
  import opened Sequencer
  import opened DataFormat

  /** The statement `DEC -3` is accepted, and its tokens encode the 16-bit
      two's complement of -3, 0xFFFD, in both copies of the encoder. */
  lemma DecMinusThree(labels: Labels, current: Word)
    ensures Validate(["DEC", "-3"], labels)
    ensures Encode(DEC, ["DEC", "-3"], labels, current) == "1111111111111101"
  {
    DecValue();
    DecBits();
    DecKeyword();
  }

  lemma DecKeyword()
    ensures Classify(Trim("DEC")) == Some(DEC)
  {
    ClassifyKeyword(DEC);
    PlainToken("DEC");
  }

  /** A token without white space is its own trim. */
  lemma PlainToken(w: string)
    requires NoSpace(w)
    ensures Trim(w) == w
  {
    assert w != "" ==> !IsSpace(w[0]) && !IsSpace(w[|w| - 1]);
  }

  lemma DecValue()
    ensures ToInt("-3", Decimal) == Some(-3)
  {
    assert "-3"[1..] == "3";
    assert AllDigits("3", Decimal);
  }

  lemma DecBits()
    ensures ToBinary(ToInt16(-3), 16) == "1111111111111101"
  {
    assert ToInt16(-3) == -3 by { DivModUnique(-3, 0x10000, -1, 0xFFFD); }
    ToBinaryIsLowBits(-3, 16);
    MinusThreeBits();
  }

  lemma MinusThreeBits()
    ensures Bits(-3, 16) == "1111111111111101"
  {
    var ones := Bits(-1, 14);
    AllOnes(14);
    assert ones == "11111111111111";
    assert Bits(-2, 15) == ones + "0";
    assert Bits(-3, 16) == ones + "0" + "1";
  }

  /** -1 has every bit set, at any width. */
  lemma {:induction false} AllOnes(n: nat)
    ensures Bits(-1, n) == seq(n, _ => '1')
  {
    if n > 0 {
      AllOnes(n - 1);
      assert Bits(-1, n) == Bits(-1, n - 1) + "1";
    }
  }

  /** The statement `WORD 10` is accepted, because "10" reads as unsigned
      decimal, and the assembler.cpp encoder then emits 0x0010, because it
      reads the same operand as hexadecimal. */
  lemma WordTen(labels: Labels, current: Word)
    ensures Validate(["WORD", "10"], labels)
    ensures BinValue(Encode(WORD, ["WORD", "10"], labels, current)) == 0x10
  {
    WordTenAccepted(labels);
    WordTenValue(labels, current);
  }

  lemma WordTenAccepted(labels: Labels)
    ensures Validate(["WORD", "10"], labels)
  {
    TenValues();
    WordKeyword();
  }

  lemma WordTenValue(labels: Labels, current: Word)
    ensures BinValue(Encode(WORD, ["WORD", "10"], labels, current)) == 0x10
  {
    TenValues();
    WordOperandValue(["WORD", "10"], labels, current, 0x10);
  }

  lemma WordKeyword()
    ensures Classify(Trim("WORD")) == Some(WORD)
  {
    ClassifyKeyword(WORD);
    PlainToken("WORD");
  }

  lemma TenValues()
    ensures ToUInt("10", Decimal) == Some(10)
    ensures ToInt("10", Hex) == Some(0x10)
  {
    assert "10"[..1] == "1";
    assert "1"[..0] == "";
    assert AllDigits("10", Decimal) && AllDigits("10", Hex);
  }

  // ----- a program run by the sequencer -----

  /** AND with an all-zero pattern clears every bit. */
  lemma {:induction false} AndZero(a: nat, n: nat)
    ensures AndBits(a, 0, n) == 0
    decreases n
  {
    if n > 0 {
      AndZero(a / 2, n - 1);
    }
  }

  /** `AND R1, R1, #0` (0x5260) clears R1 and sets Z. */
  lemma StepClearR1(a: Arch)
    requires FullMemory(a) && a.mem[a.pc] == 0x5260
    ensures Step(a) == a.(pc := Wrap(a.pc + 1), r := a.r[1 := 0], cc := 2)
  {
    Pow2Values();
    assert Pow2(12) == 0x1000 && Pow2(0) == 1;
    var w := 0x5260;
    assert Opcode(w) == 5 && Dr(w) == 1 && Sr1(w) == 1 && BitOf(w, 5) && Imm5(w) == 0;
    AndZero(a.r[1], 16);
    assert And(a.r[1], 0) == 0;
    assert ConditionCode(0) == 2;
  }

  /** `ADD R1, R1, #5` (0x1265) on R1 = 0 leaves 5 in R1 and sets P. */
  lemma StepAddFive(a: Arch)
    requires FullMemory(a) && a.mem[a.pc] == 0x1265 && a.r[1] == 0
    ensures Step(a) == a.(pc := Wrap(a.pc + 1), r := a.r[1 := 5], cc := 1)
  {
    Pow2Values();
    assert Pow2(12) == 0x1000 && Pow2(0) == 1;
    var w := 0x1265;
    assert Opcode(w) == 1 && Dr(w) == 1 && Sr1(w) == 1 && BitOf(w, 5) && Imm5(w) == 5;
    assert Wrap(0 + 5) == 5;
    assert ConditionCode(5) == 1;
  }

  /** A word other than HALT at the PC does not stop the sequencer. */
  lemma NotHalted(s: State)
    requires Complete(s) && s.mem[s.regs.pc] != 0xF025
    ensures !Halted(Fetched(s))
  {
  }

  /** Six clicks from phase 1 on a word other than HALT: `n` clicks are six
      clicks to a state one reference step later, then `n - 6` more. */
  lemma CycleClicks(s: State, n: nat) returns (t: State)
    requires Complete(s) && s.mem[s.regs.pc] != 0xF025 && n >= Phases
    ensures Complete(t) && ArchOf(t) == Step(ArchOf(s))
    ensures Clicks(Config(1, s), n) == Clicks(Config(1, t), n - Phases)
  {
    NotHalted(s);
    SixClicksThen(s, n);
    CycleRefinesIsa(s);
    t := Cycle(s);
  }

  /** A state one step after `AND R1, R1, #0`. */
  lemma ClearStep(s: State, t: State)
    requires Complete(s) && s.mem[s.regs.pc] == 0x5260 && ArchOf(t) == Step(ArchOf(s))
    ensures t.regs.pc == Wrap(s.regs.pc + 1) && t.mem == s.mem && t.regs.r[1] == 0
  {
    StepClearR1(ArchOf(s));
  }

  /** A state one step after `ADD R1, R1, #5` with R1 = 0. */
  lemma AddStep(s: State, t: State)
    requires Complete(s) && s.mem[s.regs.pc] == 0x1265 && s.regs.r[1] == 0 && ArchOf(t) == Step(ArchOf(s))
    ensures t.regs.pc == Wrap(s.regs.pc + 1) && t.mem == s.mem && t.regs.r[1] == 5
  {
    StepAddFive(ArchOf(s));
  }

  /** Six clicks on `AND R1, R1, #0` at the PC. */
  lemma ClearClicks(s: State, n: nat) returns (t: State)
    requires Complete(s) && s.mem[s.regs.pc] == 0x5260 && n >= Phases
    ensures Complete(t) && t.regs.pc == Wrap(s.regs.pc + 1) && t.mem == s.mem && t.regs.r[1] == 0
    ensures Clicks(Config(1, s), n) == Clicks(Config(1, t), n - Phases)
  {
    t := CycleClicks(s, n);
    ClearStep(s, t);
  }

  /** Six clicks on `ADD R1, R1, #5` at the PC, with R1 = 0. */
  lemma AddClicks(s: State, n: nat) returns (t: State)
    requires Complete(s) && s.mem[s.regs.pc] == 0x1265 && s.regs.r[1] == 0 && n >= Phases
    ensures Complete(t) && t.regs.pc == Wrap(s.regs.pc + 1) && t.mem == s.mem && t.regs.r[1] == 5
    ensures Clicks(Config(1, s), n) == Clicks(Config(1, t), n - Phases)
  {
    t := CycleClicks(s, n);
    AddStep(s, t);
  }

  /** Clicks from phase 1 with HALT at the PC: the machine stops after the
      fetch, with the registers R0-R7 unchanged. */
  lemma HaltTail(c: Config, more: nat)
    requires Complete(c.s) && c.sc == 1 && c.s.regs.pc == 0x3002 && c.s.mem[0x3002] == 0xF025
    ensures var d := Clicks(c, 1 + more);
            d.sc == -1 && d.s.regs.pc == 0x3003 && d.s.regs.r == c.s.regs.r
  {
    assert c == Config(1, c.s);
    HaltStops(c.s, 1 + more);
    DivModUnique(0x3003, 0x10000, 0, 0x3003);
  }

  /** The program `AND R1, R1, #0`, `ADD R1, R1, #5`, `HALT` at 0x3000:
      twelve clicks run the two instructions, the thirteenth fetches HALT and
      stops the machine with 5 in R1, and no later click changes anything. */
  lemma ClearAddHalt(s: State, more: nat)
    requires Complete(s) && s.regs.pc == 0x3000
    requires s.mem[0x3000] == 0x5260 && s.mem[0x3001] == 0x1265 && s.mem[0x3002] == 0xF025
    ensures var d := Clicks(Config(1, s), 2 * Phases + 1 + more);
            d.sc == -1 && d.s.regs.r[1] == 5 && d.s.regs.pc == 0x3003
  {
    var n := 2 * Phases + 1 + more;
    var s1 := ClearClicks(s, n);
    assert s1.regs.pc == 0x3001 by { DivModUnique(0x3001, 0x10000, 0, 0x3001); }
    var s2 := AddClicks(s1, n - Phases);
    assert s2.regs.pc == 0x3002 by { DivModUnique(0x3002, 0x10000, 0, 0x3002); }
    HaltTail(Config(1, s2), more);
  }
}
