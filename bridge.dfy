/** What the simulator does with the words the assembler writes: a word the
    second pass stores for an instruction is the reference word of
    `InstructionFormat`, and executing the PC-relative and subroutine words
    at the address they were assembled for lands on, reads or writes the
    label they name; the HALT word is the one the sequencer stops at. */
module Bridge {
  import opened Word16
  import opened Optional
  import opened Syntax
  import opened Tokenizer
  import opened Validator
  import opened Encoder
  import opened Passes
  import opened Isa
  import opened Cpu
  import opened Refinement
  import InstructionFormat

  // ----- the stored word -----

  /** For a statement that validates and starts with an instruction keyword,
      and has the operands the edition asks for, the second pass stores the
      reference word of that instruction at the cursor. */
  lemma EmittedInstruction(text: string, labels: Labels, address: Word, ed: Edition, m: Mnemonic)
    requires Validate(SplitSpec(text, ' '), labels)
    requires Tokens(text) != [] && Classify(Tokens(text)[0]) == Some(m) && m.IsInstruction()
    requires ed == AssemblerDriver || |Tokens(text)| >= MinTokens(m)
    ensures Emitted(text, labels, address, ed) == Some(InstructionFormat.Expected(m, Tokens(text), labels, address))
  {
    InstructionFormat.AssembleInstruction(text, labels, address, ed, m);
    var v := InstructionFormat.Expected(m, Tokens(text), labels, address);
    DivModUnique(v, 0x10000, 0, v);
  }

  // ----- the fields of the reference words -----

  /** The word after `current` plus a 9-bit offset, modulo 2^16, is the
      label when the label lies within the offset's reach: this is the
      PC-relative address `decode` and `evaluateAddress` compute. */
  lemma NearReaches(w: Word, current: Word, target: int)
    requires 0 <= target < 0x10000 && -256 <= target - current - 1 < 256
    requires w % 512 == (target - current - 1) % 512
    ensures Wrap(Wrap(current + 1) + Offset9(w)) == target
  {
    Pow2Values();
    var off := target - current - 1;
    assert Field(w, 0, 9) == off % 512;
    ModSmall(off, 512);
    assert Offset9(w) == off;
    WrapAfter(current, off, target);
  }

  /** The same reach for the 11-bit offset of JSR. */
  lemma FarReaches(w: Word, current: Word, target: int)
    requires 0 <= target < 0x10000 && -1024 <= target - current - 1 < 1024
    requires w % 2048 == (target - current - 1) % 2048
    ensures Wrap(Wrap(current + 1) + Offset11(w)) == target
  {
    Pow2Values();
    var off := target - current - 1;
    assert Field(w, 0, 11) == off % 2048;
    ModSmall(off, 2048);
    assert Offset11(w) == off;
    WrapAfter(current, off, target);
  }

  /** `(current + 1) mod 2^16`, plus `off`, modulo 2^16, is
      `current + 1 + off` when that is an address. */
  lemma WrapAfter(current: Word, off: int, target: int)
    requires 0 <= target < 0x10000 && target == current + 1 + off && -1024 <= off
    ensures Wrap(Wrap(current + 1) + off) == target
  {
    if current < 0xFFFF {
      DivModUnique(current + 1, 0x10000, 0, current + 1);
      DivModUnique(target, 0x10000, 0, target);
    } else {
      DivModUnique(current + 1, 0x10000, 1, 0);
      DivModUnique(off, 0x10000, -1, target);
    }
  }

  /** A word laid out as opcode, a 3-bit field at bits 11..9 and a 9-bit
      offset has that opcode and that register field. */
  lemma Layout439Fields(w: int, op: int, reg: int, low: int)
    requires 0 <= op < 16 && 0 <= reg < 8 && 0 <= low < 512
    requires w == op * 0x1000 + reg * 512 + low
    ensures 0 <= w < 0x10000 && w % 512 == low
    ensures Opcode(w) == op && Dr(w) == reg
  {
    Pow2Values();
    assert Pow2(12) == 0x1000 by { assert Pow2(12) == 2 * Pow2(11); }
    DivModUnique(w, 512, op * 8 + reg, low);
    DivModUnique(op * 8 + reg, 8, op, reg);
    DivModUnique(w, 0x1000, op, reg * 512 + low);
    DivModUnique(op, 16, 0, op);
  }

  /** The n, z and p bits of an assembled branch word are the letters of
      its mnemonic. */
  lemma BranchBits(w: Word, op: string)
    requires Dr(w) == InstructionFormat.Cond(op)
    ensures BitOf(w, 11) <==> 'n' in op
    ensures BitOf(w, 10) <==> 'z' in op
    ensures BitOf(w, 9) <==> 'p' in op
  {
    Pow2Values();
    assert Pow2(10) == 0x400;
    FieldsAgree(w);
    ConditionBitN(w);
    ConditionBitZ(w);
    ConditionBitP(w);
  }

  /** The label a PC-relative operand names lies within nine bits of the
      word after the instruction. */
  predicate NearLabel(labels: Labels, name: string, current: Word)
  {
    -256 <= PcOffset(labels, name, current) < 256
  }

  /** A word laid out as opcode, register field and a 9-bit offset `off`
      has that opcode and register, and the offset leads from the word after
      `current` to `target = current + 1 + off`. */
  lemma NearWord(w: int, op: int, reg: int, off: int, current: Word, target: Word)
    requires 0 <= op < 16 && 0 <= reg < 8 && -256 <= off < 256 && target == current + 1 + off
    requires w == op * 0x1000 + reg * 512 + off % 512
    ensures 0 <= w < 0x10000 && Opcode(w) == op && Dr(w) == reg
    ensures Wrap(Wrap(current + 1) + Offset9(w)) == target
  {
    Layout439Fields(w, op, reg, off % 512);
    NearReaches(w, current, target);
  }

  /** The same for the word `0x4800` plus an 11-bit offset: a JSR. */
  lemma FarWord(w: int, off: int, current: Word, target: Word)
    requires -1024 <= off < 1024 && target == current + 1 + off
    requires w == 0x4800 + off % 2048
    ensures 0 <= w < 0x10000 && Opcode(w) == 4 && BitOf(w, 11)
    ensures Wrap(Wrap(current + 1) + Offset11(w)) == target
  {
    var low := off % 2048;
    Pow2Values();
    assert Pow2(12) == 0x1000 by { assert Pow2(12) == 2 * Pow2(11); }
    DivModUnique(w, 0x1000, 4, 0x800 + low);
    DivModUnique(4, 16, 0, 4);
    DivModUnique(w, 0x800, 9, low);
    DivModUnique(w, 2048, 9, low);
    FarReaches(w, current, target);
  }

  /** The reference word of LD, LDI, LEA, ST and STI carries the opcode, the
      register operand, and an offset that leads from the word after
      `current` to the label. */
  lemma PcRelativeWord(m: Mnemonic, ts: seq<string>, labels: Labels, current: Word)
    requires (m == LD || m == LDI || m == LEA || m == ST || m == STI) && ts != []
    requires NearLabel(labels, Tok(ts, 2), current)
    ensures var w := InstructionFormat.Expected(m, ts, labels, current);
            Opcode(w) == InstructionFormat.OpcodeOf(m) && Dr(w) == InstructionFormat.Reg(Tok(ts, 1)) &&
            Wrap(Wrap(current + 1) + Offset9(w)) == Lookup(labels, Tok(ts, 2))
  {
    NearWord(InstructionFormat.Expected(m, ts, labels, current), InstructionFormat.OpcodeOf(m),
             InstructionFormat.Reg(Tok(ts, 1)), PcOffset(labels, Tok(ts, 2), current), current, Lookup(labels, Tok(ts, 2)));
  }

  /** The reference word of a branch: opcode 0, the n, z, p bits of its
      letters, and an offset that leads to the label. */
  lemma BranchWord(ts: seq<string>, labels: Labels, current: Word)
    requires ts != [] && NearLabel(labels, Tok(ts, 1), current)
    ensures var w := InstructionFormat.Expected(BR, ts, labels, current);
            Opcode(w) == 0 &&
            (BitOf(w, 11) <==> 'n' in ts[0]) && (BitOf(w, 10) <==> 'z' in ts[0]) && (BitOf(w, 9) <==> 'p' in ts[0]) &&
            Wrap(Wrap(current + 1) + Offset9(w)) == Lookup(labels, Tok(ts, 1))
  {
    var w := InstructionFormat.Expected(BR, ts, labels, current);
    NearWord(w, 0, InstructionFormat.Cond(ts[0]), PcOffset(labels, Tok(ts, 1), current), current, Lookup(labels, Tok(ts, 1)));
    BranchBits(w, ts[0]);
  }

  /** The reference word of `JSR label`: opcode 4, bit 11 set, and an
      11-bit offset that leads to the label. */
  lemma SubroutineWord(ts: seq<string>, labels: Labels, current: Word)
    requires ts != [] && -1024 <= PcOffset(labels, Tok(ts, 1), current) < 1024
    ensures var w := InstructionFormat.Expected(JSR, ts, labels, current);
            Opcode(w) == 4 && BitOf(w, 11) && Wrap(Wrap(current + 1) + Offset11(w)) == Lookup(labels, Tok(ts, 1))
  {
    FarWord(InstructionFormat.Expected(JSR, ts, labels, current), PcOffset(labels, Tok(ts, 1), current),
            current, Lookup(labels, Tok(ts, 1)));
  }

  // ----- one step of each kind -----

  lemma StepBranch(a: Arch)
    requires FullMemory(a) && Opcode(a.mem[a.pc]) == 0
    ensures var w := a.mem[a.pc];
            Step(a) == a.(pc := if Taken(w, a.cc) then Wrap(Wrap(a.pc + 1) + Offset9(w)) else Wrap(a.pc + 1))
  {
  }

  lemma StepSubroutine(a: Arch)
    requires FullMemory(a) && Opcode(a.mem[a.pc]) == 4 && BitOf(a.mem[a.pc], 11)
    ensures var w := a.mem[a.pc];
            Step(a) == a.(r := a.r[7 := Wrap(a.pc + 1)], pc := Wrap(Wrap(a.pc + 1) + Offset11(w)))
  {
  }

  lemma StepLea(a: Arch)
    requires FullMemory(a) && Opcode(a.mem[a.pc]) == 0xE
    ensures var w := a.mem[a.pc];
            Step(a) == a.(pc := Wrap(a.pc + 1), r := a.r[Dr(w) := Wrap(Wrap(a.pc + 1) + Offset9(w))])
  {
  }

  lemma StepLoad(a: Arch)
    requires FullMemory(a) && Opcode(a.mem[a.pc]) == 2
    ensures var w := a.mem[a.pc];
            Step(a) == Write(a.(pc := Wrap(a.pc + 1)), Dr(w), a.mem[Wrap(Wrap(a.pc + 1) + Offset9(w))])
  {
  }

  lemma StepStore(a: Arch)
    requires FullMemory(a) && Opcode(a.mem[a.pc]) == 3
    ensures var w := a.mem[a.pc];
            Step(a) == a.(pc := Wrap(a.pc + 1), mem := a.mem[Wrap(Wrap(a.pc + 1) + Offset9(w)) := a.r[Dr(w)]])
  {
  }

  // ----- executing the words where they were assembled -----

  /** `BR label` assembled at the PC goes to the label exactly when one of
      its n, z, p letters meets the condition code, and to the next word
      otherwise; nothing else changes. */
  lemma BranchToLabel(a: Arch, ts: seq<string>, labels: Labels)
    requires FullMemory(a) && ts != [] && NearLabel(labels, Tok(ts, 1), a.pc)
    requires a.mem[a.pc] == InstructionFormat.Expected(BR, ts, labels, a.pc)
    ensures var op := ts[0];
            var taken := ('n' in op && BitOf(a.cc, 2)) || ('z' in op && BitOf(a.cc, 1)) || ('p' in op && BitOf(a.cc, 0));
            Step(a) == a.(pc := if taken then Lookup(labels, Tok(ts, 1)) else Wrap(a.pc + 1))
  {
    BranchWord(ts, labels, a.pc);
    StepBranch(a);
  }

  /** `JSR label` assembled at the PC saves the return address in R7 and
      goes to the label. */
  lemma SubroutineToLabel(a: Arch, ts: seq<string>, labels: Labels)
    requires FullMemory(a) && ts != [] && -1024 <= PcOffset(labels, Tok(ts, 1), a.pc) < 1024
    requires a.mem[a.pc] == InstructionFormat.Expected(JSR, ts, labels, a.pc)
    ensures Step(a) == a.(r := a.r[7 := Wrap(a.pc + 1)], pc := Lookup(labels, Tok(ts, 1)))
  {
    SubroutineWord(ts, labels, a.pc);
    StepSubroutine(a);
  }

  /** `LEA Rd, label` assembled at the PC puts the label's address in Rd
      and leaves the condition code alone. */
  lemma AddressOfLabel(a: Arch, ts: seq<string>, labels: Labels)
    requires FullMemory(a) && ts != [] && NearLabel(labels, Tok(ts, 2), a.pc)
    requires a.mem[a.pc] == InstructionFormat.Expected(LEA, ts, labels, a.pc)
    ensures Step(a) == a.(pc := Wrap(a.pc + 1), r := a.r[InstructionFormat.Reg(Tok(ts, 1)) := Lookup(labels, Tok(ts, 2))])
  {
    PcRelativeWord(LEA, ts, labels, a.pc);
    StepLea(a);
  }

  /** `LD Rd, label` assembled at the PC loads the word at the label into Rd
      and sets the condition code from it. */
  lemma LoadFromLabel(a: Arch, ts: seq<string>, labels: Labels)
    requires FullMemory(a) && ts != [] && NearLabel(labels, Tok(ts, 2), a.pc)
    requires a.mem[a.pc] == InstructionFormat.Expected(LD, ts, labels, a.pc)
    ensures Step(a) == Write(a.(pc := Wrap(a.pc + 1)), InstructionFormat.Reg(Tok(ts, 1)), a.mem[Lookup(labels, Tok(ts, 2))])
  {
    PcRelativeWord(LD, ts, labels, a.pc);
    LoadThrough(a, InstructionFormat.Reg(Tok(ts, 1)), Lookup(labels, Tok(ts, 2)));
  }

  /** A load word with destination `d` whose offset leads to `target`. */
  lemma LoadThrough(a: Arch, d: int, target: int)
    requires FullMemory(a) && Opcode(a.mem[a.pc]) == 2 && Dr(a.mem[a.pc]) == d
    requires Wrap(Wrap(a.pc + 1) + Offset9(a.mem[a.pc])) == target
    ensures Step(a) == Write(a.(pc := Wrap(a.pc + 1)), d, a.mem[target])
  {
    StepLoad(a);
  }

  /** `ST Rs, label` assembled at the PC writes Rs to the label's cell. */
  lemma StoreToLabel(a: Arch, ts: seq<string>, labels: Labels)
    requires FullMemory(a) && ts != [] && NearLabel(labels, Tok(ts, 2), a.pc)
    requires a.mem[a.pc] == InstructionFormat.Expected(ST, ts, labels, a.pc)
    ensures Step(a) == a.(pc := Wrap(a.pc + 1), mem := a.mem[Lookup(labels, Tok(ts, 2)) := a.r[InstructionFormat.Reg(Tok(ts, 1))]])
  {
    PcRelativeWord(ST, ts, labels, a.pc);
    StepStore(a);
  }

  /** The word assembled for HALT is the one `isHalt` looks for: fetching it
      stops the sequencer. */
  lemma HaltIsRecognised(s: State, ts: seq<string>, labels: Labels)
    requires Complete(s) && ts != []
    requires s.mem[s.regs.pc] == InstructionFormat.Expected(HALT, ts, labels, s.regs.pc)
    ensures Halted(Fetched(s))
  {
  }

  /** The simulator's six phases take a `BR label` assembled at the PC to
      the label or past it, as the reference does. */
  lemma BranchCycle(s: State, ts: seq<string>, labels: Labels)
    requires Complete(s) && ts != [] && NearLabel(labels, Tok(ts, 1), s.regs.pc)
    requires s.mem[s.regs.pc] == InstructionFormat.Expected(BR, ts, labels, s.regs.pc)
    ensures var op := ts[0];
            var cc := s.regs.cc;
            var taken := ('n' in op && BitOf(cc, 2)) || ('z' in op && BitOf(cc, 1)) || ('p' in op && BitOf(cc, 0));
            Cycle(s).regs.pc == if taken then Lookup(labels, Tok(ts, 1)) else Wrap(s.regs.pc + 1)
  {
    CycleRefinesIsa(s);
    BranchToLabel(ArchOf(s), ts, labels);
  }
}
