/** The phases of lc3instructions.cpp, run in the order the sequencer runs
    them, execute the instruction set of `Isa`: the source's shift-and-mask
    field extraction and its OR-based sign extension give the two's-complement
    fields of the instruction, and one full cycle changes the registers, the
    PC, the condition code and the memory exactly as `Isa.Step` says. */
module Refinement {
  import opened Word16
  import opened Isa
  import opened Cpu

  /** The architectural part of a simulator state. */
  function ArchOf(s: State): Arch
  {
    Arch(s.regs.r, s.regs.pc, s.regs.cc, s.mem)
  }

  // ----- fields -----

  /** The shifts and masks of `decode` pick the LC-3 fields. */
  lemma FieldsAgree(ir: Word)
    ensures OpcodeBits(ir) == Opcode(ir)
    ensures High3(ir) == Dr(ir) && Mid3(ir) == Sr1(ir) && ir % 8 == Sr2(ir)
    ensures (ir / 0x20 % 2 != 0) == BitOf(ir, 5)
    ensures (ir / 0x800 % 2 != 0) == BitOf(ir, 11)
  {
    Pow2Values();
    assert Pow2(12) == 0x1000 && Pow2(0) == 1;
  }

  /** The OR with 0xFE00 in an `int16_t` is sign extension of the 9-bit
      field, so `offset9` lies in [-256, 255]. */
  lemma Extend9Agrees(ir: Word)
    ensures Extend9(ir) == Offset9(ir)
    ensures -256 <= Extend9(ir) < 256
  {
    Pow2Values();
    var x := ir % 0x200;
    if x >= 0x100 {
      DivModUnique(x + 0xFE00, 0x10000, 0, x + 0xFE00);
    }
  }

  /** `offset6` is the sign-extended 6-bit field, in [-32, 31]. */
  lemma Extend6Agrees(ir: Word)
    ensures Extend6(ir) == Offset6(ir)
    ensures -32 <= Extend6(ir) < 32
  {
    Pow2Values();
    var x := ir % 0x40;
    if x >= 0x20 {
      DivModUnique(x + 0xFFC0, 0x10000, 0, x + 0xFFC0);
    }
  }

  /** `offset11` is the sign-extended 11-bit field, in [-1024, 1023]. */
  lemma Extend11Agrees(ir: Word)
    ensures Extend11(ir) == Offset11(ir)
    ensures -1024 <= Extend11(ir) < 1024
  {
    Pow2Values();
    var x := ir % 0x800;
    if x >= 0x400 {
      DivModUnique(x + 0xF800, 0x10000, 0, x + 0xF800);
    }
  }

  /** `imm5` holds the 16-bit pattern of the sign-extended 5-bit field:
      read back as `int16_t` it is a value in [-16, 15]. */
  lemma Extend5Agrees(ir: Word)
    ensures ToInt16(Extend5(ir)) == Imm5(ir)
    ensures Extend5(ir) == Wrap(Imm5(ir))
    ensures -16 <= ToInt16(Extend5(ir)) < 16
  {
    Pow2Values();
    var x := ir % 0x20;
    if x >= 0x10 {
      DivModUnique(x + 0xFFE0, 0x10000, 0, x + 0xFFE0);
      DivModUnique(x - 0x20, 0x10000, -1, x + 0xFFE0);
    } else {
      DivModUnique(x, 0x10000, 0, x);
    }
  }

  /** `updateFlags` sets N, Z or P as the two's-complement reading of the
      value says. */
  lemma FlagsAgree(v: Word)
    ensures Flags(v) == ConditionCode(v)
  {
    DivModUnique(v, 0x10000, 0, v);
  }

  /** The three mask tests of `store` decide a branch as the n, z, p bits
      of the instruction and the condition code do. */
  lemma ConditionAgrees(ir: Word, cc: Word)
    ensures ConditionMet(High3(ir), cc) == Taken(ir, cc)
  {
    Pow2Values();
    assert Pow2(10) == 0x400 && Pow2(2) == 4 && Pow2(0) == 1;
    ConditionBits(ir);
  }

  /** Bits 2, 1 and 0 of `(ir >> 9) & 0x7` are bits 11, 10 and 9 of `ir`. */
  lemma ConditionBits(ir: Word)
    ensures High3(ir) / 4 % 2 == ir / 0x800 % 2
    ensures High3(ir) / 2 % 2 == ir / 0x400 % 2
    ensures High3(ir) % 2 == ir / 0x200 % 2
  {
    ConditionBitN(ir);
    ConditionBitZ(ir);
    ConditionBitP(ir);
  }

  lemma ConditionBitN(ir: Word)
    ensures High3(ir) / 4 % 2 == ir / 0x800 % 2
  {
    var x := ir / 0x200;
    var y := x % 8;
    var r := ir % 0x200;
    assert ir == 0x200 * x + r;
    DivModUnique(x, 4, 2 * (x / 8) + y / 4, y % 4);
    DivModUnique(ir, 0x800, x / 4, 0x200 * (y % 4) + r);
  }

  lemma ConditionBitZ(ir: Word)
    ensures High3(ir) / 2 % 2 == ir / 0x400 % 2
  {
    var x := ir / 0x200;
    var y := x % 8;
    var r := ir % 0x200;
    assert ir == 0x200 * x + r;
    DivModUnique(x, 2, 4 * (x / 8) + y / 2, y % 2);
    DivModUnique(ir, 0x400, x / 2, 0x200 * (y % 2) + r);
    DivModUnique(x / 2, 2, 2 * (x / 8) + y / 4, y / 2 % 2);
  }

  lemma ConditionBitP(ir: Word)
    ensures High3(ir) % 2 == ir / 0x200 % 2
  {
    var x := ir / 0x200;
    var y := x % 8;
    DivModUnique(x, 2, 4 * (x / 8) + y / 2, y % 2);
  }

  // ----- one instruction -----
  //
  // For each opcode group: what `fetch` and `decode` leave in the latches,
  // stated in the terms the later phases read them in; what address
  // evaluation, operand fetch and execution make of those latches; what
  // `store` writes; and, composed, the architectural state after the six
  // phases, which the matching lemma about `Isa.Step` gives as well.

  /** `fetch` then `decode` on an ADD or AND word. */
  lemma DecodedOperate(s: State)
    requires Complete(s) && (Opcode(s.mem[s.regs.pc]) == 1 || Opcode(s.mem[s.regs.pc]) == 5)
    ensures var a := ArchOf(s);
            var w := a.mem[a.pc];
            var t := Decoded(Fetched(s));
            var src2 := if BitOf(w, 5) then Imm5(w) else a.r[Sr2(w)];
            && Complete(t) && t.latch.opcode == Opcode(w) && OpcodeBits(t.regs.ir) == Opcode(w)
            && ArchOf(t) == a.(pc := Wrap(a.pc + 1)) && t.latch.dr == Dr(w)
            && t.regs.r[t.latch.sr1] == a.r[Sr1(w)]
            && (if t.latch.immFlag != 0 then ToInt16(t.latch.imm5) else t.regs.r[t.latch.sr2]) == src2
  {
    var w := s.mem[s.regs.pc];
    FieldsAgree(w);
    Extend5Agrees(w);
  }

  /** The second AND operand, as `execute` forms it, is the 16-bit pattern
      of the reference's second operand. */
  lemma DecodedAnd(s: State)
    requires Complete(s) && Opcode(s.mem[s.regs.pc]) == 5
    ensures var a := ArchOf(s);
            var w := a.mem[a.pc];
            var t := Decoded(Fetched(s));
            var src2 := if BitOf(w, 5) then Imm5(w) else a.r[Sr2(w)];
            (if t.latch.immFlag != 0 then Wrap(ToInt16(t.latch.imm5)) else t.regs.r[t.latch.sr2]) == Wrap(src2)
  {
    DecodedOperate(s);
    var w := s.mem[s.regs.pc];
    var v := s.regs.r[Sr2(w)];
    DivModUnique(v, 0x10000, 0, v);
  }

  /** `fetch` then `decode` on a NOT word. */
  lemma DecodedNot(s: State)
    requires Complete(s) && Opcode(s.mem[s.regs.pc]) == 9
    ensures var a := ArchOf(s);
            var w := a.mem[a.pc];
            var t := Decoded(Fetched(s));
            && Complete(t) && t.latch.opcode == 9 && OpcodeBits(t.regs.ir) == 9
            && ArchOf(t) == a.(pc := Wrap(a.pc + 1)) && t.latch.dr == Dr(w)
            && t.regs.r[t.latch.sr] == a.r[Sr1(w)]
  {
    FieldsAgree(s.mem[s.regs.pc]);
  }

  /** `fetch` then `decode` on a BR word: the condition bits and the
      PC-relative target. */
  lemma DecodedBranch(s: State)
    requires Complete(s) && Opcode(s.mem[s.regs.pc]) == 0
    ensures var a := ArchOf(s);
            var w := a.mem[a.pc];
            var t := Decoded(Fetched(s));
            && Complete(t) && t.latch.opcode == 0 && OpcodeBits(t.regs.ir) == 0
            && ArchOf(t) == a.(pc := Wrap(a.pc + 1))
            && Wrap(t.regs.pc + t.latch.offset9) == Wrap(Wrap(a.pc + 1) + Offset9(w))
            && t.latch.nzp == High3(w)
  {
    var w := s.mem[s.regs.pc];
    FieldsAgree(w);
    Extend9Agrees(w);
  }

  /** `fetch` then `decode` on an LD, ST, LDI, STI or LEA word: the
      PC-relative address and the register. */
  lemma DecodedNear(s: State)
    requires Complete(s)
    requires var op := Opcode(s.mem[s.regs.pc]);
             op == 2 || op == 3 || op == 0xA || op == 0xB || op == 0xE
    ensures var a := ArchOf(s);
            var w := a.mem[a.pc];
            var t := Decoded(Fetched(s));
            && Complete(t) && t.latch.opcode == Opcode(w) && OpcodeBits(t.regs.ir) == Opcode(w)
            && ArchOf(t) == a.(pc := Wrap(a.pc + 1))
            && Wrap(t.regs.pc + t.latch.offset9) == Wrap(Wrap(a.pc + 1) + Offset9(w))
            && t.latch.dr == Dr(w) && t.regs.r[t.latch.dr] == a.r[Dr(w)]
  {
    var w := s.mem[s.regs.pc];
    FieldsAgree(w);
    Extend9Agrees(w);
  }

  /** `fetch` then `decode` on an LDR or STR word: the base-relative address
      and the register. */
  lemma DecodedBased(s: State)
    requires Complete(s) && (Opcode(s.mem[s.regs.pc]) == 6 || Opcode(s.mem[s.regs.pc]) == 7)
    ensures var a := ArchOf(s);
            var w := a.mem[a.pc];
            var t := Decoded(Fetched(s));
            && Complete(t) && t.latch.opcode == Opcode(w) && OpcodeBits(t.regs.ir) == Opcode(w)
            && ArchOf(t) == a.(pc := Wrap(a.pc + 1))
            && Wrap(t.regs.r[t.latch.baseR] + t.latch.offset6) == Wrap(a.r[Sr1(w)] + Offset6(w))
            && t.latch.dr == Dr(w) && t.regs.r[t.latch.dr] == a.r[Dr(w)]
  {
    var w := s.mem[s.regs.pc];
    FieldsAgree(w);
    Extend6Agrees(w);
  }

  /** `fetch` then `decode` on a JSR or JSRR word. */
  lemma DecodedJsr(s: State)
    requires Complete(s) && Opcode(s.mem[s.regs.pc]) == 4
    ensures var a := ArchOf(s);
            var w := a.mem[a.pc];
            var t := Decoded(Fetched(s));
            && Complete(t) && t.latch.opcode == 4 && OpcodeBits(t.regs.ir) == 4
            && ArchOf(t) == a.(pc := Wrap(a.pc + 1))
            && (if t.latch.flag != 0 then Wrap(t.regs.pc + t.latch.offset11) else t.regs.r[t.latch.baseR]) ==
               (if BitOf(w, 11) then Wrap(Wrap(a.pc + 1) + Offset11(w)) else a.r[Sr1(w)])
  {
    var w := s.mem[s.regs.pc];
    FieldsAgree(w);
    Extend11Agrees(w);
  }

  /** `fetch` then `decode` on a JMP or RET word. */
  lemma DecodedJmp(s: State)
    requires Complete(s) && Opcode(s.mem[s.regs.pc]) == 0xC
    ensures var a := ArchOf(s);
            var w := a.mem[a.pc];
            var t := Decoded(Fetched(s));
            && Complete(t) && t.latch.opcode == 0xC && OpcodeBits(t.regs.ir) == 0xC
            && ArchOf(t) == a.(pc := Wrap(a.pc + 1))
            && (if Mid3(t.regs.ir) == 7 then t.regs.r[7] else t.regs.r[t.latch.baseR]) == a.r[Sr1(w)]
  {
    FieldsAgree(s.mem[s.regs.pc]);
  }

  /** `fetch` then `decode` on an RTI, reserved or TRAP word. */
  lemma DecodedOther(s: State)
    requires Complete(s)
    requires var op := Opcode(s.mem[s.regs.pc]); op == 8 || op == 0xD || op == 0xF
    ensures var a := ArchOf(s);
            var w := a.mem[a.pc];
            var t := Decoded(Fetched(s));
            && Complete(t) && t.latch.opcode == Opcode(w) && OpcodeBits(t.regs.ir) == Opcode(w)
            && ArchOf(t) == a.(pc := Wrap(a.pc + 1))
  {
    FieldsAgree(s.mem[s.regs.pc]);
  }

  // Address evaluation, operand fetch and execution, on decoded latches.

  lemma ExecutedAdd(t: State)
    requires Complete(t) && t.latch.opcode == 1 && OpcodeBits(t.regs.ir) == 1
    ensures var u := Executed(OperandsFetched(AddressEvaluated(t)));
            var r := t.regs.r;
            && Complete(u) && ArchOf(u) == ArchOf(t) && u.latch.dr == t.latch.dr && u.latch.opcode == 1
            && u.latch.gateAlu == Wrap(r[t.latch.sr1] + if t.latch.immFlag != 0 then ToInt16(t.latch.imm5) else r[t.latch.sr2])
  {
  }

  lemma ExecutedAnd(t: State)
    requires Complete(t) && t.latch.opcode == 5 && OpcodeBits(t.regs.ir) == 5
    ensures var u := Executed(OperandsFetched(AddressEvaluated(t)));
            var r := t.regs.r;
            && Complete(u) && ArchOf(u) == ArchOf(t) && u.latch.dr == t.latch.dr && u.latch.opcode == 5
            && u.latch.gateAlu == And(r[t.latch.sr1], if t.latch.immFlag != 0 then Wrap(ToInt16(t.latch.imm5)) else r[t.latch.sr2])
  {
  }

  lemma ExecutedNot(t: State)
    requires Complete(t) && t.latch.opcode == 9 && OpcodeBits(t.regs.ir) == 9
    ensures var u := Executed(OperandsFetched(AddressEvaluated(t)));
            && Complete(u) && ArchOf(u) == ArchOf(t) && u.latch.dr == t.latch.dr && u.latch.opcode == 9
            && u.latch.gateAlu == Not(t.regs.r[t.latch.sr])
  {
  }

  lemma ExecutedLoad(t: State)
    requires Complete(t) && t.latch.opcode == 2 && OpcodeBits(t.regs.ir) == 2
    ensures var u := Executed(OperandsFetched(AddressEvaluated(t)));
            && Complete(u) && ArchOf(u) == ArchOf(t) && u.latch.dr == t.latch.dr && u.latch.opcode == 2
            && u.regs.mdr == t.mem[Wrap(t.regs.pc + t.latch.offset9)]
  {
  }

  lemma ExecutedLoadIndirect(t: State)
    requires Complete(t) && t.latch.opcode == 0xA && OpcodeBits(t.regs.ir) == 0xA
    ensures var u := Executed(OperandsFetched(AddressEvaluated(t)));
            && Complete(u) && ArchOf(u) == ArchOf(t) && u.latch.dr == t.latch.dr && u.latch.opcode == 0xA
            && u.regs.mdr == t.mem[t.mem[Wrap(t.regs.pc + t.latch.offset9)]]
  {
  }

  lemma ExecutedLoadBased(t: State)
    requires Complete(t) && t.latch.opcode == 6 && OpcodeBits(t.regs.ir) == 6
    ensures var u := Executed(OperandsFetched(AddressEvaluated(t)));
            && Complete(u) && ArchOf(u) == ArchOf(t) && u.latch.dr == t.latch.dr && u.latch.opcode == 6
            && u.regs.mdr == t.mem[Wrap(t.regs.r[t.latch.baseR] + t.latch.offset6)]
  {
  }

  lemma ExecutedStore(t: State)
    requires Complete(t) && (t.latch.opcode == 3 || t.latch.opcode == 0xB) && OpcodeBits(t.regs.ir) == t.latch.opcode
    ensures var u := Executed(OperandsFetched(AddressEvaluated(t)));
            && Complete(u) && ArchOf(u) == ArchOf(t) && u.latch.opcode == t.latch.opcode
            && u.latch.address == Wrap(t.regs.pc + t.latch.offset9) && u.latch.value == t.regs.r[t.latch.dr]
  {
  }

  lemma ExecutedStoreBased(t: State)
    requires Complete(t) && t.latch.opcode == 7 && OpcodeBits(t.regs.ir) == 7
    ensures var u := Executed(OperandsFetched(AddressEvaluated(t)));
            && Complete(u) && ArchOf(u) == ArchOf(t) && u.latch.opcode == 7
            && u.latch.address == Wrap(t.regs.r[t.latch.baseR] + t.latch.offset6) && u.latch.value == t.regs.r[t.latch.dr]
  {
  }

  lemma ExecutedNear(t: State)
    requires Complete(t) && (t.latch.opcode == 0 || t.latch.opcode == 0xE) && OpcodeBits(t.regs.ir) == t.latch.opcode
    ensures var u := Executed(OperandsFetched(AddressEvaluated(t)));
            && Complete(u) && ArchOf(u) == ArchOf(t) && u.latch.opcode == t.latch.opcode
            && u.latch.nzp == t.latch.nzp && u.latch.dr == t.latch.dr
            && u.latch.address == Wrap(t.regs.pc + t.latch.offset9)
  {
  }

  lemma ExecutedJsr(t: State)
    requires Complete(t) && t.latch.opcode == 4 && OpcodeBits(t.regs.ir) == 4
    ensures var u := Executed(OperandsFetched(AddressEvaluated(t)));
            && Complete(u) && ArchOf(u) == ArchOf(t) && u.latch.opcode == 4
            && u.latch.address == if t.latch.flag != 0 then Wrap(t.regs.pc + t.latch.offset11) else t.regs.r[t.latch.baseR]
  {
  }

  lemma ExecutedJmp(t: State)
    requires Complete(t) && t.latch.opcode == 0xC && OpcodeBits(t.regs.ir) == 0xC
    ensures var u := Executed(OperandsFetched(AddressEvaluated(t)));
            && Complete(u) && ArchOf(u) == ArchOf(t) && u.latch.opcode == 0xC
            && u.latch.address == if Mid3(t.regs.ir) == 7 then t.regs.r[7] else t.regs.r[t.latch.baseR]
  {
  }

  /** For RTI, the reserved opcode and TRAP the last four phases change
      nothing architectural. */
  lemma ExecutedOther(t: State)
    requires Complete(t) && (t.latch.opcode == 8 || t.latch.opcode == 0xD || t.latch.opcode == 0xF)
    requires OpcodeBits(t.regs.ir) == t.latch.opcode
    ensures ArchOf(Stored(Executed(OperandsFetched(AddressEvaluated(t))))) == ArchOf(t)
  {
  }

  // What `store` does, by opcode group.

  /** `store` for ADD, AND and NOT writes the ALU result and its flags. */
  lemma StoredOperate(t: State)
    requires Complete(t) && (t.latch.opcode == 1 || t.latch.opcode == 5 || t.latch.opcode == 9)
    ensures ArchOf(Stored(t)) == Write(ArchOf(t), t.latch.dr, t.latch.gateAlu)
  {
    FlagsAgree(t.latch.gateAlu);
  }

  /** `store` for LD, LDI and LDR writes MDR and its flags. */
  lemma StoredLoad(t: State)
    requires Complete(t) && (t.latch.opcode == 2 || t.latch.opcode == 0xA || t.latch.opcode == 6)
    ensures ArchOf(Stored(t)) == Write(ArchOf(t), t.latch.dr, t.regs.mdr)
  {
    FlagsAgree(t.regs.mdr);
  }

  lemma StoredStore(t: State)
    requires Complete(t) && (t.latch.opcode == 3 || t.latch.opcode == 7)
    ensures ArchOf(Stored(t)) == ArchOf(t).(mem := t.mem[t.latch.address := t.latch.value])
  {
  }

  lemma StoredStoreIndirect(t: State)
    requires Complete(t) && t.latch.opcode == 0xB
    ensures ArchOf(Stored(t)) == ArchOf(t).(mem := t.mem[t.mem[t.latch.address] := t.latch.value])
  {
  }

  lemma StoredBranch(t: State)
    requires Complete(t) && t.latch.opcode == 0
    ensures ArchOf(Stored(t)) == ArchOf(t).(pc := if ConditionMet(t.latch.nzp, t.regs.cc) then t.latch.address else t.regs.pc)
  {
  }

  lemma StoredJump(t: State)
    requires Complete(t) && (t.latch.opcode == 4 || t.latch.opcode == 0xC)
    ensures ArchOf(Stored(t)) ==
            ArchOf(t).(r := if t.latch.opcode == 4 then t.regs.r[7 := t.regs.pc] else t.regs.r, pc := t.latch.address)
  {
  }

  lemma StoredLea(t: State)
    requires Complete(t) && t.latch.opcode == 0xE
    ensures ArchOf(Stored(t)) == ArchOf(t).(r := t.regs.r[t.latch.dr := t.latch.address])
  {
  }

  // The six phases, composed, by opcode.

  lemma PhasesAdd(s: State)
    requires Complete(s) && Opcode(s.mem[s.regs.pc]) == 1
    ensures var a := ArchOf(s);
            var w := a.mem[a.pc];
            var src2 := if BitOf(w, 5) then Imm5(w) else a.r[Sr2(w)];
            ArchOf(Cycle(s)) == Write(a.(pc := Wrap(a.pc + 1)), Dr(w), Wrap(a.r[Sr1(w)] + src2))
  {
    DecodedOperate(s);
    var t := Decoded(Fetched(s));
    ExecutedAdd(t);
    StoredOperate(Executed(OperandsFetched(AddressEvaluated(t))));
  }

  lemma PhasesAnd(s: State)
    requires Complete(s) && Opcode(s.mem[s.regs.pc]) == 5
    ensures var a := ArchOf(s);
            var w := a.mem[a.pc];
            var src2 := if BitOf(w, 5) then Imm5(w) else a.r[Sr2(w)];
            ArchOf(Cycle(s)) == Write(a.(pc := Wrap(a.pc + 1)), Dr(w), And(a.r[Sr1(w)], Wrap(src2)))
  {
    DecodedOperate(s);
    DecodedAnd(s);
    var t := Decoded(Fetched(s));
    ExecutedAnd(t);
    StoredOperate(Executed(OperandsFetched(AddressEvaluated(t))));
  }

  lemma PhasesNot(s: State)
    requires Complete(s) && Opcode(s.mem[s.regs.pc]) == 9
    ensures var a := ArchOf(s);
            var w := a.mem[a.pc];
            ArchOf(Cycle(s)) == Write(a.(pc := Wrap(a.pc + 1)), Dr(w), Not(a.r[Sr1(w)]))
  {
    DecodedNot(s);
    var t := Decoded(Fetched(s));
    ExecutedNot(t);
    StoredOperate(Executed(OperandsFetched(AddressEvaluated(t))));
  }

  lemma PhasesLoad(s: State)
    requires Complete(s) && Opcode(s.mem[s.regs.pc]) == 2
    ensures var a := ArchOf(s);
            var w := a.mem[a.pc];
            var near := Wrap(Wrap(a.pc + 1) + Offset9(w));
            ArchOf(Cycle(s)) == Write(a.(pc := Wrap(a.pc + 1)), Dr(w), a.mem[near])
  {
    DecodedNear(s);
    var t := Decoded(Fetched(s));
    ExecutedLoad(t);
    StoredLoad(Executed(OperandsFetched(AddressEvaluated(t))));
  }

  lemma PhasesLoadIndirect(s: State)
    requires Complete(s) && Opcode(s.mem[s.regs.pc]) == 0xA
    ensures var a := ArchOf(s);
            var w := a.mem[a.pc];
            var near := Wrap(Wrap(a.pc + 1) + Offset9(w));
            ArchOf(Cycle(s)) == Write(a.(pc := Wrap(a.pc + 1)), Dr(w), a.mem[a.mem[near]])
  {
    DecodedNear(s);
    var t := Decoded(Fetched(s));
    ExecutedLoadIndirect(t);
    StoredLoad(Executed(OperandsFetched(AddressEvaluated(t))));
  }

  lemma PhasesLoadBased(s: State)
    requires Complete(s) && Opcode(s.mem[s.regs.pc]) == 6
    ensures var a := ArchOf(s);
            var w := a.mem[a.pc];
            var based := Wrap(a.r[Sr1(w)] + Offset6(w));
            ArchOf(Cycle(s)) == Write(a.(pc := Wrap(a.pc + 1)), Dr(w), a.mem[based])
  {
    DecodedBased(s);
    var t := Decoded(Fetched(s));
    ExecutedLoadBased(t);
    StoredLoad(Executed(OperandsFetched(AddressEvaluated(t))));
  }

  lemma PhasesStore(s: State)
    requires Complete(s) && Opcode(s.mem[s.regs.pc]) == 3
    ensures var a := ArchOf(s);
            var w := a.mem[a.pc];
            var near := Wrap(Wrap(a.pc + 1) + Offset9(w));
            ArchOf(Cycle(s)) == a.(pc := Wrap(a.pc + 1), mem := a.mem[near := a.r[Dr(w)]])
  {
    DecodedNear(s);
    var t := Decoded(Fetched(s));
    ExecutedStore(t);
    StoredStore(Executed(OperandsFetched(AddressEvaluated(t))));
  }

  lemma PhasesStoreIndirect(s: State)
    requires Complete(s) && Opcode(s.mem[s.regs.pc]) == 0xB
    ensures var a := ArchOf(s);
            var w := a.mem[a.pc];
            var near := Wrap(Wrap(a.pc + 1) + Offset9(w));
            ArchOf(Cycle(s)) == a.(pc := Wrap(a.pc + 1), mem := a.mem[a.mem[near] := a.r[Dr(w)]])
  {
    DecodedNear(s);
    var t := Decoded(Fetched(s));
    ExecutedStore(t);
    StoredStoreIndirect(Executed(OperandsFetched(AddressEvaluated(t))));
  }

  lemma PhasesStoreBased(s: State)
    requires Complete(s) && Opcode(s.mem[s.regs.pc]) == 7
    ensures var a := ArchOf(s);
            var w := a.mem[a.pc];
            var based := Wrap(a.r[Sr1(w)] + Offset6(w));
            ArchOf(Cycle(s)) == a.(pc := Wrap(a.pc + 1), mem := a.mem[based := a.r[Dr(w)]])
  {
    DecodedBased(s);
    var t := Decoded(Fetched(s));
    ExecutedStoreBased(t);
    StoredStore(Executed(OperandsFetched(AddressEvaluated(t))));
  }

  lemma PhasesBranch(s: State)
    requires Complete(s) && Opcode(s.mem[s.regs.pc]) == 0
    ensures var a := ArchOf(s);
            var w := a.mem[a.pc];
            var near := Wrap(Wrap(a.pc + 1) + Offset9(w));
            ArchOf(Cycle(s)) == a.(pc := if Taken(w, a.cc) then near else Wrap(a.pc + 1))
  {
    DecodedBranch(s);
    var t := Decoded(Fetched(s));
    ExecutedNear(t);
    ConditionAgrees(s.mem[s.regs.pc], s.regs.cc);
    StoredBranch(Executed(OperandsFetched(AddressEvaluated(t))));
  }

  lemma PhasesJsr(s: State)
    requires Complete(s) && Opcode(s.mem[s.regs.pc]) == 4
    ensures var a := ArchOf(s);
            var w := a.mem[a.pc];
            var pc := Wrap(a.pc + 1);
            ArchOf(Cycle(s)) == a.(r := a.r[7 := pc], pc := if BitOf(w, 11) then Wrap(pc + Offset11(w)) else a.r[Sr1(w)])
  {
    DecodedJsr(s);
    var t := Decoded(Fetched(s));
    ExecutedJsr(t);
    StoredJump(Executed(OperandsFetched(AddressEvaluated(t))));
  }

  lemma PhasesJmp(s: State)
    requires Complete(s) && Opcode(s.mem[s.regs.pc]) == 0xC
    ensures var a := ArchOf(s);
            ArchOf(Cycle(s)) == a.(pc := a.r[Sr1(a.mem[a.pc])])
  {
    DecodedJmp(s);
    var t := Decoded(Fetched(s));
    ExecutedJmp(t);
    StoredJump(Executed(OperandsFetched(AddressEvaluated(t))));
  }

  lemma PhasesLea(s: State)
    requires Complete(s) && Opcode(s.mem[s.regs.pc]) == 0xE
    ensures var a := ArchOf(s);
            var w := a.mem[a.pc];
            var near := Wrap(Wrap(a.pc + 1) + Offset9(w));
            ArchOf(Cycle(s)) == a.(pc := Wrap(a.pc + 1), r := a.r[Dr(w) := near])
  {
    DecodedNear(s);
    var t := Decoded(Fetched(s));
    ExecutedNear(t);
    StoredLea(Executed(OperandsFetched(AddressEvaluated(t))));
  }

  lemma PhasesOther(s: State)
    requires Complete(s)
    requires var op := Opcode(s.mem[s.regs.pc]); op == 8 || op == 0xD || op == 0xF
    ensures var a := ArchOf(s);
            ArchOf(Cycle(s)) == a.(pc := Wrap(a.pc + 1))
  {
    DecodedOther(s);
    ExecutedOther(Decoded(Fetched(s)));
  }

  // One cycle against one reference step, by opcode.

  lemma CycleBranch(s: State)
    requires Complete(s) && Opcode(s.mem[s.regs.pc]) == 0
    ensures ArchOf(Cycle(s)) == Step(ArchOf(s))
  {
    PhasesBranch(s);
    StepBranch(s);
  }

  lemma CycleAdd(s: State)
    requires Complete(s) && Opcode(s.mem[s.regs.pc]) == 1
    ensures ArchOf(Cycle(s)) == Step(ArchOf(s))
  {
    PhasesAdd(s);
    StepAdd(s);
  }

  lemma CycleLoad(s: State)
    requires Complete(s) && Opcode(s.mem[s.regs.pc]) == 2
    ensures ArchOf(Cycle(s)) == Step(ArchOf(s))
  {
    PhasesLoad(s);
    StepLoad(s);
  }

  lemma CycleStore(s: State)
    requires Complete(s) && Opcode(s.mem[s.regs.pc]) == 3
    ensures ArchOf(Cycle(s)) == Step(ArchOf(s))
  {
    PhasesStore(s);
    StepStore(s);
  }

  lemma CycleJsr(s: State)
    requires Complete(s) && Opcode(s.mem[s.regs.pc]) == 4
    ensures ArchOf(Cycle(s)) == Step(ArchOf(s))
  {
    PhasesJsr(s);
    StepJsr(s);
  }

  lemma CycleAnd(s: State)
    requires Complete(s) && Opcode(s.mem[s.regs.pc]) == 5
    ensures ArchOf(Cycle(s)) == Step(ArchOf(s))
  {
    PhasesAnd(s);
    StepAnd(s);
  }

  lemma CycleLoadBased(s: State)
    requires Complete(s) && Opcode(s.mem[s.regs.pc]) == 6
    ensures ArchOf(Cycle(s)) == Step(ArchOf(s))
  {
    PhasesLoadBased(s);
    StepLoadBased(s);
  }

  lemma CycleStoreBased(s: State)
    requires Complete(s) && Opcode(s.mem[s.regs.pc]) == 7
    ensures ArchOf(Cycle(s)) == Step(ArchOf(s))
  {
    PhasesStoreBased(s);
    StepStoreBased(s);
  }

  lemma CycleNot(s: State)
    requires Complete(s) && Opcode(s.mem[s.regs.pc]) == 9
    ensures ArchOf(Cycle(s)) == Step(ArchOf(s))
  {
    PhasesNot(s);
    StepNot(s);
  }

  lemma CycleLoadIndirect(s: State)
    requires Complete(s) && Opcode(s.mem[s.regs.pc]) == 0xA
    ensures ArchOf(Cycle(s)) == Step(ArchOf(s))
  {
    PhasesLoadIndirect(s);
    StepLoadIndirect(s);
  }

  lemma CycleStoreIndirect(s: State)
    requires Complete(s) && Opcode(s.mem[s.regs.pc]) == 0xB
    ensures ArchOf(Cycle(s)) == Step(ArchOf(s))
  {
    PhasesStoreIndirect(s);
    StepStoreIndirect(s);
  }

  lemma CycleJmp(s: State)
    requires Complete(s) && Opcode(s.mem[s.regs.pc]) == 0xC
    ensures ArchOf(Cycle(s)) == Step(ArchOf(s))
  {
    PhasesJmp(s);
    StepJmp(s);
  }

  lemma CycleLea(s: State)
    requires Complete(s) && Opcode(s.mem[s.regs.pc]) == 0xE
    ensures ArchOf(Cycle(s)) == Step(ArchOf(s))
  {
    PhasesLea(s);
    StepLea(s);
  }

  lemma CycleOther(s: State)
    requires Complete(s)
    requires var op := Opcode(s.mem[s.regs.pc]); op == 8 || op == 0xD || op == 0xF
    ensures ArchOf(Cycle(s)) == Step(ArchOf(s))
  {
    PhasesOther(s);
    StepOther(s);
  }

  /** One full cycle of the six phases executes the instruction at the PC:
      registers, PC, condition code and memory end up as `Isa.Step` says. */
  lemma CycleRefinesIsa(s: State)
    requires Complete(s)
    ensures ArchOf(Cycle(s)) == Step(ArchOf(s))
  {
    var op := Opcode(s.mem[s.regs.pc]);
    assert op < 16 by { Pow2Values(); }
    if op == 0 { CycleBranch(s); }
    else if op == 1 { CycleAdd(s); }
    else if op == 2 { CycleLoad(s); }
    else if op == 3 { CycleStore(s); }
    else if op == 4 { CycleJsr(s); }
    else if op == 5 { CycleAnd(s); }
    else if op == 6 { CycleLoadBased(s); }
    else if op == 7 { CycleStoreBased(s); }
    else if op == 9 { CycleNot(s); }
    else if op == 0xA { CycleLoadIndirect(s); }
    else if op == 0xB { CycleStoreIndirect(s); }
    else if op == 0xC { CycleJmp(s); }
    else if op == 0xE { CycleLea(s); }
    else { CycleOther(s); }
  }

  // ----- the reference, one opcode at a time -----

  lemma StepAdd(s: State)
    requires Complete(s) && Opcode(s.mem[s.regs.pc]) == 1
    ensures var a := ArchOf(s);
            var w := a.mem[a.pc];
            var src2 := if BitOf(w, 5) then Imm5(w) else a.r[Sr2(w)];
            Step(a) == Write(a.(pc := Wrap(a.pc + 1)), Dr(w), Wrap(a.r[Sr1(w)] + src2))
  {
  }

  lemma StepAnd(s: State)
    requires Complete(s) && Opcode(s.mem[s.regs.pc]) == 5
    ensures var a := ArchOf(s);
            var w := a.mem[a.pc];
            var src2 := if BitOf(w, 5) then Imm5(w) else a.r[Sr2(w)];
            Step(a) == Write(a.(pc := Wrap(a.pc + 1)), Dr(w), And(a.r[Sr1(w)], Wrap(src2)))
  {
  }

  lemma StepNot(s: State)
    requires Complete(s) && Opcode(s.mem[s.regs.pc]) == 9
    ensures var a := ArchOf(s);
            var w := a.mem[a.pc];
            Step(a) == Write(a.(pc := Wrap(a.pc + 1)), Dr(w), Not(a.r[Sr1(w)]))
  {
  }

  lemma StepLoad(s: State)
    requires Complete(s) && Opcode(s.mem[s.regs.pc]) == 2
    ensures var a := ArchOf(s);
            var w := a.mem[a.pc];
            var near := Wrap(Wrap(a.pc + 1) + Offset9(w));
            Step(a) == Write(a.(pc := Wrap(a.pc + 1)), Dr(w), a.mem[near])
  {
  }

  lemma StepLoadIndirect(s: State)
    requires Complete(s) && Opcode(s.mem[s.regs.pc]) == 0xA
    ensures var a := ArchOf(s);
            var w := a.mem[a.pc];
            var near := Wrap(Wrap(a.pc + 1) + Offset9(w));
            Step(a) == Write(a.(pc := Wrap(a.pc + 1)), Dr(w), a.mem[a.mem[near]])
  {
  }

  lemma StepLoadBased(s: State)
    requires Complete(s) && Opcode(s.mem[s.regs.pc]) == 6
    ensures var a := ArchOf(s);
            var w := a.mem[a.pc];
            var based := Wrap(a.r[Sr1(w)] + Offset6(w));
            Step(a) == Write(a.(pc := Wrap(a.pc + 1)), Dr(w), a.mem[based])
  {
  }

  lemma StepStore(s: State)
    requires Complete(s) && Opcode(s.mem[s.regs.pc]) == 3
    ensures var a := ArchOf(s);
            var w := a.mem[a.pc];
            var near := Wrap(Wrap(a.pc + 1) + Offset9(w));
            Step(a) == a.(pc := Wrap(a.pc + 1), mem := a.mem[near := a.r[Dr(w)]])
  {
  }

  lemma StepStoreIndirect(s: State)
    requires Complete(s) && Opcode(s.mem[s.regs.pc]) == 0xB
    ensures var a := ArchOf(s);
            var w := a.mem[a.pc];
            var near := Wrap(Wrap(a.pc + 1) + Offset9(w));
            Step(a) == a.(pc := Wrap(a.pc + 1), mem := a.mem[a.mem[near] := a.r[Dr(w)]])
  {
  }

  lemma StepStoreBased(s: State)
    requires Complete(s) && Opcode(s.mem[s.regs.pc]) == 7
    ensures var a := ArchOf(s);
            var w := a.mem[a.pc];
            var based := Wrap(a.r[Sr1(w)] + Offset6(w));
            Step(a) == a.(pc := Wrap(a.pc + 1), mem := a.mem[based := a.r[Dr(w)]])
  {
  }

  lemma StepBranch(s: State)
    requires Complete(s) && Opcode(s.mem[s.regs.pc]) == 0
    ensures var a := ArchOf(s);
            var w := a.mem[a.pc];
            var near := Wrap(Wrap(a.pc + 1) + Offset9(w));
            Step(a) == a.(pc := if Taken(w, a.cc) then near else Wrap(a.pc + 1))
  {
  }

  lemma StepJsr(s: State)
    requires Complete(s) && Opcode(s.mem[s.regs.pc]) == 4
    ensures var a := ArchOf(s);
            var w := a.mem[a.pc];
            var pc := Wrap(a.pc + 1);
            Step(a) == a.(r := a.r[7 := pc], pc := if BitOf(w, 11) then Wrap(pc + Offset11(w)) else a.r[Sr1(w)])
  {
  }

  lemma StepJmp(s: State)
    requires Complete(s) && Opcode(s.mem[s.regs.pc]) == 0xC
    ensures var a := ArchOf(s);
            Step(a) == a.(pc := a.r[Sr1(a.mem[a.pc])])
  {
  }

  lemma StepLea(s: State)
    requires Complete(s) && Opcode(s.mem[s.regs.pc]) == 0xE
    ensures var a := ArchOf(s);
            var w := a.mem[a.pc];
            var near := Wrap(Wrap(a.pc + 1) + Offset9(w));
            Step(a) == a.(pc := Wrap(a.pc + 1), r := a.r[Dr(w) := near])
  {
  }

  lemma StepOther(s: State)
    requires Complete(s)
    requires var op := Opcode(s.mem[s.regs.pc]); op == 8 || op == 0xD || op == 0xF
    ensures var a := ArchOf(s);
            Step(a) == a.(pc := Wrap(a.pc + 1))
  {
  }
}
