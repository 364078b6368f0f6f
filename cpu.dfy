/** The instruction cycle of lc3instructions.cpp. Its six phases work on the
    global register file (`registers`), on the memory passed to them, and on
    the file-scope variables the phases hand to each other (`opcode`, `dr`,
    `offset9`, `address`, `GateALU`, ...), which keep their values from one
    instruction to the next. `Machine` holds all three; each phase is a
    method whose effect is the phase function of the same name on
    `Snapshot()`. */
module Cpu {
  import opened Word16
  import opened Isa

  /** `LC3Registers`: R0-R7, PC, MAR, MDR, IR and the condition code. */
  datatype Registers = Registers(r: RegFile, pc: Word, mar: Word, mdr: Word, ir: Word, cc: Word)

  /** The file-scope variables of lc3instructions.cpp. The register numbers
      are `uint16_t` in the source but are always assigned a value `& 0x7`. */
  datatype Latches = Latches(
    ir: Word, nzp: Word, dr: Reg, sr1: Reg, immFlag: Word, sr2: Reg, imm5: Word,
    baseR: Reg, flag: Word, opcode: Word, address: Word, vSr1: Word, vSr2: Word,
    gateAlu: Word, value: Word, sr: Reg, offset9: Int16, offset6: Int16, offset11: Int16)

  /** Static storage starts out zero. */
  function InitialLatches(): Latches
  {
    Latches(0, 0, 0, 0, 0, 0, 0, 0, 0, 0, 0, 0, 0, 0, 0, 0, 0, 0, 0)
  }

  datatype State = State(regs: Registers, latch: Latches, mem: seq<Word>)

  predicate Complete(s: State)
  {
    |s.mem| == 0x10000
  }

  // ----- bit fields as the source extracts them -----

  /** `w & m` for a one-bit mask `m`, as a truth value. */
  predicate Masked(w: Word, m: nat)
    requires m > 0
  {
    w / m % 2 == 1
  }

  /** `(ir >> 12) & 0xF`. */
  function OpcodeBits(ir: Word): Word { ir / 0x1000 % 0x10 }

  /** `(ir >> 9) & 0x7`. */
  function High3(ir: Word): Reg { ir / 0x200 % 8 }

  /** `(ir >> 6) & 0x7`. */
  function Mid3(ir: Word): Reg { ir / 0x40 % 8 }

  /** `x = ir & 0x1FF; if (x & 0x100) x |= 0xFE00;` kept in an `int16_t`.
      The OR sets bits 9-15, which the masked field does not have, so it
      adds 0xFE00. */
  function Extend9(ir: Word): Int16
  {
    var x := ir % 0x200;
    if Masked(x, 0x100) then ToInt16(x + 0xFE00) else x
  }

  /** `x = ir & 0x3F; if (x & 0x20) x |= 0xFFC0;` kept in an `int16_t`. */
  function Extend6(ir: Word): Int16
  {
    var x := ir % 0x40;
    if Masked(x, 0x20) then ToInt16(x + 0xFFC0) else x
  }

  /** `x = ir & 0x7FF; if (x & 0x400) x |= 0xF800;` kept in an `int16_t`. */
  function Extend11(ir: Word): Int16
  {
    var x := ir % 0x800;
    if Masked(x, 0x400) then ToInt16(x + 0xF800) else x
  }

  /** `imm5 = ir & 0x1F; if (imm5 & 0x10) imm5 |= 0xFFE0;` kept in a
      `uint16_t`: a negative value is held as its 16-bit pattern. */
  function Extend5(ir: Word): Word
  {
    var x := ir % 0x20;
    if Masked(x, 0x10) then x + 0xFFE0 else x
  }

  /** `updateFlags(result)`: 2 for zero, 4 when bit 15 is set, else 1. */
  function Flags(result: Word): (cc: Word)
    ensures cc == 1 || cc == 2 || cc == 4
    ensures cc == 2 <==> result == 0
    ensures cc == 4 <==> result >= 0x8000
  {
    if result == 0 then 2 else if result / 0x8000 != 0 then 4 else 1
  }

  // ----- the six phases, as functions of the state -----

  /** `fetch`: MAR gets the PC, MDR and IR the word there, PC moves on. */
  function Fetched(s: State): (t: State)
    requires Complete(s)
    ensures Complete(t)
  {
    var pc := s.regs.pc;
    s.(regs := s.regs.(mar := pc, mdr := s.mem[pc], pc := Wrap(pc + 1), ir := s.mem[pc]))
  }

  /** `isHalt`: the word in MDR is HALT (TRAP x25). */
  predicate Halted(s: State)
  {
    s.regs.mdr == 0xF025
  }

  /** `decode`: the fields of IR into the latches, by opcode. Latches that
      an opcode does not use keep their old values. */
  function Decoded(s: State): (t: State)
  {
    var ir := s.regs.ir;
    var op := OpcodeBits(ir);
    var l := s.latch;
    var l :=
      if op == 0x0 then l.(ir := ir, nzp := High3(ir), offset9 := Extend9(ir))
      else if op == 0x1 || op == 0x5 then
        var l := l.(ir := ir, dr := High3(ir), sr1 := Mid3(ir), immFlag := ir / 0x20 % 2);
        if l.immFlag != 0 then l.(imm5 := Extend5(ir)) else l.(sr2 := ir % 8)
      else if op == 0x2 || op == 0xA || op == 0x3 || op == 0xB then
        l.(ir := ir, dr := High3(ir), offset9 := Extend9(ir))
      else if op == 0x6 || op == 0x7 then
        l.(ir := ir, offset6 := Extend6(ir), baseR := Mid3(ir), dr := High3(ir))
      else if op == 0xE then l.(ir := ir, offset9 := Extend9(ir), dr := High3(ir))
      else if op == 0x4 then
        var l := l.(ir := ir, flag := ir / 0x800 % 2);
        if l.flag != 0 then l.(offset11 := Extend11(ir)) else l.(baseR := Mid3(ir))
      else if op == 0xC then
        var l := l.(ir := ir);
        if Mid3(ir) == 7 then l.(address := s.regs.r[7]) else l.(baseR := Mid3(ir))
      else if op == 0x9 then l.(ir := ir, dr := High3(ir), sr := Mid3(ir))
      else l;
    s.(latch := l.(opcode := op))
  }

  /** `evaluateAddress`: the effective address of the decoded instruction;
      LD, LDI and LDR also load MAR, and LDI reads its pointer here. */
  function AddressEvaluated(s: State): (t: State)
    requires Complete(s)
    ensures Complete(t)
  {
    var l := s.latch;
    var pc := s.regs.pc;
    var r := s.regs.r;
    var op := l.opcode;
    if op == 0x0 || op == 0xE || op == 0x3 || op == 0xB then s.(latch := l.(address := Wrap(pc + l.offset9)))
    else if op == 0x2 then
      var a := Wrap(pc + l.offset9);
      s.(latch := l.(address := a), regs := s.regs.(mar := a))
    else if op == 0x4 then
      s.(latch := l.(address := if l.flag != 0 then Wrap(pc + l.offset11) else r[l.baseR]))
    else if op == 0xA then
      var a := s.mem[Wrap(pc + l.offset9)];
      s.(latch := l.(address := a), regs := s.regs.(mar := a))
    else if op == 0x6 then
      var a := Wrap(r[l.baseR] + l.offset6);
      s.(latch := l.(address := a), regs := s.regs.(mar := a))
    else if op == 0xC then
      s.(latch := l.(address := if Mid3(s.regs.ir) == 7 then r[7] else r[l.baseR]))
    else if op == 0x7 then s.(latch := l.(address := Wrap(r[l.baseR] + l.offset6)))
    else s
  }

  /** `fetchOperands`: source registers into the operand latches, the
      addressed word into MDR for the loads, the register to store into
      `value` for the stores. */
  function OperandsFetched(s: State): (t: State)
    requires Complete(s)
    ensures Complete(t)
  {
    var l := s.latch;
    var r := s.regs.r;
    var op := l.opcode;
    if op == 0x1 || op == 0x5 then s.(latch := l.(vSr1 := r[l.sr1], vSr2 := r[l.sr2]))
    else if op == 0x9 then s.(latch := l.(vSr1 := r[l.sr]))
    else if op == 0x2 || op == 0xA || op == 0x6 then s.(regs := s.regs.(mdr := s.mem[s.regs.mar]))
    else if op == 0x3 || op == 0xB || op == 0x7 then s.(latch := l.(value := r[l.dr]))
    else s
  }

  /** `execute`: the ALU result of ADD, AND and NOT. The opcode is read
      afresh from IR. `static_cast<int16_t>(imm5)` gives the signed
      immediate; for AND both operands are widened to `int` and the result
      is stored back into 16 bits, which is the AND of the 16-bit patterns. */
  function Executed(s: State): State
  {
    var l := s.latch;
    var op := OpcodeBits(s.regs.ir);
    if op == 0x1 then
      s.(latch := l.(gateAlu := if l.immFlag != 0 then Wrap(l.vSr1 + ToInt16(l.imm5)) else Wrap(l.vSr1 + l.vSr2)))
    else if op == 0x5 then
      var r := s.regs.r;
      s.(latch := l.(gateAlu := if l.immFlag != 0 then And(r[l.sr1], Wrap(ToInt16(l.imm5))) else And(r[l.sr1], r[l.sr2])))
    else if op == 0x9 then s.(latch := l.(gateAlu := Not(l.vSr1)))
    else s
  }

  /** A register write followed by `updateFlags` on the value written. */
  function WriteBack(g: Registers, d: Reg, v: Word): Registers
  {
    g.(r := g.r[d := v], cc := Flags(v))
  }

  /** `(nzp & 0x4) && (cc & 0x4) || (nzp & 0x2) && (cc & 0x2) || (nzp & 0x1) && (cc & 0x1)`. */
  predicate ConditionMet(nzp: Word, cc: Word)
  {
    (Masked(nzp, 4) && Masked(cc, 4)) || (Masked(nzp, 2) && Masked(cc, 2)) || (Masked(nzp, 1) && Masked(cc, 1))
  }

  /** `store`: the results into registers, condition code, PC and memory. */
  function Stored(s: State): (t: State)
    requires Complete(s)
    ensures Complete(t)
  {
    var l := s.latch;
    var g := s.regs;
    var op := l.opcode;
    if op == 0x0 then (if ConditionMet(l.nzp, g.cc) then s.(regs := g.(pc := l.address)) else s)
    else if op == 0x1 || op == 0x5 || op == 0x9 then s.(regs := WriteBack(g, l.dr, l.gateAlu))
    else if op == 0x2 || op == 0xA || op == 0x6 then s.(regs := WriteBack(g, l.dr, g.mdr))
    else if op == 0xE then s.(regs := g.(r := g.r[l.dr := l.address]))
    else if op == 0x3 || op == 0x7 then
      s.(regs := g.(mar := l.address, mdr := l.value), mem := s.mem[l.address := l.value])
    else if op == 0xB then
      s.(regs := g.(mar := l.address, mdr := l.value), mem := s.mem[s.mem[l.address] := l.value])
    else if op == 0x4 then s.(regs := g.(r := g.r[7 := g.pc], pc := l.address))
    else if op == 0xC then s.(regs := g.(pc := l.address))
    else s
  }

  /** One instruction: the six phases in the order the sequencer runs them. */
  function Cycle(s: State): (t: State)
    requires Complete(s)
    ensures Complete(t)
  {
    Stored(Executed(OperandsFetched(AddressEvaluated(Decoded(Fetched(s))))))
  }

  // ----- the machine -----

  class Machine {
    var regs: Registers
    var latch: Latches
    const mem: array<Word>

    ghost predicate Valid()
    {
      mem.Length == 0x10000
    }

    ghost function Snapshot(): State
      reads this, mem
    {
      State(regs, latch, mem[..])
    }

    /** A machine with zeroed registers, latches and memory. */
    constructor ()
      ensures Valid() && fresh(mem)
      ensures regs == Registers([0, 0, 0, 0, 0, 0, 0, 0], 0, 0, 0, 0, 0)
      ensures latch == InitialLatches()
      ensures forall i :: 0 <= i < mem.Length ==> mem[i] == 0
    {
      regs := Registers([0, 0, 0, 0, 0, 0, 0, 0], 0, 0, 0, 0, 0);
      latch := InitialLatches();
      mem := new Word[0x10000](_ => 0);
    }

    method UpdateFlags(result: Word)
      modifies this
      ensures regs == old(regs).(cc := Flags(result)) && latch == old(latch)
    {
      if result == 0 {
        regs := regs.(cc := 0x02);
      } else if result / 0x8000 != 0 {
        regs := regs.(cc := 0x04);
      } else {
        regs := regs.(cc := 0x01);
      }
    }

    method Fetch()
      requires Valid()
      modifies this
      ensures Valid() && Snapshot() == Fetched(old(Snapshot()))
    {
      var pc := regs.pc;
      regs := regs.(mar := pc);
      regs := regs.(mdr := mem[pc]);
      regs := regs.(pc := Wrap(pc as int + 1));
      regs := regs.(ir := regs.mdr);
    }

    method IsHalt() returns (halt: bool)
      ensures halt <==> Halted(Snapshot())
    {
      halt := regs.mdr == 0xF025;
    }

    method Decode()
      requires Valid()
      modifies this
      ensures Valid() && Snapshot() == Decoded(old(Snapshot()))
    {
      var ir := regs.ir;
      var op := OpcodeBits(ir);
      latch := latch.(opcode := op);
      if op == 0x0 {
        latch := latch.(ir := ir, nzp := High3(ir), offset9 := Extend9(ir));
      } else if op == 0x1 || op == 0x5 {
        latch := latch.(ir := ir, dr := High3(ir), sr1 := Mid3(ir), immFlag := ir / 0x20 % 2);
        if latch.immFlag != 0 {
          latch := latch.(imm5 := Extend5(ir));
        } else {
          latch := latch.(sr2 := ir % 8);
        }
      } else if op == 0x2 || op == 0xA || op == 0x3 || op == 0xB {
        latch := latch.(ir := ir, dr := High3(ir), offset9 := Extend9(ir));
      } else if op == 0x6 || op == 0x7 {
        latch := latch.(ir := ir, offset6 := Extend6(ir), baseR := Mid3(ir), dr := High3(ir));
      } else if op == 0xE {
        latch := latch.(ir := ir, offset9 := Extend9(ir), dr := High3(ir));
      } else if op == 0x4 {
        latch := latch.(ir := ir, flag := ir / 0x800 % 2);
        if latch.flag != 0 {
          latch := latch.(offset11 := Extend11(ir));
        } else {
          latch := latch.(baseR := Mid3(ir));
        }
      } else if op == 0xC {
        latch := latch.(ir := ir);
        if Mid3(ir) == 7 {
          latch := latch.(address := regs.r[7]);
        } else {
          latch := latch.(baseR := Mid3(ir));
        }
      } else if op == 0x9 {
        latch := latch.(ir := ir, dr := High3(ir), sr := Mid3(ir));
      }
    }

    method EvaluateAddress()
      requires Valid()
      modifies this
      ensures Valid() && Snapshot() == AddressEvaluated(old(Snapshot()))
    {
      var op := latch.opcode;
      if op == 0x0 || op == 0xE || op == 0x3 || op == 0xB {
        latch := latch.(address := Wrap(regs.pc + latch.offset9));
      } else if op == 0x2 {
        latch := latch.(address := Wrap(regs.pc + latch.offset9));
        regs := regs.(mar := latch.address);
      } else if op == 0x4 {
        if latch.flag != 0 {
          latch := latch.(address := Wrap(regs.pc + latch.offset11));
        } else {
          latch := latch.(address := regs.r[latch.baseR]);
        }
      } else if op == 0xA {
        latch := latch.(address := Wrap(regs.pc + latch.offset9));
        regs := regs.(mar := latch.address);
        latch := latch.(address := mem[regs.mar]);
        regs := regs.(mar := latch.address);
      } else if op == 0x6 {
        latch := latch.(address := Wrap(regs.r[latch.baseR] + latch.offset6));
        regs := regs.(mar := latch.address);
      } else if op == 0xC {
        if Mid3(regs.ir) == 7 {
          latch := latch.(address := regs.r[7]);
        } else {
          latch := latch.(address := regs.r[latch.baseR]);
        }
      } else if op == 0x7 {
        latch := latch.(address := Wrap(regs.r[latch.baseR] + latch.offset6));
      }
    }

    method FetchOperands()
      requires Valid()
      modifies this
      ensures Valid() && Snapshot() == OperandsFetched(old(Snapshot()))
    {
      var op := latch.opcode;
      if op == 0x1 || op == 0x5 {
        latch := latch.(vSr1 := regs.r[latch.sr1], vSr2 := regs.r[latch.sr2]);
      } else if op == 0x9 {
        latch := latch.(vSr1 := regs.r[latch.sr]);
      } else if op == 0x2 || op == 0xA || op == 0x6 {
        regs := regs.(mdr := mem[regs.mar]);
      } else if op == 0x3 || op == 0xB || op == 0x7 {
        latch := latch.(value := regs.r[latch.dr]);
      }
    }

    method Execute()
      requires Valid()
      modifies this
      ensures Valid() && Snapshot() == Executed(old(Snapshot()))
    {
      var op := OpcodeBits(regs.ir);
      if op == 0x1 {
        if latch.immFlag != 0 {
          latch := latch.(gateAlu := Wrap(latch.vSr1 + ToInt16(latch.imm5)));
        } else {
          latch := latch.(gateAlu := Wrap(latch.vSr1 + latch.vSr2));
        }
      } else if op == 0x5 {
        if latch.immFlag != 0 {
          latch := latch.(gateAlu := And(regs.r[latch.sr1], Wrap(ToInt16(latch.imm5))));
        } else {
          latch := latch.(gateAlu := And(regs.r[latch.sr1], regs.r[latch.sr2]));
        }
      } else if op == 0x9 {
        latch := latch.(gateAlu := Not(latch.vSr1));
      }
    }

    method Store()
      requires Valid()
      modifies this, mem
      ensures Valid() && Snapshot() == Stored(old(Snapshot()))
    {
      var op := latch.opcode;
      if op == 0x0 {
        var cc := regs.cc;
        if ConditionMet(latch.nzp, cc) {
          regs := regs.(pc := latch.address);
        }
      } else if op == 0x1 || op == 0x5 || op == 0x9 {
        regs := regs.(r := regs.r[latch.dr := latch.gateAlu]);
        UpdateFlags(regs.r[latch.dr]);
      } else if op == 0x2 || op == 0xA || op == 0x6 {
        var value := regs.mdr;
        regs := regs.(r := regs.r[latch.dr := value]);
        UpdateFlags(value);
      } else if op == 0xE {
        regs := regs.(r := regs.r[latch.dr := latch.address]);
      } else if op == 0x3 || op == 0x7 {
        regs := regs.(mar := latch.address);
        regs := regs.(mdr := latch.value);
        mem[regs.mar] := regs.mdr;
      } else if op == 0xB {
        regs := regs.(mar := latch.address);
        regs := regs.(mdr := latch.value);
        mem[mem[regs.mar]] := regs.mdr;
      } else if op == 0x4 {
        var currentPc := regs.pc;
        regs := regs.(r := regs.r[7 := currentPc]);
        regs := regs.(pc := latch.address);
      } else if op == 0xC {
        regs := regs.(pc := latch.address);
      }
    }
  }
}
