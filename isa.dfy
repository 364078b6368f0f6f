/** The LC-3 instructions as the simulator executes them, stated directly on
    the architectural state: the eight general registers, the PC, the
    condition code and the memory. This is the reference that the
    phase-by-phase engine of lc3instructions.cpp is proved against. The
    fields of an instruction word sit at the usual LC-3 bit positions, and the
    offsets are read as two's-complement numbers. Like the simulator, the
    reference leaves TRAP, RTI and the reserved opcode unexecuted, and LEA
    leaves the condition code alone. */
module Isa {
  import opened Word16

  /** A register number. */
  type Reg = x: int | 0 <= x < 8

  /** The general registers R0-R7. */
  type RegFile = s: seq<Word> | |s| == 8 witness [0, 0, 0, 0, 0, 0, 0, 0]

  /** Bits `lo` .. `lo + n - 1` of `w`, as an unsigned number. */
  function Field(w: Word, lo: nat, n: nat): (v: nat)
    ensures v < Pow2(n)
  {
    w / Pow2(lo) % Pow2(n)
  }

  /** Bit `k` of `w`. */
  predicate BitOf(w: Word, k: nat)
  {
    Field(w, k, 1) == 1
  }

  function Opcode(w: Word): nat { Field(w, 12, 4) }

  /** Bits 11-9: the destination (or, for stores, the source) register. */
  function Dr(w: Word): Reg
  {
    Pow2Values();
    Field(w, 9, 3)
  }

  /** Bits 8-6: the first source register, or the base register. */
  function Sr1(w: Word): Reg
  {
    Pow2Values();
    Field(w, 6, 3)
  }

  /** Bits 2-0: the second source register. */
  function Sr2(w: Word): Reg
  {
    Pow2Values();
    Field(w, 0, 3)
  }

  function Imm5(w: Word): int { SignExtend(Field(w, 0, 5), 5) }
  function Offset6(w: Word): int { SignExtend(Field(w, 0, 6), 6) }
  function Offset9(w: Word): int { SignExtend(Field(w, 0, 9), 9) }
  function Offset11(w: Word): int { SignExtend(Field(w, 0, 11), 11) }

  datatype Arch = Arch(r: RegFile, pc: Word, cc: Word, mem: seq<Word>)

  predicate FullMemory(a: Arch)
  {
    |a.mem| == 0x10000
  }

  /** The condition code for a value written to a register: N (4) for a
      negative two's-complement value, Z (2) for zero, P (1) otherwise. */
  function ConditionCode(v: Word): Word
  {
    var x := ToInt16(v);
    if x < 0 then 4 else if x == 0 then 2 else 1
  }

  /** A branch is taken when one of its n, z, p bits (11, 10, 9) meets the
      matching N, Z, P bit (2, 1, 0) of the condition code. */
  predicate Taken(w: Word, cc: Word)
  {
    (BitOf(w, 11) && BitOf(cc, 2)) || (BitOf(w, 10) && BitOf(cc, 1)) || (BitOf(w, 9) && BitOf(cc, 0))
  }

  /** Write a register and set the condition code from the value. */
  function Write(a: Arch, d: Reg, v: Word): Arch
  {
    a.(r := a.r[d := v], cc := ConditionCode(v))
  }

  /** Execute the instruction at the PC. Every instruction sees the
      incremented PC; addresses wrap around modulo 2^16. */
  function Step(a: Arch): (b: Arch)
    requires FullMemory(a)
    ensures FullMemory(b)
  {
    var w := a.mem[a.pc];
    var pc := Wrap(a.pc + 1);
    var a := a.(pc := pc);
    var near := Wrap(pc + Offset9(w));
    var based := Wrap(a.r[Sr1(w)] + Offset6(w));
    var src2 := if BitOf(w, 5) then Imm5(w) else a.r[Sr2(w)];
    match Opcode(w)
    case 0x0 => if Taken(w, a.cc) then a.(pc := near) else a
    case 0x1 => Write(a, Dr(w), Wrap(a.r[Sr1(w)] + src2))
    case 0x2 => Write(a, Dr(w), a.mem[near])
    case 0x3 => a.(mem := a.mem[near := a.r[Dr(w)]])
    case 0x4 => a.(r := a.r[7 := pc], pc := if BitOf(w, 11) then Wrap(pc + Offset11(w)) else a.r[Sr1(w)])
    case 0x5 => Write(a, Dr(w), And(a.r[Sr1(w)], Wrap(src2)))
    case 0x6 => Write(a, Dr(w), a.mem[based])
    case 0x7 => a.(mem := a.mem[based := a.r[Dr(w)]])
    case 0x9 => Write(a, Dr(w), Not(a.r[Sr1(w)]))
    case 0xA => Write(a, Dr(w), a.mem[a.mem[near]])
    case 0xB => a.(mem := a.mem[a.mem[near] := a.r[Dr(w)]])
    case 0xC => a.(pc := a.r[Sr1(w)])
    case 0xE => a.(r := a.r[Dr(w) := near])
    case _ => a
  }
}
