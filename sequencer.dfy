/** The simulator's control, from Logic.cpp and lc3.cpp: the global phase
    counter `sc` picks which phase of the instruction cycle one click on
    "Next Phase" (or "Run") performs, Reset clears the machine, and
    assembling a program loads the stored words at 0x3000 and points the PC
    there. The registers, the memory, the counter and the memory image file
    are globals of the source; `Console` holds them. */
module Sequencer {
  import opened Word16
  import opened Isa
  import opened Cpu
  import opened Refinement
  import opened MemoryFile
  import opened Passes
  import opened Driver

  /** The phase counter and the machine it drives. */
  datatype Config = Config(sc: int, s: State)

  /** The values the handlers give `sc`: the phase to run next, or -1 once
      HALT has been fetched. */
  predicate Counter(sc: int)
  {
    sc == -1 || 1 <= sc <= 6
  }

  /** One click: 1 fetches (and stops at HALT), 2 decodes, 3 evaluates the
      address, 4 fetches the operands, 5 executes, 6 stores and starts over.
      At -1, or at any value no branch tests, nothing happens. */
  function Advance(c: Config): (d: Config)
    requires Complete(c.s)
    ensures Complete(d.s)
  {
    var s := c.s;
    if c.sc == 1 then
      var t := Fetched(s);
      if Halted(t) then Config(-1, t) else Config(2, t)
    else if c.sc == 2 then Config(3, Decoded(s))
    else if c.sc == 3 then Config(4, AddressEvaluated(s))
    else if c.sc == 4 then Config(5, OperandsFetched(s))
    else if c.sc == 5 then Config(6, Executed(s))
    else if c.sc == 6 then Config(1, Stored(s))
    else c
  }

  /** The clicks one instruction takes. */
  const Phases: nat := 6

  /** `n` clicks in a row. */
  function Clicks(c: Config, n: nat): (d: Config)
    requires Complete(c.s)
    ensures Complete(d.s)
    decreases n
  {
    if n == 0 then c else Clicks(Advance(c), n - 1)
  }

  // ----- what the counter does -----

  /** A click keeps the counter among the values the handlers use. */
  lemma AdvanceKeepsCounter(c: Config)
    requires Complete(c.s) && Counter(c.sc)
    ensures Counter(Advance(c).sc)
    ensures c.sc != -1 ==> Advance(c).sc == -1 || Advance(c).sc == c.sc % 6 + 1
  {
  }

  /** Once halted, the machine stays as it is, however often one clicks. */
  lemma {:induction false} HaltIsFinal(s: State, n: nat)
    requires Complete(s)
    ensures Clicks(Config(-1, s), n) == Config(-1, s)
  {
    if n > 0 {
      HaltIsFinal(s, n - 1);
    }
  }

  /** Started at phase `k`, after `n` clicks the counter has moved on `n`
      phases round the cycle of six, unless HALT was fetched on the way. */
  lemma {:induction false} CounterCycles(c: Config, n: nat)
    requires Complete(c.s) && 1 <= c.sc <= 6
    ensures var d := Clicks(c, n);
            d.sc == -1 || d.sc == (c.sc - 1 + n) % 6 + 1
    decreases n
  {
    if n > 0 {
      var c' := Advance(c);
      AdvanceKeepsCounter(c);
      if c'.sc == -1 {
        HaltIsFinal(c'.s, n - 1);
      } else {
        CounterCycles(c', n - 1);
        NextPhase(c.sc, n);
      }
    }
  }

  /** Moving on one phase, then `n - 1` more, is moving on `n`. */
  lemma NextPhase(k: int, n: nat)
    requires 1 <= k <= 6 && n >= 1
    ensures (k % 6 + 1 - 1 + (n - 1)) % 6 + 1 == (k - 1 + n) % 6 + 1
  {
    if k == 6 {
      DivModUnique(k - 1 + n, 6, (n - 1) / 6 + 1, (n - 1) % 6);
    } else {
      DivModUnique(k, 6, 0, k);
    }
  }

  /** Fetching HALT stops the machine for good, with the fetched state. */
  lemma HaltStops(s: State, n: nat)
    requires Complete(s) && Halted(Fetched(s)) && n >= 1
    ensures Clicks(Config(1, s), n) == Config(-1, Fetched(s))
  {
    HaltIsFinal(Fetched(s), n - 1);
  }

  /** The clicks of one instruction, one phase each. */
  lemma ClickFetch(s: State, n: nat)
    requires Complete(s) && !Halted(Fetched(s))
    ensures Clicks(Config(1, s), n + 1) == Clicks(Config(2, Fetched(s)), n)
  {
  }

  lemma ClickDecode(s: State, n: nat)
    requires Complete(s)
    ensures Clicks(Config(2, s), n + 1) == Clicks(Config(3, Decoded(s)), n)
  {
  }

  lemma ClickEvaluateAddress(s: State, n: nat)
    requires Complete(s)
    ensures Clicks(Config(3, s), n + 1) == Clicks(Config(4, AddressEvaluated(s)), n)
  {
  }

  lemma ClickFetchOperands(s: State, n: nat)
    requires Complete(s)
    ensures Clicks(Config(4, s), n + 1) == Clicks(Config(5, OperandsFetched(s)), n)
  {
  }

  lemma ClickExecute(s: State, n: nat)
    requires Complete(s)
    ensures Clicks(Config(5, s), n + 1) == Clicks(Config(6, Executed(s)), n)
  {
  }

  lemma ClickStore(s: State, n: nat)
    requires Complete(s)
    ensures Clicks(Config(6, s), n + 1) == Clicks(Config(1, Stored(s)), n)
  {
  }

  /** Decode and execute only set latches. */
  lemma DecodeKeepsMemory(s: State)
    ensures Decoded(s).mem == s.mem && Decoded(s).regs == s.regs
  {
  }

  lemma ExecuteKeepsMemory(s: State)
    ensures Executed(s).mem == s.mem && Executed(s).regs == s.regs
  {
  }

  /** Six clicks from phase 1 run the six phases once, in order, and bring
      the counter back to 1, whatever clicks follow. */
  lemma SixClicksThen(s: State, n: nat)
    requires Complete(s) && !Halted(Fetched(s)) && n >= Phases
    ensures Clicks(Config(1, s), n) == Clicks(Config(1, Cycle(s)), n - Phases)
  {
    var s1 := Fetched(s);
    var s2 := Decoded(s1);
    var s3 := AddressEvaluated(s2);
    var s4 := OperandsFetched(s3);
    var s5 := Executed(s4);
    ClickFetch(s, n - 1);
    DecodeKeepsMemory(s1);
    ClickDecode(s1, n - 2);
    ClickEvaluateAddress(s2, n - 3);
    ClickFetchOperands(s3, n - 4);
    ExecuteKeepsMemory(s4);
    ClickExecute(s4, n - 5);
    ClickStore(s5, n - 6);
  }

  /** Six clicks from phase 1 are one instruction cycle. */
  lemma SixClicksAreOneCycle(s: State)
    requires Complete(s) && !Halted(Fetched(s))
    ensures Clicks(Config(1, s), Phases) == Config(1, Cycle(s))
  {
    SixClicksThen(s, Phases);
    var c := Config(1, Cycle(s));
    assert Clicks(c, 0) == c;
  }

  /** Six clicks from phase 1 execute the instruction at the PC as the
      LC-3 instruction set prescribes. */
  lemma SixClicksExecute(s: State)
    requires Complete(s) && !Halted(Fetched(s))
    ensures ArchOf(Clicks(Config(1, s), Phases).s) == Step(ArchOf(s))
    ensures Clicks(Config(1, s), Phases).sc == 1
  {
    SixClicksAreOneCycle(s);
    CycleRefinesIsa(s);
  }

  // ----- reset and loading -----

  /** The machine after Reset: cells 0 to 0xFFFE cleared (the loop stops
      short of the last cell), PC, MDR, MAR and IR zero; R0-R7, the
      condition code and the decode latches keep their values. */
  function Cleared(s: State): (t: State)
    requires Complete(s)
    ensures Complete(t)
  {
    s.(regs := s.regs.(pc := 0, mdr := 0, mar := 0, ir := 0),
       mem := seq(0x10000, i requires 0 <= i < 0x10000 => if i < 0xFFFF then 0 else s.mem[i]))
  }

  /** The machine after a program is loaded: the words from 0x3000 on, and
      the PC at 0x3000. Nothing else changes. */
  function Loads(s: State, words: seq<Word>): (t: State)
    requires Complete(s)
    ensures Complete(t)
  {
    s.(regs := s.regs.(pc := Start()), mem := Loaded(s.mem, words, Start()))
  }

  /** Reset twice is Reset once. */
  lemma ClearedIdempotent(s: State)
    requires Complete(s)
    ensures Cleared(Cleared(s)) == Cleared(s)
  {
    var t := Cleared(s);
    assert Cleared(t).mem == t.mem;
  }

  /** A cleared memory holds BR with no condition bits everywhere below
      0xFFFF, so an instruction cycle run after Reset only steps the PC. */
  lemma ClearedRunsNothing(s: State)
    requires Complete(s)
    ensures ArchOf(Cycle(Cleared(s))) == ArchOf(Cleared(s)).(pc := 1)
  {
    var t := Cleared(s);
    CycleRefinesIsa(t);
    StepOfZero(ArchOf(t));
    DivModUnique(1, 0x10000, 0, 1);
  }

  /** The all-zero word is BR with no condition bits: it only steps the PC. */
  lemma StepOfZero(a: Arch)
    requires FullMemory(a) && a.mem[a.pc] == 0
    ensures Step(a) == a.(pc := Wrap(a.pc + 1))
  {
    Pow2Values();
    assert Opcode(0) == 0 && !BitOf(0, 9) && !BitOf(0, 10) && !BitOf(0, 11);
  }

  /** Reset, then a program without ORG that fits above 0x3000 assembled
      and loaded: below 0xFFFF, memory is exactly what the two passes
      assembled, and the PC is at 0x3000 with the counter at 1. */
  lemma ResetThenLoad(s: State, lines: seq<string>)
    requires Complete(s) && WellFormed(lines) && NoOrg(lines) && 1 <= |lines| < 0xD000
    ensures var t := Loads(Cleared(s), Assembly(lines).words);
            t.regs.pc == 0x3000 && forall x :: 0 <= x < 0xFFFF ==> t.mem[x] == Assembled(lines)[x]
  {
    ReloadReproducesImage(lines);
    LoadAfterReset(s, Assembly(lines).words, Assembled(lines));
  }

  /** Below 0xFFFF, loading words after Reset gives what loading them into
      a blank memory gives. */
  lemma LoadAfterReset(s: State, words: seq<Word>, image: seq<Word>)
    requires Complete(s) && Start() + |words| <= 0x10000
    requires Loaded(Driver.Blank(), words, Start()) == image
    ensures forall x :: 0 <= x < 0xFFFF ==> Loads(Cleared(s), words).mem[x] == image[x]
  {
    forall x | 0 <= x < 0xFFFF
      ensures Loads(Cleared(s), words).mem[x] == image[x]
    {
      LoadedCells(Cleared(s).mem, words, Start(), x);
      LoadedCells(Driver.Blank(), words, Start(), x);
    }
  }

  // ----- the globals and the handlers -----

  class Console {
    /** The phase counter; 1 at program start. */
    var sc: int
    /** The words the memory image file holds. */
    var file: seq<Word>
    /** Registers, decode latches and memory. */
    const cpu: Machine

    ghost predicate Valid()
      reads this, cpu
    {
      cpu.Valid()
    }

    ghost function Current(): Config
      reads this, cpu, cpu.mem
    {
      Config(sc, cpu.Snapshot())
    }

    /** Program start: the counter at 1, a zeroed machine, and whatever
        the memory image file held before. */
    constructor (stored: seq<Word>)
      ensures Valid() && fresh(cpu) && fresh(cpu.mem)
      ensures sc == 1 && file == stored
      ensures cpu.regs == Registers([0, 0, 0, 0, 0, 0, 0, 0], 0, 0, 0, 0, 0) && cpu.latch == InitialLatches()
      ensures forall i :: 0 <= i < cpu.mem.Length ==> cpu.mem[i] == 0
    {
      sc := 1;
      file := stored;
      cpu := new Machine();
    }

    /** `on_nextCycle_clicked`: one phase, chosen by the counter. At -1
        only the "Program Done" message is shown. */
    method NextCycle()
      requires Valid()
      modifies this, cpu, cpu.mem
      ensures Valid() && Current() == Advance(old(Current())) && file == old(file)
    {
      if sc == -1 {
      } else if sc == 1 {
        cpu.Fetch();
        var halt := cpu.IsHalt();
        if halt {
          sc := -1;
        } else {
          sc := sc + 1;
        }
      } else if sc == 2 {
        cpu.Decode();
        sc := sc + 1;
      } else if sc == 3 {
        cpu.EvaluateAddress();
        sc := sc + 1;
      } else if sc == 4 {
        cpu.FetchOperands();
        sc := sc + 1;
      } else if sc == 5 {
        cpu.Execute();
        sc := sc + 1;
      } else if sc == 6 {
        cpu.Store();
        sc := 1;
      }
    }

    /** `on_RUN_clicked` of lc3.cpp repeats `on_nextCycle_clicked` branch
        for branch, on the same globals: one phase per click. */
    method Run()
      requires Valid()
      modifies this, cpu, cpu.mem
      ensures Valid() && Current() == Advance(old(Current())) && file == old(file)
    {
      NextCycle();
    }

    /** `on_Reset_clicked`: clear the memory loop's cells, zero PC, MDR,
        MAR and IR, and set the counter to 1. */
    method Reset()
      requires Valid()
      modifies this, cpu, cpu.mem
      ensures Valid() && Current() == Config(1, Cleared(old(Current()).s)) && file == old(file)
    {
      var i := 0;
      while i < 0xFFFF
        invariant 0 <= i <= 0xFFFF
        invariant forall k :: 0 <= k < i ==> cpu.mem[k] == 0
        invariant forall k :: i <= k < cpu.mem.Length ==> cpu.mem[k] == old(cpu.mem[k])
        modifies cpu.mem
      {
        cpu.mem[i] := 0;
        i := i + 1;
      }
      cpu.regs := cpu.regs.(pc := 0);
      cpu.regs := cpu.regs.(mdr := 0);
      cpu.regs := cpu.regs.(mar := 0);
      cpu.regs := cpu.regs.(ir := 0);
      sc := 1;
      assert cpu.mem[..] == Cleared(old(Current()).s).mem;
    }

    /** The load step of both windows: `readFromFile(0x3000)` and
        `setPC(0x3000)`. */
    method LoadProgram()
      requires Valid()
      modifies cpu, cpu.mem
      ensures Valid() && cpu.Snapshot() == Loads(old(cpu.Snapshot()), file)
    {
      ReadFromFile(cpu.mem, file, 0x3000);
      cpu.regs := cpu.regs.(pc := 0x3000);
    }

    /** `on_ASSEMBLE_clicked` with the program's lines: when `startAssembly`
        succeeds, the words it stored are loaded at 0x3000 and the PC
        points there; on failure nothing changes. The counter is left
        alone either way. */
    method OnAssemble(lines: seq<string>)
      requires Valid() && WellFormed(lines) && LastAddress(|lines|) != 0xFFFF
      modifies this, cpu, cpu.mem
      ensures Valid()
      ensures match Assembly(lines)
              case Failed(_) => Current() == old(Current()) && file == old(file)
              case Persisted(words) => file == words && Current() == Config(old(sc), Loads(old(Current()).s, words))
    {
      var outcome := StartAssembly(lines);
      if outcome.Persisted? {
        file := outcome.words;
        LoadProgram();
      }
    }

    /** `on_Upload_code_clicked` of lc3.cpp with the chosen file's lines:
        the outcome of `startAssembly` is ignored, and whatever the memory
        image file then holds is loaded at 0x3000. */
    method OnUpload(lines: seq<string>)
      requires Valid() && WellFormed(lines) && LastAddress(|lines|) != 0xFFFF
      modifies this, cpu, cpu.mem
      ensures Valid()
      ensures file == if Assembly(lines).Persisted? then Assembly(lines).words else old(file)
      ensures Current() == Config(old(sc), Loads(old(Current()).s, file))
    {
      var outcome := StartAssembly(lines);
      if outcome.Persisted? {
        file := outcome.words;
      }
      LoadProgram();
    }
  }
}
