/** `startAssembly` of assembler.cpp: read the lines, run the first pass for
    the symbol table, run the second pass into a fresh memory, and store the
    words from 0x3000 on, one per source line, to the memory image file. */
module Driver {
  import opened Word16
  import opened Optional
  import opened Numbers
  import opened Text
  import opened Syntax
  import opened Encoder
  import opened Passes
  import opened MemoryFile

  /** The result of `startAssembly`: the error code 1 when there are no lines,
      otherwise the words stored to the memory image file. The success path
      of the source falls off the end of an `int` function without a
      `return`; its callers are modelled as reading that as success. */
  datatype Outcome = Failed(code: int) | Persisted(words: seq<Word>)

  /** A freshly constructed memory: every cell zero. */
  function Blank(): (m: seq<Word>)
    ensures |m| == 0x10000 && forall i :: 0 <= i < |m| ==> m[i] == 0
  {
    seq(0x10000, _ => 0)
  }

  /** The symbol table of the first pass. */
  function Symbols(lines: seq<string>): Labels
    requires WellFormed(lines)
  {
    First(lines, Scan(map[], Start())).labels
  }

  /** The memory after both passes of assembler.cpp. */
  function Assembled(lines: seq<string>): (mem: seq<Word>)
    requires WellFormed(lines)
    ensures |mem| == 0x10000
  {
    Second(lines, Emitter(Symbols(lines), AssemblerDriver), Image(Start(), Blank())).mem
  }

  /** `0x3000 + assemblyCode.size() - 1`, passed as a `uint16_t`. */
  function LastAddress(n: nat): Word
  {
    Wrap(Start() + n - 1)
  }

  lemma LastAddressValue(n: nat)
    requires 1 <= n < 0xD000
    ensures LastAddress(n) == Start() + n - 1
  {
    DivModUnique(Start() + n - 1, 0x10000, 0, Start() + n - 1);
  }

  /** What `startAssembly` produces: the assembled memory from 0x3000 on, one
      word per source line. The stored range depends only on the number of
      lines, not on where ORG put the words. */
  function Assembly(lines: seq<string>): (r: Outcome)
    requires WellFormed(lines) && LastAddress(|lines|) != 0xFFFF
    ensures r.Failed? <==> lines == []
    ensures r.Failed? ==> r.code == 1
    ensures r.Persisted? && |lines| < 0xD000 ==> |r.words| == |lines|
    ensures r.Persisted? ==> Start() + |r.words| <= 0x10000
    ensures r.Persisted? ==> forall k :: 0 <= k < |r.words| ==> r.words[k] == Assembled(lines)[Start() + k]
  {
    if lines == [] then Failed(1)
    else
      var words := Range(Assembled(lines), Start(), LastAddress(|lines|));
      assert |lines| < 0xD000 ==> |words| == |lines| by {
        if |lines| < 0xD000 {
          LastAddressValue(|lines|);
        }
      }
      Persisted(words)
  }

  /** `startAssembly`, with the lines given directly instead of read from a
      file. */
  method StartAssembly(lines: seq<string>) returns (outcome: Outcome)
    requires WellFormed(lines) && LastAddress(|lines|) != 0xFFFF
    ensures outcome == Assembly(lines)
  {
    if |lines| == 0 {
      return Failed(1);
    }
    var labels := FirstPass(lines);
    var mem := new Word[0x10000](_ => 0);
    assert mem[..] == Blank();
    SecondPass(lines, labels, mem, AssemblerDriver);
    var words := WriteToFile(mem, 0x3000, Wrap(0x3000 + |lines| - 1));
    return Persisted(words);
  }

  // ----- what reaches the simulator -----

  /** Without ORG, and with no more lines than fit above 0x3000, loading the
      stored words into a cleared memory reproduces the whole assembled
      memory: no word the second pass wrote is lost. */
  lemma ReloadReproducesImage(lines: seq<string>)
    requires WellFormed(lines) && NoOrg(lines) && 1 <= |lines| < 0xD000
    ensures Loaded(Blank(), Assembly(lines).words, Start()) == Assembled(lines)
  {
    LastAddressValue(|lines|);
    var tr := Emitter(Symbols(lines), AssemblerDriver);
    var image := Second(lines, tr, Image(Start(), Blank())).mem;
    SecondWithin(lines, tr);
    ReloadRange(image, LastAddress(|lines|));
    assert image == Assembled(lines);
  }

  /** Without ORG, everything outside the first |lines| cells from 0x3000
      stays zero. */
  lemma SecondWithin(lines: seq<string>, tr: Translator)
    requires WellFormed(lines) && NoOrg(lines) && 1 <= |lines| < 0xD000
    ensures forall x :: 0 <= x < 0x10000 && !(Start() <= x < Start() + |lines|) ==>
              Second(lines, tr, Image(Start(), Blank())).mem[x] == 0
  {
    forall x | 0 <= x < 0x10000 && !(Start() <= x < Start() + |lines|)
      ensures Second(lines, tr, Image(Start(), Blank())).mem[x] == 0
    {
      SecondWritesRange(lines, tr, Image(Start(), Blank()), x);
    }
  }

  /** A memory that is zero outside `[0x3000, end]` is what loading that
      range into a cleared memory gives. */
  lemma ReloadRange(image: seq<Word>, end: Word)
    requires |image| == 0x10000 && Start() <= end < 0xFFFF
    requires forall x :: 0 <= x < 0x10000 && !(Start() <= x <= end) ==> image[x] == 0
    ensures Loaded(Blank(), Range(image, Start(), end), Start()) == image
  {
    forall x: Word
      ensures Loaded(Blank(), Range(image, Start(), end), Start())[x] == image[x]
    {
      ReloadRestoresRange(image, Blank(), Start(), end, x);
    }
  }

  /** With ORG the stored range can miss the code: two lines make
      `startAssembly` store only 0x3000 and 0x3001, but after an ORG line
      that moves the cursor to `a` the next statement is written at `a`. */
  lemma OrgEscapesRange(org: string, a: Word, statement: string, tr: Translator, w: Word)
    requires WellFormedLine(org) && Kind(org).Org? && OrgAddress(Kind(org).operand) == Some(a)
    requires WellFormedLine(statement) && Kind(statement) == Statement
    requires tr(statement, a) == Some(w)
    ensures Second([org, statement], tr, Image(Start(), Blank())).mem[a] == w
    ensures LastAddress(2) == 0x3001
  {
    LastAddressValue(2);
    var lines := [org, statement];
    var im0 := Image(Start(), Blank());
    var im1 := SecondStep(im0, org, tr);
    assert im1 == Image(a, Blank());
    var im2 := SecondStep(im1, statement, tr);
    assert im2.mem[a] == w;
    assert lines[1..] == [statement] && [statement][1..] == [];
    assert Second([statement], tr, im1) == Second([], tr, im2) == im2;
    assert Second(lines, tr, im0) == Second([statement], tr, im1);
  }
}
