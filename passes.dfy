/** The two passes of the assembler (`firstPass` and `secondPass`, identical in
    AssemblerLogic.cpp and assembler.cpp). Both walk the lines with an address
    cursor that starts at 0x3000 and stop at END. The first pass binds every
    `NAME,` label to the cursor; the second validates each statement, encodes
    it, and writes the word at its cursor. The only difference between them
    is when the cursor moves: the first pass moves it for every statement, the
    second only for a statement that validates and converts. */
module Passes {
  import opened Text
  import opened Numbers
  import opened Optional
  import opened Word16
  import opened Tokenizer
  import opened Syntax
  import opened Validator
  import opened Encoder

  /** The address of the first word. */
  function Start(): Word
  {
    0x3000
  }

  /** `address++` on a `uint16_t`. */
  function Next(a: Word): (b: Word)
    ensures b != a && b == if a < 0xFFFF then a + 1 else 0
  {
    Wrap(a + 1)
  }

  /** An empty line or a comment, which both passes skip. */
  predicate Skipped(line: string)
  {
    line == "" || line[0] == ';'
  }

  /** A line as `readFile` delivers it (trimmed), which is not a bare ORG: the
      passes read the ORG operand without checking that it is there. */
  predicate WellFormedLine(line: string)
  {
    Trimmed(line) && (!Skipped(line) ==> Words(line) != [] && (Words(line)[0] == "ORG" ==> |Words(line)| >= 2))
  }

  predicate WellFormed(lines: seq<string>)
  {
    forall i :: 0 <= i < |lines| ==> WellFormedLine(lines[i])
  }

  /** What the passes make of a line, from its white-space separated words. */
  datatype Line =
    | Blank                                 // empty, or a comment
    | Org(operand: string)                  // ORG address
    | End                                   // END: the scan stops
    | Label(name: string, more: bool)       // NAME, [statement]
    | Statement                             // anything else

  /** The tests of both passes in their order: ORG, a label (a first word
      ending in ','), END, else a statement. The second pass tests END before
      the label, which gives the same answer since "END" does not end in ','. */
  function Kind(line: string): Line
    requires WellFormedLine(line)
  {
    if Skipped(line) then Blank
    else
      var ts := Words(line);
      if ts[0] == "ORG" then Org(ts[1])
      else if EndsWith(ts[0], ',') then Label(Chopped(ts[0]), |ts| > 1)
      else if ts[0] == "END" then End
      else Statement
  }

  /** `toInt(&ok, 16)` of the ORG operand, stored in a `uint16_t`. */
  function OrgAddress(operand: string): Option<Word>
  {
    match ToInt(operand, Hex)
    case Some(v) => Some(Wrap(v))
    case None => None
  }

  /** `line.mid(line.indexOf(',') + 1).trimmed()`: the text after the first
      comma, or the whole line when there is none (`indexOf` answers -1). */
  function AfterLabel(line: string): string
  {
    Trim(Mid(line, if ',' in line then IndexOf(line, ',') + 1 else 0))
  }

  /** Does the second pass try to assemble this line? */
  predicate Assembles(k: Line)
  {
    k == Statement || (k.Label? && k.more)
  }

  /** The text the second pass validates and assembles. */
  function StatementText(line: string, k: Line): string
  {
    if k.Label? then AfterLabel(line) else line
  }

  // ----- the first pass -----

  /** The state of the first pass: the symbol table so far and the cursor. */
  datatype Scan = Scan(labels: Labels, address: Word)

  /** The first pass on one line that is not END. */
  function FirstStep(s: Scan, k: Line): Scan
  {
    match k
    case Org(t) => Scan(s.labels, OrgAddress(t).GetOr(s.address))
    case Label(name, more) => Scan(s.labels[name := s.address], if more then Next(s.address) else s.address)
    case Statement => Scan(s.labels, Next(s.address))
    case _ => s
  }

  /** The first pass over `lines` from state `s`. */
  function First(lines: seq<string>, s: Scan): Scan
    requires WellFormed(lines)
    decreases |lines|
  {
    if lines == [] then s
    else
      var k := Kind(lines[0]);
      if k == End then s else First(lines[1..], FirstStep(s, k))
  }

  /** `firstPass(lines)`. */
  method FirstPass(lines: seq<string>) returns (labels: Labels)
    requires WellFormed(lines)
    ensures labels == First(lines, Scan(map[], Start())).labels
  {
    labels := map[];
    var address: Word := 0x3000;
    var i := 0;
    while i < |lines|
      invariant 0 <= i <= |lines|
      invariant First(lines[i..], Scan(labels, address)) == First(lines, Scan(map[], Start()))
    {
      var line := lines[i];
      assert lines[i..][0] == line && lines[i..][1..] == lines[i + 1..];
      if line == "" || line[0] == ';' {
        i := i + 1;
        continue;
      }
      var tokens := Words(line);
      if tokens[0] == "ORG" {
        var newAddress := ToInt(tokens[1], Hex);
        if newAddress.Some? {
          address := Wrap(newAddress.value);
        }
      } else if EndsWith(tokens[0], ',') {
        labels := labels[Chopped(tokens[0]) := address];
        if |tokens| > 1 {
          address := Wrap(address + 1);
        }
      } else if tokens[0] == "END" {
        break;
      } else {
        address := Wrap(address + 1);
      }
      i := i + 1;
    }
  }

  // ----- the second pass -----

  /** The state of the second pass: the cursor and the memory image. */
  datatype Image = Image(address: Word, mem: seq<Word>)

  /** What the second pass does with the text of one statement at a cursor:
      the word to write, or nothing. */
  type Translator = (string, Word) -> Option<Word>

  predicate FullImage(im: Image)
  {
    |im.mem| == 0x10000
  }

  /** The word the second pass writes for statement `text` at `address`: the
      statement must validate (tokens of `Split(text, ' ')`) and its bit
      string must convert with `toUInt(&ok, 2)`; the value is then stored in
      a `uint16_t`. */
  function Emitted(text: string, labels: Labels, address: Word, ed: Edition): Option<Word>
  {
    if Validate(SplitSpec(text, ' '), labels) then
      match ToUInt(Assemble(text, labels, address, ed), Binary)
      case Some(v) => Some(Wrap(v))
      case None => None
    else None
  }

  /** The translation `secondPass` applies, for one symbol table and edition. */
  function Emitter(labels: Labels, ed: Edition): Translator
  {
    (text, address) => Emitted(text, labels, address, ed)
  }

  /** The second pass on one line that is not END. */
  function SecondStep(im: Image, line: string, tr: Translator): (r: Image)
    requires WellFormedLine(line) && FullImage(im)
    ensures FullImage(r)
  {
    var k := Kind(line);
    if k.Org? then Image(OrgAddress(k.operand).GetOr(im.address), im.mem)
    else if Assembles(k) then
      match tr(StatementText(line, k), im.address)
      case Some(w) => Image(Next(im.address), im.mem[im.address := w])
      case None => im
    else im
  }

  /** The second pass over `lines` from state `im`. */
  function Second(lines: seq<string>, tr: Translator, im: Image): (r: Image)
    requires WellFormed(lines) && FullImage(im)
    ensures FullImage(r)
    decreases |lines|
  {
    if lines == [] then im
    else if Kind(lines[0]) == End then im
    else Second(lines[1..], tr, SecondStep(im, lines[0], tr))
  }

  /** Validate, assemble and convert one statement, as both branches of
      `secondPass` do. */
  method Translate(text: string, labels: Labels, address: Word, ed: Edition) returns (code: Option<Word>)
    ensures code == Emitter(labels, ed)(text, address)
  {
    var tokens := Split(text, ' ');
    if !Validate(tokens, labels) {
      return None;
    }
    var binary := Assemble(text, labels, address, ed);
    var machineCode := ToUInt(binary, Binary);
    if machineCode.None? {
      return None;
    }
    return Some(Wrap(machineCode.value));
  }

  /** `secondPass(lines, labels, memory)` on a memory of 2^16 words. */
  method SecondPass(lines: seq<string>, labels: Labels, mem: array<Word>, ed: Edition)
    requires WellFormed(lines) && mem.Length == 0x10000
    modifies mem
    ensures mem[..] == Second(lines, Emitter(labels, ed), Image(Start(), old(mem[..]))).mem
  {
    var address: Word := 0x3000;
    var i := 0;
    while i < |lines|
      invariant 0 <= i <= |lines|
      invariant Second(lines[i..], Emitter(labels, ed), Image(address, mem[..])) == Second(lines, Emitter(labels, ed), Image(Start(), old(mem[..])))
    {
      SecondUnfold(lines, i, Emitter(labels, ed), Image(address, mem[..]));
      var stop;
      address, stop := SecondLine(lines[i], labels, mem, address, ed);
      if stop {
        break;
      }
      i := i + 1;
    }
  }

  /** The body of the loop of `secondPass`: one line at cursor `address`,
      dispatched on the tests `Kind` collects; `stop` reports END. */
  method SecondLine(line: string, labels: Labels, mem: array<Word>, address: Word, ed: Edition)
      returns (next: Word, stop: bool)
    requires WellFormedLine(line) && mem.Length == 0x10000
    modifies mem
    ensures stop <==> Kind(line) == End
    ensures !stop ==> Image(next, mem[..]) == SecondStep(Image(address, old(mem[..])), line, Emitter(labels, ed))
    ensures stop ==> mem[..] == old(mem[..])
  {
    next, stop := address, false;
    var k := Kind(line);
    if k.Org? {
      var newAddress := ToInt(k.operand, Hex);
      if newAddress.Some? {
        next := Wrap(newAddress.value);
      }
    } else if k == End {
      stop := true;
    } else if Assembles(k) {
      // a statement, or a label with a statement after it
      next := Store(StatementText(line, k), labels, mem, address, ed);
    }
  }

  /** Translate one statement and, if that gives a word, write it at the
      cursor and advance the cursor. */
  method Store(text: string, labels: Labels, mem: array<Word>, address: Word, ed: Edition) returns (next: Word)
    requires mem.Length == 0x10000
    modifies mem
    ensures match Emitter(labels, ed)(text, address)
            case Some(w) => next == Next(address) && mem[..] == old(mem[..])[address := w]
            case None => next == address && mem[..] == old(mem[..])
  {
    next := address;
    var code := Translate(text, labels, address, ed);
    if code.Some? {
      mem[address] := code.value;
      next := Wrap(address + 1);
    }
  }

  lemma SecondUnfold(lines: seq<string>, i: nat, tr: Translator, im: Image)
    requires WellFormed(lines) && FullImage(im) && i < |lines|
    ensures Second(lines[i..], tr, im) ==
            if Kind(lines[i]) == End then im else Second(lines[i + 1..], tr, SecondStep(im, lines[i], tr))
  {
    assert lines[i..][0] == lines[i] && lines[i..][1..] == lines[i + 1..];
  }

  // ----- the two cursors -----

  /** Every line the second pass tries to assemble, up to END, is accepted at
      the cursor the second pass has reached. */
  predicate Accepted(lines: seq<string>, tr: Translator, im: Image)
    requires WellFormed(lines) && FullImage(im)
    decreases |lines|
  {
    if lines == [] || Kind(lines[0]) == End then true
    else
      var k := Kind(lines[0]);
      (Assembles(k) ==> tr(StatementText(lines[0], k), im.address).Some?) &&
      Accepted(lines[1..], tr, SecondStep(im, lines[0], tr))
  }

  /** When every statement is accepted, the second pass's cursor follows the
      first pass's line for line, so each label names the address its
      statement is written to. */
  lemma {:induction false} CursorsAgree(lines: seq<string>, tr: Translator, s: Scan, im: Image)
    requires WellFormed(lines) && FullImage(im) && s.address == im.address
    requires Accepted(lines, tr, im)
    ensures First(lines, s).address == Second(lines, tr, im).address
    decreases |lines|
  {
    if lines != [] && Kind(lines[0]) != End {
      CursorsAgree(lines[1..], tr, FirstStep(s, Kind(lines[0])), SecondStep(im, lines[0], tr));
    }
  }

  /** A statement the second pass rejects still moves the first pass's
      cursor, so the two fall out of step exactly there. */
  lemma CursorsPart(line: string, tr: Translator, s: Scan, im: Image)
    requires WellFormedLine(line) && FullImage(im) && s.address == im.address
    requires Assembles(Kind(line))
    ensures First([line], s).address == Second([line], tr, im).address <==>
            tr(StatementText(line, Kind(line)), im.address).Some?
  {
    assert [line][1..] == [];
  }

  // ----- the symbol table -----

  /** `name` is defined by a label line before the first END. */
  predicate Defines(lines: seq<string>, name: string)
    requires WellFormed(lines)
    decreases |lines|
  {
    if lines == [] || Kind(lines[0]) == End then false
    else (Kind(lines[0]).Label? && Kind(lines[0]).name == name) || Defines(lines[1..], name)
  }

  /** The first pass defines exactly the labels written before END. */
  lemma {:induction false} LabelsDefined(lines: seq<string>, s: Scan, name: string)
    requires WellFormed(lines)
    ensures name in First(lines, s).labels <==> name in s.labels || Defines(lines, name)
    decreases |lines|
  {
    if lines != [] && Kind(lines[0]) != End {
      LabelsDefined(lines[1..], FirstStep(s, Kind(lines[0])), name);
    }
  }

  // ----- where the words go -----

  /** No ORG before END. */
  predicate NoOrg(lines: seq<string>)
    requires WellFormed(lines)
    decreases |lines|
  {
    if lines == [] || Kind(lines[0]) == End then true
    else !Kind(lines[0]).Org? && NoOrg(lines[1..])
  }

  /** Without ORG, the second pass writes only the |lines| cells from the
      starting cursor on, and its cursor stays inside that range. */
  lemma {:induction false} SecondWritesRange(lines: seq<string>, tr: Translator, im: Image, x: int)
    requires WellFormed(lines) && FullImage(im) && NoOrg(lines)
    requires im.address + |lines| < 0x10000
    requires 0 <= x < 0x10000 && !(im.address <= x < im.address + |lines|)
    ensures Second(lines, tr, im).mem[x] == im.mem[x]
    ensures im.address <= Second(lines, tr, im).address <= im.address + |lines|
    decreases |lines|
  {
    if lines != [] && Kind(lines[0]) != End {
      var next := SecondStep(im, lines[0], tr);
      assert next.mem[x] == im.mem[x];
      assert im.address <= next.address <= im.address + 1;
      SecondWritesRange(lines[1..], tr, next, x);
    }
  }

  // ----- labels and END -----

  /** A label alone on its line names the address of the next word written:
      the first pass binds it to the cursor without advancing, and the second
      pass writes the following statement at exactly that address. */
  lemma BareLabelAliasesNext(tag: string, stmt: string, tr: Translator, s: Scan, im: Image)
    requires WellFormedLine(tag) && WellFormedLine(stmt) && FullImage(im)
    requires Kind(tag).Label? && !Kind(tag).more && Kind(stmt) == Statement
    requires s.address == im.address && tr(stmt, im.address).Some?
    ensures WellFormed([tag, stmt])
    ensures var labels := First([tag, stmt], s).labels;
            Kind(tag).name in labels && labels[Kind(tag).name] == s.address &&
            Second([tag, stmt], tr, im).mem[labels[Kind(tag).name]] == tr(stmt, im.address).value
  {
    var lines := [tag, stmt];
    assert lines[1..] == [stmt];
    assert [stmt][1..] == [];
    var k := Kind(tag);
    var s1 := FirstStep(s, k);
    assert s1 == Scan(s.labels[k.name := s.address], s.address);
    assert First([stmt], s1) == FirstStep(s1, Statement);
    assert First(lines, s) == First([stmt], s1);
    var im1 := SecondStep(im, tag, tr);
    assert im1 == im;
    var im2 := SecondStep(im1, stmt, tr);
    assert StatementText(stmt, Statement) == stmt;
    assert im2.mem == im.mem[im.address := tr(stmt, im.address).value];
    assert Second([stmt], tr, im1) == Second([], tr, im2);
    assert Second(lines, tr, im) == Second([stmt], tr, im1);
  }

  /** Nothing after END reaches either pass. */
  lemma {:induction false} AfterEndIgnored(lines: seq<string>, more: seq<string>, tr: Translator, s: Scan, im: Image)
    requires WellFormed(lines) && WellFormed(more) && FullImage(im)
    requires |lines| > 0 && Kind(lines[|lines| - 1]) == End
    ensures WellFormed(lines + more)
    ensures First(lines + more, s) == First(lines, s)
    ensures Second(lines + more, tr, im) == Second(lines, tr, im)
    decreases |lines|
  {
    var all := lines + more;
    assert forall i :: 0 <= i < |all| ==> WellFormedLine(all[i]) by {
      forall i | 0 <= i < |all| ensures WellFormedLine(all[i]) {
        if i < |lines| { assert all[i] == lines[i]; } else { assert all[i] == more[i - |lines|]; }
      }
    }
    assert all[0] == lines[0];
    var k := Kind(lines[0]);
    if k != End {
      assert |lines| > 1;
      assert all[1..] == lines[1..] + more;
      AfterEndIgnored(lines[1..], more, tr, FirstStep(s, k), SecondStep(im, lines[0], tr));
    }
  }
}
