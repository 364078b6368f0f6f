/** The memory image file between the assembler and the simulator:
    `writeToFile(memory, start, end)` stores the words of an inclusive address
    range, `readFromFile(start)` writes the stored words back into memory from
    `start` on (FileReadWrite.cpp and binfile.cpp hold the same two loops).
    The file itself is modelled by the sequence of words it holds. */
module MemoryFile {
  import opened Word16

  /** The words `writeToFile` stores: `start` to `end` inclusive, none when
      `end < start`. The loop counter is a `uint16_t`, so `end == 0xFFFF`
      would make the loop run forever; that case is excluded. */
  function Range(mem: seq<Word>, start: Word, end: Word): (words: seq<Word>)
    requires |mem| == 0x10000 && end < 0xFFFF
    ensures |words| == if start <= end then end - start + 1 else 0
    ensures forall k :: 0 <= k < |words| ==> words[k] == mem[start + k]
  {
    if start <= end then mem[start..end + 1] else []
  }

  /** The loop of `writeToFile`, on a 2^16-word memory. */
  method WriteToFile(mem: array<Word>, start: Word, end: Word) returns (words: seq<Word>)
    requires mem.Length == 0x10000 && end < 0xFFFF
    ensures words == Range(mem[..], start, end)
  {
    words := [];
    var address := start;
    while address <= end
      invariant start <= address <= if start <= end then end + 1 else start
      invariant words == mem[start..address]
      decreases end + 1 - address
    {
      words := words + [mem[address]];
      address := address + 1;
    }
  }

  /** Memory after `readFromFile(start)` has written `words`: one word per
      cell from `start` on, the `uint16_t` cursor wrapping past 0xFFFF. */
  function Loaded(mem: seq<Word>, words: seq<Word>, start: Word): (r: seq<Word>)
    requires |mem| == 0x10000
    ensures |r| == 0x10000
    decreases |words|
  {
    if words == [] then mem else Loaded(mem[start := words[0]], words[1..], Wrap(start + 1))
  }

  /** The loop of `readFromFile`. */
  method ReadFromFile(mem: array<Word>, words: seq<Word>, start: Word)
    requires mem.Length == 0x10000
    modifies mem
    ensures mem[..] == Loaded(old(mem[..]), words, start)
  {
    var address := start;
    var i := 0;
    while i < |words|
      invariant 0 <= i <= |words|
      invariant Loaded(mem[..], words[i..], address) == Loaded(old(mem[..]), words, start)
    {
      assert words[i..][0] == words[i] && words[i..][1..] == words[i + 1..];
      mem[address] := words[i];
      address := Wrap(address as int + 1);
      i := i + 1;
    }
  }

  /** When the words fit below 2^16, cell `start + k` receives word `k` and
      every cell outside the range keeps its value. */
  lemma {:induction false} LoadedCells(mem: seq<Word>, words: seq<Word>, start: Word, x: Word)
    requires |mem| == 0x10000 && start + |words| <= 0x10000
    ensures Loaded(mem, words, start)[x] ==
            if start <= x < start + |words| then words[x - start] else mem[x]
    decreases |words|
  {
    if words != [] {
      var next := if start + 1 < 0x10000 then start + 1 else 0;
      assert Wrap(start + 1) == next;
      if |words| > 1 {
        assert next == start + 1;
      }
      LoadedCells(mem[start := words[0]], words[1..], next, x);
    }
  }

  /** Reading back what `writeToFile` stored restores the range, and only
      the range. */
  lemma ReloadRestoresRange(mem: seq<Word>, base: seq<Word>, start: Word, end: Word, x: Word)
    requires |mem| == 0x10000 && |base| == 0x10000 && start <= end < 0xFFFF
    ensures Loaded(base, Range(mem, start, end), start)[x] ==
            if start <= x <= end then mem[x] else base[x]
  {
    LoadedCells(base, Range(mem, start, end), start, x);
  }
}
