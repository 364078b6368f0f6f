# LC-3 assembler and cycle simulator, modelled in Dafny

This project models the core of a small LC-3 toolchain. It has three parts.

- **The two-pass assembler.** It covers:
  - the two's-complement bit-string codec (`toBinary`);
  - the comment-truncating tokenizer (`Split` / `splitWithoutComments`);
  - the first pass, which builds the symbol table with an address cursor that starts at 0x3000 and honours `ORG`, `NAME,` labels and `END`;
  - the per-keyword operand validator and the per-keyword 16-bit encoder, including the `WORD`, `BYTE`, `DEC` and `HEX` data directives;
  - the second pass, which writes words into a memory image;
  - the `startAssembly` driver, which saves the range 0x3000 .. 0x3000 + lines − 1.

  `AssemblerLogic.cpp` and `assembler.cpp` are two near-identical copies of this pipeline. They are modelled once, with an `Edition` parameter for the two differences:
  - `AssemblerLogic.cpp` guards token counts in `assembleInstruction` and has no `WORD`/`BYTE` case;
  - `assembler.cpp` has no such guards and does encode `WORD`/`BYTE`.
- **The instruction-cycle engine** (`LC3Instructions`). Its phases are fetch, decode, evaluateAddress, fetchOperands, execute and store.
  - It is a `Cpu.Machine` class with register and latch fields and a 65536-word memory array.
  - Each phase method is proved equal to a phase function on a state snapshot.
  - The six phases together are proved to refine an independent reference semantics of the LC-3 instruction set (`Isa.Step`), for every opcode the engine runs.
- **The phase sequencer.** This is `on_nextCycle_clicked` and its copy `on_RUN_clicked`.
  - A counter `sc` ∈ {1..6, −1} chooses the phase for each click; −1 is final.
  - `Sequencer.Console` holds the counter, the machine and the memory image file, with the reset, assemble-and-load and upload handlers.
  - Six clicks from phase 1 are proved to be exactly one reference instruction step.

Round trips between the parts are proved in `Bridge`: a word the assembler emits for a branch, `JSR`, `LEA`, `LD` or `ST` to a label makes the machine reach or use that label's address. `Scenarios` works three examples through the whole model: `DEC -3` encodes as 0xFFFD, `WORD 10` encodes as 0x0010, and a three-instruction program runs to HALT in thirteen clicks.

Where the code departs from its own comments or from the LC-3 definition, the model follows the code:
- The second pass advances its cursor only when a line validates and converts, while the first pass advances for every statement (`AssemblerLogic.cpp:66-69` against `120-131` and `143-158`). If every statement is accepted, the two cursors agree (`Passes.CursorsAgree`). A rejected statement puts them out of step at that line (`Passes.CursorsPart`), until an `ORG` resets both. A rejected statement therefore does not leave a zero word behind: the next accepted word takes its address.
- `STI` dereferences memory at store time, not at address-evaluation time (`lc3instructions.cpp:456-466`). `LDI` does it at address-evaluation time (`248-254`).
- `LEA` leaves the condition codes alone (`lc3instructions.cpp:440-444`).
- The validator accepts the operand of `WORD` and `BYTE` when it reads as unsigned decimal (`assembler.cpp:473-480`), but the encoder reads the same operand as hexadecimal (`assembler.cpp:291`, `308`). So `WORD 10` is accepted and emits 0x0010 (`DataFormat.WordOperandReadAsHex`, `Scenarios.WordTen`).
- `startAssembly` saves the range starting at 0x3000 whatever `ORG` said (`assembler.cpp:621`), so a program placed elsewhere by `ORG` is not saved (`Driver.OrgEscapesRange`).

## Model

| member | source | states |
|---|---|---|
| Codec.ToBinaryIsLowBits | AssemblerLogic.cpp:586-597 | for 1 ≤ bits ≤ 16, `toBinary(v, bits)` has exactly `bits` characters, all '0'/'1', whose unsigned value is v mod 2^bits; the right-justification padding never changes it |
| Codec.ToBinarySignedRoundTrip | AssemblerLogic.cpp:586-597 | for −2^(bits−1) ≤ v < 2^(bits−1), sign-extending the bit string read back gives v |
| Codec.ToBinaryUnsignedRoundTrip | assembler.cpp:31-42 | for 0 ≤ v < 2^bits, the bit string read as unsigned is v |
| Codec.ToUIntOfBinary | AssemblerLogic.cpp:143-145 | `toUInt(&ok, 2)` accepts every '0'/'1' string of 1..32 characters and returns its binary value |
| Tokenizer.Split | AssemblerLogic.cpp:419-454 | the character loop returns exactly the specification `SplitSpec`: the non-empty pieces, between separators, of the text before the first ';' |
| Tokenizer.SplitTokens | assembler.cpp:346-383 | no token contains the separator or a ';' |
| Tokenizer.PiecesJoin | AssemblerLogic.cpp:419-454 | the pieces, rejoined with the separator in order, give back the text, so tokens keep their left-to-right order |
| Syntax.Classify | AssemblerLogic.cpp:223 | the keyword is BR exactly when the opcode token starts with "BR" (any n/z/p suffix) |
| Syntax.ClassifyKeyword | AssemblerLogic.cpp:471-575 | every keyword's spelling classifies back to that keyword |
| Validator.ValidateChecks | AssemblerLogic.cpp:456-578 | an empty token list and an unknown keyword are rejected; an accepted statement has exactly its keyword's token count, registers in register positions and defined labels in label positions; the last operand of an accepted ADD/AND is a register when it starts with 'R' and an immediate in [−16, 15] otherwise, and that of LDR/STR an offset in [−32, 31] (see also `Validator.Reg3Operand`, `Imm5Range`, `Offset6Range` for the converse) |
| Validator.OperandsChecked | assembler.cpp:386-508 | the operand rules of the assembler.cpp copy for each keyword: token count, registers, defined labels, ADD/AND's last operand a register if it starts with 'R' and otherwise an immediate in [−16, 15], LDR/STR's offset in [−32, 31], WORD/BYTE operands that read as unsigned decimal, DEC as signed decimal and HEX as unsigned hexadecimal |
| Validator.Imm5Range | AssemblerLogic.cpp:471-489 | ADD/AND with an immediate operand (first character dropped) are accepted exactly when it is in [−16, 15] |
| Validator.Reg3Operand | AssemblerLogic.cpp:470-480 | an ADD or AND with two register operands and a last operand starting with 'R' is accepted if and only if that operand is a register |
| Validator.Offset6Range | AssemblerLogic.cpp:520-530 | LDR/STR are accepted exactly when the decimal offset is in [−32, 31] |
| Validator.UndefinedLabelRejected | AssemblerLogic.cpp:490-519 | a BR/JSR/LD/LDI/LEA/ST/STI whose label is not in the symbol table is rejected |
| Validator.LabelsMonotone | AssemblerLogic.cpp:490-519 | a statement accepted with a symbol table stays accepted with a larger one |
| Encoder.NormalizeTokens | AssemblerLogic.cpp:174-177 | the normalising loop gives the function `Normalized` of the tokens |
| Encoder.NormalizedTokens | AssemblerLogic.cpp:174-177 | no normalised token contains a comma or surrounding white space |
| Encoder.Lookup | AssemblerLogic.cpp:233 | `labels.value(name)` of a missing label is 0 |
| Encoder.MissingOperandsReadEmpty | assembler.cpp:122-282 | every keyword but WORD and BYTE reads at most three operands, and a missing operand is read as the empty token: appending empty tokens leaves the encoding unchanged |
| Encoder.EncodeData | assembler.cpp:285-317 | the WORD/BYTE loop returns the trimmed lines of `DataLines`, one per operand that converts, so a one-operand statement gives the word stated by `DataFormat.WordDirective` and `DataFormat.ByteDirective` |
| DataFormat.HexDirective | assembler.cpp:331-341 | `HEX v` gives "" when v is not unsigned hexadecimal, else 16 bits whose value is v mod 2^16 |
| DataFormat.DecDirective | assembler.cpp:319-329 | `DEC v` gives "" when v is not a signed decimal, else 16 bits whose value is v mod 2^16, the `int16_t` two's complement |
| DataFormat.WordDirective | assembler.cpp:285-300 | `WORD v` with one operand gives "" when v does not read as hexadecimal, else 16 bits whose value is v mod 2^16 |
| DataFormat.ByteDirective | assembler.cpp:302-317 | `BYTE v` with one operand gives "" when v does not read as hexadecimal, else 16 bits (8 zero bits, then 8 bits) whose value is v mod 2^8 |
| DataFormat.WordOperandReadAsHex | assembler.cpp:473-480 | a one-operand WORD whose operand reads as unsigned decimal is accepted, and the word emitted is the operand read as hexadecimal, mod 2^16 |
| DataFormat.DataOnlyInDriver | AssemblerLogic.cpp:392-416 | AssemblerLogic.cpp answers "" for WORD and BYTE, while assembler.cpp emits 16 bits for a one-operand statement whose operand reads as hexadecimal |
| InstructionFormat.EncodeMatchesLayout | assembler.cpp:124-282 | each instruction's bit string has 16 characters and encodes the independent arithmetic layout `Expected`: opcode, register fields, n/z/p bits, 5-bit immediates, and offsets of `label − current − 1` mod 2^9 (mod 2^11 for JSR) |
| InstructionFormat.AssembleInstruction | AssemblerLogic.cpp:169-390 | the assembled string of any instruction is 16 characters and `toUInt(&ok, 2)` yields `Expected`, unless the AssemblerLogic.cpp guard returns "" |
| InstructionFormat.AssembledOpcode | AssemblerLogic.cpp:169-390 | the top four bits are the keyword's opcode (0001 ADD, 0101 AND, 0000 BR, 1100 JMP/RET, 0100 JSR/JSRR, 0010 LD, 1010 LDI, 0110 LDR, 1110 LEA, 1001 NOT, 0011 ST, 1011 STI, 0111 STR, 1111 HALT) |
| InstructionFormat.ArithFields | assembler.cpp:124-157 | ADD/AND: opcode in bits 15..12, DR in 11..9, SR1 in 8..6; bits 5..0 are the second source register when the last operand starts with 'R', otherwise bit 5 set and the immediate mod 32 |
| InstructionFormat.BranchField | AssemblerLogic.cpp:223-236 | BR sets n/z/p exactly when its keyword contains 'n'/'z'/'p', followed by the 9-bit offset |
| InstructionFormat.FixedWords | assembler.cpp:251-282 | RET encodes as the 16-bit word 0xC1C0 and HALT as 0xF025, whatever their operands |
| Passes.Next | AssemblerLogic.cpp:59 | the 16-bit cursor advances by one, wrapping from 0xFFFF to 0 |
| Passes.FirstPass | AssemblerLogic.cpp:27-72 | the loop builds the symbol table of the function `First` from cursor 0x3000 |
| Passes.LabelsDefined | assembler.cpp:65-110 | a name is in the symbol table exactly when a `NAME,` line before END defines it |
| Passes.BareLabelAliasesNext | AssemblerLogic.cpp:54-61 | a label alone on its line is bound to the cursor without advancing it, and the next statement's word is written at that label's address |
| Passes.AfterEndIgnored | AssemblerLogic.cpp:62-65 | lines after END change neither the symbol table, the cursor nor the memory image of either pass |
| Passes.Translate | AssemblerLogic.cpp:118-131 | a statement yields a word only when it validates and its bit string converts, stored as a 16-bit value |
| Passes.Store | AssemblerLogic.cpp:140-164 | an accepted statement writes its word at the cursor and advances it; a rejected one changes neither memory nor cursor |
| Passes.SecondLine | assembler.cpp:511-601 | one line of the second pass: ORG moves the cursor, END stops, labels and statements go through `Store` |
| Passes.SecondPass | AssemblerLogic.cpp:75-166 | the loop leaves memory equal to the image of the function `Second` from cursor 0x3000 |
| Passes.CursorsAgree | AssemblerLogic.cpp:27-166 | when every statement is accepted, the two passes end with the same cursor |
| Passes.CursorsPart | AssemblerLogic.cpp:66-69 | on a single statement the cursors agree exactly when the statement is accepted |
| Passes.SecondWritesRange | AssemblerLogic.cpp:143-158 | without ORG, the second pass writes only as many cells as there are lines, from its start, and its cursor stays in that range |
| MemoryFile.WriteToFile | binfile.cpp:16-31 | the saved words are those of the inclusive address range, in order |
| MemoryFile.ReadFromFile | binfile.cpp:34-53 | loading writes the words at consecutive addresses from the start and leaves every other cell alone |
| MemoryFile.ReloadRestoresRange | binfile.cpp:16-53 | loading a saved range back over a base image restores the range and keeps the rest of the base |
| Driver.Assembly | assembler.cpp:604-624 | no lines gives failure code 1 and nothing saved; otherwise the k-th saved word is the assembled memory at 0x3000 + k, and for fewer than 0xD000 lines there is one word per line |
| Driver.StartAssembly | assembler.cpp:604-624 | the driver's outcome is `Assembly(lines)` |
| Driver.LastAddressValue | assembler.cpp:621 | the saved range ends at 0x3000 + lines − 1 |
| Driver.ReloadReproducesImage | assembler.cpp:615-621 | without ORG, loading the saved words into cleared memory at 0x3000 reproduces the second pass's image |
| Driver.OrgEscapesRange | assembler.cpp:621 | a statement placed by ORG is written by the second pass but lies outside the saved range |
| Cpu.Flags | lc3instructions.cpp:7-20 | exactly one of N (4), Z (2), P (1) is set: Z iff the result is 0, N iff bit 15 is set |
| Cpu.Machine.UpdateFlags | lc3instructions.cpp:7-20 | only the condition codes change, to `Flags(result)` |
| Cpu.Machine.Fetch | lc3instructions.cpp:22-29 | MAR := PC, MDR := IR := mem[PC], PC := PC + 1 mod 2^16, nothing else changes |
| Cpu.Machine.IsHalt | lc3instructions.cpp:508-510 | true exactly when the fetched word is 0xF025 |
| Cpu.Machine.Decode | lc3instructions.cpp:31-220 | the latches take the opcode, register fields and sign-extended offsets of IR, as `Decoded` |
| Cpu.Machine.EvaluateAddress | lc3instructions.cpp:222-296 | the effective address of each opcode, with MAR for LD/LDR and LDI's indirection, as `AddressEvaluated` |
| Cpu.Machine.FetchOperands | lc3instructions.cpp:298-347 | the operand reads of the loads, as `OperandsFetched` |
| Cpu.Machine.Execute | lc3instructions.cpp:349-386 | GateALU for ADD/AND/NOT, other opcodes unchanged, as `Executed` |
| Cpu.Machine.Store | lc3instructions.cpp:388-506 | register, condition-code, PC and memory commits of each opcode, as `Stored` |
| Refinement.FieldsAgree | lc3instructions.cpp:31-220 | decode's mask-and-shift fields are the instruction's opcode, DR, SR1, SR2, bit 5 and bit 11 |
| Refinement.Extend9Agrees | lc3instructions.cpp:31-220 | offset9 is the sign-extended low 9 bits, in [−256, 255] |
| Refinement.Extend6Agrees | lc3instructions.cpp:31-220 | offset6 is the sign-extended low 6 bits, in [−32, 31] |
| Refinement.Extend11Agrees | lc3instructions.cpp:31-220 | offset11 is the sign-extended low 11 bits, in [−1024, 1023] |
| Refinement.Extend5Agrees | lc3instructions.cpp:31-220 | imm5 is the sign-extended low 5 bits, in [−16, 15] |
| Refinement.FlagsAgree | lc3instructions.cpp:7-20 | the engine's condition codes are the reference ones |
| Refinement.ConditionAgrees | lc3instructions.cpp:390-405 | BR's test `nzp & CC` is the reference branch condition |
| Refinement.CycleRefinesIsa | lc3instructions.cpp:22-506 | fetch through store on any state is exactly one reference instruction step on the architectural state (R0–R7, PC, CC, memory) |
| Sequencer.AdvanceKeepsCounter | Logic.cpp:417-466 | the counter stays in {1..6, −1}; from k it moves to k mod 6 + 1 or to −1 |
| Sequencer.HaltIsFinal | Logic.cpp:409-416 | at −1 no click changes anything |
| Sequencer.CounterCycles | Logic.cpp:417-466 | after n clicks from phase k the counter is (k − 1 + n) mod 6 + 1, or −1 |
| Sequencer.HaltStops | Logic.cpp:417-424 | fetching 0xF025 sets the counter to −1, and the machine stays as fetch left it |
| Sequencer.SixClicksAreOneCycle | Logic.cpp:417-466 | six clicks from phase 1 without HALT run fetch through store once and return to phase 1 |
| Sequencer.SixClicksExecute | lc3.cpp:58-118 | six clicks from phase 1 without HALT are one reference instruction step |
| Sequencer.ClearedIdempotent | Logic.cpp:370-405 | resetting twice is resetting once |
| Sequencer.ClearedRunsNothing | Logic.cpp:380-389 | after a reset, one cycle only moves PC to 1 (cleared memory holds a never-taken BR) |
| Sequencer.ResetThenLoad | Logic.cpp:357-367 | for a program without ORG of 1 to 0xCFFF lines, after a reset and the assembly, PC is 0x3000 and every cell below 0xFFFF holds the assembled image |
| Sequencer.Console.constructor | Logic.cpp:12-17 | the counter starts at 1 with zeroed registers and memory |
| Sequencer.Console.NextCycle | Logic.cpp:407-468 | one click runs exactly the phase `sc` chooses and moves the counter, as `Advance` |
| Sequencer.Console.Run | lc3.cpp:58-118 | the RUN button is the same single click |
| Sequencer.Console.Reset | Logic.cpp:370-405 | cells 0..0xFFFE become 0, PC/MDR/MAR/IR become 0, the counter becomes 1; R0–R7 and CC stay |
| Sequencer.Console.LoadProgram | Logic.cpp:362-363 | the saved words are loaded at 0x3000 and PC is 0x3000 |
| Sequencer.Console.OnAssemble | Logic.cpp:357-367 | failure changes nothing; success saves the words, loads them and sets PC to 0x3000, with the counter untouched |
| Sequencer.Console.OnUpload | lc3.cpp:120-134 | the assembly outcome is ignored; whatever the file then holds is loaded and PC is 0x3000 |
| Bridge.EmittedInstruction | AssemblerLogic.cpp:118-131 | the word the second pass writes for an accepted instruction is `Expected` |
| Bridge.NearReaches | lc3instructions.cpp:222-228 | a 9-bit offset of T − A − 1, evaluated with PC = A + 1, reaches T whenever T − A − 1 is in [−256, 255] |
| Bridge.BranchToLabel | AssemblerLogic.cpp:223-236 | an assembled BR to a near label jumps there exactly when one of its n/z/p bits matches CC |
| Bridge.SubroutineToLabel | AssemblerLogic.cpp:255-276 | an assembled JSR to a label in range saves the return address in R7 and jumps to the label |
| Bridge.AddressOfLabel | AssemblerLogic.cpp:329-338 | an assembled LEA loads the label's address |
| Bridge.LoadFromLabel | AssemblerLogic.cpp:295-304 | an assembled LD loads the word at the label |
| Bridge.StoreToLabel | AssemblerLogic.cpp:356-366 | an assembled ST writes the register at the label and changes no other cell |
| Bridge.HaltIsRecognised | AssemblerLogic.cpp:387-390 | the engine halts on the word the assembler emits for HALT |
| Bridge.BranchCycle | lc3instructions.cpp:390-405 | the engine's six phases on an assembled BR set PC to the label or to the next word, by the condition codes |
| Scenarios.DecMinusThree | assembler.cpp:319-329 | `DEC -3` is accepted and encodes as 1111111111111101 (0xFFFD) |
| Scenarios.WordTen | assembler.cpp:285-300 | `WORD 10` is accepted and encodes as 0x0010 |
| Scenarios.ClearAddHalt | Logic.cpp:407-468 | the words 0x5260 (`AND R1, R1, #0`), 0x1265 (`ADD R1, R1, #5`) and 0xF025 (`HALT`) at 0x3000 stop after 13 clicks with R1 = 5 and PC = 0x3003, and stay stopped |

## Left out

- The Qt user interface: the tables, the dialogs, the sample program text and `memorytablemodel.cpp` are display only. The message boxes and warnings have no effect on the model's state.
- File I/O is not modelled. `readFile`, `QFile` and the `QDataStream` plumbing are out; the memory image file is a sequence of words and the program is a sequence of lines.
- The lines reach the passes already trimmed, as `readFile` delivers them. `Passes.WellFormedLine` states this.
- Passes.FirstPass: requires that no line is a bare `ORG`. The source would read a missing token at `AssemblerLogic.cpp:38-40`.
- Validator.IsRegister answers false for an empty or one-character token, where the source reads past the end of the token (`AssemblerLogic.cpp:465`). An empty token does reach it: a piece holding only a tab, as in `NOT R1 \t;c`, trims to "".
- Encoder.Assemble: an operand the statement does not have is read as the empty token wherever no token-count guard stops it. That is every keyword in the `assembler.cpp` edition, and STR (`AssemblerLogic.cpp:379-385`), DEC and HEX (`AssemblerLogic.cpp:392-414`) in the AssemblerLogic edition, whose minimum token count is 0. A statement that validates never reaches this case.
- Text.Trim and Text.Words treat only the ASCII white space characters (space, tab, newline, carriage return, vertical tab, form feed) as white space. Qt's `trimmed()` and the `\s+` split also treat U+0085, U+00A0 and the other Unicode space separators as white space; lines holding those are not modelled.
- Validator.IsRegister reads the register number with Numbers.DecimalDigit, which knows only the ASCII digits. `QChar::digitValue()` (`AssemblerLogic.cpp:465`, `assembler.cpp:395`) also gives a value for the other Unicode decimal digits, so a token like `R` followed by a full-width digit is not modelled.
- Qt's `toInt`/`toUInt`/`split` are modelled as small parsers: an optional sign, an optional `0x` for hex, 32-bit range. The rest of Qt's accepted syntax is not modelled.
- `LC3Memory` and `LC3Registers` are not part of this model. Memory is a 65536-word array, although the source constructs it with 0xFFFF cells. `Reset` clears only cells 0..0xFFFE, as coded.
- Driver.StartAssembly: `startAssembly` is handed the editor text but treats it as a file name, and `BinFile` is not declared in any file. Both are outside the model, so the lines arrive as a parameter. The success path has no `return` statement; the model reads it as success.
- Driver.Assembly: requires that the saved range does not end at 0xFFFF. There the `uint16_t` loop of `writeToFile` would never end.
- Isa.Step: TRAP other than HALT, RTI and the reserved opcodes are executed as no-ops, as the engine has no case for them. Their architectural meaning is not modelled.
- The spacing `ADD R1,R1,#5` (no spaces after the commas) splits into two tokens and is rejected by `Validator.ValidateChecks`. The model states this on token lists, not on the raw line.
