# A verified model of the VADM translator

VADM runs small AmigaDOS programs by translating their 680x0 code to x86-64, one translation unit
(TU) at a time, when the unit is first entered. This project models the translator, its code
generator, its translation cache, its library thunks and jump tables, and its hunk loader in Dafny,
and proves what they promise, down to the bytes that are written.

`dafny verify dfyconfig.toml` checks everything.

## How it fits together

| files | what they model |
|---|---|
| `Base`, `X86`, `Cpu`, `MachineCode` | machine integers and buffers; encoding, decoding and execution of the x86-64 instructions the emitters produce; the bytes of all code, written down literally |
| `CodeGen`, `CodeSize`, `Emit` | `codegen.c`: the emitters as methods on a byte array, and what the emitted save / align / call / restore sequences do |
| `M68k`, `Translation`, `Relation`, `Exactness`, `BranchExact`, `ByteOrder`, `Assembler`, `Meaning`, `TestCases` | the 680x0 subset, also as the manual encodes it, its translation, the correspondence between guest and host states, and where exactly it breaks |
| `OpcodeTable`, `Handlers`, `Translate` | `translate.c`: opcode lookup table, operand extraction, handlers, `setup_tu`, `translate_tu` as methods on the real data structures |
| `TlCache`, `CacheMap` | `tlcache.c`: the bit trie with its nodes on the heap, and the block allocator |
| `Engine`, `Invariant`, `Runs`, `Overrun` | what setting up and translating a unit does, as functions on values; the invariant of every reachable state; whole runs; what becomes of a unit that does not fit |
| `Machine`, `Simulation`, `Blocks`, `WholeRun`, `LoopExample` | an x86 machine that fetches from the code area while `translate_tu` writes into it; the whole-run theorem; an instance |
| `Thunk`, `ThunkResult`, `LibraryCalls`, `JumpTables`, `LibraryRun`, `Libraries` | `execute.c`: thunks, jump tables, library bases, and library calls through all of them |
| `Loader`, `BlockEffects`, `HeaderCheck`, `Relocation`, `HunkFormat`, `RoundTrip`, `LoadedImage` | `loader.c`: the block loop, relocation, and loading of serialised programs |

The methods of `Translate` are proved equal to the functions of `Engine`, about which the invariants and
the whole-run theorem are proved; the methods of `Loader.HunkLoader` likewise to the block functions
above them. C functions called by translated code are an arbitrary function on machine states, of
which the results about call sequences and thunks assume only what the System V AMD64 ABI, sections
3.2.1 and 3.2.2, guarantees.

What the decoder, the encoder, the emitters and the loader share as functions is measured against
references that share nothing with them: `Assembler` against the manual's bit fields, `MachineCode`
against literal bytes, `HunkFormat` and `BlockEffects` against the numbers of the hunk format.

The whole-run theorem is `WholeRun.WholeRunAgrees`. It asks that every instruction is *covered* when
it is executed (`M68k.Covered`): data accesses go to a fixed set of long words, shared by the program
and the libraries, which do not overlap, lie in the lower 2 GB and are kept in host byte order; the
data field of SUBQ is not 0; Z is known at a branch, that is, was last set by TST or SUBQ; JSR goes to
a library; what is moved to A7 stays in the stack. These are the places where the code does less than
the manuals ask. For SUBQ, for branches on a Z that MOVE has set, for byte order, for addresses and for
block sizes, `Exactness`, `BranchExact`, `ByteOrder` and `Relation.EmittedAddress` show exactly when
the code does what the manuals ask, and `Overrun` what happens behind a block that is too small.

Of library functions the theorem asks (`Relation.LibContract`) that, entered with registers and shared
memory in correspondence, they leave them in correspondence, and that they keep the registers and the
stack that AmigaOS promises to keep. The second half is what `LibraryRun.LibraryCallReturns` derives,
for the thunks and tables that `load_library` writes, from the ABI alone.

Two places where code and comments disagree: the stub that `setup_tu` writes is 62 bytes long, not
56 as its comment says (`CodeSize.StubSize`), and `emit_move_imm_to_reg` loads the wrong register for
R8 to R15 (`Emit.MoveImmLoads`). The model follows the code.

## Model

| member | source | states |
|---|---|---|
| `WholeRun.WholeRunAgrees` | translate.c:601-704 | From `setup_tu(entry)` on an empty cache: for every program and every number of units its 680x0 run takes inside the subset, the machine, translating lazily, goes through the blocks of exactly these units in the same order and ends with the same registers, memory, Z (where known) and outside world, or returns to its caller where the guest does. The units entered have to fit their blocks, and at most 64 units to get set up; nothing is asked of units that are never entered. Library functions may read and write the memory they share with the guest. |
| `WholeRun.RunsAgree` | translate.c:652-704 | The same from any reachable state of the engine, by induction over the units. |
| `WholeRun.RunOneUnit` | translate.c:652-704 | One unit that fits, whether its block is pending or done. |
| `WholeRun.TranslateTidy` | translate.c:652-704 | Translating a unit that fits, with successors in the hunks, always succeeds, and loses no block. |
| `WholeRun.ClosedRoute` | translate.c:275-285 | Units that fit and are closed under branches allow a run of any length from each of them. |
| `WholeRun.StartInStep` | translate.c:601-646 | After `setup_tu(entry)` the machine is at the start of the entry's block, and the invariant holds. |
| `LoopExample.TranslatedLoopHalts` | translate.c:601-704 | An instance that meets all assumptions: a loop that fetches ExecBase, stores D0 in memory, calls a library function through JSR, counts down with SUBQ and BNE, and returns with RTS. Translated, it halts for every start value, 0 included (which means 2 to the 32 rounds), with counter 0, the stack pointer behind the return address, and having printed as often as the counter said. |
| `LoopExample.LoopContract` | execute.c:32-67 | A library function that reads a long word from memory and changes the outside world by it meets the contract that the whole-run theorem asks of libraries. |
| `Simulation.SimUnit` | translate.c:681-703 | Running the translated code of a unit, decoded from its bytes, ends in the state that corresponds to the guest's, at the block of the next unit. |
| `Simulation.BranchLands` | translate.c:287-297 | The emitted Jcc and JMP reach the block of the branch target or of the next instruction, whichever the flag says, for any placement of the blocks. |
| `Simulation.BranchInstrs` | translate.c:253-297 | The bytes of a translated branch are exactly these two jumps. |
| `Simulation.DisplacementLands` | translate.c:291-297 | The 32-bit displacement leads from its instruction to the block, forwards or backwards. |
| `Simulation.RetReturns` | translate.c:430-435 | RTS with the initial stack pointer returns to the caller of the program. |
| `Relation.SimInstr` | translate.c:305-496 | Executing the translation of any covered instruction that does not end a unit keeps guest and host in correspondence. |
| `Relation.SimLoad` | translate.c:355-364 | MOVEA and MOVE from memory, with address 4 redirected to the cell that holds ExecBase. |
| `Relation.SimStore` | translate.c:415-416 | MOVE to memory changes one long word and no other, nor the stack. |
| `Relation.SimFlags` | translate.c:440-496 | SUBQ and TST bring the zero flag in step with Z. |
| `Relation.SimJsr` | translate.c:320-331 | JSR d16(A6) calls the entry with A6 pointing to it, and A6 and the stack pointer come back. |
| `Relation.EmittedAddress` | translate.c:77-90 | The emitted displacement addresses what the 680x0 addresses if and only if a short address is below 0x8000 and a long one below 0x80000000. |
| `Exactness.SubqExact` | translate.c:443-465 | The result of SUBQ is right if and only if its data field is not 0. |
| `Exactness.MoveZExact` | translate.c:377-425 | After MOVE and MOVEQ the zero flag is right if and only if it already said whether the moved value is 0. |
| `Exactness.StaleZ` | translate.c:377-388 | The failing case: after MOVEQ #0 with the flag clear before, Z is set and the flag clear. |
| `BranchExact.BranchTaken` | translate.c:253-297 | For every unit that ends in a branch, wherever Z was set last: the machine reaches the block of the unit with which the 680x0 goes on if and only if the last SUBQ or TST, or the flag on entry if there is none, agrees with Z on a zero result, or both successors share a key; otherwise it reaches the block of the other one. |
| `BranchExact.BeqGoesAstray` | translate.c:377-388 | The unit MOVEQ #0 and BEQ: with the flag clear on entry, the machine goes on behind the branch, where the 680x0 takes it. |
| `BranchExact.RunsToBranch` | translate.c:681-703 | The machine gets to the branch together with the guest, and the zero flag is what the last test left there. |
| `Exactness.ExpansionBound` | translate.c:674-703 | A unit of n source bytes becomes at most 3n + 5 bytes of code. |
| `Exactness.FitsIfSmall` | translate.c:674-703 | So a unit of at most 297 bytes stays inside its block. |
| `Exactness.BoundAttained` | translate.c:377-388 | The bound is attained by k MOVEQs and a short branch, for every k. |
| `Exactness.TooLarge` | translate.c:674-674 | Such a unit fits its block if and only if k is at most 147. |
| `Overrun.KeptIffFits` | translate.c:674-703 | A successful translation keeps the invariant if and only if the unit fits its block, which the code does not check (when the block behind has been handed out). |
| `Overrun.OverrunSpoils` | translate.c:674-703 | The code of a unit that does not fit, however far it runs on, leaves the block behind it neither pending nor done. |
| `Overrun.MoveqsSpoil` | translate.c:674-703 | More than 147 MOVEQs and a short branch do this. |
| `Overrun.ForeignByte` | translate.c:621-644 | The reason: among the first 12 bytes that land in the next block there is always one that neither its stub nor its jump has there. |
| `Overrun.TranslationWritten` | translate.c:676-703 | The translation of a unit is written, whether it fits its block or not, as far as the blocks it runs into have been handed out before. |
| `Blocks.EnterPending` | translate.c:629-645 | Running the stub of a pending block calls `translate_tu` with the unit's own address and comes out at byte 128 with registers, flags, guest memory and stack as before, although the stub's first two bytes have been overwritten meanwhile. |
| `Blocks.EnterDone` | translate.c:694-701 | Entering a done block takes one jump to byte 128. |
| `Blocks.StubTransparent` | translate.c:637-644 | The instructions around the call in the stub leave no trace. |
| `Blocks.StubHead` | translate.c:621-644 | The first 128 bytes of a block are the stub's instructions and NOPs up to the translated code. |
| `Machine.RunPlain` | translate.c:681-703 | Fetching and decoding straight code from the code area executes exactly the instructions it was emitted for. |
| `Invariant.SetupKeeps` | translate.c:601-646 | `setup_tu` keeps the invariant, changes no byte of any block handed out before, returns the same block for a known unit without allocating, and leaves a new one pending; if it fails no mapping changes. |
| `Invariant.TranslateKeeps` | translate.c:652-704 | For a unit that fits its block, `translate_tu` keeps the invariant and changes nothing outside the block but free memory; on success the block is done, on failure still pending with its first 128 bytes intact. |
| `Invariant.SetupKeepsBlock` | translate.c:275-285 | Setting up successors in the middle of a branch leaves the code already emitted alone. |
| `Invariant.JumpMakesDone` | translate.c:694-701 | The two patched bytes turn a pending block whose translation is in place into a done one. |
| `Invariant.BlocksAfterWrite` | translate.c:676-703 | A write into one block leaves every other block as it is. |
| `Runs.RunKeeps` | translate.c:601-704 | Over any sequence of `setup_tu` calls and stub executions, with memory running out at any point, in which every unit translated fits its block (which the code does not check): the process survives, the invariant holds, no unit moves, no translation is undone, and at most 64 units are cached. |
| `Runs.ReachableInv` | translate.c:601-704 | From the empty cache, such a sequence only leads to states in which every cached block is pending or done, and all else that the invariant says holds. |
| `Runs.TranslatedOnce` | translate.c:694-701 | In such a sequence, a translated unit is never translated again. |
| `Runs.BlocksDisjoint` | tlcache.c:52-62 | In every state reachable from the empty cache, whether units fit or not, the blocks lie 1024 bytes apart inside the code area and never overlap. |
| `Runs.RoomForUnits` | tlcache.c:52-62 | With no block lost, a unit can be set up if and only if it is known, or memory suffices and fewer than 64 units are known. |
| `Runs.PendingNotDone` | translate.c:694-701 | A block is never pending and done at once. |
| `Translate.Translator.SetupTu` | translate.c:601-646 | The method on trie, allocator and code array does what `Engine.SetupTu` says, for any number of node allocations that still succeed; it aborts, by the assertion of `tc_put_addr`, if and only if an address from 4 GB on is to be put into the cache. |
| `Translate.Translator.TranslateTu` | translate.c:652-704 | The translation loop on the real data structures, through the lookup table and the handlers, does what `Engine.TranslateTu` says, byte for byte, also where it gives up and where the code runs on into the next blocks; it aborts only if a successor of the unit lies at 4 GB or above. |
| `Translate.Translator.Bcc` | translate.c:230-300 | The branch handler: opcode, both successors, then the displacements; refused conditions leave one byte behind. |
| `Translate.Translator.ReadDisplacement` | translate.c:236-251 | The target and the position behind the displacement are those of the branch decoded, for all three sizes; which they are in terms of the bytes is `Assembler.DecodeBranch`. |
| `Translate.Translator.WriteBranchOpcode` | translate.c:253-267 | The opcode of Jcc for NE and EQ. |
| `Translate.Translator.WriteDisplacements` | translate.c:287-297 | Both displacements, each relative to the end of its jump. |
| `Translate.Translator.WriteStub` | translate.c:629-644 | A new block is NOPs with the stub over its start. |
| `Translate.Translator.WriteJump` | translate.c:698-700 | The jump at the start of a translated block. |
| `Translate.Translator.CallHandler` | translate.c:684-693 | The handler found in the table accepts, refuses and writes as the instruction's decoding says. |
| `Translate.UnitEnds` | translate.c:681-703 | When the loop ends, all code it has written adds up to the unit's translation. |
| `OpcodeTable.InitOpcInfoLookupTbl` | translate.c:570-594 | For any table, the nested loops give every one of the 65536 opcodes the first entry that accepts it. |
| `OpcodeTable.MostSpecific` | translate.c:545-594 | If the table is sorted by descending number of mask bits, that entry is a most specific one of those that accept the opcode, and there is none only if none accepts. |
| `OpcodeTable.TableSorted` | translate.c:551-564 | The table is sorted that way. |
| `OpcodeTable.RowsAccept` | translate.c:551-564 | Which opcodes each row accepts, by mask, addressing mode and destination mode. |
| `OpcodeTable.TableDecodes` | translate.c:551-594 | Looking up an opcode and asking the handler found accepts exactly the instructions that the decoder accepts, as the same instruction; `Assembler.DecodeExact` says which these are. |
| `OpcodeTable.TableTerminals` | translate.c:551-564 | Terminal rows are exactly those of the instructions that end a unit. |
| `OpcodeTable.ModeBits` | translate.c:502-540 | Which bit of the effective address masks stands for which addressing mode. |
| `Assembler.AssembledDecodes` | translate.c:230-496 | Memory that holds an instruction as the manual encodes it, bit field by bit field, for every instruction of the subset and all registers, constants, addresses and displacements, decodes to that instruction, with the address behind it. |
| `Assembler.Disassemble` | translate.c:551-594 | Conversely, whatever is decoded is in memory as the manual encodes it. |
| `Assembler.DecodeExact` | translate.c:551-594 | Both together: the decoder accepts exactly what the manual's encoding produces, as the instruction meant. |
| `Assembler.DecodeBranch` | translate.c:236-279 | BNE and BEQ with an 8, 16 or 32-bit displacement d, in two's complement, at pc branch to pc + 2 + d, and go on at pc + 2, pc + 4 or pc + 6. |
| `Meaning.MoveqExtends` | translate.c:377-388 | MOVEQ gives its data byte in the low 8 bits and bit 7 of it in all others. |
| `Meaning.JsrEntry` | translate.c:318-331 | JSR d(A6) calls A6 + d modulo 2 to the 32, forwards and backwards. |
| `Meaning.ShortAddresses` | translate.c:77-83 | A 16-bit address is sign-extended by the 680x0, which the translation does not do. |
| `Meaning.SubqSubtracts` | translate.c:440-467 | SUBQ subtracts 1 to 8 modulo 2 to the 32 and sets Z if nothing is left. |
| `Meaning.OthersKept` | translate.c:305-496 | No instruction but JSR changes any other register or long word than its destination, nor the outside world. |
| `Handlers.ExtractOperand` | translate.c:54-104 | The operand of an addressing mode, and the position behind its extension words, as the decoder has them; `Assembler.AssembledDecodes` pins them to the bytes. |
| `Handlers.X86EncodeMoveMemToAreg` | translate.c:117-136 | The written bytes are the encoding of a load into the address register's host register, with A4 and A7 swapped. |
| `Handlers.X86EncodeMoveMemToDreg` | translate.c:139-150 | The same for a data register. |
| `Handlers.X86EncodeMoveImmToAreg` | translate.c:153-169 | The written bytes are the encoding of loading a constant into an address register. |
| `Handlers.X86EncodeMoveImmToDreg` | translate.c:172-180 | The same for a data register. |
| `Handlers.X86EncodeMoveDregToMem` | translate.c:183-194 | The written bytes are the encoding of a store of a data register. |
| `Handlers.X86EncodeMoveDregToDreg` | translate.c:197-206 | The written bytes are the encoding of a move between data registers. |
| `Handlers.Jsr` | translate.c:305-339 | JSR d16(A6) is accepted and translated, everything else refused without output. |
| `Handlers.EmitLibraryCall` | translate.c:325-331 | The ten bytes of a library call. |
| `Handlers.Movea` | translate.c:343-372 | MOVEA.L from absolute addresses and constants, with address 4 redirected; anything else refused without output. |
| `Handlers.Moveq` | translate.c:377-388 | MOVEQ with its sign-extended constant. |
| `Handlers.Move` | translate.c:393-425 | MOVE.L in its four operand combinations; anything else refused without output. |
| `Handlers.RtsHandler` | translate.c:430-435 | RTS becomes RET. |
| `Handlers.Subq32` | translate.c:440-467 | SUBQ.L on a data register; anything else refused without output. |
| `Handlers.Tst32` | translate.c:471-496 | TST.L on a data register; anything else refused without output. |
| `Handlers.Sizes` | translate.c:117-206 | The length of each translated instruction. |
| `X86.DecodeEnc` | codegen.c:59-172 | Decoding undoes encoding for every emitted instruction form, whatever bytes follow. |
| `X86.DisassembleEncAll` | translate.c:681-703 | The bytes of an instruction sequence consist of exactly these instructions. |
| `MachineCode.EncoderExact` | codegen.c:59-172 | The encoder writes the bytes that the x86-64 manuals give, for every instruction form, register and operand. |
| `MachineCode.RegisterMap` | codegen.c:26-44 | Which x86-64 register, by its number in the encodings, holds which 680x0 register. |
| `MachineCode.TranslationExact` | translate.c:117-496 | The exact bytes of the translation of every instruction that does not end a unit. |
| `MachineCode.StubExact` | translate.c:629-644 | The 62 bytes of a stub. |
| `MachineCode.ThunkExact` | execute.c:32-67 | All bytes of a thunk, for every argument string with up to six arguments. |
| `MachineCode.PutStrCode` | libs/libdos.c:184-184 | PutStr's thunk moves D1 to EDI. |
| `MachineCode.OpenLibraryCode` | libs/libexec.c:123-123 | OpenLibrary's thunk moves D0 to ESI, then A1 to EDI. |
| `MachineCode.CloseLibraryCode` | libs/libexec.c:103-103 | CloseLibrary's thunk moves A1 to EDI. |
| `TestCases.MoveaLoads` | translate.h:57-59 | The test cases for MOVEA from memory, with address 4 replaced as outside the tests. |
| `TestCases.MoveaConstant` | translate.h:58-58 | The test case for MOVEA of a constant. |
| `TestCases.MoveqCases` | translate.h:60-61 | The test cases for MOVEQ. |
| `TestCases.MoveLoad` | translate.h:62-62 | The test case for MOVE from memory. |
| `TestCases.MoveConstant` | translate.h:63-63 | The test case for MOVE of a constant. |
| `TestCases.MoveStore` | translate.h:64-64 | The test case for MOVE to memory. |
| `TestCases.MoveRegister` | translate.h:65-65 | The test case for MOVE between registers. |
| `TestCases.OtherCases` | translate.h:66-68 | The test cases for SUBQ, TST and JSR. |
| `Emit.EmitMoveRegToReg` | codegen.c:59-87 | Prefix, opcode and operand byte encode the move asked for, in both modes and for all registers. |
| `Emit.EmitMoveImmToReg` | codegen.c:90-115 | The bytes written for any register, and that they encode the move asked for unless it is to R8..R15. |
| `Emit.MoveImmLoads` | codegen.c:96-103 | The emitted bytes load the register asked for if and only if it is not one of R8..R15. |
| `Emit.MoveImmWrong` | codegen.c:96-98 | For R8..R15 they load one of RAX..RDI instead. |
| `Emit.EmitPushReg` | codegen.c:118-132 | PUSH of any register. |
| `Emit.EmitPopReg` | codegen.c:135-149 | POP of any register. |
| `Emit.EmitAbsCallToFunc` | codegen.c:152-172 | The bytes of the aligned call sequence. |
| `Emit.EmitSaveAmigaosRegisters` | codegen.c:179-186 | The loop pushes the five registers in table order. |
| `Emit.EmitRestoreAmigaosRegisters` | codegen.c:189-196 | The loop pops them in the opposite order. |
| `Emit.EmitSaveProgramState` | codegen.c:204-213 | Pushes of all nine registers and the flags. |
| `Emit.EmitRestoreProgramState` | codegen.c:216-225 | The pops that undo them. |
| `Emit.EmitTransparentCall` | translate.c:637-644 | Save, load the argument, call, restore, as `setup_tu` strings them together. |
| `CodeGen.TransparentCallEffect` | codegen.c:152-225 | Around any function that follows the ABI, and for any stack alignment, the sequence restores all 16 registers, the flags and the stack from RSP upwards; the function finds its argument in RDI and RSP aligned to 16 bytes. |
| `CodeGen.AbsCallEffect` | codegen.c:152-172 | The call sequence alone keeps what the ABI keeps, and hands on the function's results. |
| `CodeGen.PopsRestore` | codegen.c:175-196 | Pops in reverse order undo pushes, for any list of registers and whatever happens in between above the saved values. |
| `CodeSize.StubSize` | translate.c:621-626 | The stub is 62 bytes long, whatever its addresses. |
| `TlCache.TranslationCache.constructor` | tlcache.c:24-48 | An empty cache. |
| `TlCache.TranslationCache.GetCodeBlock` | tlcache.c:52-62 | The next block of 1024 bytes, or none when the area is used up. |
| `TlCache.TranslationCache.PutAddr` | tlcache.c:69-93 | Walking and extending the trie maps the key to the address and changes no other key; running out of memory midway changes no lookup. |
| `TlCache.TranslationCache.GetAddr` | tlcache.c:98-109 | The walk finds the address stored for the key, or nothing if there is none. |
| `TlCache.TranslationCache.AddChild` | tlcache.c:77-84 | Appending an empty node keeps the trie in shape and all lookups. |
| `TlCache.MissingPath` | tlcache.c:102-107 | Where the path breaks off, the key is not mapped. |
| `TlCache.PrefixIsKey` | tlcache.c:71-76 | Following the 21 bits from the top one down identifies the address modulo 2 to the 21. |
| `CacheMap.LookupFindsLast` | tlcache.c:65-109 | Of any sequence of puts, failing ones included, the resulting map has the value of the last successful one for the key, or nothing. |
| `CacheMap.PutAll` | tlcache.c:65-93 | Any sequence of puts on an empty trie, with memory running out at any point, leads to that map. |
| `CacheMap.PutsThenLookup` | tlcache.c:65-109 | On a new cache, after any sequence of puts, the walk for an address finds what the last successful put for its key stored, and nothing if and only if there was none. |
| `CacheMap.HunksDoNotAlias` | tlcache.c:65-67 | No two addresses in the loader's hunks share a key. |
| `CacheMap.Aliases` | tlcache.c:71-76 | Two addresses share a key if and only if they are a multiple of 2 MB apart. |
| `Thunk.EmitThunkForFunc` | execute.c:32-67 | The bytes of a thunk, for every argument string with up to six arguments. |
| `Thunk.EmitArgMoves` | execute.c:49-52 | The argument moves, in the order of the string; `MachineCode.ThunkExact` gives their bytes. |
| `Thunk.EmitCallToLogFuncName` | execute.c:22-29 | The call of the logging function. |
| `Thunk.ThunkCorrect` | execute.c:32-67 | With no move in another's way and the result in D0: the function is called with RSP aligned and with arguments 0 to 5 in RDI, RSI, RDX, RCX, R8 and R9, each the low half of the register that the string names for it; D0 receives the result, and D2-D7, A2-A7 and the caller's stack are unchanged at the RET. |
| `Thunk.ThunkCalls` | execute.c:32-67 | A thunk calls the logging function with the name, then the function, and nothing else touches the outside world. |
| `Thunk.ArgumentsAre` | execute.c:48-52 | The six argument registers one by one are what the statements about argument k speak of. |
| `Thunk.HexDigits` | execute.c:48-58 | The digits of an argument string, in either case, name registers 0 to 15. |
| `Thunk.ArgsArriveIff` | execute.c:48-52 | For all register contents every argument arrives in the register that the ABI gives it, if and only if no move overwrites a register that a later one reads, other than with its own value, and none comes from A7. |
| `Thunk.DeliveredIffClear` | execute.c:49-52 | The same for any sequence of moves with distinct destinations. |
| `Thunk.ResultExact` | execute.c:57-62 | Unless it is to go to A4, the result arrives in its register if and only if that is none of D2, D3, A2, A6 and A7, or held the same value before. |
| `Thunk.ResultInA4` | execute.c:57-62 | A result for A4 goes to the stack pointer instead. |
| `ThunkResult.ResultArrivesIff` | execute.c:57-62 | The result arrives for all functions that follow the ABI and in all states if and only if it is to go to none of D2, D3, A2, A4, A6 and A7. |
| `ThunkResult.A4Restored` | execute.c:57-62 | A result for A4 becomes the stack pointer, and A4 is then restored from the memory it points to. |
| `ThunkResult.PopsLoad` | codegen.c:189-196 | Which stack word each register is restored from. |
| `Thunk.ThunkEffect` | execute.c:32-67 | What a thunk does to registers and stack, for any result register but A4. |
| `Thunk.ImplementedArgs` | libs/libexec.c:103-123 | The argument strings of CloseLibrary and OpenLibrary, and that of PutStr, are delivered. |
| `Thunk.MakeLibraryArgs` | libs/libexec.c:48-48 | The argument string of MakeLibrary, which has no implementation, would not be. |
| `LibraryCalls.ThunkKeepsContract` | execute.c:32-67 | A thunk called with a return address keeps the registers and the stack that the whole-run theorem asks of library calls, passes the caller's arguments in RDI, RSI, RDX, RCX, R8 and R9, and its RET finds that address. |
| `LibraryRun.LibraryCallReturns` | execute.c:32-103 | From end to end: a call of the library base minus an offset, run instruction by instruction from the bytes of the library's block, takes the jump, the thunk and its RET back to the return address; the C function finds the caller's arguments, D0 has its result, and D2-D7, A2-A7 and the caller's stack are kept, as the whole-run theorem asks, provided the C functions follow the ABI. |
| `LibraryRun.UnimplementedStops` | execute.c:86-90 | A call of a function without implementation stops at its INT3. |
| `LibraryRun.EntryStep` | execute.c:88-99 | The entry for an offset leads to the thunk of the last row with that offset. |
| `LibraryRun.ThunkRuns` | execute.c:32-67 | Running the bytes of a thunk executes its instructions and takes the return address from the stack. |
| `LibraryRun.JsrReachesEntry` | translate.c:320-331 | JSR -offset(A6) with the library base in A6 calls the entry for that offset. |
| `JumpTables.SetupJumpTables` | execute.c:70-103 | The loop leaves an entry for every offset, decided by the last row that has it, and all thunks intact. |
| `JumpTables.CallsReachThunks` | execute.c:70-103 | Calling the library base minus an offset reaches exactly the start of that function's thunk, or INT3 if there is none, whenever thunks and highest offset together fit into the block. |
| `JumpTables.EntryWritten` | execute.c:88-99 | Writing an entry spoils no thunk and no entry for another offset. |
| `JumpTables.ThunkWritten` | execute.c:100-100 | Writing a thunk spoils no entry and no other thunk. |
| `Libraries.LibrarySpace.LoadLibrary` | execute.c:106-133 | A library that is there, has a table and gets its mapping, at a page boundary, is loaded, and the base is the end of its 64 KB; a refused mapping leaves an address at which nothing loads; any other failure changes nothing. On success the new block holds both jump tables, as a library call needs them. |
| `Libraries.BasesConsecutive` | execute.c:120-132 | As many bases are returned as calls succeed, each the end of the next 64 KB. |
| `Libraries.AnswersExact` | execute.c:106-133 | From a page boundary on, call k returns a base if and only if its library is there, has a table and is mapped, and no earlier library had its mapping refused; the base is the start plus 64 KB times the number of successes up to and including this one. |
| `Libraries.AfterIs` | execute.c:120-132 | Where the next library would be mapped after any number of calls. |
| `Libraries.FirstBase` | execute.c:120-132 | The first library loaded gets the base 0x210000. |
| `Libraries.NoneAfterFailure` | execute.c:121-129 | After one failed mapping no library is ever loaded again. |
| `Libraries.TablesDisjoint` | execute.c:120-158 | Blocks of different libraries are disjoint; the 17th, and only it, covers the address where ExecBase is kept. |
| `Loader.HunkLoader.LoadProgram` | loader.c:83-214 | The block loop does what the block functions say and always terminates; `BlockEffects` says what that is for each type of block. |
| `Loader.HunkLoader.ReadHeader` | loader.c:87-130 | HUNK_HEADER, with its error cases and the 32-bit arithmetic of its checks. |
| `Loader.HunkLoader.CopyHunk` | loader.c:132-153 | HUNK_CODE and HUNK_DATA. |
| `Loader.HunkLoader.ClearHunk` | loader.c:155-160 | HUNK_BSS. |
| `Loader.HunkLoader.Relocate` | loader.c:162-189 | HUNK_RELOC32, group by group. |
| `Loader.HunkLoader.FixPosition` | loader.c:175-187 | One relocation. |
| `Loader.HunkLoader.SkipSymbolBlock` | loader.c:191-196 | HUNK_SYMBOL. |
| `Loader.Blocks` | loader.c:83-214 | Loading that succeeds ends at or behind the end of the file, with hunk addresses inside the hunk memory. |
| `BlockEffects.CodeBlock` | loader.c:132-152 | Type 1001, in any state: the bytes are copied to the start of the hunk, which becomes the code; more than 65532 are refused. |
| `BlockEffects.DataBlock` | loader.c:132-152 | Type 1002: the bytes are copied, and the code is what it was. |
| `BlockEffects.BssBlock` | loader.c:155-160 | Type 1003: zeros from the start of the hunk on. |
| `BlockEffects.RelocationStep` | loader.c:175-187 | One relocation of a block of type 1004: 0x100000 and the place of the hunk referred to are added to a big-endian long word of at most 0xffefffff; a larger one is refused. |
| `BlockEffects.RelocationRefused` | loader.c:162-173 | A group of type 1004 for a hunk behind the last one is refused. |
| `BlockEffects.SymbolBlock` | loader.c:191-196 | Type 1008: skipped. |
| `BlockEffects.SymbolSkipped` | loader.c:191-196 | Each symbol is skipped modulo 2 to the 30 long words. |
| `BlockEffects.DebugBlock` | loader.c:198-203 | Type 1009: skipped. |
| `BlockEffects.EndBlock` | loader.c:205-208 | Type 1010: the next hunk. |
| `BlockEffects.HeaderEffect` | loader.c:87-130 | Type 1011: hunk memory is zero, and hunks `first` up to `last` get 64 KB each, one after the other, in any state. |
| `BlockEffects.HeaderRefused` | loader.c:89-101 | A header with resident libraries or more than four hunks is refused. |
| `BlockEffects.UnknownBlock` | loader.c:210-212 | Any other type is refused. |
| `BlockEffects.Truncated` | loader.c:15-20 | A file that ends inside a block type runs into its end. |
| `HeaderCheck.HeaderExact` | loader.c:87-130 | Exactly which headers are accepted. |
| `HeaderCheck.SizeCheckWraps` | loader.c:122-125 | The size check compares modulo 2 to the 30 long words. |
| `LoadedImage.LoadedProgram` | loader.c:83-214 | For every program of one to four hunks, written as the AmigaDOS format numbers its blocks, with symbol and debug blocks anywhere and relocations that do not overlap: loading its file fails if and only if a relocation finds a long word that is too large; otherwise it ends at the end of the file, hunk i lies at 0x100000 + i * 0x10000 with exactly the listed long words increased by the address of their hunk, and the rest of the memory is zero. |
| `LoadedImage.RelocatedLong` | loader.c:175-187 | Where a relocation applies to a big-endian long word v of a hunk's contents, memory holds v plus the address, modulo 2 to the 32, big-endian. |
| `ByteOrder.LoadExact` | translate.c:139-150 | The loader leaves long words in big-endian order and the translated MOVE and MOVEA load them in the host's: the value is the 680x0's if and only if the four bytes read the same both ways. |
| `ByteOrder.ContentLoadExact` | loader.c:132-153 | The same in terms of the program file, for a long word of a hunk's contents that is not relocated. |
| `ByteOrder.PointersAsymmetric` | loader.c:175-187 | Of all pointers into the hunks only 0x101000, 0x111100, 0x121200 and 0x131300 read the same both ways. |
| `RoundTrip.LoadSerialized` | loader.c:83-214 | The same for relocations that may overlap, with memory given by applying them in the order of the file, and with the last code hunk as the code. |
| `RoundTrip.RelocsAt` | loader.c:162-189 | A relocation block, read back from its serialised form, applies its relocations in order. |
| `Relocation.ApplyExact` | loader.c:162-189 | Relocations that do not overlap succeed if and only if no listed long word is too large, and change exactly the listed long words. |
| `Relocation.OrderIrrelevant` | loader.c:162-189 | Their order and grouping make no difference. |

## Left out

- Logging, command-line handling, and `exec_program` (fork, wait, signals): operating-system plumbing.
- `mmap`, `dlopen`, `dlsym`, opening of files: the addresses of mapped regions are constants or parameters, success or failure a parameter.
- The libraries' own functions (`libs/libdos.c`, `libs/libexec.c`): only some of their argument strings are used.
- The other error exits of `load_program` (opening and mapping the file, signal handlers).
- Flags other than Z: the translated code never looks at N, V, C and X, and of RFLAGS only ZF is computed by the model's SUB, ADD, AND and TEST; the others are carried along by PUSHFQ and POPFQ.
- General x86 code: only the instruction forms that the emitters produce can be decoded and executed.
- Stack overflow: the stack is assumed to have 256 bytes of room below the stack pointer.
- Guest stores into code: the guest's code bytes and the code area are kept apart from its data.
- Reads behind the guest's hunks: they give 0, where the process would find other memory or crash.
- Reads behind the end of a hunk file: they are one outcome, Fault, where the process finds zeros or crashes.
- Writes through hunk addresses that were never set, or outside the mapped hunks: Fault as well, where the process would overwrite something or crash.
- The hunk block types are those of AmigaDOS; `dos/doshunks.h` is not part of this model.
- `tc_init` leaves the root's child pointers unset; they are taken to be NULL, which the lookups rely on.
- `extract_operand` leaves the operand unset on failure; it is taken to be of no valid type.
- WholeRun.WholeRunAgrees: assumes that `translate_tu` as a C function does not touch the guest's memory and files, that the cache gets the memory it asks for, that every unit entered fits its block (the code does not check), and that library calls do to the shared long words and the outside world what they do in the guest's view (`Relation.LibContract`); data that C functions keep for themselves count as outside world. Running out of memory is covered by `Runs.RunKeeps` and `Invariant.TranslateKeeps`.
- Translate.Translator.TranslateTu: asks that the code for the unit stays inside the code area, behind which the process would overwrite other memory or crash; that it aborts for a successor from 4 GB on is shown in one direction only, since a known successor or a full cache comes first (`Translate.Translator.SetupTu` says exactly when).
- BranchExact.BranchTaken: is about units with a test behind the last library call, which leaves the zero flag as it likes, or without library calls.
- LibraryRun.LibraryCallReturns: the function's effect on the shared long words and the outside world remains that of an arbitrary C function.
- Thunk.EmitThunkForFunc: asks for an argument string whose digits are hexadecimal, with at most six arguments, where the code would use an unset or out-of-range number.
- JumpTables.SetupJumpTables: asks for offsets that are multiples of 6, and for thunks that end before the lowest entry.
