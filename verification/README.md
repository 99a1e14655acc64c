# Verification model of the Weak chain

This project models the parts of the repository whose correctness is hardest to see, and proves what they are for.

- **EOF1 validation and its runtime** (`EofCode`, `FlowGraph`, `EofStack`, `EofHeader`, `EofContainer`, `EofRuntime`,
  `EofReturns`, `EofFormat`, `EofLaws`): the container validator accepts exactly the valid containers, containers
  go through an encoder and back, and validation is sound for every run of the baseline interpreter
  (EIP-3540, EIP-3670, EIP-4200, EIP-4750 and EIP-5450).
- **The advanced interpreter as a compiler** (`LegacyCode`, `LegacyBlocks`, `Interpreters`, `AdvancedAnalysis`,
  `Simulation`, `InterpreterLaws`): checking gas and stack once per basic block agrees with the baseline, which
  checks every instruction; what instructions do and how runs end is stated by opcode number.
- **RBFT consensus** (`Rbft`, `RbftOnce`, `RbftWitness`, `RbftMembership`, `RbftViewChange`): exactly-once execution,
  witnesses under Byzantine faults, and agreement on membership and primary over view changes.
- **Proof-of-work arithmetic** (`Difficulty`) and **EVM memory** (`EvmMemory`).
- **The chain pipeline** (`Mempool`, `Executors`, `Solo`, `WorldState`, `BlockCommit`): replica equality under command
  rewriting, the host overlay and its journal, and replay of committed blocks.

`Arithmetic`, `Bytes`, `Opcodes` and `Options` hold what these share, and `OpcodeTables` states the instruction tables
in numbers. `dafny verify dfyconfig.toml` checks everything.

Loops and objects that the source updates in place are methods and classes here, each tied by its postcondition to a
specification function; the main results are lemmas about those functions. Protocols are event sequences over those
functions, so a theorem about "every run" quantifies over every sequence of events that can happen.

## What is a parameter

- Core EVM instructions: functions from stack and world to stack, world and dynamic cost. They change the stack height
  as the traits say and create no gas; all but SSTORE and the CALL and CREATE families do not look at the gas left.
- Signature checking, message parsing, hashing and serialisation: functions. Where a result needs it, the hypothesis
  is that what is written can be read back (`Faithful`, `Readable`); hash functions are arbitrary, collisions included.
- The network: which messages are delivered, in which order, and which nodes answer, are parts of the run.

## Where code and documentation differ

- `check_cert` is documented to require that all epochs equal the certificate's; the first message's epoch is not
  compared. `CertOk` follows the code, `DocumentedIff` says when that makes no difference, and `FirstEpochIgnored` is a
  certificate for which it does.
- `received_commands` is documented as a duplicate filter of the primary, but nothing is ever inserted; the model has no
  filter. `PrimaryExecutesAsAsked` and `AskedTwice` state the consequence.
- `try_to_be_primary` does not check that newcomers are new, while `handle_new_primary` does; `AgreeIffFresh` and
  `StaleNewcomer` state the consequence.

## Model

| member | source | states |
|---|---|---|
| `Bytes.I16` | weak/pkgs/evmweak/eof.hpp:109-114 | the two bytes read as a two's-complement number: in range, and congruent to their unsigned value modulo 2^16 |
| `Bytes.U16Bytes` | weak/pkgs/evmweak/eof.hpp:118-123 | reading two bytes big-endian and writing the number back gives the same two bytes |
| `Opcodes.StackChange` | weak/pkgs/evmweak/instructions_traits.hpp:224-395 | for every opcode the stack change is between -17 and 1, never takes a height that meets the requirement below zero, and is not positive for terminating opcodes |
| `OpcodeTables.FrontierCosts` | weak/pkgs/evmweak/instructions_traits.hpp:35-108 | the base costs of the first revision, by opcode number |
| `OpcodeTables.FrontierDefined` | weak/pkgs/evmweak/instructions_traits.hpp:35-108 | the opcodes the first revision defines, and no others |
| `OpcodeTables.CostEdits` | weak/pkgs/evmweak/instructions_traits.hpp:110-178 | the costs of every later revision are those of the revision before with the edits listed for it |
| `OpcodeTables.Arities` | weak/pkgs/evmweak/instructions_traits.hpp:224-395 | operands needed and stack change of every opcode outside the families, by number |
| `OpcodeTables.Families` | weak/pkgs/evmweak/instructions_traits.hpp:224-395 | DUPn, SWAPn, LOGn and PUSHn: operands, stack change and immediate bytes for every n |
| `OpcodeTables.Immediates` | weak/pkgs/evmweak/instructions_traits.hpp:224-395 | which opcodes have immediates and how many bytes, and which end a section |
| `OpcodeTables.EofInstructions` | weak/pkgs/evmweak/baseline_instruction_table.cpp:35-43 | EOF code may use exactly what Cancun defines, without JUMP, JUMPI, PC, CALLCODE and SELFDESTRUCT |
| `EofCode.ImmediateOwner` | weak/pkgs/evmweak/eof.cpp:206-230 | every byte belongs to a decoded instruction: it is its opcode or one of its immediates |
| `EofCode.ValidateInstructions` | weak/pkgs/evmweak/eof.cpp:200-232 | accepts exactly the code in which every decoded instruction is defined at Cancun, complete and, for RJUMPV, has a non-empty table; otherwise returns the error of the first bad one |
| `EofCode.ValidateRjumpDestinations` | weak/pkgs/evmweak/eof.cpp:234-288 | true exactly when every relative jump of every instruction lands on an instruction start inside the section |
| `EofCode.CheckRjumpDestination` | weak/pkgs/evmweak/eof.cpp:243-253 | a target inside the code is remembered and every other target refused |
| `EofCode.CollectTargets` | weak/pkgs/evmweak/eof.cpp:260-277 | all targets of one RJUMP, RJUMPI or RJUMPV are collected, or the jumps are not valid |
| `EofCode.AvoidsImmediates` | weak/pkgs/evmweak/eof.cpp:282-287 | once all targets are collected and the immediates marked, true exactly when every jump lands on an instruction |
| `FlowGraph.UniqueHeights` | weak/pkgs/evmweak/eof.cpp:291-402 | on a graph without dead code there is at most one height assignment |
| `FlowGraph.Refuted` | weak/pkgs/evmweak/eof.cpp:333-394 | an instruction that cannot run at its forced height, or an edge that leaves the code or disagrees, means that no consistent assignment exists at all |
| `FlowGraph.AllVisited` | weak/pkgs/evmweak/eof.cpp:396-402 | a finished pass that has left no byte unvisited has found a consistent assignment, and every instruction is reachable |
| `FlowGraph.ReachedTwice` | weak/pkgs/evmweak/eof.cpp:346-358 | a visited successor with another height is reached along two paths at two heights |
| `EofStack.FlowTiled` | weak/pkgs/evmweak/eof.cpp:291-402 | the instructions of checked code tile its bytes and no instruction makes a height negative |
| `EofStack.FlowNext` | weak/pkgs/evmweak/eof.cpp:360-391 | every successor of an instruction is an instruction or lies past the end, and a return has none |
| `EofStack.ValidateSuccessor` | weak/pkgs/evmweak/eof.cpp:346-358 | an unvisited successor gets the height and is queued, a visited one must have it; a refusal means no assignment exists, and no visited height is changed |
| `EofStack.ProcessInstruction` | weak/pkgs/evmweak/eof.cpp:308-394 | one turn of the worklist loop keeps the invariant: visited heights are forced by the start, and finished instructions have passed their height on; an error means no assignment exists |
| `EofStack.Propagate` | weak/pkgs/evmweak/eof.cpp:300-395 | the worklist loop terminates with an error that refutes every assignment, or with every edge of every visited instruction satisfied |
| `EofStack.ValidateMaxStackHeight` | weak/pkgs/evmweak/eof.cpp:291-402 | succeeds exactly when a consistent assignment of one height per instruction exists and all code is reachable; the result is the maximum of that assignment; each error names a fault that is there on a path from the start: a height below the requirement or not left by a return, a call to no section, an edge past the end, two heights at one place, or dead code |
| `EofHeader.ReadSectionId` | weak/pkgs/evmweak/eof.cpp:75-113 | one turn of the parser on a section id, with the number of code sections, or on the terminator: either the cursor is where the layout says, or the error is the verdict |
| `EofHeader.ReadSectionSize` | weak/pkgs/evmweak/eof.cpp:114-145 | one turn of the parser on the sizes of a section: either the cursor is where the layout says, or the error is the verdict |
| `EofHeader.ValidateEofHeaders` | weak/pkgs/evmweak/eof.cpp:55-166 | returns headers exactly for the containers that are laid out by some headers, and then those headers; the error is that of the first position that is wrong |
| `EofHeader.VerdictIsLayout` | weak/pkgs/evmweak/eof.cpp:55-166 | the positional verdict is Ok(h) exactly when the container is an encoding of h followed by bodies of the declared sizes |
| `EofHeader.ParseEncoded` | weak/pkgs/evmweak/eof.cpp:55-166 | round trip: encoding any valid headers and parsing the bytes gives the headers back |
| `EofHeader.ValidateTypes` | weak/pkgs/evmweak/eof.cpp:168-198 | accepts exactly when the first type is (0, 0) and all types are within the limits, and returns the types as stored; otherwise the error of the first type that is not |
| `EofHeader.TypesRoundTrip` | weak/pkgs/evmweak/eof.cpp:178-182 | for all types: the bytes are inputs, outputs and big-endian maximum of each type in order, exactly when reading them gives these types |
| `EofHeader.TypeLimits` | weak/pkgs/evmweak/eof.cpp:188-195 | a type is within the limits exactly for at most 127 inputs, 127 outputs and height 1023; the error tells which |
| `EofHeader.CodeOffsets` | weak/pkgs/evmweak/eof.cpp:423-431 | the offset of each section is the sum of everything before it, without 16-bit truncation |
| `EofHeader.SectionInside` | weak/pkgs/evmweak/eof.hpp:45-49 | every section slice lies inside the container and has the declared non-zero length |
| `EofHeader.ContainerTiles` | weak/pkgs/evmweak/eof.cpp:36-47 | magic and version, the encoded headers, the encoded types, code sections and data tile the container with no gap or overlap |
| `EofHeader.ReadSectionHeaders` | weak/pkgs/evmweak/eof.cpp:463-489 | the unchecked loop terminates in bounds and reads the same section headers |
| `EofHeader.ReadValidEof1Header` | weak/pkgs/evmweak/eof.cpp:463-513 | on every container the checking parser accepts, the unchecked reader returns the same header as the validator |
| `EofFormat.ContainerRoundTrip` | weak/pkgs/evmweak/eof.cpp:36-166 | round trip of whole containers: what the encoder writes for any version, types, sections and data is accepted by the parser, and read back part by part |
| `EofFormat.LayoutIsEncoded` | weak/pkgs/evmweak/eof.cpp:36-166 | every container that is laid out is what the encoder writes for its parts |
| `EofFormat.ExpressibleIs` | weak/pkgs/evmweak/eof.cpp:55-166 | in numbers: 1 to 1024 sections of 1 to 65535 bytes, one type each, and up to 65535 bytes of data |
| `EofFormat.TooManySections` | weak/pkgs/evmweak/eof.cpp:92-104 | a header that gets to the number of sections is refused for it exactly when it is above 1024 |
| `EofContainer.ValidateSection` | weak/pkgs/evmweak/eof.cpp:435-450 | the three checks of one section succeed exactly when it has a unique typed assignment whose maximum is the declared one; the error is that of the first check that fails, with its reason |
| `EofContainer.LayoutUnique` | weak/pkgs/evmweak/eof.cpp:55-166 | a container has at most one set of section headers |
| `EofContainer.ValidateEof1` | weak/pkgs/evmweak/eof.cpp:404-453 | accepts exactly the valid containers and returns their header; otherwise the error is the positional verdict on the headers, that of the first bad type, or that of the first bad section |
| `EofRuntime.JumpIsSuccessor` | weak/pkgs/evmweak/instructions.hpp:729-761 | wherever a relative jump goes at run time, whatever it pops, is a successor the validator considered |
| `EofRuntime.ChecksPass` | weak/pkgs/evmweak/baseline.cpp:110-149 | at a typed state the undefined-instruction, overflow and underflow checks pass |
| `EofRuntime.LocalStep` | weak/pkgs/evmweak/baseline.cpp:209-275 | a step that is neither a call nor a return keeps the typing invariant |
| `EofRuntime.CallStep` | weak/pkgs/evmweak/instructions.hpp:962-984 | CALLF either stops at its guard or enters the callee at its declared input height, with room for its maximum |
| `EofRuntime.ReturnStep` | weak/pkgs/evmweak/instructions.hpp:986-991 | RETF lands after the call, at the height the caller expects |
| `EofRuntime.StepPreserves` | weak/pkgs/evmweak/baseline.cpp:209-275 | every step of the machine passes the requirement checks and keeps the typing invariant, ends for one of the allowed reasons, or is a RETF outside any call |
| `EofRuntime.RunPreserves` | weak/pkgs/evmweak/baseline.cpp:225-275 | so does every run; it can break only if the first section contains a RETF |
| `EofRuntime.HeightBounds` | weak/pkgs/evmweak/baseline.cpp:131-137 | in a typed state the absolute height is between 0 and 1024 |
| `EofRuntime.ProgramLoaded` | weak/pkgs/evmweak/baseline.cpp:70-84 | what `analyze_eof1` makes of a valid container is a loaded program with the validator's assignments |
| `EofRuntime.ValidatedRunsAreSound` | weak/pkgs/evmweak/eof.cpp:404-453 | for every valid container and every run: no failed requirement check, pc always at an instruction of its own section at the height the validator computed, absolute height at most 1024; and no read outside code, types or call stack if the first section has no RETF |
| `EofRuntime.Dispatch` | weak/pkgs/evmweak/baseline.cpp:225-275 | the dispatch loop computes the run driven by its inputs |
| `EofLaws.BranchLaw` | weak/pkgs/evmweak/instructions.hpp:729-761 | at a typed state: RJUMP goes to its target; RJUMPI goes on when the item popped is zero and to its target otherwise; RJUMPV goes to the entry the item selects, and on when there is none |
| `EofLaws.BranchTargets` | weak/pkgs/evmweak/instructions.hpp:729-761 | the same in terms of the targets the validator checks: RJUMPI with a non-zero item goes to target 0, RJUMPV with item k below its count to target k |
| `EofLaws.CallLaw` | weak/pkgs/evmweak/instructions.hpp:962-991 | CALLF stops exactly when the callee's maximum has no room or 1024 calls are open, and otherwise enters the section it names, remembering pc + 3; RETF goes back to the last call |
| `EofLaws.StraightLaw` | weak/pkgs/evmweak/instructions.hpp:884-917 | DUPN and SWAPN fail exactly when they reach below the stack; every other instruction goes on behind its immediate with the stack changed as the traits say |
| `EofLaws.StopLaw` | weak/pkgs/evmweak/baseline.cpp:209-275 | at a typed state no check fails; an instruction fails on its own exactly when the input says so; otherwise the machine halts exactly at STOP, RETURN, REVERT and INVALID, and breaks exactly at a RETF outside any call |
| `EofReturns.ReturnsRuns` | weak/pkgs/evmweak/instructions.hpp:962-991 | a section that can return, by a path to a RETF on which all guards pass and all calls return, does so in some run |
| `EofReturns.StepTraces` | weak/pkgs/evmweak/instructions.hpp:962-991 | every frame of a running machine has come to its position along such a path, and a step that breaks shows that the first section can return |
| `EofReturns.BreaksIffReturns` | weak/pkgs/evmweak/instructions.hpp:986-991 | the exact condition: some run of a loaded program breaks if and only if its first section can return, which code and computed heights decide by recursion on the call depth |
| `EofReturns.ContainerBreaksIffReturns` | weak/pkgs/evmweak/instructions.hpp:986-991 | the same for every valid container |
| `EofReturns.CallFreeBreaksIff` | weak/pkgs/evmweak/instructions.hpp:884-917 | for a first section without CALLF: some run breaks if and only if its graph has a path to a RETF on which every DUPN and SWAPN reaches no deeper than the computed height |
| `EofReturns.UnguardedBreaksIffReturns` | weak/pkgs/evmweak/instructions.hpp:986-991 | for a first section without CALLF, DUPN and SWAPN: if and only if it contains a RETF |
| `EofReturns.ReturnFromFirstSection` | weak/pkgs/evmweak/instructions.hpp:986-991 | counterexample: a container of 20 bytes whose code is a single RETF is accepted, and its run pops an empty call stack |
| `LegacyCode.AnalyzeJumpdests` | weak/pkgs/evmweak/baseline.cpp:29-47 | the bitmap marks exactly the valid jump destinations of section 9.4.3 of the Ethereum Yellow Paper |
| `LegacyCode.NumberSplit` | weak/pkgs/evmweak/instructions.hpp:787-821 | a big-endian operand is its leading bytes shifted plus the rest |
| `LegacyCode.PushByWords` | weak/pkgs/evmweak/instructions.hpp:823-847 | loading a PUSH operand as a partial word and full words gives its big-endian value |
| `LegacyCode.TruncatedPush` | weak/pkgs/evmweak/baseline.cpp:49-62 | operand bytes beyond the end of the code count as zeros |
| `LegacyBlocks.ClampingIsHarmless` | weak/pkgs/evmweak/advanced_analysis.cpp:11-17 | clamping to int16 does not change the stack verdict for any height a stack can have |
| `LegacyBlocks.CloseIs` | weak/pkgs/evmweak/advanced_analysis.cpp:33-39 | closing a block changes nothing exactly when its gas fits 32 bits and its stack bounds fit an int16 |
| `LegacyBlocks.OneCheckIsAll` | weak/pkgs/evmweak/advanced_analysis.cpp:31-39 | for every block of defined instructions and every height, the one check at block entry, clamped or not, passes exactly when no instruction of the block would underflow or overflow in the baseline |
| `Interpreters.FindJumpdest` | weak/pkgs/evmweak/advanced_analysis.hpp:184-192 | the binary search returns the target stored for the offset, or -1 |
| `AdvancedAnalysis.FindJumpdestExact` | weak/pkgs/evmweak/advanced_analysis.hpp:184-192 | a target is found exactly for the valid jump destinations, and it is the block start compiled from that offset |
| `AdvancedAnalysis.DestIsJumpdest` | weak/pkgs/evmweak/baseline.cpp:29-47 | a valid jump destination is a JUMPDEST byte of the code |
| `AdvancedAnalysis.SmallPush` | weak/pkgs/evmweak/advanced_analysis.cpp:126-140 | the operand of PUSH1 to PUSH8, truncated at code end or not, is the padded big-endian number |
| `AdvancedAnalysis.LargePush` | weak/pkgs/evmweak/advanced_analysis.cpp:142-165 | the operand of PUSH9 to PUSH32, truncated at code end or not, is the padded big-endian number |
| `AdvancedAnalysis.SkipDead` | weak/pkgs/evmweak/advanced_analysis.cpp:97-114 | dead code is skipped to the next JUMPDEST without losing a jump destination |
| `AdvancedAnalysis.CompileOne` | weak/pkgs/evmweak/advanced_analysis.cpp:82-181 | one instruction is compiled with its argument, and its cost and stack needs are added to the block |
| `AdvancedAnalysis.Analyze` | weak/pkgs/evmweak/advanced_analysis.cpp:42-197 | unless a 32-bit sum overflows, the analysis compiles every reachable instruction in order, closes every block with the sums of its instructions, and lists exactly the jump destinations: `find_jumpdest` finds an offset if and only if it is valid |
| `AdvancedAnalysis.SumsStep` | weak/pkgs/evmweak/advanced_analysis.cpp:84-88 | one instruction is added to the sums of the open block, and none of the `int` sums overflows if the requirement and growth of the whole block fit an `int` |
| `AdvancedAnalysis.ShortCodeFits` | weak/pkgs/evmweak/advanced_analysis.cpp:19-25 | no sum overflows in code of up to 357913938 bytes |
| `Simulation.DoomedFails` | weak/pkgs/evmweak/advanced_instructions.cpp:127-142 | when the block check fails, the baseline run fails later in that block |
| `Simulation.StepsAgree` | weak/pkgs/evmweak/advanced_instructions.cpp:127-169 | from related states the two interpreters take related steps, stop with the same outcome, or the baseline is bound to fail |
| `Simulation.AdvancedAgreesWithBaseline` | weak/pkgs/evmweak/advanced_analysis.cpp:42-197 | for all code, gas and core functions the advanced run ends in success or revert exactly when the baseline run does, with the same gas, memory, storage and output |
| `Simulation.GasSeenIsBaselineGas` | weak/pkgs/evmweak/advanced_instructions.cpp:112-125 | after any number of steps, GAS, SSTORE and the CALL and CREATE families see the gas the baseline has at that instruction |
| `Simulation.StaysOnStack` | weak/pkgs/evmweak/advanced_instructions.cpp:127-142 | after any number of steps the next instruction of the advanced interpreter has its operands on the stack and room for its results, although it checks neither |
| `Simulation.Execute` | weak/pkgs/evmweak/advanced_execution.cpp:11-27 | analysis followed by the instruction loop returns the outcome of the baseline run |
| `InterpreterLaws.AdmittedLaw` | weak/pkgs/evmweak/baseline.cpp:110-149 | the checks pass exactly when the instruction is defined, its operands are there, its result leaves at most 1024 items, and the gas covers its base cost |
| `InterpreterLaws.JumpLaw` | weak/pkgs/evmweak/instructions.hpp:702-727 | JUMP goes to the item it pops if that is a jump destination and fails otherwise; JUMPI does the same when the second item is not zero, and goes on at pc + 1 when it is |
| `InterpreterLaws.PushLaw` | weak/pkgs/evmweak/instructions.hpp:763-847 | PC pushes its position, GAS what is left after its cost, PUSHn its n bytes as a big-endian number, zeros beyond the code; JUMPDEST only moves on |
| `InterpreterLaws.CoreLaw` | weak/pkgs/evmweak/baseline.cpp:151-223 | exactly SSTORE and the CALL and CREATE families are given the gas left; all other core functions are charged what they cost and fail when it cannot be paid |
| `InterpreterLaws.HaltLaw` | weak/pkgs/evmweak/instructions.hpp:993-1008 | STOP succeeds, INVALID fails, RETURN and SELFDESTRUCT succeed and REVERT reverts unless their core function fails or cannot be paid |
| `InterpreterLaws.RunEnds` | weak/pkgs/evmweak/baseline.cpp:225-275 | for every run: it reverts exactly when its last instruction is an admitted REVERT that does not fail, and succeeds exactly when it is such a STOP, end of code, RETURN or SELFDESTRUCT; in every other case it fails |
| `InterpreterLaws.RunResult` | weak/pkgs/evmweak/baseline.cpp:225-275 | the gas and the world of a run's result are those its last instruction leaves |
| `InterpreterLaws.PaddingSuffices` | weak/pkgs/evmweak/baseline.cpp:49-62 | no run reads beyond the 33 bytes of padding, nor has more than 1024 items or more gas than at the start |
| `EvmMemory.NoOverflow` | weak/pkgs/evmweak/instructions.hpp:67-93 | for up to 3037000499 words, the most whose square fits 64 bits, word count and cost in 64-bit arithmetic equal the unbounded ones |
| `EvmMemory.NewCapacity` | weak/pkgs/evmweak/execution_state.hpp:100-109 | the new capacity holds the size, is whole pages, and exceeds twice the size by at most a page |
| `EvmMemory.CapacityLaw` | weak/pkgs/evmweak/execution_state.hpp:100-109 | the capacity doubles if that is enough, and is otherwise the least number of 4096-byte pages that is |
| `EvmMemory.Memory.Grow` | weak/pkgs/evmweak/execution_state.hpp:92-114 | the contents become the old bytes followed by zeros; the size is a multiple of 32 within the capacity |
| `EvmMemory.GrowMemory` | weak/pkgs/evmweak/instructions.hpp:80-95 | charges C(new words) - C(old words), and grows exactly when the gas covers it |
| `EvmMemory.CheckRegion` | weak/pkgs/evmweak/instructions.hpp:97-112 | succeeds exactly when the offset is in range and the gas covers the growth to the 64-bit sum of offset and size; the region then lies inside memory exactly when that sum did not wrap around |
| `EvmMemory.CheckMemory` | weak/pkgs/evmweak/instructions.hpp:114-128 | the same for 256-bit sizes, where size zero always succeeds |
| `EvmMemory.BufferLimit` | weak/pkgs/evmweak/instructions.hpp:97-128 | offsets and sizes are let through exactly up to 2^32 - 1, size zero with any offset |
| `EvmMemory.RunTelescopes` | weak/pkgs/evmweak/instructions.hpp:67-128 | a sequence of checks succeeds exactly when every region is addressable and the gas covers C(final) - C(initial), which is what it charges |
| `EvmMemory.LeastCover` | weak/pkgs/evmweak/instructions.hpp:67-128 | the final size is the least number of words that covers the start and every region |
| `EvmMemory.OrderDoesNotMatter` | weak/pkgs/evmweak/instructions.hpp:67-128 | the final size, hence the total charge, depends only on the set of regions |
| `Difficulty.UmulExact` | weak/pkgs/ethash-1.0.1/lib/ethash/ethash.cpp:302-334 | the portable 64x64 multiplication is exact: lo + hi * 2^64 = x * y, no carry lost |
| `Difficulty.Words` | weak/pkgs/ethash-1.0.1/lib/ethash/ethash.cpp:341-349 | the little-endian words hold the number the 32 big-endian bytes write |
| `Difficulty.Column` | weak/pkgs/ethash-1.0.1/lib/ethash/ethash.cpp:374-377 | one column: the digit kept and the carry add up to digit + product + carry, and the carry fits a word |
| `Difficulty.FirstRound` | weak/pkgs/ethash-1.0.1/lib/ethash/ethash.cpp:354-363 | the first round leaves h * d[0] in the low five words |
| `Difficulty.Round` | weak/pkgs/ethash-1.0.1/lib/ethash/ethash.cpp:366-380 | round j adds h * d[j] * 2^(64 j), also when it is skipped for a zero word |
| `Difficulty.AtMost` | weak/pkgs/ethash-1.0.1/lib/ethash/ethash.cpp:382-391 | a number is at most 2^256 exactly when its high half is zero, or is one above a zero low half |
| `Difficulty.CheckAgainstDifficulty` | weak/pkgs/ethash-1.0.1/lib/ethash/ethash.cpp:336-391 | true exactly when hash * difficulty <= 2^256 as unbounded integers, for all 32-byte inputs |
| `Rbft.Quorum` | weak/include/cnsss/pure-rbft.hpp:761-769 | N - 1 - f; two quorums do not fit among the subs |
| `Rbft.Faults` | weak/include/cnsss/pure-rbft.hpp:888-898 | f is the largest number that is less than a third of N |
| `Rbft.SmallQuorums` | weak/include/cnsss/pure-rbft.hpp:761-769 | quorums of 1, 2, 2 and 4 for clusters of 2, 3, 4 and 7 nodes |
| `Rbft.RbftNode.BroadcastToOtherSubs` | weak/include/cnsss/pure-rbft.hpp:791-807 | exactly one message to each member that is neither the sender nor the primary |
| `Rbft.RbftNode.BroadcastToOthers` | weak/include/cnsss/pure-rbft.hpp:1400-1405 | exactly one message to each other member |
| `Rbft.RbftNode.FinallyExecute` | weak/include/cnsss/pure-rbft.hpp:809-813 | the command is executed, and the history gains it as the executor has rewritten it |
| `Rbft.RbftNode.AddToBeCommitted` | weak/include/cnsss/pure-rbft.hpp:825-868 | counts the commit; at the quorum the command is executed, recorded as the executor left it, and the counter erased |
| `Rbft.RbftNode.AddToBeConfirmed` | weak/include/cnsss/pure-rbft.hpp:743-789 | counts the confirm; at the quorum the node commits, to the others and to itself, and the counter is erased |
| `Rbft.RbftNode.HandleExecute` | weak/include/cnsss/pure-rbft.hpp:1322-1347 | the primary executes at once, records the command as rewritten, and passes it on to all others as it came |
| `Rbft.RbftNode.Handle` | weak/include/cnsss/pure-rbft.hpp:702-731 | the sub's handlers for execute, confirm and commit, with the messages each sends |
| `RbftOnce.CountOne` | weak/include/cnsss/pure-rbft.hpp:743-789 | what is cast after a counter has fired is too little to fire it again |
| `RbftOnce.NodeConfirm` | weak/include/cnsss/pure-rbft.hpp:743-789 | a confirm from a new confirmer is counted and makes the node commit at most once |
| `RbftOnce.NodeCommit` | weak/include/cnsss/pure-rbft.hpp:825-868 | a commit from a new committer is counted and executes the command at most once |
| `RbftOnce.StepKeeps` | weak/include/cnsss/pure-rbft.hpp:702-868 | every submission and every delivery, in any order, keeps the invariant that ties counters, histories and messages in flight to what has happened |
| `RbftOnce.AtMostOnce` | weak/include/cnsss/pure-rbft.hpp:702-898 | in every reachable state no node has executed a command twice, nor one that nobody submitted |
| `RbftOnce.ExactlyOnce` | weak/include/cnsss/pure-rbft.hpp:702-898 | when nothing is in flight every live sub and the primary have executed every submitted command exactly once |
| `RbftOnce.RunsAreBounded` | weak/include/cnsss/pure-rbft.hpp:702-898 | the number of deliveries is bounded by what was submitted, whatever the order |
| `RbftOnce.Settles` | weak/include/cnsss/pure-rbft.hpp:702-898 | from every reachable state deliveries alone lead to a state with nothing in flight |
| `RbftOnce.SilentThird` | weak/include/cnsss/pure-rbft.hpp:702-898 | for every set of silent subs that is less than a third of the cluster: at most once at any time, exactly once at every other member when nothing is in flight, and deliveries always lead there |
| `RbftWitness.ConfirmQuorum` | weak/include/cnsss/pure-rbft.hpp:743-789 | a quorum of confirms contains N - 1 - 2f honest subs that heard the primary |
| `RbftWitness.HandleKeeps` | weak/include/cnsss/pure-rbft.hpp:713-731 | a sub's handlers keep the invariant whatever faulty members send |
| `RbftWitness.ExecutedIsWitnessed` | weak/include/cnsss/pure-rbft.hpp:713-868 | with at most f faulty members, the primary possibly among them, any command an honest sub executes was received from the primary itself by at least N - 1 - 2f >= 1 honest subs |
| `RbftWitness.FaultyThird` | weak/include/cnsss/pure-rbft.hpp:713-898 | for every set of faulty members that is less than a third of the cluster: what an honest sub executes was heard from the primary by some honest sub, and by at least (N - 1) / 3 of them |
| `RbftWitness.ExecutedByPrimary` | weak/include/cnsss/pure-rbft.hpp:1322-1347 | with an honest primary, honest subs execute only what the primary has executed |
| `RbftWitness.PrimaryExecutesAsAsked` | weak/include/cnsss/pure-rbft.hpp:1322-1347 | over runs with repeated requests: an honest primary has executed a command exactly as often as it was asked to |
| `RbftWitness.AtMostOnceIff` | weak/include/cnsss/pure-rbft.hpp:1329-1335 | so it executes a command at most once if and only if it is asked at most once |
| `RbftWitness.AskedTwice` | weak/include/cnsss/pure-rbft.hpp:1329-1335 | counterexample to duplicate filtering: asked twice, the primary of a cluster of two executes twice |
| `RbftMembership.GetNewcomers` | weak/include/cnsss/pure-rbft.hpp:1153-1167 | exactly the verified signers, each once, in ascending order |
| `RbftMembership.NewcomersCanonical` | weak/include/cnsss/pure-rbft.hpp:1153-1167 | the newcomers do not depend on the order or the repetition of the join requests |
| `RbftMembership.LessIs` | weak/include/cnsss/pure-rbft.hpp:1153-1167 | the order of the newcomers is that of the dictionary |
| `RbftMembership.CheckCert` | weak/include/cnsss/pure-rbft.hpp:530-612 | true exactly when all messages verify, states agree, all epochs but the first agree with the certificate, and N - f different nodes signed |
| `RbftMembership.SignersAre` | weak/include/cnsss/pure-rbft.hpp:530-612 | the signers counted are those of the messages that verify and parse |
| `RbftMembership.DocumentedIff` | weak/include/cnsss/pure-rbft.hpp:511-529 | the documented check, which compares all epochs, agrees with the code exactly for certificates whose first epoch is right |
| `RbftMembership.FirstEpochIgnored` | weak/include/cnsss/pure-rbft.hpp:557-590 | counterexample: a certificate for epoch 1 is accepted although its first message is for epoch 7 |
| `RbftMembership.SubsAreStricter` | weak/include/cnsss/pure-rbft.hpp:530-612 | a certificate the subs accept is one the newcomers accept |
| `RbftMembership.RebasedSelects` | weak/include/cnsss/pure-rbft.hpp:1533-1535 | e + (e / N) * k is congruent to e mod N modulo N + k |
| `RbftMembership.GrownPrimary` | weak/include/cnsss/pure-rbft.hpp:1272-1289 | after newcomers have joined, the primary is the node at index e mod N of the old list |
| `RbftMembership.GrownProper` | weak/include/cnsss/pure-rbft.hpp:431-509 | fresh newcomers keep the members distinct |
| `RbftMembership.AgreeIffFresh` | weak/include/cnsss/pure-rbft.hpp:431-509 | new primary and sub end with the same list exactly when the newcomers are fresh, which only the sub checks |
| `RbftMembership.StaleNewcomer` | weak/include/cnsss/pure-rbft.hpp:1214-1290 | counterexample: with a valid certificate and a member among the newcomers, the new primary lists it twice and the sub refuses |
| `RbftMembership.RunFollows` | weak/include/cnsss/pure-rbft.hpp:431-509 | whatever its roles and timeouts, a node that gets the certificates in time ends with the list, and after a certificate with the epoch, that the certificates determine |
| `RbftMembership.ReplicasAgree` | weak/include/cnsss/pure-rbft.hpp:1169-1311 | nodes that process the same certificates as new primary, sub or newcomer, from the start or from a later moment, agree on the members, and after the last certificate on the epoch and on the primary, the node at index e mod N of the list before |
| `RbftViewChange.CollectedIsCertificate` | weak/include/cnsss/pure-rbft.hpp:1067-1148 | a list a new primary has collected passes the subs' check exactly when N - f different nodes signed it |
| `RbftViewChange.ViewNode.HandleAddNewNode` | weak/include/cnsss/pure-rbft.hpp:1413-1428 | the join request is added to the set |
| `RbftViewChange.ViewNode.TryToBePrimary` | weak/include/cnsss/pure-rbft.hpp:1169-1311 | the certificate carries the collected messages and, if any verifies, the join requests; newcomers get it with the commands so far; the node grows its list and is the primary of the new view |
| `RbftViewChange.ViewNode.RememberLaidDown` | weak/include/cnsss/pure-rbft.hpp:1067-1148 | files the message once; becomes primary exactly when it is new, N - f are collected and the state is its own |
| `RbftViewChange.ViewNode.HandleLaidDown` | weak/include/cnsss/pure-rbft.hpp:1005-1056 | ignores what does not verify, is too old or is for another node, and files the rest |
| `RbftViewChange.ViewNode.TriggerViewChange` | weak/include/cnsss/pure-rbft.hpp:949-978 | asks for the next view: the request goes to the node whose turn it is, or is filed, and answered with a certificate at N - f, when it is the node's own |
| `RbftViewChange.ViewNode.HandleNewPrimary` | weak/include/cnsss/pure-rbft.hpp:431-509 | follows the certificate exactly when the newcomers are fresh, the epoch is not behind and the certificate is valid; otherwise changes nothing |
| `RbftViewChange.ViewNode.HandleNewPrimaryForNewcomer` | weak/include/cnsss/pure-rbft.hpp:1441-1526 | takes list and epoch from a valid certificate, executes its commands and records them as rewritten, and reports failure when the node itself is not among the newcomers |
| `Mempool.TxOrder` | weak/include/core0.hpp:457-480 | the order is strict, and identifies exactly the transactions of one sender, nonce and timestamp |
| `Mempool.TxLessIs` | weak/include/core0.hpp:457-480 | transactions are ordered by time, then sender, then nonce |
| `Mempool.HashIdentifies` | weak/include/core0.hpp:378-394 | without collisions the hash identifies sender and nonce and nothing else |
| `Mempool.SecondInsertionSucceeds` | weak/include/cnsss/mempool.hpp:164-171 | once the hash is new the insertion into both indexes cannot fail, and a refusal changes nothing |
| `Mempool.Mempool.AddTx` | weak/include/cnsss/mempool.hpp:164-171 | accepts exactly the transactions whose hash was never seen; the pool stays sorted with distinct hashes |
| `Mempool.Mempool.GetTxByHash` | weak/include/cnsss/mempool.hpp:108-119 | returns and removes the one transaction of that hash, or changes nothing |
| `Mempool.Mempool.WashTxs` | weak/include/cnsss/mempool.hpp:128-133 | keeps the transactions whose hash is new and records them |
| `Mempool.Mempool.GetTxHashesForSeal` | weak/include/cnsss/mempool.hpp:135-149 | the hashes of the first transactions in pool order |
| `Mempool.OldestFirst` | weak/include/cnsss/mempool.hpp:135-149 | a batch is as large as allowed, and nothing left behind is older than a transaction sealed, nor equally old and smaller in sender or nonce |
| `Mempool.WashedIs` | weak/include/cnsss/mempool.hpp:128-133 | washing keeps each new hash once, and the history gains exactly the hashes of the batch |
| `Mempool.WashedAgain` | weak/include/cnsss/mempool.hpp:128-133 | a washed batch is unchanged when washed again from the same history |
| `Executors.AddedAllIs` | weak/include/cnsss/exeForCnsss.hpp:134-146 | the accepted transactions have new, distinct hashes, and these are what the history gains |
| `Executors.AddedAgain` | weak/include/cnsss/exeForCnsss.hpp:134-146 | adding only the accepted transactions gives the same pool and accepts them all |
| `Executors.SealedIsCollected` | weak/include/cnsss/forCnsss.hpp:55-71 | a block sealed from the pool is collected from it completely, in order, and leaves the pool |
| `Executors.RewritingPreserves` | weak/include/cnsss/exeForCnsss.hpp:126-164 | unless a block is lost half way, the rewritten command has on the same state the effect of the original and is not rewritten again |
| `Executors.RewritingLosesIff` | weak/include/cnsss/exeForCnsss.hpp:91-110 | the rewritten command has another effect exactly for a block whose first transaction is in the pool while another is missing or named twice, or which does not commit |
| `Executors.CollectedIs` | weak/include/cnsss/forCnsss.hpp:55-71 | collecting succeeds exactly when all hashes name transactions of the pool and none is named twice, yields these in order, and leaves the others |
| `Executors.LostTransaction` | weak/include/cnsss/exeForCnsss.hpp:91-110 | counterexample: of a block that names one transaction of the pool and one that is missing, the primary drops the first and a replica keeps it |
| `Executors.ExecutorForCnsss.HandleAddTxs` | weak/include/cnsss/exeForCnsss.hpp:126-164 | refused transactions are erased from batch and command; an empty batch empties the command |
| `Executors.ExecutorForCnsss.HandleExecuteBlk` | weak/include/cnsss/exeForCnsss.hpp:91-110 | collects the block from the pool and commits it, or empties the command |
| `Executors.ExecutedBlock` | weak/include/cnsss/exeForCnsss.hpp:91-110 | the block committed has the number, parent and transactions named, in order; these leave the pool while the history keeps their hashes |
| `Executors.ExecutorForCnsss.Execute` | weak/include/cnsss/exeForCnsss.hpp:65-85 | dispatch on the first character, the empty and the unknown command included |
| `Executors.PoolNeverTwice` | weak/include/cnsss/exeForCnsss.hpp:126-164 | over a whole run no hash is accepted twice, nor one known at the start, and the history is exactly the union |
| `Executors.SealingLosesIff` | weak/include/cnsss/exeForCnsss.hpp:244-286 | for both commands: a node with the same history and chain that gets the rewritten command ends with another history or chain exactly when, below level 2, the washed block does not commit and held a new hash |
| `Executors.LostHash` | weak/include/cnsss/exeForCnsss.hpp:261-275 | counterexample: after a batch that does not commit the primary knows its hash and a replica does not |
| `Executors.LightExecutorForCnsss.SealBlkAndUpdateCmd` | weak/include/cnsss/exeForCnsss.hpp:261-286 | washes, seals and commits a block, advances number and parent, and turns the command into its execution |
| `Executors.LightExecutorForCnsss.HandleAddTxs` | weak/include/cnsss/exeForCnsss.hpp:288-306 | a batch that does not parse or is empty empties the command; any other is sealed |
| `Executors.LightExecutorForCnsss.HandleExecuteBlk` | weak/include/cnsss/exeForCnsss.hpp:244-259 | washes and commits the block, leaving the next block number alone |
| `Executors.ChainNeverTwice` | weak/include/cnsss/exeForCnsss.hpp:244-306 | below optimisation level 2 no hash gets on the chain twice, failed commits included |
| `Executors.SealedBlock` | weak/include/cnsss/exeForCnsss.hpp:261-286 | a batch that commits becomes a block with the next number on the last block sealed, number and parent advance, and the command becomes the execution of that block; otherwise nothing but the history changes |
| `Executors.SealedChainLinks` | weak/include/cnsss/exeForCnsss.hpp:261-286 | over every run of batches, failed ones included: the sealed blocks have consecutive numbers and each names the hash of the block before |
| `Executors.ExecutedSealedBlock` | weak/include/cnsss/exeForCnsss.hpp:244-259 | a block sealed elsewhere is added as washed, with its number and parent, and leaves the next number and parent alone |
| `Solo.Replay` | weak/include/cnsss/pure-listenToOne.hpp:216-239 | a newcomer runs the whole history in order |
| `Solo.SoloPrimary.HandleAddNewNode` | weak/include/cnsss/pure-listenToOne.hpp:176-184 | the newcomer is known from now on and gets the history |
| `Solo.SoloPrimary.HandleExecute` | weak/include/cnsss/pure-listenToOne.hpp:186-214 | executes, remembers and sends the rewritten command; keeps exactly the subs that answer |
| `Solo.SoloSub.HandleExecute` | weak/include/cnsss/pure-listenToOne.hpp:247-275 | what comes from the primary is executed and everything else passed on |
| `Solo.GroupRuns` | weak/include/cnsss/pure-listenToOne.hpp:176-275 | after any run the primary has run the commands as given and remembers them as rewritten; the subs known are those that joined and answered ever since, each having run the whole history from the state it joined with |
| `Solo.ReplicasEqual` | weak/include/cnsss/pure-listenToOne.hpp:176-239 | for every executor whose rewriting preserves its effect: after any run every known sub, late joiners included, agrees with the primary |
| `Solo.PlainReplicasEqual` | weak/include/cnsss/pure-listenToOne.hpp:176-239 | with the plain executor every known sub has the primary's pool, hash history and chain |
| `Solo.LightReplicasEqual` | weak/include/cnsss/pure-listenToOne.hpp:176-239 | with the light executor every known sub has the primary's hash history and chain |
| `WorldState.InRamWorldStorage.ApplyJournalStateDB` | weak/include/storageManager.hpp:301-316 | the journal applied in order |
| `WorldState.WeakEvmHost.TryAddAcnFromWorldState` | weak/include/evmExecutor.hpp:71-89 | fetching an account that is not held changes nothing a contract can see |
| `WorldState.WeakEvmHost.AccountExists` | weak/include/evmExecutor.hpp:135-162 | true exactly when the overlay shows an account: not dead, and held or in the world |
| `WorldState.WeakEvmHost.GetStorage` | weak/include/evmExecutor.hpp:175-216 | the value the overlay shows; missing accounts and keys read as zero |
| `WorldState.WeakEvmHost.SetStorage` | weak/include/evmExecutor.hpp:218-248 | fetches or creates the account and writes the one key |
| `WorldState.SetStorageLaw` | weak/include/evmExecutor.hpp:218-248 | the key of a live account reads as the value, every other key and every other address as before; nonce and code stay, or are those of an empty account |
| `WorldState.OtherOpsLaw` | weak/include/evmExecutor.hpp:275-490 | self-destruction removes an account for good, creation gives nonce, code and an empty storage, fetching is invisible; none touches another account |
| `WorldState.WeakEvmHost.GetStateChanges` | weak/include/evmExecutor.hpp:618-660 | one set per live account held, then one deletion per dead account, in whatever order the maps are walked; applied to the world it shows what the overlay showed |
| `WorldState.JournalShowsOverlay` | weak/include/evmExecutor.hpp:618-660 | applying the journal makes the database show, at every address, what the overlay showed |
| `WorldState.HostIsDirect` | weak/include/evmExecutor.hpp:218-283 | after any operations the overlay holds what they would have left had they gone straight to the world |
| `WorldState.OverlayRefines` | weak/include/evmExecutor.hpp:135-283 | after any sequence of host operations, applying the journal makes existence and every storage lookup equal the overlay's and the direct result, self-destructed accounts absent |
| `WorldState.LookupsReadLastWrites` | weak/include/evmExecutor.hpp:135-283 | after any operations, in the overlay and in the database after the journal: an account exists exactly if it was not destroyed and was there, written or created; a key reads as last written since the last creation, or else as in the world |
| `WorldState.JournalOrder` | weak/include/evmExecutor.hpp:618-660 | the resulting database does not depend on map iteration order |
| `BlockCommit.KeysDiffer` | weak/include/execManager.hpp:93-122 | transaction, block and number keys never collide, and decimal block keys are injective |
| `BlockCommit.DecimalReads` | weak/include/execManager.hpp:114-115 | the decimal key reads back as the number, in digits, without leading zeros |
| `BlockCommit.FilteredConcat` | weak/include/core0.hpp:236-250 | filtering a batch is filtering its parts, one after the other: order is kept |
| `BlockCommit.FilteredCounts` | weak/include/core0.hpp:236-250 | a transaction that verifies is kept as often as it occurs, any other never |
| `BlockCommit.BlkExecutor.ExecuteBlk` | weak/include/execManager.hpp:52-84 | one journal and one receipt per verified transaction, each from the world before the block and the count of contracts created so far; failures have an empty journal |
| `BlockCommit.BlkExecutor.CommitBlk` | weak/include/execManager.hpp:86-129 | the state database gains the journals in order, the chain database the entries, the block and its number |
| `BlockCommit.StoredIsLast` | weak/include/execManager.hpp:109-120 | in every chain the last block committed with a number is what is stored under it |
| `BlockCommit.NumberIsLast` | weak/include/execManager.hpp:114-122 | in every chain the number entry reads as the number of the block committed last |
| `BlockCommit.EntryIsLast` | weak/include/execManager.hpp:93-98 | in every chain a /tx/ entry is there exactly for the hashes committed, and names where that happened last |
| `BlockCommit.ReadBackIff` | weak/include/execManager.hpp:109-120 | every committed block is read back under its number if and only if no two different blocks share one |
| `BlockCommit.EntryLeadsIff` | weak/include/execManager.hpp:93-98 | an entry leads to its transaction if and only if the last block with the number it names has such a transaction at that position |
| `BlockCommit.ReplayFoldsLast` | weak/include/execManager.hpp:86-129 | replaying any chain folds the journals of the last block of each number |
| `BlockCommit.EntriesLead` | weak/include/execManager.hpp:86-129 | if blocks that share a number are the same, every /tx/ entry names a stored block and an in-range position whose transaction has that hash and a receipt |
| `BlockCommit.EntriesComplete` | weak/include/execManager.hpp:86-129 | every committed transaction has an entry |
| `BlockCommit.ChainReplays` | weak/include/execManager.hpp:86-129 | if blocks that share a number are the same, the state database equals the in-order fold of the journals stored in the committed blocks |
| `BlockCommit.ReuseLosesBlock` | weak/include/execManager.hpp:109-120 | counterexample: after two different blocks with one number a replay misses the key the first had set |

## Left out

- Revisions other than Cancun in EOF validation: the cost table of EOF code is edited for that row only.
- `validate_eof` and `get_eof_version` around `validate_eof1`: magic and version checks only. Containers of 65536 bytes
  or more: the assertion on section offsets in `validate_eof1` excludes them.
- EofRuntime.Step: stack contents, gas and memory are inputs of a step, since control depends on them only through the
  item popped and on whether the instruction fails.
- Simulation.AdvancedAgreesWithBaseline: revisions after Shanghai, where the advanced table marks new opcodes undefined;
  code of more than 2^31 bytes, whose offsets do not fit an int; blocks whose base gas exceeds 32 bits, unless the gas
  is below that, since `close` clamps the sum. Failure codes are not compared, because block checks fire early.
- AdvancedAnalysis.Analyze: code in which the stack requirement or growth of a block exceeds an `int`, where the sums of
  the original overflow and its behaviour is undefined.
- Interpreters.BaseStep and Interpreters.AdvStep: one turn of each interpreter is a function on values, so stack slots
  updated in place and the sharing of the instruction argument union are not captured.
- EvmMemory.CheckRegion: sums of offset and size beyond 3037000499 words, where the cost computation overflows a signed
  64-bit number and the behaviour of the original is undefined; no caller gets there. Failure to allocate ends the
  process and is not modelled.
- Difficulty: the compiler's 128-bit type, which the portable branch replaces, and the byte swap of the host.
- RBFT timers, the view-change flag that suspends the handlers, epoch overflow, and agreement on an order across
  different commands, which the code does not provide. `Timeout` stands for the timer in `RbftMembership`.
- RbftOnce.ExactlyOnce: fixed membership and one view, an honest primary, at most f silent subs, each message delivered
  at most once and each command submitted once; a primary asked twice executes twice (`RbftWitness.AskedTwice`).
- RbftMembership.ReplicasAgree: a sub whose epoch has passed that of a certificate ignores it (`InTime`).
- The Raft and 0bft variants of the consensus.
- Solo.ReplicasEqual: a node joins under a name not in use; commands lost half way are excluded because they do make
  replicas differ (`RewritingLosesIff`, `SealingLosesIff`). History is always remembered.
- Mempool locks and threads. Addresses are numbers, which compare as their 20 bytes do.
- WorldState.Acn: the disk storage of Python contracts, and code reads of accounts that are not held.
- Balances, logs, access lists and transaction context of the host, which the repository stubs out.
- BlockCommit.BlkExecutor.CommitBlk: only the in-memory storage, whose writes cannot fail; RocksDB is not part of this
  model. Sequential execution of the transactions of a block, which the code does not do.
- Keccak, OpenSSL, protobuf and JSON, HTTP and UDP servers, options, tracing, logging, and the ethash data set.
