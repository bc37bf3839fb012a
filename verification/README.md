# neo-recomp: verified model

neo-recomp translates Neo Geo 68000 programs to C. This project models the translator, the
analyses around it and the host that runs its output, and proves what they are for.

**The machine** (`Machine`, `Isa`) is the register file, the status register with all its bits, a
24-bit big-endian bus, and what the M68000 Family Programmer's Reference Manual (M68000PM/AD,
sections 3.2, 4 and 6) says a set of instructions does, with interrupts, resets, trace and
privilege exceptions. The decoder and validator are a parameter: a function from an address to an
instruction that lies where it was read. `Op.Other` stands for any further instruction whose emitted
statements only change the machine; its effect is a parameter too.

**The emitter** (`Emitter`, `EmitBody`, `BodyLayout`) is a function from decoded instructions to
statements of a small language with gotos and dispatches, and that language has a step semantics.
`Alu`, `Shifts` and `ExtendedArith` hold the arithmetic of the emitted code beside the manual's.
`InstructionSimulation` and `BodySimulation` prove that the emitted code of an instruction, a body
and a whole run of dispatched bodies is a run of the processor, and `ForwardSimulation` that it gets as
far as the processor does, up to the corners that `EmitterCorners` delimits; `OneDispatch` shows that a body never asks for two dispatches, and `WholeProgram` puts the
whole run under the host's budgeted trampoline. `Exceptions` nests frames and RTEs.

**Discovery** (`Discovery`, `Worklist`) is the bounded worklist over its arrays; `DispatchClosure`
joins it to the emitter, `ShardedDispatch` to the generated dispatchers, `RunClosure` to what a body
asks for when it runs, and `DiscoveredProgram` puts discovery, switch and trampoline together. `Audit`
is the second scanner, and `Pipeline` runs the two. `IndexBound` is the abstract domain that bounds table indices.

**The host** (`Trampoline`, `HotTable`, `AudioClock`, `SaveState`) and the tools (`BankMap`,
`SpriteChains`) are the budgeted trampoline, the table of dispatch counts, the audio clock, the
save-state container, the two address maps and the sprite report.

Fixed-width C arithmetic is written out: a `u32` is an integer below 2^32, and sums that can wrap are
taken modulo a power of two. Code that changes a structure in place is a class over arrays or
fields, each method proved against a function or predicate on values; the theorems are about those.

## Where the code is not what one would expect

Each of these is a lemma that says exactly when the code is right.

- `SubXLimb`, `NegXValue`: SUBX and NEGX fold X into the source before the overflow test, so V is
  wrong when X is set and the source is the largest positive value.
- `InstructionAgreesIff`, `InstructionRightIff`: some instructions have states in which the emitted code
  and the processor part. MOVE of An through its own (An)+ or -(An) sets the flags from An after it has
  moved; SUBX and NEGX have the overflow just named; ILLEGAL, line A and line F stack the next address,
  where a 68000 stacks the address of the word it did not execute; and RTE and STOP load bits 14, 12,
  11 and 7 to 5 of SR, which a 68000 does not have. `HandlersReturnWell` and `SrStaysImplemented` say
  why that last one does not come up in a program that never makes such a word itself.
- `Listed`, `DataIsMissed`: a body with a word in it that does not decode is nothing but a miss.
- `CutBodyFallsIntoStub`, `CutBadly`: a body cut at 192 instructions runs on into its first
  missing-label stub, or logs a miss (`NopsAreMissed`).
- `ResetKeepsUserStack`: a reset taken in user mode loses the user stack pointer held in A7. The
  M68000 User's Manual (section 6.3.1) makes no promise about that register, and the processor model
  leaves it as the emitted code does.
- `PromotionsScanned`: a label that the script pass promotes to a scan root is never scanned if the
  pass adds no new key (`LosePromotion`).
- `EveryFunctionHasAShard`: a shard size so large that count + size - 1 wraps gives no shards.
- `MaskIsSoundIff`, `ClampIsSoundIff`, `UnlistedIsSoundIff`: byte ANDI and byte clamps, guards that
  promise fewer entries than a mask lets through, and register writes the analysis does not know of make
  the index bound claim too much.
- `ImplementationsAgreeIff`: C and Python part ways when a map has more than 256 banks or its count
  wraps.
- `CommandBalances`: Z80 time is lost when the command credit saturates.

## Model

| member | source | states |
|---|---|---|
| Machine.SrWordRoundTrip | recompiler/src/c_emitter.c:124-137 | the status register pushed as a word is the one read back, all sixteen bits |
| Machine.WordSrRoundTrip | recompiler/src/c_emitter.c:2246-2255 | every word popped into the status register and pushed again is the same word |
| Machine.ReadOwnWrite | recompiler/src/c_emitter.c:463-476 | a byte, word or long read where one was just written gives the value written, whatever wrap-around the address has |
| Machine.WriteFrame | recompiler/src/c_emitter.c:463-476 | a write changes no byte outside the ones it covers on the 24-bit bus |
| Alu.AddIsManualAdd | recompiler/src/c_emitter.c:2132-2193 | emitted ADD gives the value and the five flags the manual defines by signed and unsigned range, at any width |
| Alu.CmpIsManualCmp | recompiler/src/c_emitter.c:2132-2193 | emitted SUB gives the manual's value and flags; emitted CMP its N, Z, V and C, keeping X |
| Alu.ConditionsAfterCmp | recompiler/src/c_emitter.c:376-409 | after an emitted CMP the fourteen conditions are exactly the signed and unsigned comparisons of the operands, at any width |
| ExtendedArith.AddXLimb | recompiler/src/c_emitter.c:1180-1248 | one ADDX: exact sum with X, carry, sticky Z, N, and V exactly on signed overflow |
| ExtendedArith.AddXIsManualAddX | recompiler/src/c_emitter.c:1180-1248 | emitted ADDX is the manual's ADDX, value and flags |
| ExtendedArith.SubXLimb | recompiler/src/c_emitter.c:1180-1248 | one SUBX: exact difference with X, borrow, sticky Z, N; V is right if and only if not (X set and the source the largest positive value) |
| ExtendedArith.SubXIsManualSubX | recompiler/src/c_emitter.c:1180-1248 | emitted SUBX is the manual's SUBX, value and flags, with V inverted on exactly that operand |
| ExtendedArith.NegXValue | recompiler/src/c_emitter.c:1611-1684 | NEGX: exact 0 - value - X with borrow; V is right if and only if not (X set and the value the largest positive one) |
| ExtendedArith.NegXIsManualNegX | recompiler/src/c_emitter.c:1611-1684 | emitted NEGX is the manual's subtraction from zero, value and flags, with V inverted on exactly that value |
| ExtendedArith.AddXChain | recompiler/src/c_emitter.c:1180-1248 | predecrement ADDX chained over n limbs of any width from X=0, Z=1 is n-limb addition modulo the span, with C=X the carry, Z, N and V of the whole number, and the source left alone |
| ExtendedArith.SubXChain | recompiler/src/c_emitter.c:1180-1248 | the same for SUBX and borrow; the final V is right exactly when the top limb is not the SubXLimb exception |
| ExtendedArith.ChainTo | recompiler/src/c_emitter.c:1180-1248 | after any number of limbs the chain is midway through exactly that sum or difference |
| ExtendedArith.AbcdDigitPair | recompiler/src/c_emitter.c:1250-1298 | ABCD of valid packed BCD is valid packed BCD of the decimal sum modulo 100, with the decimal carry |
| ExtendedArith.SbcdDigitPair | recompiler/src/c_emitter.c:1250-1298 | SBCD likewise for the decimal difference and borrow |
| ExtendedArith.NbcdDigitPair | recompiler/src/c_emitter.c:1052-1066 | NBCD is 0 - value - X in the same decimal arithmetic |
| ExtendedArith.DecimalChain | recompiler/src/c_emitter.c:1250-1298 | ABCD or SBCD chained over n bytes is 2n-digit decimal addition or subtraction, with X the carry and Z for the whole number |
| Shifts.EmittedShift | recompiler/src/c_emitter.c:1952-2050 | the emitted bit-at-a-time loop, for all eight shifts and rotates, any width and count, gives the closed-form value and flags |
| Shifts.ShiftIsManual | recompiler/src/c_emitter.c:1952-2050 | the value and flags after n turns are the closed form |
| Shifts.LeftShift | recompiler/src/c_emitter.c:1952-2050 | n turns of LSL or ASL multiply by 2^n modulo 2^w; C is the last bit out |
| Shifts.LogicalRight | recompiler/src/c_emitter.c:1952-2050 | n turns of LSR divide by 2^n; C is the last bit out |
| Shifts.ArithmeticRight | recompiler/src/c_emitter.c:1952-2050 | n turns of ASR are floor division of the signed value by 2^n |
| Shifts.OverflowOfAsl | recompiler/src/c_emitter.c:1952-2050 | ASL sets V if and only if the signed value times 2^n does not fit |
| Shifts.PlainRotate | recompiler/src/c_emitter.c:1952-2050 | n turns of ROL or ROR rotate by n mod w and leave X alone |
| Shifts.ExtendedRotate | recompiler/src/c_emitter.c:1952-2050 | n turns of ROXL or ROXR rotate the w+1 bits of X and the value by n mod (w+1) |
| Shifts.RotationUndone | recompiler/src/c_emitter.c:1952-2050 | n turns of ROR undo n of ROL and the other way round; so do ROXR and ROXL, X included |
| Isa.ResetKeepsUserStack | recompiler/src/c_emitter.c:161-171 | after a reset the supervisor stack is the new one, and the user stack pointer is kept if and only if it was not held in A7 alone |
| InstructionSimulation.FrameIsException | recompiler/src/c_emitter.c:138-160 | the emitted exception and interrupt frames are the manual's exception entry, from user or supervisor mode |
| InstructionSimulation.ReadSimulates | recompiler/src/c_emitter.c:515-605 | emitted operand reads fetch what the addressing mode names and do its pre- or postincrement |
| InstructionSimulation.WriteSimulates | recompiler/src/c_emitter.c:607-670 | emitted operand writes store where the addressing mode names and do its pre- or postincrement |
| InstructionSimulation.MoveSimulates | recompiler/src/c_emitter.c:2316-2398 | the emitted MOVE, direct forms and generic form, is MOVE for every operand pair but the flag corner |
| InstructionSimulation.MoveRightUnlessHazard | recompiler/src/c_emitter.c:773-786 | the emitted MOVE is right from every state if and only if the source is not an address register the destination itself moves |
| InstructionSimulation.HazardousMove | recompiler/src/c_emitter.c:773-786 | in that corner everything is right but SR, whose flags are those of the moved register |
| InstructionSimulation.HazardSetsWrongFlags | recompiler/src/c_emitter.c:773-786 | in that corner there is a state in which the flags come out wrong |
| InstructionSimulation.MoveASimulates | recompiler/src/c_emitter.c:788-803 | emitted MOVEA, with sign extension of words |
| InstructionSimulation.AluToRegSimulates | recompiler/src/c_emitter.c:2132-2193 | emitted ADD, SUB and CMP to a data register |
| InstructionSimulation.AluToMemSimulates | recompiler/src/c_emitter.c:1790-1845 | emitted ADD and SUB to memory read, compute and write back one operand |
| InstructionSimulation.AddSubXSimulates | recompiler/src/c_emitter.c:1180-1248 | emitted ADDX and SUBX, register and predecrement forms, are the instructions, with V inverted for SUBX of the largest positive value with X set |
| InstructionSimulation.NegXSimulates | recompiler/src/c_emitter.c:1611-1684 | emitted NEGX to a register or memory is the instruction, with V inverted for the largest positive value with X set |
| InstructionSimulation.ShiftSimulates | recompiler/src/c_emitter.c:1952-2050 | the emitted register shifts and rotates, count in a register or immediate, are the instructions |
| InstructionSimulation.PushSimulates | recompiler/src/c_emitter.c:452-456 | emitted call sites push the return address |
| InstructionSimulation.RteSimulates | recompiler/src/c_emitter.c:2246-2255 | emitted RTE in supervisor mode pops the frame: PC, the right stack pointer and all sixteen bits of the stacked SR, of which the processor has ten |
| InstructionSimulation.RtrSimulates | recompiler/src/c_emitter.c:2256-2264 | emitted RTR restores the condition codes and PC |
| InstructionSimulation.InterruptedAgrees | recompiler/src/c_emitter.c:161-185 | polling for reset and interrupts does what the processor does at an instruction boundary |
| InstructionSimulation.TraceAgrees | recompiler/src/c_emitter.c:186-191 | the emitted trace service takes the trace exception exactly when the instruction began with T set |
| InstructionSimulation.StopLoadsAll | recompiler/src/c_emitter.c:2208-2220 | emitted STOP in supervisor mode loads all sixteen bits, then takes the trace exception or polls once more at the next address |
| InstructionSimulation.StopAgrees | recompiler/src/c_emitter.c:2208-2220 | outside its corner emitted STOP is the instruction: privilege check, SR loaded, trace or one more poll |
| InstructionSimulation.ConditionalBranchAgrees | recompiler/src/c_emitter.c:411-440 | an emitted Bcc goes to its target or falls through as the condition says, with the trace exception |
| InstructionSimulation.LoopAgrees | recompiler/src/c_emitter.c:2700-2726 | emitted DBcc counts down the low word and loops until it passes zero or the condition holds |
| InstructionSimulation.IllegalAgrees | recompiler/src/c_emitter.c:2221-2225 | emitted ILLEGAL, line A and line F are the exception but for the address stacked, the next one instead of the instruction's own |
| InstructionSimulation.InstructionAgrees | recompiler/src/c_emitter.c:2195-2788 | outside the corners, whatever one instruction's emitted statements end in, a jump, a dispatch, a miss or falling through, is where the processor is, in the same state |
| EmitterCorners.InstructionAgreesIff | recompiler/src/c_emitter.c:2195-2788 | state by state, in a world that does not look at SR bits that are not there: the emitted statements of an instruction agree with the processor if and only if the instruction is not in a corner of that state (MOVE flags, SUBX and NEGX overflow, ILLEGAL, RTE and STOP loading bits the processor does not have), or is such a STOP with a reset right behind it |
| EmitterCorners.InstructionRightIff | recompiler/src/c_emitter.c:2195-2788 | an instruction is translated rightly in every world and from every state if and only if it is not ILLEGAL, SUBX, NEGX, RTE, a STOP whose word has unimplemented bits, or a MOVE of An through its own (An)+ or -(An) |
| EmitterCorners.CornersHappen | recompiler/src/c_emitter.c:2195-2788 | each of those has a state in which it parts from the processor |
| EmitterCorners.NopsAreMissed | recompiler/src/c_emitter.c:2930-2932 | a body of nothing but NOPs is cut badly: it logs a miss for an address that has code, while the processor runs on |
| EmitterCorners.DataIsMissed | recompiler/src/c_emitter.c:2858-2863 | a body with a word that does not decode is nothing but a miss, even where the processor branches over that word to code |
| EmitterCorners.SrStaysImplemented | recompiler/src/c_emitter.c:124-137 | from an SR without unimplemented bits the processor never gets one that has them, in any number of steps |
| BodyLayout.CollectIsChained | recompiler/src/c_emitter.c:2856-2887 | the collected instructions lie end to end, each decoded where it lies, and only the last ends the body |
| BodyLayout.LabelsAreTargets | recompiler/src/c_emitter.c:2866-2869 | the label list holds exactly the local branch targets, each once |
| BodyLayout.ExactlyOneLabel | recompiler/src/c_emitter.c:2889-2931 | every goto statement of an emitted body, complete or cut, has exactly one label in that body |
| BodyLayout.GotosResolve | recompiler/src/c_emitter.c:2889-2931 | so no run of an emitted body, from any position and state, jumps to a label that is not there |
| BodyLayout.EmittedLabelAt | recompiler/src/c_emitter.c:2892-2895 | a label for an instruction of the body is where that instruction's code starts |
| EmitBody.CollectInstructions | recompiler/src/c_emitter.c:2856-2887 | the collecting loop gathers exactly the instructions, branch targets and stopping reason of the listing |
| EmitBody.EmitMissingBranchLabels | recompiler/src/c_emitter.c:2818-2841 | a branch target outside the body gets a label whose code dispatches to it |
| EmitBody.EmitFunctionBody | recompiler/src/c_emitter.c:2843-2933 | the emitting loops append exactly the body whose behaviour is proved |
| BodySimulation.OneInstructionAgrees | recompiler/src/c_emitter.c:2889-2928 | label, boundary polls, instruction and trace epilogue together are one step of the processor |
| BodySimulation.BodyKeepsStep | recompiler/src/c_emitter.c:2843-2933 | however many steps the processor takes, the emitted body gets as far in the same state, unless it has left where the processor is, is about to part at a corner, or has fallen off the end of a cut body |
| BodySimulation.BodySimulates | recompiler/src/c_emitter.c:2843-2933 | whenever a body, complete or cut, returns, the processor reaches the same registers, SR, memory and next address in a positive number of steps, unless on the way it gets to a corner or past the end of a badly cut body |
| BodySimulation.EmittedBodyIsGood | recompiler/src/c_emitter.c:2843-2933 | every body whose instructions all decode, whether it meets a terminator or is cut at the limit, is one the simulation is about |
| BodySimulation.StubDispatches | recompiler/src/c_emitter.c:2818-2841 | a branch out of the body becomes a dispatch to its target |
| BodySimulation.CallSimulates | recompiler/src/c_emitter.c:2843-2933 | one dispatched call of any generated function that logs no miss is a run of the processor, or the processor gets to where the two part |
| BodySimulation.ProgramSimulates | recompiler/src/c_emitter.c:249-267 | any number of calls, each dispatched to by the one before, is a run of the processor at least as long, unless that run gets to a corner or past the end of a badly cut body, and then which body is named |
| BodySimulation.ProgramSimulatesWholly | recompiler/src/c_emitter.c:249-267 | where the processor never gets to a corner and no body called is cut badly, there is no such exception |
| ForwardSimulation.CallKeepsStep | recompiler/src/c_emitter.c:2843-2933 | one call against k steps of the processor: it has returned where the processor is after j of them, or is in the middle of the body where the processor is, or the two part |
| ForwardSimulation.ProgramKeepsStep | recompiler/src/c_emitter.c:249-267 | however many steps the processor takes, there is a chain of calls of emitted bodies that gets as far in the same state, unless both are stuck, or the last body and the processor part |
| OneDispatch.AtMostOneDispatch | recompiler/src/c_emitter.c:249-267 | every run of every emitted body, complete, cut or undecodable, from any position and state, has recorded at most one dispatch |
| BodySimulation.CutBodyFallsIntoStub | recompiler/src/c_emitter.c:2930-2932 | a body cut at the limit falls into its first stub; it ends up where the processor is if and only if that stub is for the next instruction |
| Exceptions.NestingRestores | recompiler/src/c_emitter.c:124-160 | for every properly nested sequence of frames and RTEs, with writes outside live frames in between, D and A registers, mode and both stack pointers are restored and all other memory is unchanged |
| Exceptions.FrameRestores | recompiler/src/c_emitter.c:2246-2255 | one RTE undoes its frame: same SR, same stack pointers, PC the pushed one |
| Exceptions.FrameReturns | recompiler/src/c_emitter.c:2246-2255 | the outermost RTE dispatches to the pushed return address with SR exactly as it was |
| Exceptions.HandlersReturnWell | recompiler/src/c_emitter.c:2246-2255 | and from an SR without unimplemented bits the RTE that ends a properly nested handler is not in its corner |
| Discovery.AddKeeps | recompiler/src/function_discovery.c:142-187 | an addition keeps keys unique, the limit, and entries scan roots; it removes nothing, and takes effect unless truncated |
| Discovery.AddAllKeeps | recompiler/src/function_discovery.c:142-187 | so does any list of additions |
| Discovery.FactOfAdded | recompiler/src/function_discovery.c:142-187 | an addition brings no fact but those of its own key and flags |
| Discovery.AddAllWithin | recompiler/src/function_discovery.c:3219-3431 | additions keep a table inside any closed set that has what they ask for |
| Worklist.Candidates.constructor | recompiler/src/function_discovery.c:37-59 | the initial table is empty and its limit is the one asked for, or the maximum |
| Worklist.Candidates.FindSlot | recompiler/src/function_discovery.c:152-163 | the linear search finds the slot of an address and bank, or none |
| Worklist.Candidates.AddWithFlags | recompiler/src/function_discovery.c:142-187 | the arrays after an addition: flags promoted in place, a new slot, or truncation; the result says whether the key is there with the flags |
| Worklist.Candidates.AddInstruction | recompiler/src/function_discovery.c:3268-3378 | the additions for one instruction, in order |
| Worklist.Candidates.ScanCandidate | recompiler/src/function_discovery.c:3226-3431 | a scan adds exactly what the specification of a scan lists, up to the instruction limit |
| Worklist.Candidates.NextRoot | recompiler/src/function_discovery.c:3529-3545 | the two searches find an unscanned root if there is one |
| Worklist.Candidates.AddScriptCallbacks | recompiler/src/function_discovery.c:1963-2005 | the script pass reports how many keys it added |
| Worklist.Candidates.ScanAll | recompiler/src/function_discovery.c:3526-3563 | the worklist loop terminates; every root is scanned unless the script pass promoted a label and added no key |
| Worklist.Candidates.Discover | recompiler/src/function_discovery.c:3457-3567 | discovery from seeds, ending as the loop does |
| Worklist.Candidates.RootsScanned | recompiler/src/function_discovery.c:3526-3563 | with no script interpreter every scan root has been scanned, those promoted behind the cursor too |
| Worklist.Candidates.WithoutInterpreter | recompiler/src/function_discovery.c:3526-3563 | and an untruncated table is the least set closed under scanning that has the seeds |
| Worklist.PromotionsScanned | recompiler/src/function_discovery.c:3546-3557 | exactly when the script pass promotes without adding is a root left unscanned |
| Worklist.PromotionIsLost | recompiler/src/function_discovery.c:3546-3557 | that happens whenever the script pass names nothing but a label of the table |
| Worklist.LosePromotion | recompiler/src/function_discovery.c:3513-3563 | and it happens in a discovery: of NOP; RTS from an entry, with a script that names the RTS, the run ends with a scan root that was never scanned |
| Worklist.TableIsLeastClosed | recompiler/src/function_discovery.c:3526-3563 | all roots scanned and nothing truncated: closed, and inside every closed set |
| Worklist.SeedOrderDoesNotMatter | recompiler/src/function_discovery.c:3474-3511 | tables worked through from the same seeds, in any order and under any limits they stay within, have the same keys and flags |
| Worklist.DiscoverTwice | recompiler/src/function_discovery.c:3474-3511 | so do two runs of the discovery |
| ShardedDispatch.CasesAreDistinct | recompiler/src/c_emitter.c:224-233 | no emitted switch has two cases for one address |
| ShardedDispatch.FlatStepIsFirst | recompiler/src/c_emitter.c:269-291 | the flat switch runs the first function with the address and misses exactly the addresses none has |
| ShardedDispatch.RoutesAreFirsts | recompiler/src/c_emitter.c:305-313 | the routes are exactly the first function of each address with its shard |
| ShardedDispatch.ShardedStep | recompiler/src/c_emitter.c:344-371 | binary search and shard switch run what the flat switch runs, or miss everything when the shard count has wrapped |
| ShardedDispatch.InOneShard | recompiler/src/c_emitter.c:3232-3258 | every function is in the range of exactly one shard |
| ShardedDispatch.EveryFunctionHasAShard | recompiler/src/c_emitter.c:3221-3224 | every function is in a shard if and only if count + size - 1 does not exceed 32 bits |
| ShardedDispatch.EmitShards | recompiler/src/c_emitter.c:3194-3288 | the loops emit the routes and the switch of every shard |
| ShardedDispatch.EmitShardStep | recompiler/src/c_emitter.c:3001-3030 | the cases of one shard |
| DispatchClosure.ScanCovers | recompiler/src/function_discovery.c:3255-3431 | a scan makes known the static successors of every instruction it labels, past its limit too |
| DispatchClosure.KeysReach | recompiler/src/function_discovery.c:3255-3431 | in a finished flat table every key is code whose successors are keys |
| DispatchClosure.BodyIsKeys | recompiler/src/c_emitter.c:2856-2887 | every valid instruction of an emitted body is a key, though the body may be longer than a scan |
| DispatchClosure.BodyMentions | recompiler/src/c_emitter.c:2889-2932 | the constants an emitted body can go to are instruction addresses, next addresses and static targets |
| DispatchClosure.KeyHasCase | recompiler/src/c_emitter.c:269-291 | a key has a case in the dispatch switch |
| DispatchClosure.DispatchIsClosed | recompiler/src/c_emitter.c:2889-2927 | whatever constant the body of a key jumps to, dispatches to or pushes has a case in the switch, if there is code there |
| DispatchClosure.ReturnsAreClosed | recompiler/src/c_emitter.c:2732-2762 | so has the return address of every call |
| RunClosure.StatementAsks | recompiler/src/c_emitter.c:2843-2933 | a dispatch that a statement records is a constant it mentions, or comes from a register, memory, a vector or a reset |
| RunClosure.RunIsClosed | recompiler/src/c_emitter.c:269-292 | whatever a run of the body of a key asks for has a case in the switch, or is not code, or was so computed at a position the run got to |
| DispatchClosure.TableIsFlat | recompiler/src/function_discovery.c:61-70 | a table of a flat ROM has no banked keys |
| Audit.DispatchAudit.constructor | recompiler/src/dispatch_audit.c:15-19 | the audit starts with no sites and nothing seen |
| Audit.DispatchAudit.IsSeen | recompiler/src/dispatch_audit.c:131-142 | the linear search of the seen list |
| Audit.DispatchAudit.Record | recompiler/src/dispatch_audit.c:421-472 | a site is appended, or the audit truncated; the counters count it |
| Audit.DispatchAudit.VisitNew | recompiler/src/dispatch_audit.c:690-756 | a first visit notes the address and records its site; sites, counters and seen list stay consistent |
| Audit.DispatchAudit.ScanFrom | recompiler/src/dispatch_audit.c:658-778 | a scan sees everything within the limit unless truncated |
| Audit.DispatchAudit.Build | recompiler/src/dispatch_audit.c:780-832 | all scan roots are scanned; untruncated, everything on their scans has been seen |
| Audit.OneSitePerAddress | recompiler/src/dispatch_audit.c:690-756 | an untruncated audit has one site for an address and bank at most |
| Audit.EveryDispatchHasASite | recompiler/src/dispatch_audit.c:742-755 | and one for every call or jump it met |
| Audit.SameTests | recompiler/src/dispatch_audit.c:21-50 | the audit's own tests for direct targets and scan ends are discovery's |
| Audit.DirectIsAsked | recompiler/src/function_discovery.c:3358-3360 | wherever the audit meets a direct call or jump, discovery asked for its target |
| Audit.CodeIsDiscovered | recompiler/src/dispatch_audit.c:441-472 | a direct target that is code is in the table |
| Audit.MissingIsNotCode | recompiler/src/dispatch_audit.c:462-471 | every non-external direct site recorded as missing has a target that fails the code filter |
| Audit.MissingIffNotCode | recompiler/src/dispatch_audit.c:462-471 | in a flat ROM a direct target in program ROM is missing if and only if there is no code there |
| Pipeline.SomeRoot | recompiler/src/dispatch_audit.c:805-811 | a discovered table that is not empty has a scan root for the audit |
| Pipeline.DiscoverAndAudit | recompiler/src/dispatch_audit.c:780-832 | discovery and then audit: the table is closed for dispatch, and the sites are justified |
| Trampoline.SlicingIsTransparent | tools/generated_smoke_harness.c:563-594 | a run stopped by a budget and resumed at its pc with a larger one ends as one run with the larger does: machine, counters and dispatches |
| Trampoline.BudgetIsKept | tools/generated_smoke_harness.c:576-584 | a run never exceeds its budget and counts each dispatch once, by kind |
| Trampoline.NothingIsLost | tools/generated_smoke_harness.c:563-594 | if each function the run calls asks for one dispatch at most, the dispatches asked for are exactly those made and the one left at the stop |
| Trampoline.Harness.constructor | tools/generated_smoke_harness.c:282-314 | all counters zero |
| Trampoline.Harness.SetBudget | tools/generated_smoke_harness.c:406-409 | a new budget clears the hit flag |
| Trampoline.Harness.Request | tools/generated_smoke_harness.c:565-569 | a call while active only sets the pending slot |
| Trampoline.Harness.DispatchOne | tools/generated_smoke_harness.c:548-561 | system ROM addresses are unmirrored; the right counter moves |
| Trampoline.Harness.Note | tools/generated_smoke_harness.c:585-591 | a dispatch is counted, remembered in the ring and in the table |
| Trampoline.Harness.Call | tools/generated_smoke_harness.c:563-594 | the trampoline loop is the specified run under its budget, or to its end when the budget is zero |
| Trampoline.Harness.RecentDispatch | tools/generated_smoke_harness.c:470-478 | the ring gives the offset-th latest dispatch |
| WholeProgram.EmittedCodeLosesNothing | tools/generated_smoke_harness.c:563-594 | the single pending slot loses no dispatch of emitted code: every one asked for is made, in order, or is the one left at the stop |
| WholeProgram.TrampolineSimulates | tools/generated_smoke_harness.c:563-594 | whatever the budget, what a trampolined run of emitted bodies has done when it stops or ends is a run of the processor, at least a step for each dispatch, with g_ng_m68k.pc where the processor is, unless the processor gets to where it parts with one of the bodies |
| WholeProgram.ResumedRunSimulates | tools/generated_smoke_harness.c:576-584 | stopping on a budget and resuming at g_ng_m68k.pc is one run of the processor, with the same exception |
| DiscoveredProgram.DiscoveredProgramSimulates | recompiler/src/c_emitter.c:249-292 | discovery, switch and trampoline together: from any address, under any budget, the trampoline over the generated switch of a finished table is where the processor is when the budget ends or when it leaves the switch, which it does only for the system ROM, an address without code, or one that the function called last computed; unless the two part before |
| HotTable.Table.constructor | tools/generated_smoke_harness.c:294-299 | an empty table of 32768 slots |
| HotTable.Table.NoteDispatch | tools/generated_smoke_harness.c:528-546 | probing counts a dispatch in the one slot of its address, takes a free slot, or sets overflow when there is none |
| HotTable.TakeSlotKeeps | tools/generated_smoke_harness.c:532-540 | a new address gets the first free slot of its probe sequence and is nowhere else |
| HotTable.CountAgainKeeps | tools/generated_smoke_harness.c:541-544 | a known address is counted in its slot |
| HotTable.TableIsMultiset | tools/generated_smoke_harness.c:528-546 | without overflow the table is the multiset of dispatches: each address one slot with its count, as many as unique_dispatch_count |
| HotTable.OverflowMeansFull | tools/generated_smoke_harness.c:545-545 | overflow is set only when every slot is taken |
| IndexBound.IndexRegBoundState.Step | recompiler/src/m68k_analyze.c:356-425 | the update in place is the specified one |
| IndexBound.IndexRegBoundState.PromoteGuards | recompiler/src/m68k_analyze.c:283-307 | pending compares are promoted or dropped |
| IndexBound.StepIsSound | recompiler/src/m68k_analyze.c:356-425 | one harmless instruction, compare guards and branches included, keeps the bound true of the registers |
| IndexBound.RunIsSound | recompiler/src/m68k_analyze.c:356-425 | so does every straight-line sequence in which each instruction is harmless in the state it meets, from any registers |
| IndexBound.IndexedLoadHits | recompiler/src/m68k_analyze.c:427-439 | a word-indexed load through a bounded register reads one of the entries the applied bound enumerates |
| IndexBound.MaskIsSoundIff | recompiler/src/m68k_analyze.c:381-395 | in any state, an accepted ANDI bounds every register value if and only if it is not a byte operation and no guard promises fewer entries than the mask |
| IndexBound.ClampIsSoundIff | recompiler/src/m68k_analyze.c:309-354 | a clamp of an immediate to a guard bounds every register value if and only if it is not a byte move |
| IndexBound.UnlistedIsSoundIff | recompiler/src/m68k_analyze.c:185-234 | a register write the analysis does not know leaves the bound true, whatever is written, if and only if there was no bound |
| IndexBound.GuardIsNotSound | recompiler/src/m68k_analyze.c:283-307 | three instructions that lead to a guard promising too little |
| IndexBound.UnknownWriteIsNotSound | recompiler/src/m68k_analyze.c:185-234 | two that lead to an unknown write of a bounded register |
| SpriteChains.StickyFollowsItsPredecessor | tools/render_snapshot_frame.c:423-454 | a sticky sprite in a scanline's list comes directly after the sprite it sticks to |
| SpriteChains.BuildActiveSpriteList | tools/render_snapshot_frame.c:423-454 | the first pass lists exactly the first 96 active sprites of the hardware's chains |
| SpriteChains.FollowIsChain | tools/render_snapshot_frame.c:508-547 | following the filtered list gives the position, rows and zoom of the full chain |
| SpriteChains.TileRowIsSmall | tools/render_snapshot_frame.c:557-587 | the tile row is below 32 for any zoom ROM or none |
| SpriteChains.WalkChains | tools/render_snapshot_frame.c:508-597 | the second pass rejects no listed sprite again, its map guard never fires, and active is drawable plus x-skipped |
| SpriteChains.SpriteReport | tools/render_snapshot_frame.c:479-618 | the totals of the report, palette counts adding up to the drawable samples |
| AudioClock.TimeIsConserved | tools/sdl_live_host.c:1141-1165 | over every interleaving 3 * Z80 cycles + remainder = 68000 cycles fed + borrowed, and frames * 12000000 + remainder = cycles * rate |
| AudioClock.CommandBalances | tools/sdl_live_host.c:1330-1340 | a command keeps the Z80 balance if and only if its credit does not saturate |
| AudioClock.FramesDependOnTimeOnly | tools/sdl_live_host.c:1260-1283 | the number of frames depends on the time reached, not on batching or commands |
| AudioClock.Z80DependsOnTimeOnly | tools/sdl_live_host.c:1141-1165 | with equal credit outstanding, so does the number of Z80 cycles |
| AudioClock.LiveAudio.constructor | tools/sdl_live_host.c:1141-1165 | the clock starts with nothing run, owed or left over |
| AudioClock.LiveAudio.FeedZ80 | tools/sdl_live_host.c:1141-1165 | borrowed cycles are paid back before the Z80 runs |
| AudioClock.LiveAudio.MakeRoom | tools/sdl_live_host.c:1174-1206 | with pacing, a wait of at most 250 ms and nothing thrown away; without, a queue within the limit, thrown away whole if it was over |
| AudioClock.LiveAudio.FlushOutput | tools/sdl_live_host.c:1167-1212 | the buffer goes to the device behind what it has; what the device still has is the latest of what it was given, and without pacing never more than the limit and one chunk |
| AudioClock.LiveAudio.RecordAndBuffer | tools/sdl_live_host.c:1214-1258 | samples are handed to the device once and in order, through the 1024-frame buffer, under the same bound, or counted and dropped when no device is open |
| AudioClock.LiveAudio.GenerateAndQueue | tools/sdl_live_host.c:1260-1283 | the frames generated and the remainder |
| AudioClock.LiveAudio.AdvanceToCpuCycle | tools/sdl_live_host.c:1287-1303 | the scanline-by-scanline loop is the specified advance |
| AudioClock.LiveAudio.WriteCommand | tools/sdl_live_host.c:1305-1342 | a command runs the Z80 for its window on credit |
| SaveState.FindStateChunk | tools/sdl_live_host.c:630-678 | on any bytes the walk ends, the 32-bit offset never overflows, and a slice found lies in the buffer |
| SaveState.SavedChunksAreFound | tools/sdl_live_host.c:630-678 | in a saved file an id finds the bytes of the first chunk with it, and fails if and only if there is none |
| SaveState.DistinctIdsAllFound | tools/sdl_live_host.c:630-678 | with distinct ids every chunk is found whole |
| SaveState.HeaderReadsBack | tools/sdl_live_host.c:569-583 | the header's magic, version, size and count read back |
| SaveState.StateFile.WriteChunk | tools/sdl_live_host.c:422-431 | a chunk is its id, size and bytes |
| SaveState.StateFile.Save | tools/sdl_live_host.c:569-609 | the file is a header that counts the chunks present, then those chunks |
| BankMap.ProgramRom.constructor | recompiler/src/p_rom.c:244-247 | a ROM without an address map |
| BankMap.ProgramRom.SetAddressMap | recompiler/src/p_rom.c:292-325 | the bank tables after setting a map: 256 banks at most, each inside the ROM |
| BankMap.ProgramRom.ConfigureBank | recompiler/src/p_rom.c:327-349 | a bank is configured exactly when it fits, and nothing else changes |
| BankMap.ProgramRom.TranslateAddr | recompiler/src/p_rom.c:383-432 | the lookup is the specified translation |
| BankMap.ProgramRom.Read8 | recompiler/src/p_rom.c:434-437 | an unmapped address reads 0xFF |
| BankMap.CountWraps | recompiler/src/p_rom.c:268-276 | the 32-bit bank count is the true one, or zero when the sum wraps |
| BankMap.WhenBanksFit | recompiler/src/p_rom.c:303-308 | every bank has a slot if and only if there are at most 256 and the sum does not wrap |
| BankMap.SameTranslation | scripts/mine_record_tables.py:113-130 | then C and Python translate every address alike |
| BankMap.ImplementationsAgreeIff | scripts/mine_record_tables.py:113-130 | and if the window is not hidden behind the fixed region they agree everywhere only then |
| BankMap.FixedByteReachedOnce | recompiler/src/p_rom.c:403-411 | a byte of the fixed region is reached at exactly one address, whatever the bank |
| BankMap.ByteHasBank | recompiler/src/p_rom.c:309-323 | every other byte lies in one existing bank |
| BankMap.BankedByteReachedOnce | recompiler/src/p_rom.c:413-429 | and is reached at exactly one address through exactly that bank |

## Left out

- The decoder, the validator and the cycle tables are parameters; so are instruction, cycle and
  dispatch-watch hooks, which do not touch the machine.
- Instructions outside the modelled set that can dispatch by themselves (CHK, DIVU and DIVS by zero,
  privileged writes to SR and USP, RESET, an operand form the emitter turns into a miss in mid-body).
- ABCD, SBCD and NBCD are proved instruction by instruction and chained; in a body they are among the
  further instructions whose effect is a parameter.
- The program counter is 24 bits wide, as g_ng_m68k.pc is kept: after a jump to an address with a high
  byte, a 68000 would push that byte with its return addresses, and the model's processor does not.
- `BodySimulation.ProgramSimulates`: up to the first corner or badly cut body; nothing is said of what
  the program does after it has parted from the processor.
- Memory is flat and reads back what was written; memory-mapped devices and self-modifying code are
  not part of this model. Odd addresses raise no address error.
- The wait inside STOP is the host's; after it the emitted code polls once, and so does the model.
- The heuristics of discovery (jump tables, static address registers, script streams, spawn and state
  stores) and the audit's table matchers are parameters: lists of targets, or whether a table matched.
- `DiscoveredProgram.DiscoveredProgramSimulates`: calls that log a miss, the fallback for an address
  without a case and the generated code of the system ROM are not part of it.
- `DispatchClosure.DispatchIsClosed`: for a ROM without banks whose code ends below the top of the
  24-bit space and whose static targets are 24-bit addresses.
- `Trampoline.Harness.Call`: without a budget, for runs that end; an unlimited run need not.
- `IndexBound.IndexedLoadHits`: for a word-sized index; a long index also reads the upper word, which
  the bound says nothing about.
- Counters, and the products for the audio queue limit, are unbounded integers, except the Z80 credit,
  whose saturation is modelled. How much the sound device has left when asked is a parameter.
- Drawing of sprites, SDL windows and input, WAV capture, file replacement, argument and
  configuration parsing: input and output.
