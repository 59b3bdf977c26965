# A verified model of an RV64 user-mode emulator

The emulator runs RV64 guest programs in two ways. `exec_block_interp` fetches,
decodes and executes one instruction at a time. When a pc has been visited often
enough, `machine_genblock` prints a C function that holds one label per
instruction statically reachable from that pc, a C compiler turns it into
machine code, and `machine_compile` links the code into an arena from where
`machine_step` calls it. This project models both ways and everything between
them, and proves that the fast way gives the guest the same registers, memory,
pc and system calls as the slow one.

## How the model is laid out

| file | models |
|---|---|
| `Words.dfy`, `Insn.dfy` | 64- and 32-bit words on unbounded integers with explicit wrap-around, bitwise operations, the rounding macros; decoded instructions |
| `Alu.dfy` | high multiply from 32-bit limbs, truncating division with its special cases, the integer handlers |
| `Decode.dfy`, `Shape.dfy`, `Encoding.dfy`, `Assembler.dfy`, `FpAssembler.dfy`, `Rvc.dfy`, `Alignment.dfy` | the decoder on 32-bit vectors; encoders of sections 2.3 and 16.8 and assemblers for the listings of chapter 24 of the RISC-V Unprivileged ISA 20191213 as its inverse; expansion of compressed words; even pcs |
| `Guest.dfy` | registers, memory, handlers, and the plain fetch-decode-execute loop `Run`, the reference for everything else |
| `CText.dfy`, `Emit.dfy`, `Ir.dfy`, `Codegen.dfy` | the printed C: typed expressions with C's conversions and undefined behaviour, the statements under a label, the emitters |
| `Translate.dfy`, `Block.dfy`, `Stale.dfy` | one label against one handler; a whole block against a whole run; what a store into translated code does |
| `Probe.dfy`, `Worklist.dfy`, `Region.dfy`, `GenBlock.dfy` | linear probing, the pc stack and the pc set, static reachability and the order of the visit, the worklist loop |
| `Cache.dfy`, `Compile.dfy` | the code cache and its arena, linking and relocation |
| `History.dfy` | when a pc can get compiled on a run, and what the run has to keep for compiled code to stay true |
| `Machine.dfy`, `Zero.dfy`, `Session.dfy` | `machine_step`, its two outcomes at pc 0, the loop of `main` |
| `Mmu.dfy`, `Setup.dfy` | the guest break and its host mapping, `brk`, the argc/argv frame |

`assert`, `fatal` and `unreachable` are explicit outcomes (`Aborted`, `None`,
`Abort`, `Died`). Theorems about runs are about reference runs that do not
abort, and where a component can still stop the process, its contract names the
cause and says what must then be true.

## Readings of the source

- `MIN(++hot, CACHE_HOT_COUNT)` names its argument twice (src/cache.c:78,
  inc/riscvemu.h:36). Heat is modelled with a parameter `twice`, so that one
  increment and two are both covered.
- The W-form divisions test all 64 bits of rs2 for zero and then divide by the
  low word (src/interpret.c:222-236). A divisor with a zero low word and a
  nonzero high word traps on the host; `Alu.DivRemWLaw` says that this is the
  only way to trap.
- `mulh` and `mulhsu` negate `INT64_MIN` (inc/interpret_utils.h:22-32); the model
  wraps.
- A branch to 0 fails the assertion of `cache_lookup` (src/cache.c:24, called at
  src/machine.c:49) before any halting test is reached. The model follows the
  code: `Died(NullBranch)`. The machine halts where pc is 0 at the head of the
  outer loop (src/machine.c:12), which happens only on entry, or of the
  interpreting loop (src/interpret.c:823), which happens only after a
  fall-through that wraps. `Machine.Machine.Step` separates the two outcomes by
  the last instruction, and `Zero.StepToZero` shows that both occur.
- `cache_lookup` has no probe limit (src/cache.c:28-37). The model returns
  `Diverges` exactly where the loop does not end.
- `fence.i` does nothing (src/codegen.c:918-919), so a block keeps running the
  bytes it was generated from. `Block.BlockRunsFrozenCode` states what it does
  for every run, `Block.AgreementIsExact` when that is what the interpreter
  does, and `Stale.StoreIntoBlock` gives a program for which the two differ.
- What the theorems about runs ask of the guest is therefore about compiled code
  only: whenever the run comes to a word of a block compiled already, it is the
  word the block was generated from (`History.CodeHolds`), and whenever a visit
  may bring a pc to the heat threshold, the words statically reachable from it
  are, when the run executes them later, what they were at that visit
  (`History.Stable`). Writing code and running it is fine as long as it is not
  compiled in between; a run too short to heat any pc is asked nothing at all
  (`History.ColdIsStable`).

## Model

| member | source | states |
|---|---|---|
| `Session.Serve` | src/riscvemu.c:24-44 | over a whole guest run, for any host answering the system calls, the guest states the host sees at each system call, in order, and the final state are those of the plain loop; a suspended run has made half its budget of steps since the last call it served; every arrival at a pc outside compiled code has heated it |
| `Session.Turn` | src/riscvemu.c:26-43 | one turn: the machine state, and the state recorded at the system call, are those of n rounds of the plain loop with calls answered; the host's value is in register 10 (a0), its memory is the guest's, and nothing else differs from the state at the call |
| `Session.AtCall` | src/riscvemu.c:26-43 | a plain run that ends in a system call is a prefix of the run in which that call is answered |
| `Machine.Machine.Step` | src/machine.c:8-82 | whatever mix of interpreted, compiled, chained and fallback blocks is used, the guest state equals that of n steps of the plain loop; `ecall` is returned exactly at its system call; at pc 0 it returns `halt` if the guest started or fell through there and dies if the last instruction branched there; a suspended call has made at least about half its budget of steps; a failure of the compiler stage needs a pc that could be hot; heat is bounded above by visits and, for every pc outside compiled code, below by the arrivals of the run at it |
| `Machine.HotIsCovered` | src/cache.c:73-91 | hot code gets compiled: a pc the run arrived at 100000 times has a label in a compiled block |
| `Machine.Machine.Lap` | src/machine.c:10-81 | one round of the outer loop as part of a run, with everything `Step` promises |
| `Machine.Machine.Chain` | src/machine.c:39-65 | the inner loop ends in the state of n plain steps, with n bounded below and above by the work done; it goes back to the outer loop only for a nonzero, cold pc, and on the way arrives only at pcs of compiled code |
| `Machine.Machine.Prepare` | src/machine.c:19-37 | at every head of the outer loop: a hot pc gets its own stored code and changes nothing; a pc that stays cold is interpreted and its entry is exactly one visit warmer, or new; a pc whose visit reaches the threshold gets compiled code or the compiler stage fails; hot entries name compiled text of their own pc, and no pc is compiled twice |
| `Machine.Machine.Head` | src/machine.c:12-37 | the same as part of a run: heat stays within the visits of the run, and compiled code keeps its words for the rest of it |
| `Machine.Machine.CompileHere` | src/machine.c:22-30 | the pc whose visit reached the threshold is compiled for the first time; the machine invariant is restored; a failed link is one whose object code does not fit at the arena offset of that moment |
| `Machine.Machine.Follow` | src/machine.c:46-52 | after a branch, chaining continues only into the block of the new pc; a branch to 0 dies, and the outer loop is reached only with a nonzero, cold pc |
| `Machine.Machine.Call` | src/machine.c:41-44 | a call of interpreter or compiled code ends with the reason, re-entry pc and state of the plain loop; a call of compiled code runs the labels of that block |
| `Machine.Machine.Leg` | src/machine.c:39-44 | the same after n steps of a longer run |
| `Machine.Machine.ExecInterp` | src/interpret.c:819-849 | the interpreting loop makes plain steps, all falling through, until an instruction leaves the block, with that instruction's exit; it aborts exactly where the plain loop does |
| `Machine.Machine.CallBlock` | src/codegen.c:25-59 | prologue, labels, epilogue as one call: what the block's labels leave, and the state, reason and re-entry pc of the plain loop, for every number of labels; every step of it is at a label |
| `Machine.Machine.constructor` | src/riscvemu.c:17-18 | a machine with an empty cache satisfies the invariant |
| `Machine.NowCompiled` | src/machine.c:22-30 | linking at a fresh offset keeps "hot entries name their own text" and "compiled once", for the new pc and every earlier one |
| `Machine.StillCold` | src/machine.c:22-37 | a visit below the threshold keeps both invariants |
| `Machine.BytesKept` | src/compile.c:59-72 | linking new code leaves the linked bytes of all earlier code in place |
| `Machine.ZeroStaysZero` | src/interpret.c:841-842 | x0 reads zero at every instruction boundary of every run |
| `Machine.RunSplit` | src/interpret.c:819-849 | running a + b steps is running a, then b |
| `Block.TranslationPreservesMeaning` | src/codegen.c:1074-1127 | for every n, a generated block after n labels, with only traced registers loaded and stored back, has the registers, memory and pc of n interpreter steps; an exit carries the interpreter's own reason and re-entry pc; all that is asked is that a label's word is unchanged when the run comes to it |
| `Block.AgreementIsExact` | src/codegen.c:918-919 | the block agrees with the interpreter if and only if the interpreter reading current memory is where it would be reading the bytes the block was generated from |
| `Block.BlockRunsFrozenCode` | src/codegen.c:1090-1112 | without any hypothesis on the program text: for every n the block agrees with n steps of the interpreter that fetches from the bytes it was generated from |
| `Block.IntactText` | src/interpret.c:819-849 | a run whose every fetched word is the word of m is the run that fetches from m |
| `Block.Simulation` | src/codegen.c:25-59 | the simulation invariant, label by label: block variables track the guest state on traced registers, and untraced registers are those of entry |
| `Block.LabelStep` | src/codegen.c:1103-1111 | one label run on the traced variables is one interpreter step, and a goto it takes has a label |
| `Block.LabelIsGood` | src/codegen.c:384-459 | every label's gotos go to pushed pcs, every pushed pc is a goto target, the label ends in an unconditional transfer, and every register variable it names was traced |
| `Block.EpilogueRestores` | src/codegen.c:43-59 | storing the traced variables over the entry state gives exactly the interpreter's registers and memory |
| `Block.PrologueTracks` | src/codegen.c:25-41 | the declared variables hold the guest registers at entry, x0 having none |
| `Stale.StoreIntoBlock` | src/codegen.c:918-919 | a two-instruction program that stores over its second instruction: the plain loop runs the new instruction, its block leaves for the old system call |
| `History.GrownHolds` | src/machine.c:19-31 | code compiled so far on a run, old or new, has its words whenever the rest of the run comes to it |
| `History.StableWithin` | src/machine.c:19-31 | what is asked of a run from its first state, with its first heat, holds of the rest of it with the heat it has then |
| `History.ColdIsStable` | src/cache.c:78-79 | a run too short to bring any pc to the threshold compiles nothing and may rewrite its code freely |
| `Zero.StepToZero` | src/machine.c:10-82 | a fresh machine one step away from pc 0, with any compiler: it dies if that step is a branch or jump and returns `halt` if it is a fall-through |
| `Zero.JumpToZero` | src/cache.c:24 | one `jalr` through a zero register is such a branch |
| `Zero.FallToZero` | src/interpret.c:823-827 | a no-op in the last word of the address space is such a fall-through |
| `Ir.TracedRun` | src/codegen.c:8-23 | tracer soundness: statements that name only traced registers behave the same when no other register variable is declared |
| `Translate.LabelCorrect` | src/codegen.c:64-1072 | for every decoded instruction and state, its label leaves the handler's registers, memory and next pc, or hands the unchanged state to the interpreter; where the emitter aborts, the handler does too |
| `Translate.BranchLabel` | src/codegen.c:384-421 | a conditional goto is taken exactly when the handler branches |
| `Translate.JalrLabel` | src/codegen.c:423-436 | the target is computed from rs1 before the link register is written, with bit 0 cleared |
| `Translate.StoreLabel` | src/codegen.c:211-233 | the truncating C store writes the bytes of the handler's store |
| `Translate.LoadLabel` | src/codegen.c:104-138 | the typed C load and its conversion give the handler's sign or zero extension |
| `Translate.FpLoadLabel` | src/codegen.c:502-517 | loads into floating-point registers, with NaN boxing of single words |
| `Translate.FpArithLabel` | src/codegen.c:540-621 | both sides give the host the same operand bits and write the result to the same half or whole register |
| `Translate.StaleRecord` | src/codegen.c:1096-1104 | the static instruction record reused between iterations never changes the label printed |
| `Translate.DecodeGuarantees` | src/decode.c:370-1352 | every decoded instruction has a 32-bit immediate and marks exactly jumps and ecalls as leaving the block |
| `Shape.WordShape` | src/decode.c:370-1352 | the same, and branch and jump offsets are the B and J, or CB and CJ, fields of the word |
| `Emit.ImmTextCorrect` | src/codegen.c:142-201 | the printed C expression, under C's promotions and conversions, has the handler's value and no undefined behaviour |
| `Emit.RegTextCorrect` | src/codegen.c:237-332 | the same for register operands wherever the handler does not trap the host |
| `Emit.ChainTextCorrect` | src/codegen.c:334-376 | the guarded assignments of div, divu and rem have the handlers' values for all operands and never reach C's undefined divisions |
| `Emit.BranchTextCorrect` | src/codegen.c:384-421 | the printed condition, signed or unsigned, is the handler's |
| `Emit.JalrTextCorrect` | src/codegen.c:423-436 | the printed target clears bit 0 of the wrapped sum |
| `GenBlock.Generate` | src/codegen.c:1074-1112 | terminates for every guest image, in exactly the round and exactly as the loop with unbounded containers first ends or outgrows them; the labels are exactly the least set that contains the entry and is closed under static successors, each once, the entry first, and only registers they name are traced; a rejected pc is reachable and is 0 or does not decode |
| `Region.EndsOnce` | src/codegen.c:1090-1112 | that leaves one possible ending for every guest image and entry |
| `Region.Height` | src/codegen.c:1090-1112 | the stack is at most one higher than the number of conditional branches printed |
| `Region.FullStack` | src/stack.c:3-12 | a push that fails needs 256 statically reachable branches |
| `Region.HasRoom` | inc/riscvemu.h:107-116 | the containers never run out for a region with fewer than 256 branches whose pcs do not hash alike |
| `Region.WorkReachable` | src/codegen.c:1090-1112 | every pc printed or waiting is statically reachable |
| `GenBlock.Round` | src/codegen.c:1090-1112 | one iteration is one round of the unbounded loop, or ends where that one has no room; it fills a slot of the pc set or shortens the stack |
| `GenBlock.Print` | src/codegen.c:1095-1111 | a new pc gets its label, and every successor is printed or waiting afterwards |
| `Region.PushesAreSuccessors` | src/codegen.c:384-450 | what an emitter and the loop push are exactly the static successors of the instruction |
| `GenBlock.PendingDone` | src/codegen.c:1090-1112 | when the worklist is empty, every goto has a label |
| `Worklist.Stack.Push` | src/stack.c:3-12 | appends unless present, keeps the stack free of duplicates, aborts exactly when full |
| `Worklist.Stack.Pop` | src/stack.c:14-18 | removes and returns the last element |
| `Worklist.PcSet.Add` | src/set.c:21-37 | insertion into a mathematical set, true exactly when absent, at the first free slot; the probe limit never fires for a present element, and only fires with more than 32 elements of which two hash alike |
| `Worklist.PcSet.Bounded` | src/set.c:21-37 | the set never holds more elements than slots |
| `Probe.InsertPlaced` | src/set.c:24-36 | filling the first free slot on the probe path keeps every stored key findable |
| `Probe.AbsentAtEmpty` | src/set.c:24-36 | a free slot on the probe path means the key is stored nowhere |
| `Probe.CrowdedMany` | src/set.c:24-33 | a failed probe passes 33 different elements |
| `Cache.CodeCache.Lookup` | src/cache.c:23-40 | lookup in a finite map from pc to heat and offset: hits exactly the hot entries with their stored offset; it fails to end exactly when pc is absent and no slot is free |
| `Cache.CodeCache.Visit` | src/cache.c:73-91 | updates heat of pc alone; hot exactly at the threshold; aborts exactly when pc is absent and its neighbourhood is full |
| `Cache.CodeCache.Add` | src/cache.c:48-71 | stores the code at the next aligned offset as the offset of pc, leaving heat, other entries and all earlier bytes alone; aborts exactly when the arena or the neighbourhood is full |
| `Cache.RegionsDisjoint` | src/cache.c:48-71 | code regions lie in the arena and are pairwise disjoint |
| `Cache.CodeCache.Find` | src/cache.c:52-63 | the bounded probe finds the slot of pc or the free slot where it belongs |
| `Cache.CodeCache.Copy` | src/cache.c:65 | copies the bytes and no others |
| `Cache.CodeCache.constructor` | src/cache.c:10-15 | an empty map and an empty arena |
| `Cache.HeatLaw` | src/cache.c:78-79 | heat never falls, never passes the threshold, and reaches it within 100000 visits, for one or two increments a visit |
| `Cache.AlignForward` | src/cache.c:42-46 | aligning moves back if and only if the sum wraps, for every value and alignment; where it does not, every power of two aligns |
| `Cache.UpdateEntry` | src/cache.c:66-67 | overwriting a present slot is a map update of one key |
| `Cache.InsertEntry` | src/cache.c:88-89 | filling a free slot on the probe path is a map insertion of one key |
| `Compile.Link` | src/compile.c:59-101 | the entry ends at the text, never at its data; data and unpatched text stand in the arena as compiled, every surviving patch resolves, no earlier byte changes, and linking succeeds whenever the sections fit and relocations are near |
| `Compile.Place` | src/compile.c:68-71 | two adds under one pc: data first, then text, in two regions, offset at the text |
| `Compile.Relocate` | src/compile.c:83-98 | succeeds exactly when every relocation is PC32 and its displacement fits 32 bits; then every word not patched over later resolves to its symbol, and other bytes are untouched |
| `Compile.Patch` | src/compile.c:88-97 | one relocation: the assertion holds exactly when the displacement fits |
| `Compile.ResolvesIffFits` | src/compile.c:92-97 | in wrapping 64-bit arithmetic, the stored low word resolves to the symbol if and only if the displacement fits a signed 32-bit field |
| `Compile.NearFits` | src/compile.c:92-97 | with both ends in the arena and an addend of at most 2^30 in magnitude the displacement always fits |
| `Compile.PatchKeeps` | src/compile.c:83-98 | a later patch keeps every non-overlapping earlier one resolved |
| `Compile.WordRoundTrip` | src/compile.c:95 | a 32-bit word written little-endian reads back |
| `Alu.MulhuSpec` | inc/interpret_utils.h:6-20 | the limb algorithm gives floor(a*b / 2^64) for all words |
| `Alu.MulhSpec` | inc/interpret_utils.h:22-26 | the high word of the signed product for all words, `INT64_MIN` and zero low words included |
| `Alu.MulhsuSpec` | inc/interpret_utils.h:28-32 | the high word of the signed-by-unsigned product for all words |
| `Alu.HighHandlers` | src/interpret.c:182-192 | the three handlers write those high words, of rs1 and rs2 in this order |
| `Words.BitwiseBits` | src/interpret.c:162-176 | every bit of and, or, exclusive or is that of the operands' bits |
| `Guest.SingleKeepsUpper` | src/interpret.c:393-397 | a single-precision write keeps the upper half of the register and stores the low word |
| `Alu.SignInjectSpec` | inc/interpret_utils.h:37-45 | sign injection keeps the magnitude of the first operand and takes the sign of the second, its negation, or the exclusive or of both |
| `Guest.SignHandler` | src/interpret.c:507-539 | the six handlers apply it to rs1 and rs2 at their width and box single results |
| `Guest.CsrHandler` | src/interpret.c:351-359 | accesses to control registers 1, 2 and 3 read zero, all others abort |
| `Guest.FetchIsLoad` | src/interpret.c:828-830 | the instruction word is the little-endian 32-bit word at pc |
| `Setup.StoreLoad` | src/interpret.c:118-137 | n bytes stored little-endian read back |
| `Alu.NoOverflow` | inc/interpret_utils.h:6-20 | no 64-bit intermediate of `mulhu` wraps |
| `Alu.DivRemLaw` | src/interpret.c:248-286 | rs1 = rs2 * div + rem modulo 2^64, through zero divisor and overflow |
| `Alu.DivTruncates` | src/interpret.c:248-286 | outside the special cases the quotient truncates and the remainder takes the dividend's sign |
| `Alu.DivuRemuLaw` | src/interpret.c:202-204 | the unsigned law, and a remainder below the divisor |
| `Alu.DivRemWLaw` | src/interpret.c:222-232 | the signed law on low words; the host traps if and only if rs2 is nonzero with a zero low word |
| `Alu.DivuRemuWLaw` | src/interpret.c:226-236 | the unsigned law on low words, with the same trap condition |
| `Rvc.CompressedExpands` | src/decode.c:373-618 | every accepted compressed word decodes to the instruction of its 32-bit expansion, two bytes long |
| `Rvc.AcceptedCompressed` | src/decode.c:373-618 | a compressed word is accepted if and only if it is not one of the listed reserved or unsupported halfwords, and then decodes to its expansion |
| `Rvc.CompressedEffect` | src/decode.c:373-618 | executing it has the effect of its expansion except for the link address of a jump |
| `Rvc.UpperHalfIgnored` | src/decode.c:370-618 | decoding a compressed word ignores the upper halfword and the record's old contents |
| `Rvc.OffsetsJ` | src/decode.c:281-298 | the CJ reader gives the offset of the standard's bit order |
| `Assembler.RoundTrip` | src/decode.c:620-1352 | every RV64I and RV64M register, immediate, load, store, branch, jump and upper-immediate instruction, assembled from the standard's listings with any registers and any immediate in range, decodes to itself |
| `FpAssembler.RoundTrip` | src/decode.c:620-1352 | the same for the listed F and D instructions with any rounding mode, control-register accesses, fences and `ecall` |
| `Encoding.RoundTripI` | src/decode.c:46-52 | encoding then decoding returns the immediate and registers |
| `Encoding.RoundTripJ` | src/decode.c:54-67 | the same for the J layout, every even 21-bit offset |
| `Encoding.RoundTripB` | src/decode.c:69-83 | the same for the B layout, every even 13-bit offset |
| `Encoding.RoundTripR` | src/decode.c:85-91 | the same for the R layout |
| `Encoding.RoundTripS` | src/decode.c:93-104 | the same for the S layout |
| `Encoding.RoundTripU` | src/decode.c:39-44 | the same for the U layout |
| `Encoding.RoundTripCI` | src/decode.c:151-162 | the same for the CI layout |
| `Encoding.RoundTripCB` | src/decode.c:222-237 | the same for the CB layout, every even 9-bit offset |
| `Encoding.RoundTripCJ` | src/decode.c:281-298 | the same for the CJ layout, every even 12-bit offset |
| `Alignment.DecodedOffsetsEven` | src/decode.c:54-83 | every decoded branch or jump offset is even |
| `Alignment.EvenRun` | src/interpret.c:328-344 | from an even pc, every pc the plain loop reaches is even |
| `Alignment.EvenLabels` | src/codegen.c:423-450 | every label of a block generated from an even pc is even |
| `Mmu.AllocLaw` | src/mmu.c:108-138 | an allocation that does not abort keeps break and mapping in step if and only if the new break does not wrap; then the break moves by exactly the size asked for |
| `Mmu.LayoutInvariant` | src/mmu.c:108-138 | over every run of allocations and `brk` calls that neither abort nor wrap, the mapping ends at the break rounded up to a page, exactly the heap pages below it are mapped, and the base stays at or below the break |
| `Mmu.WrapExample` | src/mmu.c:108-138 | a shrink past zero that passes both assertions and loses the mapping |
| `Mmu.BrkSets` | src/syscall.c:160-167 | after `brk(addr)`, addr nonzero, the break is addr; `brk(0)` leaves it |
| `Mmu.BrkGranted` | src/syscall.c:160-167 | the assertions hold exactly for 0 and for targets at or above the base |
| `Mmu.LoadEstablishes` | src/mmu.c:33-63 | loading a segment establishes the invariant with an empty heap that starts at the higher of the mapping's and the segment's page-aligned end, above the segment |
| `Mmu.MappingEndSpec` | src/mmu.c:38-60 | the end the source computes with ROUNDDOWN and ROUNDUP is the page boundary at or above `p_vaddr + p_memsz` |
| `Mmu.ImageEstablishes` | src/mmu.c:94-104 | after any nonempty sequence of segments the invariant holds and the heap starts above all of them |
| `Mmu.MemoryUnit.Alloc` | src/mmu.c:108-138 | returns the old break; new pages read zero, no byte outside them changes |
| `Mmu.MemoryUnit.Brk` | src/syscall.c:160-167 | returns the break asked for, whenever the kernel grants the mapping and the assertions hold |
| `Words.RoundUpSpec` | inc/riscvemu.h:35 | the rounding macro gives the least multiple of a power of two at or above its argument |
| `Setup.MachineSetup` | src/machine.c:104-147 | for every argument vector that fits: sp is 16-byte aligned, mem64[sp] = argc = a0, a1 points to argc in-order pointers to disjoint NUL-terminated copies followed by a zero word, other registers unchanged |
| `Setup.PushArgs` | src/machine.c:120-130 | the loop, last argument first, lays out pointers and strings |
| `Setup.ShiftKeeps` | src/machine.c:139-146 | moving the frame down by `memmove` keeps its meaning |

## Left out

- The C compiler, its pipes and the parsing of its object file (src/compile.c:7-57): compiled code is taken to mean what the printed statements mean, and its sections are a parameter.
- Floating-point arithmetic, rounding, comparison and conversion: functions of the operand bits shared by both sides.
- Host floating-point classification (inc/interpret_utils.h:47-116): a shared function as well.
- System calls other than `brk`: the host's answer to each call is a parameter of `Session.Serve`.
- ELF headers and file-backed mappings (src/mmu.c:7-55, 66-105): only the final update of break and base is modelled.
- Unmapped guest addresses: guest memory is total and reads zero where nothing was stored, so host segmentation faults are not modelled.
- `set_has` (src/set.c:5-17): nothing calls it.
- Strings, sprintf buffers and literal formatting (src/str.c): emission appends to a sequence of statements.
- Contents of control registers: three are known and read zero.
- Handlers and emitters update `state_t` and their tracer arrays in place; they are modelled as functions on a value `Cpu` and as an emission record, so aliasing between guest memory and the register file is not captured. The loops around them are methods.
- The prologue's and epilogue's printed C: modelled as the assignments they print.
- Machine.Machine.Step: watches a bounded number of instructions (`budget`), because guest programs may run forever; the bound is arbitrary and a suspended result states its progress.
- Machine.Machine.ExecInterp: bounded by a budget for the same reason.
- Machine.Machine.CallBlock: bounded by a budget for the same reason.
- Machine.Machine.Chain: bounded by a budget for the same reason.
- Session.Serve: bounded in system calls and instructions per call.
- Block.TranslationPreservesMeaning: says nothing of a block whose labels' words have changed when the run comes to them; `Block.BlockRunsFrozenCode` and `Block.AgreementIsExact` cover those runs.
- History.Stable: counts every visit of the reference run to a pc as one that may heat it, although `machine_step` counts only those at the head of its outer loop, so it may ask for the words of a region that is never compiled.
- Cache.CodeCache.Add: leaves out alignments for which `offset + align` wraps; `Cache.AlignForward` shows that those and only those move the offset back over earlier code. Compile.WellFormed keeps section alignments to at most 2^63.
- Mmu.LoadEstablishes: segments whose host mapping would wrap past the end of the address space are left out.
- Compile.NearFits: the bound on the addend is 2^30 in magnitude, ample for the arena of 64 MiB.
- Mmu.MemoryUnit.Alloc: bytes of pages given back are not forgotten; they read zero again when the pages are mapped again. The page size is fixed at 4096.
- Setup.MachineSetup: argument vectors must fit the 32 MiB stack and the address space; environment and auxiliary vector are a zero word each, as in the source.
- Tracing output, register dumps and the instruction-cache flush: no state the guest can see.
