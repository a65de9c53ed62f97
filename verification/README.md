# Verification of the LSE-PC debug bridge and BIOS

LSE-PC is a PC built around an Intel 80386 on an FPGA board. This project models the parts of it that live in state,
loops and encodings, and proves what they are meant to guarantee:

- **The On-Chip Debug unit** (`OcdIsa`, `OcdFsm`, `OcdUnit`, `OcdRefinement`, `OcdSafety`, `OcdEvents`, `OcdManual`):
  a multi-cycle processor over a synchronous memory. The clocked machine refines a one-step-per-instruction
  interpreter over whole runs, for every sequence of 386 signals. `OcdUnit.Ocd` is the unit as a class whose registers
  are assigned at every clock edge.
- **Its assembler** (`AsmAst`, `AsmAnalysis`, `AsmSynth`, `AsmReading`, `AsmMeaning`, `AsmAny`, `AsmIntact`,
  `AsmFile`, `AsmLayout`, `AsmSemantics`, `AsmUnit`, `EndToEnd`): two passes, from syntax tree to program memory.
  `AsmReading` tells what a line says, `AsmMeaning` what a function means without cursors or stores, `AsmAny` what any
  source at all becomes; `EndToEnd` carries that meaning through assembling, loading and clocking.
- **The shipped routines** (`StraightLine`, `OcdStretches`, `OcdRoutines`, `OcdBreak`, `OcdRegisters`, `OcdTables`,
  `OcdBreakTables`, `OcdRegisterTables`, `OcdSource`, `OcdHeader`, `OcdLaunch`): the tables of the generated header
  are what the assembler makes of the source file, and what each routine drives on the buses and samples from them is
  proved for any bus timing.
- **The supervisor** (`Supervisor`, `SupervisorUnit`, `SupervisorRuns`, `SupervisorPins`, `SupervisorContext`,
  `SupervisorIo`): its CPU status, its saved registers and the routines it launches, interleaved with the clocks of
  the unit.
- **The debug session** (`Proto`, `HostWire`, `ProtoCommands`, `ProtoUnit`, `HostUnit`, `Session`, `SessionLockStep`,
  `SessionHost`, `SessionContext`, `SessionQueries`, `SessionTooSmall`): the host library and the supervisor's command
  handler as two parties over two byte channels.
- **The BIOS storage stack** (`Chains`, `FrameAlloc`, `Paging`, `Cpio`, `CpioPadding`, `FsBlocks`, `FsData`, `Fs`):
  free lists threaded through arrays, the page window they are seen through, and the reception of a cpio archive into
  block chains.
- **The BIOS text conversions** (`Numerals`, `Strings`, `Tokens`, `Printf`).

Code that changes things step by step is a class or a method over arrays, proved equal to a function of the old state;
the lemmas are about those functions.

## Where text and intent differ

`Words.Design` has two values. `AsWritten` follows the source text; `Intended` follows what the repository documents.
Theorems are stated for both wherever both satisfy them, and otherwise say exactly when the text does what is meant.

- `sw/tools/ocd-as/synth.ml:93` encodes BNE with the opcode of BEQ. Decoding gives a program back if and only if it
  has no BNE (`EndToEnd.DecodeEncode`, `AsmLayout.SweepReadsSource`). The shipped break routine shows the same opcode
  (`OcdBreakTables.BreakIsAssembled`).
- `sw/bridge/rtl/ocd.v:174` gates the high address byte with LDAL. LDAL and LDAH are right exactly for addresses below
  10000h (`OcdLaunch.GatesAgree`); LDAH always reads 0, so as wired no break is ever taken for real mode
  (`OcdLaunch.AsWiredAlwaysProtected`).
- Mending both still leaves the address a real-mode 386 fetches its NMI vector from, 000008h, taken for protected
  mode, because real mode is recognised by a high address byte that is *not* zero. For either wiring and either opcode
  `OcdLaunch.JudgedRightExactly` says which addresses are judged rightly.
- `sw/bios/src/frame_alloc.c:26` counts references up on free. A freed frame is passed over and dropped by the next
  allocation, and the allocator panics exactly after 254 allocations (`FrameAlloc.PanicExactly`,
  `FrameAlloc.FreeThenAlloc`). Frames are lost if and only if an allocation follows a free
  (`FrameAlloc.IncrementLoses`); each archive received loses its receive page (`Fs.FileSystem.FsRecvCpio`).
- `sw/bridge/rtl/ocd.v:195-196` computes the address of an LDI operand in nine bits, so an LDI at word 255 takes its
  operand from R0; the interpreter does the same.
- `README.md:518` has INT wait for INTA; `sw/bridge/rtl/ocd.v:161-165` waits for nothing there, nor does the model
  (`OcdManual.ManualExact`).
- `sw/lib/lsepc.c:199-200` gives up on an answer larger than the caller's buffer without reading it. A version query
  leaves the line clean if and only if its buffer holds 23 bytes; otherwise the next call fails
  (`SessionLockStep.RoomDecides`, `SessionTooSmall.NextCallFails`).
- `sw/bios/src/fs.c:198-199` aborts within a body with the file still linked to the free list
  (`FsBlocks.AbortAliases`), so the table is well laid after an abort if and only if no body was cut off or no block
  is free (`Fs.FileSystem.FsRecvCpio`, `Fs.CutIsLaidExactly`); the files before keep their bytes either way.
- `sw/bios/src/fs.c:164-207` skips no padding, which cpio(5) puts after names and bodies of odd length. The members
  sent are recovered if and only if each has a name of even length or a body of zeros (`CpioPadding.PaddedExactly`).
- `sw/bridge/rtl/supervisor/software/supervisor/main.c:26-32` looks at the line first, so a BRK that comes before the
  poll drops an I/O access already noted (`SupervisorIo.BreakDropsAccess`); nothing else but a STOP does
  (`SupervisorIo.NotedIsServed`).
- `sw/bios/src/fs.c:153-162` takes a byte that fails to follow the first magic byte together with it, so a run of
  first magic bytes before a header hides that header if and only if it is odd (`Cpio.ScanAfterMarks`).
- `sw/bios/src/fs.c:191-209` gives an empty file no size; it shows the size its block had before (`Fs.EmptyKeepsSize`,
  `Fs.FileSystem.FsGetFileSize`).
- `sw/bios/src/string.c:97-98` terminates no zero (`Strings.Itoa`); its index of eight bits makes it read for ever
  exactly the strings whose first 256 characters are all digits of their base (`Strings.EndsExactly`); a
  delimiter-only string yields one empty token (`Tokens.OnlyDelimiters`).
- `sw/bios/src/printf.c:202-204` takes an argument for every percent sign, `%%` included. The text is the meant one
  for all arguments if and only if no conversion after a `%%` shows its argument (`Printf.MeantExactly`;
  `Printf.PercentNumber` is an input where it is not). `sw/bios/src/printf.c:72-103` counts a number other than zero
  one short (`Printf.File.VPrintf`).
- `sw/tools/ocd-as/synth.ml:100-115` writes statements before the first function into the last one, and all functions
  of one name into the last of them (`AsmAny.AnySource`); a function whose name is used once comes out intact all the
  same (`AsmIntact.Intact`).
- `sw/bios/src/frame_alloc.c:48-52` reserves frames 0 and 1 for page tables that `sw/bios/include/memory.h:10-11`
  places below all frames (`Paging.PagesApart`), and `sw/bios/src/paging.c:36` names the user-accessible bit value
  "system".

## Model

| member | source | states |
|---|---|---|
| OcdUnit.Ocd.DoExec | sw/bridge/rtl/ocd.v:207-256 | EXEC with all its overlapping conditions sets exactly the registers and pins the control table says for the opcode, from the old compare register. |
| OcdUnit.Ocd.Always | sw/bridge/rtl/ocd.v:284-298 | A clock edge over registers and memory in place, the memory acting on what the unit drove before the edge, is one step of the clocked machine; a rising reset puts the seven registers named in their reset values at once and leaves compare register, write data, pins and memory alone. |
| OcdUnit.Ocd.Clocked | sw/bridge/rtl/ocd.v:284-298 | A whole history of clock edges and resets is a run of the clocked machine with its resets. |
| OcdSafety.SinceReset | sw/bridge/rtl/ocd.v:284-298 | From its last reset on, every history is a plain run of the clocked machine from the reset state, whatever came before. |
| EndToEnd.LaunchReachesBoundary | sw/bridge/rtl/ocd.v:179-189 | Two edges after a reset and a load the unit is at an instruction boundary at address 0, with registers, compare register and pins as before. |
| OcdRefinement.InstructionRefines | sw/bridge/rtl/ocd.v:191-279 | From any boundary with a consistent memory pipeline, the clocks up to the next boundary do exactly one interpreter step of the word at pc, under the sample at which its wait ended, five clocks plus those it waited, and the pipeline is consistent again. |
| OcdRefinement.RunRefines | sw/bridge/rtl/ocd.v:161-279 | Over every run from a boundary and every sequence of 386 signals, the clocked unit and the interpreter agree at the last boundary, and between boundaries the unit is where the interpreter says it is. |
| OcdRefinement.RunObserved | sw/bridge/rtl/ocd.v:191-279 | The unit shows FETCH exactly when the interpreter is between instructions. |
| OcdManual.ManualExact | sw/bridge/rtl/ocd.v:191-279 | From every boundary and for every word, opcode by opcode as listed in numbers: which 386 signals it waits for, and the one register, the compare register, each of the nine outputs and the next address it then leaves, all others unchanged. |
| OcdRefinement.ExitIsAbsorbing | sw/bridge/rtl/ocd.v:213-246 | Once EXIT is executing, every later clock keeps stop at 1 and pc, registers, memory and pins unchanged, whatever the inputs. |
| OcdSafety.ConfinementFromPowerUp | sw/bridge/rtl/ocd.v:245-271 | In every state reached from power-up by clocks and resets, under any program image, an asserted write addresses 100h..10Fh, and program memory and the words above the registers never change. |
| OcdSafety.OneRegisterPerInstruction | sw/bridge/rtl/ocd.v:250-271 | Between two fetches at most the register named by the fetched instruction changes. |
| OcdEvents.EventsRefine | sw/bridge/rtl/ocd.v:171-177 | The words driven, words sampled and addresses noted by the clocked unit are those of the instruction-level run, in order. |
| OcdEvents.ExitKeepsEverything | sw/bridge/rtl/ocd.v:213-214 | From the boundary before EXIT on, nothing more happens to registers, pins or buses. |
| AsmUnit.Assembler.AnalyseInstr | sw/tools/ocd-as/analysis.ml:15-67 | Filling in a line and moving cursor and labels in place is one step of pass 1 on the contexts; an undefined mnemonic or constant stops it, and no other context changes. |
| AsmUnit.Assembler.Analyse | sw/tools/ocd-as/analysis.ml:113-118 | The loop of pass 1 over mutable lines and contexts computes pass 1, notes included, and stops exactly when pass 1 fails; what its reading means is `AsmReading.ReadExactly`. |
| AsmReading.OperationExact | sw/tools/ocd-as/analysis.ml:15-49 | A line is read as an operation if and only if it carries that operation's mnemonic and operands that stand for its numbers. |
| AsmReading.ReadExactly | sw/tools/ocd-as/analysis.ml:15-78 | By position in the source: it can be read if and only if every statement makes sense where it stands, and each line is then the one operation it says, a name standing for the value of the last earlier `.define` of that name, or for what it was at the start if there is none. |
| AsmUnit.Assembler.SynthInstr | sw/tools/ocd-as/synth.ml:57-98 | The in-place stores of one instruction, the LDI operand first, are pass 2 of that line; a store out of bounds or an unknown label stops it. |
| AsmUnit.Assembler.Synth | sw/tools/ocd-as/synth.ml:100-115 | The loop of pass 2 computes pass 2 on the contexts. |
| AsmUnit.Assembler.Run | sw/tools/ocd-as/main.ml:3-11 | Both passes over the same mutable statements, the second starting in the context the first ended in. |
| AsmMeaning.LabelIsLastOffset | sw/tools/ocd-as/analysis.ml:55-67 | A label is defined exactly if some statement carries it, and stands for the offset of the last that does. |
| AsmMeaning.CodeAtOffset | sw/tools/ocd-as/synth.ml:57-98 | The words at a statement's offset are that statement's encoding. |
| AsmAny.PassOne | sw/tools/ocd-as/analysis.ml:15-118 | On any source, pass 1 succeeds exactly when every statement can be read (`AsmReading.ReadExactly`), and leaves for each function the offset of the last statement with each label and the cursor, after cursor moves. |
| AsmAny.PassTwo | sw/tools/ocd-as/synth.ml:57-115 | On any source, pass 2 succeeds exactly when every real statement has a code under the labels of the function it is written to and lies within 256 words; each word is then the last writer's. |
| AsmAny.AnySource | sw/tools/ocd-as/main.ml:3-11 | Any source at all, with cursor moves, repeated names and statements before the first function: assembling succeeds exactly when every statement can be read, has a code and a place within its memory, and no function ends beyond it; one table is emitted for every function line, each word of it decided by the last statement that writes it. |
| AsmAny.LastWriter | sw/tools/ocd-as/synth.ml:57-115 | The last statement that writes a word decides it, and a word nobody writes is zero. |
| AsmIntact.Intact | sw/tools/ocd-as/cheader.ml:4-17 | In any file, a function that moves no cursor and whose name is not used again is emitted as the concatenation of its own statements' encodings under its own labels, whatever precedes and follows it. |
| AsmLayout.WordsShared | sw/tools/ocd-as/analysis.ml:57-62 | Every word of an image belongs to exactly one statement: the ranges are contiguous, disjoint and without gaps. |
| AsmLayout.SweepReadsSource | sw/tools/ocd-as/synth.ml:44-98 | A linear sweep that skips LDI operands decodes the image to the operation list, registers modulo 16 and immediates modulo 2^16, if and only if the source has no BNE under the encoding as written. |
| EndToEnd.DecodeEncode | sw/tools/ocd-as/synth.ml:44-98 | The unit's decoder undoes the assembler's encoding of every operation, except, exactly, BNE as written. |
| EndToEnd.BranchLands | sw/tools/ocd-as/analysis.ml:63-67 | The byte a branch encodes is the offset of the next real statement at or after the label it names. |
| EndToEnd.SourceSimulation | sw/tools/ocd-as/synth.ml:57-98 | Running the loaded image by instructions follows the source-level run statement by statement, over whole runs. |
| EndToEnd.LaunchedFunction | sw/bridge/rtl/supervisor/software/supervisor/ocd.c:48-66 | After a launch the clocked unit does, under every trace of signals, what the source function does: same registers, compare register, pins and bus traffic at every boundary, and it has stopped exactly when the source is at an EXIT. |
| EndToEnd.EndToEnd | sw/tools/ocd-as/cheader.ml:4-17 | The same from the syntax tree on: take any file the assembler accepts and any function in it that moves no cursor and whose name is not used again, launch its table, clock it. |
| OcdHeader.HeaderAssembled | sw/bridge/rtl/supervisor/software/supervisor/ocd_prgm.h:1-231 | Assembling the statements of the source file, registers named and whatever its blank lines and comments, succeeds and gives exactly the eight tables shipped; with BNE encoded as intended only the break table differs, by that opcode. |
| OcdHeader.SourceExists | sw/bridge/rtl/supervisor/software/supervisor/ocd_prgm.s:1-235 | The file of exactly those lines, none blank, is such a source. |
| OcdSource.SpellMeans | sw/tools/ocd-as/analysis.ml:15-49 | The line spelt for an operation is read back as that operation, under any constants that know the registers. |
| OcdTables.ContIsAssembled | sw/bridge/rtl/supervisor/software/supervisor/ocd_prgm.s:109-145 | The encoding of the continue routine's operations is its table in the header. |
| OcdBreakTables.BreakIsAssembled | sw/bridge/rtl/supervisor/software/supervisor/ocd_prgm.h:58-136 | The shipped break table is what the assembler as written makes of a BNE, what any assembler makes of a BEQ, and not what the intended one makes of a BNE. |
| OcdBreak.BreakRuns | sw/bridge/rtl/supervisor/software/supervisor/ocd_prgm.s:26-108 | Under any bus timing the break routine stays in its own code and stops at the end of the protected path, R2..R6 the five words sampled and R1 one, or of the real-mode path, R1 zero; the two addresses it noted decide which. |
| OcdRoutines.ContinueDrives | sw/bridge/rtl/supervisor/software/supervisor/ocd_prgm.s:109-145 | Under any bus timing the continue routine has always driven a first part of IRET, three NOP pairs and R5, R6, R4, R0, R2, R3, and all of it when it stops. |
| OcdLaunch.RoutineStops | sw/bridge/rtl/supervisor/software/supervisor/ocd.c:48-66 | When a launched branch-free routine has stopped, each of its operations has taken effect exactly once and in order, each under one sample, and nothing else has. |
| OcdLaunch.BreakStops | sw/bridge/rtl/supervisor/software/supervisor/ocd_prgm.h:58-136 | The same for the break routine on the clocked unit, with either assembler and either wiring. |
| OcdLaunch.GatesAgree | sw/bridge/rtl/ocd.v:171-177 | The address gates as written and as documented agree on an address if and only if it is below 10000h. |
| OcdLaunch.AsWiredAlwaysProtected | sw/bridge/rtl/ocd.v:173-174 | With the gates as written no address makes the break routine see real mode. |
| OcdLaunch.IntendedDecision | README.md:591-600 | With gates and branch mended, real mode is seen exactly when the low word is 0008h and the high byte is not zero. |
| OcdLaunch.JudgedRightExactly | README.md:591-600 | The documented decision, real mode for 000008h and nothing else, is taken exactly: as wired, for every address but 000008h; with mended gates and BNE, for those whose low word is not 0008h; with mended gates and BEQ, for those but 000008h that lie below 10000h or whose low word is 0008h. |
| SupervisorUnit.Controller.OcdRun | sw/bridge/rtl/supervisor/software/supervisor/ocd.c:48-55 | Reset, copy, release: the shared memory holds the table, then its old words; a table too large changes nothing. |
| SupervisorUnit.Controller.OcdBusyWait | sw/bridge/rtl/supervisor/software/supervisor/ocd.c:57-66 | The polling loop returns exactly when the unit stops within the trace, in the state in which it first shows stop. |
| SupervisorUnit.Controller.SvInit | sw/bridge/rtl/supervisor/software/supervisor/supervisor.c:21-30 | Power-on leaves a stopped CPU with a stopped unit, clear I/O registers and the LED state and registers it had. |
| SupervisorUnit.Controller.SvStop | sw/bridge/rtl/supervisor/software/supervisor/supervisor.c:32-38 | In place: run the reset routine, wait, report stopped; what that does to the CPU is `SupervisorPins.StopResets`. |
| SupervisorUnit.Controller.SvBrk | sw/bridge/rtl/supervisor/software/supervisor/supervisor.c:40-58 | In place: refused unless running; otherwise EFLAGS, CS, EIP and the mode are read back from the routine's registers. |
| SupervisorUnit.Controller.SvCont | sw/bridge/rtl/supervisor/software/supervisor/supervisor.c:84-105 | In place: restores the context, answers an I/O read, or restarts, by status; refused in the three other statuses. |
| SupervisorUnit.Controller.SvStart | sw/bridge/rtl/supervisor/software/supervisor/supervisor.c:107-115 | In place: refused unless stopped; what a start does to the CPU is `SupervisorPins.StartReleases`. |
| SupervisorUnit.Controller.SvIoBreak | sw/bridge/rtl/supervisor/software/supervisor/supervisor.c:60-82 | In place: an I/O access is noted, and served at once if the LED answers it. |
| SupervisorUnit.Controller.SvGetRegs | sw/bridge/rtl/supervisor/software/supervisor/supervisor.c:117-141 | In place: registers are read by one routine and ESP put back by another. |
| SupervisorPins.StartReleases | sw/bridge/rtl/supervisor/software/supervisor/supervisor.c:107-115 | Under every trace of signals after a start from a stopped CPU: reset is released at every boundary past the first instruction, nothing is ever driven, and when the unit stops reset, NMI, INTR and HOLD are low, nothing has been sampled, and enable, READY# and data out are as before. |
| SupervisorPins.WriteContinues | sw/bridge/rtl/supervisor/software/supervisor/supervisor.c:98-102 | The same silence after a continue from an I/O write. |
| SupervisorPins.StopResets | sw/bridge/rtl/supervisor/software/supervisor/supervisor.c:32-38 | Whenever a stop returns, the CPU is in reset with the unit attached, every other pin and every unit register is as before, and nothing was driven or sampled while waiting. |
| SupervisorPins.InitResets | sw/bridge/rtl/supervisor/software/supervisor/supervisor.c:21-30 | The same of power-on. |
| SupervisorPins.StoppedMeansReset | README.md:407 | Over every run from power-on, RESET is asserted whenever the supervisor says the CPU is stopped. |
| SupervisorRuns.RunInvariant | sw/bridge/rtl/supervisor/software/supervisor/main.c:26-32 | Over every interleaving of host commands, polls and clocks: a CPU that is not running has its unit stopped, and every status change is one the protocol allows; BRK16 ends only by a stop. |
| SupervisorRuns.InitQuiescent | sw/bridge/rtl/supervisor/software/supervisor/supervisor.c:21-30 | Power-on establishes that invariant. |
| SupervisorRuns.RefusalsChangeNothing | sw/bridge/rtl/supervisor/software/supervisor/supervisor.c:40-141 | Each command is refused exactly in the statuses it does not apply to, and a refused one changes nothing. |
| SupervisorRuns.RefusedEvents | sw/bridge/rtl/supervisor/software/supervisor/proto.c:106-111 | As events of a run: a refused command leaves everything as it was, but a refused GETREGS notes exactly valid = 1, and one that succeeds valid = 0. |
| SupervisorContext.BreakSaves | sw/bridge/rtl/supervisor/software/supervisor/supervisor.c:40-58 | After a break the mode is the one the noted addresses decide, and in protected mode the CPU was fed the interrupt gate, the code segment and the NOPs of the routine, and EFLAGS, CS and EIP are the five words sampled, in that order. |
| SupervisorContext.HeldContext | sw/bridge/rtl/supervisor/software/supervisor/supervisor.c:84-92 | However many register reads, status and I/O queries, refused commands, polls and clocks come in between, the context of a break stays. |
| SupervisorContext.ContinueRestores | sw/bridge/rtl/supervisor/software/supervisor/supervisor.c:84-92 | A continue drives IRET, NOPs, EIP, CS, one free word and EFLAGS: a first part at every boundary, all of it when the unit stops. |
| SupervisorContext.BreakContinue | sw/bridge/rtl/supervisor/software/supervisor/supervisor.c:40-92 | Break, anything but stop or continue, then continue: the CPU is given back EIP, CS and EFLAGS word for word as the break sampled them. |
| SupervisorIo.RegsReported | sw/bridge/rtl/supervisor/software/supervisor/supervisor.c:117-141 | The CPU is fed 9060h, PUSHA and a NOP, and NOPs; the registers reported are the sixteen words it then pushed, ESP raised by twelve modulo 2^32, and the CPU is given exactly its pushed ESP back. |
| SupervisorIo.NotesAddress | sw/bridge/rtl/supervisor/software/supervisor/ocd_prgm.h:12-19 | After start, continue and write I/O the access noted last is in R1 and R2: its address and its direction. |
| SupervisorIo.AccessServed | sw/bridge/rtl/supervisor/software/supervisor/supervisor.c:60-82 | After the next I/O access the port reported is the one on the address bus, W/R# tells a write from a read, a write is reported with the word heard, a read waits for the host, and the LED port is served without it. |
| SupervisorIo.EveryAccessServed | sw/bridge/rtl/supervisor/software/supervisor/main.c:26-32 | Over every run from a CPU that is not running: whenever the main loop finds the unit of a running CPU stopped, what it serves is the last access on the bus since the CPU was set running. |
| SupervisorIo.NotedIsServed | sw/bridge/rtl/supervisor/software/supervisor/main.c:26-32 | Once the unit of a running CPU has noted an access and stopped, status, stop and registers stay through any commands and clocks but BRK, STOP and a poll, and the next poll serves that access. |
| SupervisorIo.BreakDropsAccess | sw/bridge/rtl/supervisor/software/supervisor/main.c:26-32 | A BRK taken before that poll drops the access: port, data and LED register stay as they were, polls do nothing, and whatever is served later was noted after the CPU was set running again. |
| SupervisorIo.LedAnswers | sw/bridge/rtl/supervisor/software/supervisor/led.c:13-17 | A read of the LED port is answered with the LED register. |
| SupervisorIo.LedHolds | sw/bridge/rtl/supervisor/software/supervisor/led.c:20-26 | The LED register changes only by a write to its port, to the low byte of the word heard. |
| SupervisorIo.HostAnswers | sw/bridge/rtl/supervisor/software/supervisor/supervisor.c:93-97 | The word the host sets for an I/O read is the one word driven before the CPU goes on. |
| Proto.ParserExact | sw/bridge/rtl/supervisor/software/supervisor/proto.c:155-183 | For every input stream, a command is called if and only if it is one of the eleven with its number of arguments and the bytes consumed are exactly 05h, 01h, the command, 02h, the arguments and 04h. |
| Proto.OtherAnswers | sw/bridge/rtl/supervisor/software/supervisor/proto.c:155-198 | Otherwise: SYN alone gives SYN ACK; strings that can still become a frame are waited on; anything else gets one NAK at the first byte that rules a frame out (for an unknown command, the STX after it). |
| Proto.WireReadBack | sw/bridge/rtl/supervisor/software/supervisor/proto.c:185-198 | Any stream of syncs and frames is read back message by message, nothing left over. |
| ProtoUnit.Handler.ProtoAck | sw/bridge/rtl/supervisor/software/supervisor/proto.c:41-52 | Byte-by-byte output of an answer is ACK, size, STX, payload, EOT. |
| ProtoUnit.Handler.ProtoRecv | sw/bridge/rtl/supervisor/software/supervisor/proto.c:155-183 | The byte-by-byte handler decides as the parser function, consumes exactly its bytes, and runs the callback or changes nothing. |
| ProtoUnit.Handler.ProtoHandle | sw/bridge/rtl/supervisor/software/supervisor/proto.c:185-198 | One entry of the handler: one NAK, one SYN ACK with the supervisor unchanged, or the callback's answer. |
| ProtoUnit.Handler.Run | sw/bridge/rtl/supervisor/software/supervisor/proto.c:60-130 | In place: each callback's effect on the supervisor and its payload; what these tell the host is proved in `SessionQueries`. |
| ProtoCommands.CallbackIsEvent | sw/bridge/rtl/supervisor/software/supervisor/proto.c:60-130 | Every callback is one event of a supervisor run, so what holds of all runs holds under the protocol. |
| ProtoCommands.CallbackSize | sw/bridge/rtl/supervisor/software/supervisor/proto.c:60-130 | A callback answers with exactly the payload size its command promises. |
| ProtoCommands.RegsReadBack | sw/bridge/rtl/supervisor/software/supervisor/supervisor.h:13-30 | The host's packed structure over the 43 bytes received holds the supervisor's registers. |
| SessionQueries.EchoCall | sw/bridge/rtl/supervisor/software/supervisor/proto.c:66-70 | Under any schedule, a call of echo with x returns exactly x. |
| SessionQueries.VersionCall | sw/bridge/rtl/supervisor/software/supervisor/proto.c:60-64 | A version call returns the version string and its NUL, character by character. |
| SessionQueries.StatusCall | sw/bridge/rtl/supervisor/software/supervisor/proto.c:100-104 | A status call returns the number the header gives the status at that moment, for each of the six. |
| SessionQueries.PortCall | sw/bridge/rtl/supervisor/software/supervisor/proto.c:126-130 | An I/O address call returns the low byte of the port noted, then the high byte. |
| SessionQueries.DataCall | sw/bridge/rtl/supervisor/software/supervisor/proto.c:120-124 | An I/O data call returns the low byte of the data word, then the high byte. |
| SessionQueries.SetThenGet | sw/bridge/rtl/supervisor/software/supervisor/proto.c:113-124 | Data set by one call comes back from the next, byte for byte, and is the word with the first byte low. |
| SessionQueries.AccessReported | sw/bridge/rtl/supervisor/software/supervisor/proto.c:120-130 | After the main loop has served an access left to the host, an address call returns the port that was on the bus and a data call the word the CPU wrote. |
| SessionQueries.CallReports | sw/bridge/rtl/supervisor/software/supervisor/proto.c:72-111 | A start, stop, break, continue or register call answers 1 exactly in the statuses it does not apply to, and then leaves the supervisor alone but for the valid byte; otherwise it answers 0. |
| SessionQueries.StopCall | sw/bridge/rtl/supervisor/software/supervisor/proto.c:72-77 | A stop call returns 0 and leaves a stopped CPU. |
| SessionQueries.StartCall | sw/bridge/rtl/supervisor/software/supervisor/proto.c:79-84 | A start call for a stopped CPU returns 0 and lets the CPU go, silently, with reset released. |
| HostUnit.Library.LsepcRead | sw/lib/lsepc.c:85-114 | Exactly the bytes asked for, in order, however the line fragments them; a timeout exactly when too few will come. |
| HostUnit.Library.LsepcGetSync | sw/lib/lsepc.c:116-144 | Up to three syncs, stopping at the first acknowledged one; each unsuccessful one has eaten two bytes, or what was left. |
| HostUnit.Library.LsepcSendCmd | sw/lib/lsepc.c:146-177 | A frame too long is refused with nothing sent; otherwise the syncs it took and the frame, nothing else, or three syncs and no frame. |
| HostUnit.Library.LsepcRecvResp | sw/lib/lsepc.c:179-212 | The receiver consumes bytes up to the first point at which the answer is decided, and returns that decision. |
| HostUnit.SyncExact | sw/lib/lsepc.c:116-144 | In numbers: syncs are sent up to the first answered by 16h 06h, and what follows that pair is left unread; all fail exactly if none is so answered. |
| HostUnit.ReceiverExact | sw/lib/lsepc.c:179-212 | In numbers: at the byte that decides it, an answer is refused exactly on 15h, too long exactly on a header announcing more than fits, and a payload exactly if it reads 06h, size, 02h, payload, 04h. |
| SessionHost.ReadIsBytes | sw/lib/lsepc.c:85-114 | However the line cuts what the host party of a session reads, it comes to the same as reading byte by byte. |
| SessionHost.CallGetsThrough | sw/lib/lsepc.c:116-177 | The host party of a session sends on every input the syncs and the frame that the library sends on it, and leaves the same bytes unread. |
| SessionHost.CallGivesUp | sw/lib/lsepc.c:116-177 | It gives up with -EREMOTEIO after three syncs exactly as the library does. |
| SessionHost.CallWaits | sw/lib/lsepc.c:116-144 | Where the library would time out it sends the same syncs and waits. |
| SessionHost.AnswerIsLibrary | sw/lib/lsepc.c:179-212 | And its call returns what the receiver makes of the first prefix that decides. |
| SessionLockStep.LockStep | sw/lib/lsepc.c:85-212 | For every sequence of library calls, every fragmentation and every interleaving with the unit and the main loop: no NAK is sent, each call returns exactly the payload of its own callback, which ran once and in order, and between calls nothing is left on the line. |
| SessionLockStep.StepKeeps | sw/bridge/rtl/supervisor/software/supervisor/proto.c:41-198 | Every single step of either party keeps the two in lock step. |
| SessionLockStep.SomeoneMoves | sw/lib/lsepc.c:116-212 | While a call is under way some party can move, unless the supervisor waits for the unit. |
| SessionLockStep.CallsReturn | sw/lib/lsepc.c:116-212 | However scheduled, only a bounded number of moves fit before a call returns. |
| SessionLockStep.RoomDecides | sw/lib/lsepc.c:179-212 | A call returns the payload and leaves the line clean if and only if its buffer is large enough; otherwise it reports -EMSGSIZE and leaves payload and EOT behind. |
| SessionLockStep.SessionQuiescent | sw/bridge/rtl/supervisor/software/supervisor/proto.c:155-198 | Whatever arrives on the line, a CPU that is not running has its unit stopped. |
| SessionContext.OneCall | sw/lib/lsepc.c:258-361 | Under any schedule a call is: some turns of the main loop, its callback, some more turns; and it returns what the callback answered. |
| SessionContext.GetRegsCall | sw/lib/lsepc.c:293-305 | In the 43 bytes a register call returns for a CPU held by a break, the host reads the registers PUSHA pushed and the EIP, CS and EFLAGS of the break. |
| SessionContext.BreakCallsContinue | sw/lib/lsepc.c:258-361 | A session of a break, any calls but stop and continue, and a continue, under any schedule: the continue answers 0 and the CPU is given back the context word for word. |
| SessionTooSmall.NextCallFails | sw/lib/lsepc.c:248-256 | After a version query with fewer than 23 bytes of buffer, the next call, whatever it is, fails with -EREMOTEIO and reaches no callback. |
| FrameAlloc.FrameTable.constructor | sw/bios/src/frame_alloc.c:41-55 | The table starts with frames 2..255 in order on the list, the last link wrapping to 0. |
| FrameAlloc.FrameTable.AllocFrame | sw/bios/src/frame_alloc.c:9-20 | The loop ends with the list, at its first frame without references; that frame and all before it leave the list; a panic exactly when there is none. |
| FrameAlloc.FrameTable.FreeFrame | sw/bios/src/frame_alloc.c:22-29 | The frame becomes the head of the list; frame 0 empties the list, and a frame already listed closes it into a ring that no walk leaves. |
| FrameAlloc.FrameTable.FrameStats | sw/bios/src/frame_alloc.c:31-39 | The free count is the length of the list, and the two counts make 256. |
| FrameAlloc.Conservation | sw/bios/src/frame_alloc.c:9-29 | Over every run of allocations and frees of held frames: the list is acyclic, ends at 0, holds no reserved and no held frame; held plus listed frames stay 254 under the meant decrement; as written no frame is handed out twice. |
| FrameAlloc.IncrementLoses | sw/bios/src/frame_alloc.c:22-29 | As written, held and listed frames are 254 less one for every free before the last allocation; so they stay 254 if and only if no allocation follows a free. |
| FrameAlloc.PanicExactly | sw/bios/src/frame_alloc.c:9-20 | The allocator panics exactly when all 254 frames are held, or, as written, when 254 allocations have been made. |
| FrameAlloc.FreeThenAlloc | sw/bios/src/frame_alloc.c:22-29 | The meant decrement gives a freed frame back first; as written it is passed over and leaves the list. |
| Paging.Bios.SetupPaging | sw/bios/src/paging.c:44-105 | The tables after set-up, entry by entry: an identity table reached only through directory entry 300h. |
| Paging.Window | sw/bios/src/paging.c:84-105 | The 386 maps exactly [C0000000h, C0400000h), each address to itself minus C0000000h, and faults everywhere else. |
| Paging.WindowRights | sw/bios/src/paging.c:79-105 | User programs may write to exactly that window. |
| Paging.FrameThroughWindow | sw/bios/include/frame_alloc.h:8-11 | Byte k of a frame's virtual page is physical byte 100000h + 4096*index + k, and leads back to the frame. |
| Paging.PagesApart | sw/bios/include/frame_alloc.h:8-11 | Pages of different frames never overlap, and none overlaps the page tables. |
| Cpio.ParseStream | sw/bios/src/fs.c:153-182 | Whatever the receive page held, a stream of well-formed members up to a trailer is parsed back member by member, gaps included. |
| Cpio.TrailerByName | sw/bios/src/fs.c:176-179 | The comparison with the trailer's name is decided by a terminated name alone, whatever stale bytes follow it in the page. |
| Cpio.ScanAfterMarks | sw/bios/src/fs.c:153-162 | A header behind k bytes of the first magic value is found if and only if k is even. |
| CpioPadding.PaddedExactly | sw/bios/src/fs.c:164-207 | From an archive with names and bodies padded to even length, as cpio(5) lays it out, the members sent are recovered if and only if each has a name of even length, its NUL counted, or a body of nothing but zeros. |
| FsBlocks.InitIsLaid | sw/bios/src/fs.c:217-236 | After initialisation 127 blocks form one acyclic free chain and the root is empty. |
| FsBlocks.InodeOpens | sw/bios/src/fs.c:184-189 | Taking a block and putting it at the head of the directory keeps the partition; the new file still links to the free list. |
| FsBlocks.NextExtends | sw/bios/src/fs.c:201-206 | Linking the next block keeps it; the link written was there already. |
| FsBlocks.ClosedIsLaid | sw/bios/src/fs.c:209-209 | Ending the chain makes it one more acyclic file, disjoint from the free list and the other files. |
| FsBlocks.AbortAliases | sw/bios/src/fs.c:198-199 | After an abort within a body the file's chain is its blocks followed by the whole free list. |
| Fs.FileSystem.InitFs | sw/bios/src/fs.c:217-236 | The fresh file system is valid, with no files and 127 free blocks, if a frame can be had. |
| Fs.FileSystem.ReceivePage | sw/bios/src/fs.c:192-199 | One page of a body goes into a frame nobody used; no other file's bytes and no other block's size change, even if the page is cut off by an abort. |
| Fs.FileSystem.ReceiveBody | sw/bios/src/fs.c:190-207 | The chain built holds exactly the body, ceil(size/4096) blocks; a panic only if blocks or frames run short. |
| Fs.FileSystem.SeekMagic | sw/bios/src/fs.c:153-162 | Skipping to the next magic number, byte by byte with both continues, loses nothing the parser sees. |
| Fs.FileSystem.FsRecvCpio | sw/bios/src/fs.c:144-215 | For every stream: a reception that reaches the trailer adds exactly the parsed members, newest first; it panics only if blocks, frames or name space run short; ended any other way it leaves every older file's bytes, name and size, and blocks and frames fall by exactly what was taken, with one frame more as written. A file is left open exactly if the abort came within a body, and the table is then well laid with its blocks as a file if and only if no block is free. |
| Fs.CutIsLaidExactly | sw/bios/src/fs.c:198-199 | The blocks of a file cut off in its body form a file of a well-laid table if and only if the free list is empty. |
| Fs.FileSystem.ReceiveArchive | sw/bios/src/fs.c:144-215 | A well-formed archive that fits is received whole, empty files included, with the blocks and frames left after it. |
| Fs.FileSystem.FsFind | sw/bios/src/fs.c:30-40 | The newest file whose name compares equal in 22 bytes. |
| Fs.FileSystem.FsGetFileSize | sw/bios/src/fs.c:57-68 | The sizes along the chain add up to the length of the body; an empty file shows the size its block holds. |
| Fs.FileSystem.FsPrintFile | sw/bios/src/fs.c:97-114 | Walking the chain puts out exactly the body, page by page; for an empty file, what its one block shows. |
| Fs.FileSystem.FsStats | sw/bios/src/fs.c:46-55 | Used plus free is 128, and used is the root and the blocks of the files. |
| Fs.NewestOfArchive | sw/bios/src/fs.c:30-40 | After the reception of a well-formed archive a name finds the last member sent under it, names compared by their first 22 bytes. |
| Fs.FileSystem.ReceiveThenPrint | sw/bios/src/fs.c:97-215 | Receive a well-formed archive that fits, print a name: out comes the body last sent under it. |
| Fs.EmptyKeepsSize | sw/bios/src/fs.c:190-209 | If a reception touches only the blocks of files with a body, every empty file shows the size and page its block had before. |
| Strings.Reverse | sw/bios/src/string.c:80-87 | In-place reversal of a C string, terminator and rest untouched. |
| Strings.Itoa | sw/bios/src/string.c:89-108 | The buffer holds the number's digits, most significant first, and a terminator; zero gets a digit and no terminator, so the buffer then holds its text if and only if the next byte was a terminator; refusals change nothing. |
| Strings.DividingEnds | sw/bios/src/string.c:99-101 | Dividing by a base other than zero reaches zero if and only if the base is at least 2 or the number is zero. |
| Strings.Atoi | sw/bios/src/string.c:110-153 | Where it returns: succeeds if and only if the string has fewer than 256 characters and every digit fits the announced base, and gives the number denoted modulo 2^32; what it returns is what the turns of its loop leave it with. |
| Strings.EndsExactly | sw/bios/src/string.c:131-150 | The loop, turn by turn with its eight-bit index, is left after some number of turns if and only if the string has fewer than 256 characters or one of its first 256 is refused; otherwise it is never left. |
| Strings.NumberRoundTrip | sw/bios/src/string.c:89-153 | Every 32-bit number, written in base 2, 8, 10 or 16 after its prefix, reads back as itself. |
| Numerals.WritesUnique | sw/bios/src/string.c:89-108 | A number has one way of being written in a base: no other digit string without leading zeros denotes it. |
| Tokens.Tokenizer.StrTokC | sw/bios/src/string.c:48-78 | The in-place call with its remembered position is one step of the tokeniser function. |
| Tokens.CallsAreMaximalRuns | sw/bios/src/string.c:48-78 | Repeated calls return exactly the maximal delimiter-free runs in order, then nothing, and change nothing but the first delimiter after each. |
| Tokens.PiecesMaximal | sw/bios/src/string.c:48-78 | The runs are maximal: no delimiter inside, a delimiter or an end on both sides. |
| Tokens.PiecesCover | sw/bios/src/string.c:48-78 | Every character that is no delimiter lies in some run. |
| Tokens.OnlyDelimiters | sw/bios/src/string.c:48-78 | The calls return the runs if and only if there is a run; a string of delimiters gives one empty token. |
| Printf.File.PutC | sw/bios/src/printf.c:60-65 | A character is put behind those held, and a full buffer is written out up to its first NUL. |
| Printf.File.FFlush | sw/bios/src/printf.c:45-50 | What is held before its first NUL reaches the line, in order. |
| Printf.File.PrintNbrBase | sw/bios/src/printf.c:72-103 | The digits of the number in the base, most significant first; the count returned is one less unless the number is zero. |
| Printf.File.PrintInt | sw/bios/src/printf.c:105-123 | Two's complement or unsigned decimal, the most negative number included. |
| Printf.File.SpecialChar | sw/bios/src/printf.c:176-191 | In place: each conversion of the table puts out the text that `Printf.FormatRenders` tells it to, and the count. |
| Printf.FormatRenders | sw/bios/src/printf.c:125-213 | Any format of percent-free pieces and conversions renders to the pieces with what each conversion means between them: `%s` the whole string, `%c` the low byte, numbers as they are written in their base, unknown letters behind their percent sign. |
| Printf.File.VPrintf | sw/bios/src/printf.c:193-213 | For every format without a lone percent sign at its end and enough arguments, what reaches the line is the character-by-character rendering, cut per buffer at a NUL, whatever the flush points; the count returned misses one character for every number shown that is not zero. |
| Printf.ArrivesExactly | sw/bios/src/printf.c:45-65 | The whole rendering reaches the line if and only if no `%c` is given a zero byte. |
| Printf.NulHides | sw/bios/src/printf.c:45-65 | A NUL hides itself and what follows it up to the next multiple of 64 characters, and nothing else. |
| Printf.MeantExactly | sw/bios/src/printf.c:202-204 | Taking an argument for `%%` shows the meant text for all arguments if and only if no conversion after a `%%` shows its argument. |
| Printf.PercentNumber | sw/bios/src/printf.c:202-204 | `%%%d` shows its second argument instead of its first. |
| Printf.ShownReadsBack | sw/bios/src/printf.c:72-174 | Every number shown denotes its argument in its base. |

## Left out

- 386 instruction semantics, bus tri-states and board wiring: the CPU's signals are arbitrary inputs; what the CPU does with the words it is given is not modelled.
- Lexing, parsing and error printing of the assembler, and files: the model starts from the syntax tree, and an error is a failure result.
- AsmIntact.Intact: a function that moves its own cursor with `.org` is described word by word in `AsmAny.AnySource`, but not followed to the clocked unit.
- SupervisorContext.BreakContinue: speaks of breaks taken for protected mode, the only ones the supervisor can continue.
- SupervisorIo.AccessServed: address and W/R# are sampled at different clocks; that both belong to one bus cycle is up to the CPU.
- SessionLockStep.LockStep: bytes are neither lost nor altered and reads neither fail nor time out; timeouts appear only in `HostUnit`.
- The host library's wrappers around a call, which only translate a nonzero return byte or an echo that differs into an error number.
- Sessions after two or more failed calls: only the first call after an oversized answer is followed.
- Fs.FileSystem.FsPrintFile: the stale page pointer of an empty file is taken to name a frame, and a stale size above a page to print nothing.
- Fs.FileSystem.FsRecvCpio: waiting for a byte that never comes is not modelled; every reception ends at a trailer, by the operator's abort, or in a panic, after which the machine stops.
- The block table and the frame pages are separate arrays rather than views of one physical memory; `Paging.PagesApart` is why they may be.
- Strings.Itoa: for a number other than zero, base 1, in which it never returns (`Strings.DividingEnds`), and base 0, in which it divides by zero, are excluded.
- Strings.Atoi: speaks of the strings on which it returns; `Strings.EndsExactly` says which these are.
- Printf.File.VPrintf: formats ending in a lone percent sign read past their end and are excluded.
- Listing directories, the shell, the monitor's command table, device emulation other than the LED, descriptor tables, interrupts and control registers: little logic, or none of it shared with the above.
