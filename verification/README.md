# Verified model of QBIT NOVA C

This project models the parts of QBIT NOVA C that carry its guarantees and proves
what they promise, for all inputs, all schedules and all runs.

* **Language.** `Ast`, `Bytecode`, `Parser`, `Compiler`, `ByteVm`, `VmLoop`,
  `CompilerCorrect`, `Pipeline`: the recursive-descent parser, the compiler that
  flattens nested blocks to END-delimited bytecode, the bytecode VM with its scans and
  its 64-entry repeat stack, and the structured execution they must agree with.
  Primitive instructions are functions of an arbitrary VM state, so equal final states
  over every state type include equal effect traces and equal uses of random numbers.
* **Kernel.** `Bits`, `Complexes`, `Gates`, `Rng`, `KernelSpec`, `Ghz`, `GateLoops`,
  `Kernel`, `Circuit`: the state-vector kernel and the circuit VM. Amplitudes are pairs
  of reals, and `1 / sqrt(2)` is any `s > 0` with `s * s == 0.5`. The in-place array
  loops are proved equal to operators on vectors, about which unitarity, involution,
  GHZ support, sampling and conservation are proved.
* **Virtual device frontend.** `Ints`, `Uapi`, `FrontendSpec`, `Frontend`,
  `FrontendRuns`, `FrontendSafety`. `FrontendSpec` gives each critical section as a
  function; `Frontend` holds the mutable objects and proves that the code of each
  section computes that function; `FrontendRuns` interleaves the same sections, one
  step each, for any number of callers, workers and closers, with backend switches and
  destruction, and proves an inductive invariant; `FrontendSafety` draws the
  consequences for whole runs.
* **Device stack.** `Wire`, `Transport`, `FixedPoint`, `Adapter`, `AdapterRuns`,
  `Joint`, `Daemon`, `EndToEnd`: the wire format, the chunk-tolerant transfer loops over a
  schedule of events, the Q32.32 conversion, the adapter with its cancel protocol, that
  adapter run by the frontend's workers and cancelled by its callbacks, the daemon
  driving the kernel, and the whole way of a request through all of them.

Results that are about the code rather than its documentation:

* The UAPI header says that a long timeout must be clamped
  (`include/uapi/qcpu_device_uapi.h:114-116`); the frontend refuses it with ERANGE, and
  so does the model (`FrontendSpec.LongTimeoutRefused`).
* A wait that ends with ETIMEDOUT is a timeout even when the worker is done by then
  (`src/device/qcpu_mock_frontend.c:946-956`): `FrontendSafety.FailedWaitTimesOut` on every
  run, and `FrontendSafety.DoneBeforeTheWaitEnds` for both ways out of the wait.
* A closer's cancel callback that finds the frontend busy reaches the exchange it was
  granted for if and only if no request was admitted since the grant
  (`FrontendSafety.CloserCancelsOnTimeExactly`, with a late one in
  `FrontendSafety.CloserMayCancelLate`); a caller's own is always on time
  (`FrontendSafety.CallerCancelsItself`). A late one ends the newer exchange with
  ECANCELED exactly if it finds it inside the adapter (`Joint.CallbackReaches`,
  `Joint.LateCancelEndsTheNewer`).
* A destroyed frontend will be touched again if and only if a close was in progress when
  it was destroyed (`FrontendSafety.DestroyIsSafeExactly`, with an unsafe run in
  `FrontendSafety.OverlappingClosesAreUnsafe`).
* A later `qubits` line of a circuit file is accepted without a look at the ops before it
  (`Circuit.LoweringFileLoads`); the ops of a file stay in range if and only if none names
  a qubit that the last such line leaves out (`Circuit.FileInRangeExactly`).
* The circuit VM's `r <= acc` test picks a state without weight exactly for the draw 0
  on a vector whose first amplitude is zero (`Circuit.PickHasWeight`); the kernel's
  strict test has no such case.
* The kernel accepts norms up to 1e-12 above one, the conversion only up to 2^-40
  (`FixedPoint.ValidatedNorms`, `FixedPoint.ToleranceGap`). A daemon response is not
  affected: its norm is taken after the measurement.
* The VM agrees with structured execution on every machine and state if and only if at
  most 64 repeats can be open at once (`CompilerCorrect.CorrectExactly`); past that it
  stops where structured execution goes on (`CompilerCorrect.TooDeepAborts`), and
  `CompilerCorrect.CompiledCodeRuns` says what it computes there.

## Model

| member | source | states |
|---|---|---|
| `Parser.Cursor.ParseExpr` | src/parser/parser.c:27-38 | three tokens become one comparison node and the cursor moves by three |
| `Parser.Cursor.ParseBlock` | src/parser/parser.c:40-53 | the cursor ends just behind the closing token and the node is the block that the grammar function reads there |
| `Parser.Cursor.ParseStmts` | src/parser/parser.c:44-50 | the list-building loop links the statements in order up to its end token |
| `Parser.Cursor.ParseStmt` | src/parser/parser.c:55-97 | check and repeat statements with their blocks, and the dispatch to the others |
| `Parser.Cursor.ParseSimple` | src/parser/parser.c:58-183 | every statement without a block, unknown tokens included |
| `Parser.Cursor.Parse` | src/parser/parser.c:185-199 | the program node over the statement list, directives skipped at top level only |
| `Parser.ParseInvertsRender` | src/parser/parser.c:185-199 | parsing the tokens of any well-formed tree and the end marker rebuilds exactly that tree and stops exactly at the marker |
| `Parser.BlockInvertsRender` | src/parser/parser.c:40-53 | in any surroundings, a block consumes its own closing brace and nothing after it |
| `Parser.StmtInvertsRender` | src/parser/parser.c:55-183 | in any surroundings, a statement consumes exactly its own tokens |
| `Parser.WellFormedIsParserImage` | src/parser/parser.c:27-199 | the well-formed trees are exactly the trees that some token array parses to |
| `Parser.DirectivesAreSkipped` | src/parser/parser.c:185-199 | any number of directives before, between and after the statements of a program changes neither its tree nor where parsing stops |
| `Parser.OtherTokensAreNames` | src/parser/parser.c:180-182 | every token that opens no statement, a directive inside a block included, is a statement of its own |
| `Parser.TextsAreWrittenAsTexts` | src/parser/parser.c:58-109 | what is said or sent is a text node exactly if its token is a string |
| `Compiler.Emitter.Emit` | src/compiler/compiler.c:11-22 | one instruction is appended, the earlier ones stay |
| `Compiler.Emitter.Compile` | src/compiler/compiler.c:24-97 | compiling only appends, and appends the code of the whole chain |
| `Compiler.Emitter.CompileHead` | src/compiler/compiler.c:27-94 | the code of one statement, bodies bracketed by their opener and one END |
| `Compiler.Emitter.CompileBlock` | src/compiler/compiler.c:68-82 | opener, body and END are appended in this order |
| `Compiler.PrimitiveInstr` | src/compiler/compiler.c:28-86 | statements without a body never compile to control instructions |
| `Pipeline.CodeIsSpelled` | src/compiler/compiler.c:24-97 | the bytecode of a tree is what its tokens spell from left to right: keyword and operands an instruction, a closing brace an END |
| `Pipeline.SimpleIsSpelled` | src/compiler/compiler.c:28-86 | each blockless statement compiles to the opcode of its keyword with the operands written after it |
| `Bytecode.AtoiOfDecimal` | src/compiler/compiler.c:70-79 | the conversion of operands reads decimal numerals back, with a sign or without, whatever follows them |
| `ByteVm.StepMoves` | src/vm/byte_vm.c:334-484 | every step of the VM, on any instruction array, is one of four moves of program counter and repeat stack |
| `ByteVm.StepLowersRank` | src/vm/byte_vm.c:377-460 | from any properly nested configuration a step keeps the nesting and the depth bound of 64 and lowers a lexicographic measure of remaining counts and program counter |
| `ByteVm.InnerEndsFirst` | src/vm/byte_vm.c:409-423 | a block opened inside a repeat ends strictly before that repeat's END, whatever the code |
| `ByteVm.FindEndIsFirst` | src/vm/byte_vm.c:395-423 | the scan finds the first END by which as many blocks are ended as opened, on any code |
| `ByteVm.FaultsExactly` | src/vm/byte_vm.c:425-482 | the VM stops early exactly at an unknown opcode, a repeat without an END and a 65th open repeat; a failed check without an END ends the program |
| `VmLoop.RepeatStack.Push` | src/vm/byte_vm.c:440-443 | the three arrays grow by one frame |
| `VmLoop.RepeatStack.CountDown` | src/vm/byte_vm.c:451-459 | the innermost count drops by one; its frame goes when it reaches zero |
| `VmLoop.ScanForEnd` | src/vm/byte_vm.c:410-423 | the scan finds the matching END or reports that there is none |
| `VmLoop.SkipBlock` | src/vm/byte_vm.c:395-405 | a failed check moves to its matching END, or to the last instruction if there is none |
| `VmLoop.Dispatch` | src/vm/byte_vm.c:337-483 | one pass through the switch is one step of the VM |
| `VmLoop.RunBytecode` | src/vm/byte_vm.c:324-485 | the VM halts on every instruction array, compiled or not, in the state that its steps give |
| `CompilerCorrect.Interpret` | src/vm/interpreter.c:86-138 | the recursive walk with its repeat loop computes structured execution |
| `CompilerCorrect.CompiledCodeRuns` | src/compiler/compiler.c:24-97 | for every tree, running its code is structured execution cut off exactly where a 65th repeat would be opened |
| `CompilerCorrect.CompilerCorrect` | src/vm/byte_vm.c:324-485 | for every tree with repeats at most 64 deep, running its code gives the state of structured execution |
| `CompilerCorrect.BoundedIsExecute` | src/vm/interpreter.c:118-137 | the cut-off never happens within the depth bound |
| `CompilerCorrect.TooDeepAborts` | src/vm/byte_vm.c:435-438 | with more than 64 nested repeats the VM reports an overflow where structured execution runs the innermost statement |
| `CompilerCorrect.CorrectExactly` | src/vm/byte_vm.c:409-445 | the bound of 64 open repeats is exact: the VM agrees with structured execution on every machine and state if and only if the tree cannot open more |
| `CompilerCorrect.CheckLaw` | src/vm/byte_vm.c:377-407 | running a compiled check runs its body once if the test passes and not at all if it fails |
| `CompilerCorrect.RepeatLaw` | src/vm/byte_vm.c:409-460 | running a compiled repeat runs its body as many times as its number says |
| `CompilerCorrect.SequenceLaw` | src/compiler/compiler.c:96 | compiled statements run in order |
| `CompilerCorrect.PrimitiveLaw` | src/vm/byte_vm.c:338-375 | a blockless statement has the effect of its instruction |
| `CompilerCorrect.ScanSkipsCode` | src/vm/byte_vm.c:395-423 | compiled code is balanced: a scan passes over it at any depth |
| `Pipeline.ParsedTreesCompile` | src/compiler/compiler.c:28-38 | every parsed tree has the links that the compiler follows without testing them |
| `Pipeline.RunTokens` | src/qnova.c:55-72 | parser, compiler and VM in sequence leave the state of bounded structured execution of the parsed tree |
| `Pipeline.SourceExecutesItsTree` | src/qnova.c:55-72 | writing a tree down, parsing, compiling and running it executes that tree, through exactly the instructions its tokens spell |
| `Rng.XorshiftInjective` | src/quantum/qcpu_kernel.c:44-46 | the three shift-and-xor steps are injective on 64-bit words |
| `Rng.DrawDigit` | src/quantum/qcpu_kernel.c:44-46 | every binary digit of the next state, from the digits of the state 12, 25 and 27 places away |
| `Rng.OutputResidue` | src/quantum/qcpu_kernel.c:50-51 | the word drawn is the state times the multiplier modulo 2^64 |
| `Rng.UnitIsTopDigits` | src/quantum/qcpu_kernel.c:54-61 | the unit draw is that word over 2^64, rounded down to a multiple of 2^-53 |
| `Rng.StateNeverZero` | src/quantum/qcpu_kernel.c:35-52 | from any seed the state is nonzero after any number of draws, so the zero fallback is dead after initialisation |
| `Rng.StreamsNeverMerge` | src/quantum/qcpu_kernel.c:35-52 | two streams that meet after equally many draws started from the same state, so from the same seed unless one is zero |
| `Rng.Unit` | src/quantum/qcpu_kernel.c:54-61 | every unit draw lies in [0, 1) |
| `Gates.GatesAreUnitary` | src/quantum/qcircuit.c:92-115 | H, X, Y, Z, S and T are unitary |
| `Gates.SingleKeepsNorm` | src/quantum/qcircuit.c:72-90 | a unitary on any qubit of any vector keeps the norm |
| `Gates.SingleComposes` | src/quantum/qcircuit.c:72-90 | two gates on one qubit act as their matrix product |
| `Gates.SingleInvolutions` | src/quantum/qcpu_kernel.c:172-263 | H, X, Y and Z applied twice give back the vector |
| `Gates.ControlledInvolution` | src/quantum/qcpu_kernel.c:265-318 | CX applied twice gives back the vector |
| `Gates.ControlledKeepsNorm` | src/quantum/qcpu_kernel.c:265-318 | CX keeps the norm |
| `Gates.ThreeCxIsSwap` | src/quantum/qcircuit.c:135-140 | for all sizes and all distinct qubits three alternating CX are the swap operator |
| `Gates.SwapIndexBits` | src/quantum/qcircuit.c:135-140 | the swap operator exchanges two bits of the index and keeps every other |
| `Gates.SwapIndexUnique` | src/quantum/qcircuit.c:135-140 | those bits determine the index, so there is only one such permutation |
| `Gates.TIsRootOfS` | src/quantum/qcircuit.c:109-115 | T twice is S, and T of one has two equal positive parts |
| `Bits.KetValue` | src/quantum/qcircuit.c:64-70 | the qubit values of a basis state, qubit 0 first, are the binary digits of its index |
| `KernelSpec.GateAmplitudes` | src/quantum/qcpu_kernel.c:172-263 | what H and X on any qubit make of every amplitude and that of the state differing in this qubit |
| `KernelSpec.CxAmplitudes` | src/quantum/qcpu_kernel.c:265-318 | what CX on any pair of qubits makes of every amplitude |
| `KernelSpec.RunsStayCoherent` | src/quantum/qcpu_kernel.c:100-492 | every run of reset, gates, GHZ, measurements and shots keeps norm one and keeps a measured kernel in exactly its recorded basis state |
| `KernelSpec.InitialCoherent` | src/quantum/qcpu_kernel.c:100-136 | that holds after initialisation with any seed |
| `KernelSpec.RunDraws` | src/quantum/qcpu_kernel.c:63-492 | on every run the generator has moved by one draw per measurement and per shot, and by no other |
| `KernelSpec.SampleInvertsCdf` | src/quantum/qcpu_kernel.c:63-98 | on a unit vector the sampler returns exactly the index whose interval of cumulative probability holds the threshold, and its amplitude is not zero |
| `KernelSpec.HistogramConserves` | src/quantum/qcpu_kernel.c:446-492 | the counts over all states add up to the shots |
| `KernelSpec.OutcomesHaveWeight` | src/quantum/qcpu_kernel.c:446-492 | no shot ever counts a state of amplitude zero |
| `Ghz.ChainSupport` | src/quantum/qcpu_kernel.c:320-359 | after H and k CX gates the support is index 0 and the index with its top k + 1 bits set, each with amplitude s |
| `Ghz.GhzCorrect` | src/quantum/qcpu_kernel.c:320-359 | for every number of qubits the result is s at 0 and at the last index and zero elsewhere |
| `Ghz.GhzOutcomes` | src/quantum/qcpu_kernel.c:446-492 | every shot on a GHZ state gives all zeros or all ones |
| `Ghz.GhzMeasured` | src/quantum/qcpu_kernel.c:408-444 | so does a measurement |
| `Ghz.GhzUnitNorm` | src/quantum/qcpu_kernel.c:320-359 | the GHZ vector has norm one |
| `Ghz.GhzFairCoin` | src/quantum/qcpu_kernel.c:63-98 | a draw gives all zeros exactly when it is below one half |
| `Kernel.QcpuKernel.constructor` | src/quantum/qcpu_kernel.c:10-21 | a kernel that is not initialised is not ready |
| `Kernel.QcpuKernel.Init` | src/quantum/qcpu_kernel.c:100-136 | a range error leaves the kernel alone, a failed allocation clears it; otherwise the first basis state and the seeded generator |
| `Kernel.QcpuKernel.Reset` | src/quantum/qcpu_kernel.c:149-170 | the first basis state, not measured |
| `Kernel.QcpuKernel.ApplyH` | src/quantum/qcpu_kernel.c:172-218 | the Hadamard operator on the qubit, or an error that leaves the kernel alone |
| `Kernel.QcpuKernel.ApplyX` | src/quantum/qcpu_kernel.c:220-263 | the X operator on the qubit, or an error that leaves the kernel alone |
| `Kernel.QcpuKernel.ApplyCx` | src/quantum/qcpu_kernel.c:265-318 | the CX operator, or an error that leaves the kernel alone, equal operands included |
| `Kernel.QcpuKernel.ApplyGhz` | src/quantum/qcpu_kernel.c:320-359 | reset, H and the whole CX chain |
| `Kernel.QcpuKernel.ComputeNorm` | src/quantum/qcpu_kernel.c:361-385 | the sum of squared magnitudes, zero if not ready |
| `Kernel.QcpuKernel.Validate` | src/quantum/qcpu_kernel.c:387-406 | OK exactly within the tolerance of norm one |
| `Kernel.QcpuKernel.Sample` | src/quantum/qcpu_kernel.c:63-98 | one draw of the generator and the index it selects |
| `Kernel.QcpuKernel.Measure` | src/quantum/qcpu_kernel.c:408-444 | the state collapses to the sampled basis state and records it |
| `Kernel.QcpuKernel.RunShots` | src/quantum/qcpu_kernel.c:446-492 | the counts are the histogram of that many consecutive samples; amplitudes stay, and an error leaves the generator alone |
| `Kernel.HadamardLoop` | src/quantum/qcpu_kernel.c:191-214 | the butterfly loop in place is the Hadamard operator, each index pair once |
| `Kernel.FlipLoop` | src/quantum/qcpu_kernel.c:237-259 | the exchange loop in place is the X operator |
| `Kernel.ControlledLoop` | src/quantum/qcpu_kernel.c:288-314 | the guarded exchange loop in place is the CX operator |
| `Kernel.ScanLoop` | src/quantum/qcpu_kernel.c:75-97 | the running sum stops at the first index above the threshold, or at the last |
| `Circuit.SingleLoop` | src/quantum/qcircuit.c:72-90 | the in-place loop applies any 2x2 matrix to the qubit |
| `Circuit.SwapLoops` | src/quantum/qcircuit.c:117-140 | the three in-place CX loops are the swap, and do nothing for equal operands |
| `Circuit.Apply` | src/quantum/qcircuit.c:246-257 | one op acts as its meaning; only a CX with equal operands fails |
| `Circuit.Simulate` | src/quantum/qcircuit.c:234-257 | the simulated vector is the one that the emitted gate list denotes |
| `Circuit.GateActs` | src/quantum/qcircuit.c:72-115 | what each of the six gates on any qubit makes of every amplitude and that of the state differing in this qubit |
| `Circuit.TwoTMakeS` | src/quantum/qcircuit.c:109-115 | two t gates are one s gate |
| `Circuit.CxActs` | src/quantum/qcircuit.c:117-133 | cx takes the amplitude of the partner in its second qubit where its first is one |
| `Circuit.SwapActs` | src/quantum/qcircuit.c:135-140 | swap takes the amplitude of the state with the two qubits exchanged |
| `Circuit.MeaningKeepsNorm` | src/quantum/qcircuit.c:213-224 | every op keeps the norm |
| `Circuit.ProgramsKeepNorm` | src/quantum/qcircuit.c:234-257 | every op list ends with norm one |
| `Circuit.GhzMacroMatchesKernel` | src/quantum/qcircuit.c:56-62 | the ghz macro gives the kernel's GHZ vector |
| `Circuit.Loader.AddOp` | src/quantum/qcircuit.c:44-50 | an op is appended unless the list is full |
| `Circuit.Loader.AddGhz` | src/quantum/qcircuit.c:56-62 | the macro appends H and the CX chain, and needs two qubits |
| `Circuit.Loader.AddLine` | src/quantum/qcircuit.c:166-202 | a line is accepted exactly under its operand and range checks, a later qubits line included, and has exactly its effect |
| `Circuit.LoadCircuit` | src/quantum/qcircuit.c:159-205 | the line loop stops at the first refused line, and a file without a qubit count is refused in the end |
| `Circuit.AcceptedExactly` | src/quantum/qcircuit.c:178-194 | an op line is accepted exactly if its op is in range and there is room |
| `Circuit.WrittenCircuitLoads` | src/quantum/qcircuit.c:159-205 | writing any op list in range down as lines and loading them gives it back |
| `Circuit.FileInRangeExactly` | src/quantum/qcircuit.c:166-202 | a file that loads has all ops in range if and only if no op line names a qubit that the last qubits line leaves out |
| `Circuit.GrowingFileInRange` | src/quantum/qcircuit.c:178-194 | so qubits lines that never lower the count, one line in particular, keep every op in range |
| `Circuit.LoweringFileLoads` | src/quantum/qcircuit.c:178-181 | a file that loads with an op out of range |
| `Circuit.MeasureAll` | src/quantum/qcircuit.c:142-157 | the scan returns the first index whose cumulative probability reaches the draw |
| `Circuit.PickHasWeight` | src/quantum/qcircuit.c:147-154 | the picked state has weight if and only if it is not the case that the draw is zero and the first amplitude is zero |
| `Circuit.ZeroDrawPicksAbsentState` | src/quantum/qcircuit.c:142-157 | a vector and a draw for which a state of amplitude zero is picked |
| `Circuit.FlippedLastQubit` | src/quantum/qcircuit.c:97-99 | the one-gate circuit that reaches that vector |
| `FrontendSpec.Screen` | src/device/qcpu_mock_frontend.c:410-529 | prevalidation admits exactly the admissible requests, with a deadline at most five seconds ahead; a refusal's errno is the one of its status unless the argument is null |
| `FrontendSpec.LongTimeoutRefused` | src/device/qcpu_mock_frontend.c:487-491 | an otherwise good request with a timeout above five seconds is refused with ERANGE |
| `FrontendSpec.RefusedExactly` | src/device/qcpu_mock_frontend.c:410-529 | every refusal status has exactly its cause |
| `FrontendSpec.DefaultTimeout` | src/device/qcpu_mock_frontend.c:476-480 | no timeout given means one second |
| `FrontendSpec.Judge` | src/device/qcpu_mock_frontend.c:324-408 | a response passes if and only if every validator clause holds; otherwise its own error, IO for no answer to the request, or KERNEL for an impossible result |
| `Uapi.RequiredFlagsExactly` | src/device/qcpu_mock_frontend.h:15-19 | exactly the four lowest flag bits are required |
| `FrontendSpec.Decide` | src/device/qcpu_mock_frontend.c:1012-1059 | success if and only if not timed out, not cancelled, backend result zero and response acceptable; every other status is the one that what happened calls for |
| `FrontendSpec.Delivered` | src/device/qcpu_mock_frontend.c:1012-1059 | the delivered response carries the decided status and is acceptable exactly on success |
| `Frontend.UserExchange.SetFailureResponse` | src/device/qcpu_mock_frontend.c:117-136 | the canonical zeroed failure frame with the request's sizes |
| `Frontend.ExchangeTask.Release` | src/device/qcpu_mock_frontend.c:77-86 | one reference less; told to free exactly at the last one |
| `Frontend.ValidateBackendResponse` | src/device/qcpu_mock_frontend.c:324-408 | the clause-by-clause checks accept exactly the acceptable responses, with the errno and status of the first failing clause |
| `Frontend.BackendError` | src/device/qcpu_mock_frontend.c:1023-1047 | the mapping of a failed backend call to errno, status and offline |
| `Frontend.Create` | src/device/qcpu_mock_frontend.c:531-662 | the first error of the set-up, or EINVAL for a backend without an exchange callback; else a frontend that is idle with a backend and offline without, and keeps the field invariant |
| `Frontend.MockDevice.RecordResultLocked` | src/device/qcpu_mock_frontend.c:138-146 | only the two recorded fields change |
| `Frontend.MockDevice.RequestCancelLocked` | src/device/qcpu_mock_frontend.c:248-258 | granted only when busy and not yet granted; the callback is due only if there is one |
| `Frontend.MockDevice.FinalizeExchangeLocked` | src/device/qcpu_mock_frontend.c:260-287 | one counter moves, the result is recorded, busy and cancel flags go, offline if the backend is gone |
| `Frontend.MockDevice.FirstObjection` | src/device/qcpu_mock_frontend.c:422-521 | the tests in their order give the screening |
| `Frontend.MockDevice.PrevalidateLocked` | src/device/qcpu_mock_frontend.c:410-529 | a refusal is recorded and written to the caller, and changes neither counter; admission zeroes the caller's response |
| `Frontend.MockDevice.StartLocked` | src/device/qcpu_mock_frontend.c:860-935 | a started worker makes the task active; a failed allocation or thread creation counts as failed and leaves nothing active |
| `Frontend.MockDevice.Outcome` | src/device/qcpu_mock_frontend.c:1012-1059 | the cascade decides the result of a finished exchange |
| `Frontend.MockDevice.CompleteLocked` | src/device/qcpu_mock_frontend.c:1012-1068 | the whole response or the failure frame is delivered, the task is not active any more, and the matching counter moves |
| `Frontend.MockDevice.AbandonLocked` | src/device/qcpu_mock_frontend.c:994-1006 | the task is marked, the failure counted and recorded, and the timeout frame delivered while the frontend stays busy |
| `Frontend.MockDevice.WorkerDoneLocked` | src/device/qcpu_mock_frontend.c:302-318 | an abandoned active task frees the frontend; any other leaves its fields alone |
| `Frontend.MockDevice.Open` | src/device/qcpu_mock_frontend.c:716-767 | session and lock are taken together, once; EBUSY for an open session or a lock held elsewhere, else the errno of the failed call |
| `Frontend.MockDevice.CloseLocked` | src/device/qcpu_mock_frontend.c:1119-1141 | EINVAL without a session, EBUSY beside an abandoned exchange, a cancel request beside a running one, else the session ends; the field invariant is kept |
| `Frontend.MockDevice.EndSessionLocked` | src/device/qcpu_mock_frontend.c:1153-1165 | session and lock are given up together, whatever unlocking gives; the first error is reported |
| `Frontend.MockDevice.SetBackend` | src/device/qcpu_mock_frontend.c:664-714 | refused while busy or without an exchange callback; else attached and idle, or detached and offline |
| `Frontend.MockDevice.CheckDestroy` | src/device/qcpu_mock_frontend.c:1185-1192 | allowed exactly when nobody holds the lock file, and then nothing is active |
| `FrontendRuns.StepKeepsInv` | src/device/qcpu_mock_frontend.c:248-1207 | every step of every thread keeps: busy, active task and BUSY state agree; busy needs a session; session and lock agree; IDLE needs a backend; the cancel flags agree and need busy; references equal live owners; counters equal the replies given |
| `FrontendSafety.EveryRunIsSafe` | src/device/qcpu_mock_frontend.c:248-1207 | that invariant holds after every run from creation |
| `FrontendSafety.ReachableInv` | src/device/qcpu_mock_frontend.c:248-1207 | so it holds in every reachable state, which the rows below are about |
| `FrontendSafety.NeverStuck` | src/device/qcpu_mock_frontend.c:939-1151 | no deadlock: from every reachable state the exchange in progress can end within three steps of its own caller and worker, whoever else waits |
| `FrontendSafety.WorkerIsActive` | src/device/qcpu_mock_frontend.c:289-322 | a running backend exchange is the active task of a busy, open, locked frontend: at most one exists, and neither close nor destroy succeeds beside it |
| `FrontendSafety.NoUseAfterFree` | src/device/qcpu_mock_frontend.c:874-1071 | no step of caller, worker or closer uses a freed task |
| `FrontendSafety.FreedExactlyOnce` | src/device/qcpu_mock_frontend.c:77-86 | a task is freed once, exactly when caller and worker are both gone |
| `FrontendSafety.OrphanFinishes` | src/device/qcpu_mock_frontend.c:302-319 | a worker finishing after abandonment changes no counter, record or reply, but makes the frontend free again |
| `FrontendSafety.CountersConserve` | src/device/qcpu_mock_frontend.c:260-287 | completed plus failed plus the outstanding exchange equals the number of admitted requests on every run |
| `FrontendSafety.ExchangesAreAdmissions` | src/device/qcpu_mock_frontend.c:851-885 | exchanges arise exactly from requests that pass prevalidation |
| `FrontendSafety.RefusalsMoveNoCounter` | src/device/qcpu_mock_frontend.c:525-528 | a refused request leaves counters, exchanges and busy alone |
| `FrontendSafety.RepliesAreSound` | src/device/qcpu_mock_frontend.c:1012-1077 | success, an OK status and an acceptable response are one thing, and come if and only if no cancel was granted and the backend returned such a response; every failure of a started exchange is the failure frame with the errno of its status |
| `FrontendSafety.RepliesAreJustified` | src/device/qcpu_mock_frontend.c:1012-1077 | on every run: a failed wait replies ETIMEDOUT; else a granted cancel or a cancelled backend ECANCELED; else a missing backend ENODEV, a late one ETIMEDOUT, another failure the status it left, and a returned response is judged |
| `FrontendSafety.RepliesHoldResultsOrNone` | src/device/qcpu_mock_frontend.c:117-136 | a successful GHZ reply holds a GHZ result of the requested size, a failed reply holds none |
| `FrontendSafety.StartFailures` | src/device/qcpu_mock_frontend.c:860-935 | a request without memory or thread fails at once with that error, is counted, and leaves the frontend free |
| `FrontendSafety.SwitchDecidesAdmission` | src/device/qcpu_mock_frontend.c:682-709 | good requests are let in after attaching a backend and not after detaching it |
| `FrontendSafety.CloseBegins` | src/device/qcpu_mock_frontend.c:1119-1165 | what a close does at once: refused, waiting with a cancel granted, or the session is over |
| `FrontendSafety.GraceIsGiven` | src/device/qcpu_mock_frontend.c:967-992 | a caller whose wait failed still waits for its worker before giving up, and a worker finishing then ends the exchange |
| `FrontendSafety.RepliesAreRecorded` | src/device/qcpu_mock_frontend.c:994-1068 | the step that fixes a reply records the same errno and status, moves exactly the matching counter, and leaves the device offline exactly if the backend is gone |
| `FrontendSafety.RepliesAreFinal` | src/device/qcpu_mock_frontend.c:994-1071 | on no run does any later step change a reply |
| `FrontendSafety.FailedWaitTimesOut` | src/device/qcpu_mock_frontend.c:946-1016 | after a wait that ended with an error the reply is a timeout on every run, whether or not the worker was done |
| `FrontendSafety.DoneBeforeTheWaitEnds` | src/device/qcpu_mock_frontend.c:939-1059 | with the worker done, a failed wait gives ETIMEDOUT; a successful one gives success exactly if no cancel was requested and the backend returned an acceptable response |
| `FrontendSafety.OneGrant` | src/device/qcpu_mock_frontend.c:248-258 | between an exchange's start and its end at most one cancel is granted |
| `FrontendSafety.CallerCancelsItself` | src/device/qcpu_mock_frontend.c:959-963 | a caller's callback exists, belongs to the backend it started on, and runs while its own exchange is active |
| `FrontendSafety.CloserCancelsOnTimeExactly` | src/device/qcpu_mock_frontend.c:1133-1141 | a closer's callback that finds the frontend busy reaches the exchange it was granted for if and only if no request was admitted since the grant |
| `FrontendSafety.CloserMayCancelLate` | src/device/qcpu_mock_frontend.c:1133-1141 | a run in which a closer's callback is due while an exchange without a grant is active |
| `FrontendSafety.DestroyedIsQuiet` | src/device/qcpu_mock_frontend.c:1177-1207 | after a successful destroy only a close in progress can still reach the frontend |
| `FrontendSafety.DestroyIsSafeExactly` | src/device/qcpu_mock_frontend.c:1177-1207 | a destroyed frontend will be touched again if and only if a close was in progress when it was destroyed |
| `FrontendSafety.DestroyedTouchedExactly` | src/device/qcpu_mock_frontend.c:1143-1151 | the same for every state after a destroy |
| `FrontendSafety.DestroyIsFinal` | src/device/qcpu_mock_frontend.c:1177-1207 | in particular nobody touches a destroyed frontend on a run without overlapping closes |
| `FrontendSafety.OverlappingClosesAreUnsafe` | src/device/qcpu_mock_frontend.c:1143-1151 | a run with overlapping closes in which one wakes on a destroyed frontend |
| `Wire.PutU16` | src/device/qcpu_device_wire.c:17-20 | two little-endian bytes in place, the rest unchanged |
| `Wire.PutU32` | src/device/qcpu_device_wire.c:22-27 | four little-endian bytes in place, the rest unchanged |
| `Wire.PutU64` | src/device/qcpu_device_wire.c:29-35 | eight little-endian bytes in place, the rest unchanged |
| `Wire.GetU16` | src/device/qcpu_device_wire.c:37-41 | the number whose little-endian digits stand there |
| `Wire.GetU32` | src/device/qcpu_device_wire.c:43-49 | the number whose little-endian digits stand there |
| `Wire.GetU64` | src/device/qcpu_device_wire.c:51-60 | the number whose little-endian digits stand there |
| `Wire.EncodeRequest` | src/device/qcpu_device_wire.c:78-94 | all 24 bytes are the request's fields in order |
| `Wire.EncodeResponse` | src/device/qcpu_device_wire.c:129-149 | all 56 bytes are the response's fields in order |
| `Wire.DecodeRequest` | src/device/qcpu_device_wire.c:96-127 | IO exactly on a wrong size; else the one request that encodes to the bytes, with BAD_MAGIC, BAD_VERSION or OK |
| `Wire.DecodeResponse` | src/device/qcpu_device_wire.c:151-186 | IO exactly on a wrong size; else the one response that encodes to the bytes, with BAD_MAGIC, BAD_VERSION or OK |
| `Wire.RequestReadsBack` | src/device/qcpu_device_wire.c:78-127 | decoding an encoded request gives it back |
| `Wire.RequestWritesBack` | src/device/qcpu_device_wire.c:78-127 | encoding decoded bytes gives them back |
| `Wire.ResponseReadsBack` | src/device/qcpu_device_wire.c:129-186 | decoding an encoded response gives it back |
| `Wire.ResponseWritesBack` | src/device/qcpu_device_wire.c:129-186 | encoding decoded bytes gives them back |
| `Wire.RequestLayout` | src/device/qcpu_device_wire.c:86-91 | every byte of every request field stands at its offset |
| `Wire.ResponseLayout` | src/device/qcpu_device_wire.c:137-146 | every byte of every response field stands at its offset |
| `Wire.FrameStatus` | src/device/qcpu_device_wire.c:118-126 | which frames are of another protocol or version |
| `Transport.WriteAll` | src/device/qcpu_device_io.c:244-312 | what was sent is a prefix of the buffer, the whole of it exactly on OK |
| `Transport.ReadAll` | src/device/qcpu_device_io.c:174-242 | the buffer's first part is what was delivered, in order and without gaps, the rest untouched; full exactly on OK |
| `Transport.SucceedsExactly` | src/device/qcpu_device_io.c:196-241 | a transfer succeeds if and only if enough bytes come before end of file, error, timeout or stop |
| `Transport.FailsExactly` | src/device/qcpu_device_io.c:199-238 | a transfer that fails does so at its first harmful event, with that event's status and exactly the bytes before it |
| `Transport.FrameCrosses` | src/device/qcpu_device_io.c:174-312 | for all schedules on both sides, a reader that succeeds has the whole message and the writer sent it |
| `Transport.RequestCrosses` | src/device/qcpu_device_io.c:174-312 | encode, write, read, decode gives back the request |
| `Transport.ResponseCrosses` | src/device/qcpu_device_io.c:174-312 | encode, write, read, decode gives back the response |
| `FixedPoint.NormToQ32` | src/device/qcpu_mock_frontend.c:1209-1243 | accepted exactly when finite and between 0 and 1 + 2^-40 |
| `FixedPoint.ToQ32` | src/device/qcpu_mock_frontend.c:1223-1240 | the result is at most 2^32 and nearest to the clamped norm |
| `FixedPoint.RoundedIsNearest` | src/device/qcpu_mock_frontend.c:1231-1238 | the result is the one multiple of 2^-32 within half a step, exact halves up; the final range test never fails |
| `FixedPoint.RoundedMonotone` | src/device/qcpu_mock_frontend.c:1231-1240 | the result is monotone in the norm |
| `FixedPoint.RoundsToOne` | src/device/qcpu_mock_frontend.c:1231-1240 | the result is 2^32 if and only if the norm is at least 1 - 2^-33 |
| `FixedPoint.ValidatedNorms` | src/device/qcpud.c:116-118 | a norm the kernel accepts converts if and only if it is at most 1 + 2^-40, and then to exactly 2^32 |
| `FixedPoint.ToleranceGap` | src/device/qcpu_mock_frontend.c:1227-1229 | a double within the kernel's tolerance of one that the conversion refuses |
| `FixedPoint.SignNegates` | src/device/qcpu_device_wire.c:70-76 | the sign bit of a pattern negates its value |
| `FixedPoint.ExponentDoubles` | src/device/qcpu_device_wire.c:70-76 | one more in the exponent doubles the value |
| `FixedPoint.FractionCounts` | src/device/qcpu_device_wire.c:70-76 | from one up to two the fraction counts steps of 2^-52 |
| `FixedPoint.GradualUnderflow` | src/device/qcpu_device_wire.c:70-76 | without a leading one the fraction counts the steps of the lowest exponent |
| `FixedPoint.HighestExponent` | src/device/qcpu_mock_frontend.c:1223-1225 | the patterns that are not finite |
| `Adapter.QcpudAdapter.Begin` | src/device/qcpu_qcpud_adapter.c:86-105 | EBUSY while active; else a fresh slot without descriptor or cancel |
| `Adapter.QcpudAdapter.RegisterFd` | src/device/qcpu_qcpud_adapter.c:107-125 | the descriptor is registered and an earlier cancel is reported |
| `Adapter.QcpudAdapter.Finish` | src/device/qcpu_qcpud_adapter.c:127-152 | the slot is free; a cancel overrides the result |
| `Adapter.QcpudAdapter.Cancel` | src/device/qcpu_qcpud_adapter.c:431-452 | only an active slot is cancelled, and only its registered descriptor is shut down |
| `Adapter.Settles` | src/device/qcpu_qcpud_adapter.c:321-428 | none of the results that an exchange comes to by itself is a cancellation |
| `Adapter.IoResult` | src/device/qcpu_qcpud_adapter.c:277-291 | a failed transfer is reported as cancelled exactly after a cancel, else as timed out exactly if it is |
| `Adapter.TranslateStatus` | src/device/qcpu_qcpud_adapter.c:154-174 | known statuses keep their meaning, OK comes only from OK |
| `Adapter.StatusResult` | src/device/qcpu_qcpud_adapter.c:176-194 | the negated errno agrees with the frontend's table |
| `Adapter.KnownFlags` | src/device/qcpu_qcpud_adapter.c:196-217 | the four known flags and no other bit |
| `Adapter.TranslateFlags` | src/device/qcpu_qcpud_adapter.c:196-217 | setting the flags one by one gives exactly those |
| `Adapter.TranslateRequest` | src/device/qcpu_qcpud_adapter.c:219-241 | refused exactly for an unknown command; else unchanged but for the header |
| `Adapter.Translation` | src/device/qcpu_qcpud_adapter.c:243-275 | success exactly for an OK status with a convertible norm; result and status agree and the norm is at most one |
| `Adapter.TranslateResponse` | src/device/qcpu_qcpud_adapter.c:243-275 | the field-by-field translation |
| `AdapterRuns.StepKeepsInv` | src/device/qcpu_qcpud_adapter.c:86-452 | every step keeps: one exchange holds the slot, and a registered descriptor is open and its own |
| `AdapterRuns.ShutdownsAreSafe` | src/device/qcpu_qcpud_adapter.c:107-152 | on every run, with descriptor numbers reused after close, every shutdown hits a descriptor that is open and belongs to the exchange in progress |
| `AdapterRuns.CancelReachesTheSocket` | src/device/qcpu_qcpud_adapter.c:441-447 | a cancel shuts down the socket of the conversation in progress |
| `AdapterRuns.RegistrationHonoursTheCancel` | src/device/qcpu_qcpud_adapter.c:107-125 | a cancel that came before takes effect when the socket is registered |
| `AdapterRuns.CanceledExactly` | src/device/qcpu_qcpud_adapter.c:127-152 | on every run an exchange returns -ECANCELED if and only if a cancel came between its begin and its finish |
| `AdapterRuns.CancelsAreCounted` | src/device/qcpu_qcpud_adapter.c:431-452 | the count behind that moves exactly at a cancel while the exchange holds the slot |
| `Joint.MoveKeepsInv` | src/device/qcpu_mock_frontend.c:289-322 | with the adapter behind the frontend, every step keeps: the call inside the adapter is that of the active exchange, and a finished worker's result is what the adapter answered |
| `Joint.NeverBusy` | src/device/qcpu_qcpud_adapter.c:86-105 | on every run the adapter never answers the frontend with -EBUSY |
| `Joint.CallbackReaches` | src/device/qcpu_qcpud_adapter.c:431-452 | a callback reaches exactly the call inside the adapter, whoever it was granted for |
| `Joint.OnlyCallbacksCount` | src/device/qcpu_qcpud_adapter.c:431-452 | no other step counts as a cancel of a call |
| `Joint.CancelledExactly` | src/device/qcpu_qcpud_adapter.c:127-152 | the adapter answers -ECANCELED if and only if a callback came while the call was inside |
| `Joint.LateCancelEndsTheNewer` | src/device/qcpu_mock_frontend.c:1133-1141 | an exchange that a callback finds inside the adapter ends with ECANCELED on every run, even without a grant of its own |
| `Daemon.CountInvalid` | src/device/qcpud.c:128-140 | the sum of the counts of all states but the first and the last |
| `Daemon.NoStrays` | src/device/qcpud.c:128-140 | that sum is zero if and only if each of those counts is |
| `Daemon.ShotsNeverStray` | src/device/qcpud.c:120-140 | after a GHZ preparation it is zero for every seed and number of shots |
| `Daemon.MeasuredState` | src/device/qcpud.c:142-161 | the closing measurement gives the state that seed and shots determine, and leaves norm one |
| `Daemon.PrepareGhz` | src/device/qcpud.c:114-118 | preparing and validating succeed on a fresh kernel |
| `Daemon.ObserveGhz` | src/device/qcpud.c:120-146 | shots, stray count and measurement of the prepared state |
| `Daemon.ProcessRunGhz` | src/device/qcpud.c:83-165 | RANGE, KERNEL or the complete answer, according to the request and the allocations |
| `Daemon.ProcessRequest` | src/device/qcpud.c:167-186 | the answer to every command, unknown ones included |
| `Daemon.AnsweredExactly` | src/device/qcpud.c:83-186 | every status of an answer has exactly its cause, and only an OK answer to a GHZ request holds results |
| `Daemon.BadFramesAreTold` | src/device/qcpud.c:215-228 | a frame of another protocol or version is told so and nothing else |
| `Daemon.Serve` | src/device/qcpud.c:188-263 | a response is written only after a whole request frame was read, and it answers that frame |
| `EndToEnd.AcceptedExactly` | src/device/qcpu_mock_frontend.c:324-408 | the daemon's translated response passes the validator if and only if the request is a status query with zero sizes or a GHZ run in range whose allocations succeed; the GHZ norm is then exactly 2^32 |
| `EndToEnd.ExchangeSucceedsExactly` | src/device/qcpu_mock_frontend.c:1012-1068 | an undisturbed exchange succeeds at the frontend exactly for those requests |
| `EndToEnd.ReadsExactly` | src/device/qcpu_device_io.c:174-242 | reading a frame succeeds if and only if the whole frame was sent and enough of it comes |
| `EndToEnd.Converse` | src/device/qcpu_qcpud_adapter.c:329-421 | a response comes back exactly when all four transfers get through, and it is the daemon's answer to the request sent |
| `EndToEnd.Receive` | src/device/qcpu_qcpud_adapter.c:403-421 | reading and decoding the response |
| `EndToEnd.Exchange` | src/device/qcpu_qcpud_adapter.c:293-429 | the slot is taken and freed; -ECANCELED if and only if a cancel came; an exchange that ends before it talks reports why; result zero with an acceptable response if and only if the slot was free, the request is servable, the network conveys it and no cancel came |

## Left out

- Shell scripts, proof reports, gates and policy scripts, the GPU benchmark, the API bridge, QBC files, printing, command-line parsing, `drag.c` and `safe_adapter.c`: text plumbing and foreign calls.
- `stateN.c`, `state2.c` and `state2_vm.c`: specialised copies of the kernel's gates that would only add easy members.
- `qasm_export.c`: a renaming of the straight-line instructions that drops repeat and check.
- The lexer and fixed character buffers: the parser starts at tokens, and names are strings of any length.
- The effects of single VM instructions (variables, qbits, messages, actions): arbitrary functions of the VM state, since the interpreter and the VM differ on unset variables and redeclared qbits.
- Floating-point rounding in the kernel: amplitudes and norms are reals; `long double` in the conversion is taken as exact.
- Sockets, poll, signals, flock, permission checks, clocks and thread scheduling: they appear as parameters, event schedules or the choice of the next step; fairness and real time are not modelled.
- Counters and reference counts are unbounded; `uint64_t` wrap-around of the two request counters is not modelled.
- The text fields of the frontend (backend name, driver version) and its capability and status queries.
- Parser.Cursor.Parse: token arrays that end inside a statement are excluded, because the source then reads past the array.
- Parser.Cursor.ParseStmts: nodes are values, so a statement is linked to its successor when the list is complete and not by writing to the previous node.
- Compiler.Emitter.Emit: the caller keeps the program within 1024 instructions, because the source does not test it.
- Compiler.Emitter.Compile: `say`, `let` and `qbit` nodes must have their operand, because the source follows that link untested; Pipeline.ParsedTreesCompile shows that parsed trees do.
- Frontend.Create: the runtime directory, lock path, mutex and condition are one result.
- Frontend.MockDevice.FinalizeExchangeLocked: the success flag and a zero errno come together, as they do at every call in the source.
- Frontend.MockDevice.StartLocked: the initialisation of thread attributes and the creation of the thread are one result.
- FrontendSafety.DestroyIsFinal: a corollary for runs whose closes never overlap; FrontendSafety.DestroyIsSafeExactly has the exact condition.
- FrontendRuns.StepKeepsInv: destroying is one step, although the source drops the lock between its test and the free; no call begins once the test has succeeded.
- CompilerCorrect.Interpret: primitive effects are those of any machine and see the compiled operands; the interpreter's own effects, where they differ from the VM's, are not modelled.
- Pipeline.RunTokens: the runner's other mode, the two-qubit state VM, is not part of this model.
- Daemon.ProcessRunGhz: the norm is any bit pattern that represents the kernel's exact norm.
- EndToEnd.Exchange: a cancel comes before or after the registration of the descriptor, and its shutdown of a transfer in progress shows only as the events of that transfer's schedule; its other interleavings are those of AdapterRuns and Joint.
- Joint.MoveKeepsInv: the frontend has this one adapter or no backend, and the adapter serves no other frontend.
