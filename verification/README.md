# The T0 compiler, modelled and proved

T0 is a small Forth-like language; its compiler (`source/bearssl/T0`) turns words into bytecode
and prints a C interpreter for it. This project models the compiler and both of its machines and
proves what they promise of each other.

- **Two machines.** `OpMachine` is the opcode machine (`CPU.cs` driven by the `Run` methods of the
  opcodes) as a step function; `Cpu` is the same machine as the classes store it, with a growable
  stack array and linked frames, and every method is proved against the step function.
  `ByteMachine` is the printed C interpreter: 7E decoders, packed return addresses, the
  return-stack buffer, slots; `Interpreter` is the same with its buffers and pointers updated in
  place.
- **Building.** `Builder` is `WordBuilder` with its control-flow stack. `Structured` gives the
  builder calls behind `if`, `else`, `begin`, `until`, `while`, `repeat` and the flat code they
  leave; `StructuredRuns` gives those words a meaning without jumps and proves that the flat code
  has exactly that meaning. `ClosedRuns` shows that no run leaves the built code.
- **Flow analysis.** `FlowAnalysis` is `AnalyseFlow` with its worklist and its recursion into
  callees. `FlowSpec` says what a finished analysis is; `FlowPaths`, `FlowWork` and `FlowQueue`
  hold its invariants; `FlowUnique` shows that there is only one result for each word,
  `FlowExact` that it is exact, `FlowComplete` which words can be accepted; `FlowSound` proves what
  acceptance means for every run.
- **Code generation.** `Layout` and `Relaxation` are the code elements and the loop that settles
  addresses; `Slots`, `Linking` and `Generation` are the rest of `Generate`; `Reachability`
  gathers its words, `GatheredRuns` shows that runs stay inside them, and `Selection` makes the
  table of them that is compiled. `Codec` is the 7E format, `Decoders` the loops that read it, `Expressions`
  the fixed-width one.
- **Correctness.** `Simulation` and `Correctness` relate the two machines over whole runs.
  `Natives` compares what the native words do in the compiler with their C code, `NativeLaws` says
  what they compute. `Compiler` puts
  analysis, limits and generation together and states the result for an entry point. `Deployment`
  runs the interpreter in buffers of the announced sizes and shows that they suffice. `Discipline`
  says what can be checked of a program before it runs so that C can follow it, and `IntegerCode`
  applies this to programs on integers.
- **Values and data.** `Literals`, `Utf8`, `ConstBlocks`, `DataWords`, `Rotation`.
- **Edges and Limits.** Inputs on which a promise fails, each with the exact line between them and the rest.

Five promises hold only under a condition that the compiler does not check; the theorems state it,
and each has an input that violates it:

- `Word.MaxDataStack` takes the smaller of 0 and the growth, so it reports 0 for a native word like
  `dup`. A word that only calls such a word grows the data stack beyond its own `maxDataStack`
  exactly when the callee grows it (`Edges.CallerPeak`). `FlowSound.DataStackBound` reads off the
  annotations by how much calls of native and data words end above the bound of their caller; if
  none does, the bound is `maxDataStack` itself.
- A data word announces no return-stack use, but its bytecode is entered like any other word and
  needs one cell (`Limits.DataWordNeedsCell`). `Correctness.OverrunExactly` says which runs miss
  it, and `Compiler.CompiledCodeCorrect` asks for one cell more than the limit.
- With one-byte code the number of locals is written as one raw byte and read as a 7E number; it
  comes back only up to 127 (`Edges.HeaderReadBack`). Return addresses share a word with that
  number, and header addresses stand in a table of `uint16_t`: a call comes back to its place only
  if that place has a 16-bit address (`Limits.CallReturns`, `Limits.LongReturn`).
  `Compiler.Compile` proves that these conditions are all that is missing: its output is well
  formed if and only if they hold.
- A local that was never written is 0 in the compiler and leftover memory in C
  (`Edges.FreshLocal`), and the two agree exactly when that memory is 0 (`Limits.UnwrittenRead`).
  `Discipline` gives a check of the code that excludes such reads in all runs.
- `T0_INT5` decodes only negative values (`Expressions.ExpressionRoundTrip`).

Natives are functions from arguments to results, required to have the declared number of results.
The theorems about whole programs therefore speak of programs without `roll`, `pick`, `execute` and
coroutines, whose effects the compiler itself calls not absolute
(`source/bearssl/T0/T0Comp.cs:814-827`).

`dafny verify dfyconfig.toml` checks the whole project.

## Model

| member | source | states |
|---|---|---|
| `Compiler.CompiledCodeCorrect` | source/bearssl/T0/T0Comp.cs:1813-1967 | For every approved interpreted entry point of a disciplined program and every data stack with its arguments: the emitted code never crashes; whenever it has ended, the opcode machine ended the same way (same data stack, return stack restored, cells below the entry untouched), and once the opcode machine has ended so has the emitted code |
| `IntegerCode.IntegerCodeCorrect` | source/bearssl/T0/T0Comp.cs:1813-1967 | The same for programs on integers whose natives are words of the core file that raise no exception, with nothing assumed of values or C snippets beyond the code of those words |
| `Compiler.FaithfulCodeCorrect` | source/bearssl/T0/T0Comp.cs:1813-1967 | The same for any program, from what its run does: no read of an unwritten local, no branch on a pointer whose image is 0, no snippet that differs from its native word |
| `Correctness.DataEntryCorrect` | source/bearssl/T0/WordData.cs:89-95 | A data word as entry point: entered, address pushed, returned to the caller after two turns, as the word does in the compiler |
| `Discipline.DisciplinedRuns` | source/bearssl/T0/T0Comp.cs:1911-1967 | Conditions on the program alone - locals surely written before they are read, constants, data words and natives inside a domain of resolved values, snippets right on that domain - rule out every step that C could not follow, in all runs |
| `Discipline.RunTame` | source/bearssl/T0/CPU.cs:150-163 | In every run of such a program all values on the stack and in written locals are in the domain, and each open frame has written what is known where it goes on |
| `Discipline.AssignedOnAllPaths` | source/bearssl/T0/OpcodeGetLocal.cs:37-40 | There is a per-offset proof that a word writes its locals before it reads them if and only if it does so on every path through its code |
| `Compiler.Compile` | source/bearssl/T0/T0Comp.cs:1501-1679 | Succeeds only on acceptable interpreted or data entry points with natives and only natives in C, and fails only if one of these conditions, the byte range of the numbers of locals or the room for chains of jumps is violated; the image is that of the least layout, and the build is well formed if and only if the numbers of locals fit their header and all return and header addresses have 16 bits |
| `Compiler.CheckEntryPoints` | source/bearssl/T0/T0Comp.cs:1501-1518 | Where the chains of jumps of each word fit in its queue it accepts if and only if every entry point has a justified summary within both limits |
| `Deployment.RunEntry` | source/bearssl/T0/T0Comp.cs:1824-1967 | A disciplined program run in place in buffers of the announced sizes never overruns a buffer nor goes astray, and when it returns the opcode machine has returned with the same data stack, the return stack back and the cells below it untouched |
| `Deployment.DepthAtTurn` | source/bearssl/T0/WordInterpreted.cs:191-228 | At every turn of the byte machine, inside calls of data words too, the data stack is within maxDataStack plus what a live call of a native or data word ends above it |
| `Interpreter.Context.Run` | source/bearssl/T0/T0Comp.cs:1898-1967 | n turns in place are n steps of the byte machine as long as the data-stack buffer is large enough |
| `Interpreter.Context.Turn` | source/bearssl/T0/T0Comp.cs:1902-1967 | Fetch, the test against T0_INTERPRETED and the switch are one step of the byte machine, with every way it can go wrong |
| `Interpreter.Context.Enter` | source/bearssl/T0/T0Comp.cs:1813-1822 | T0_ENTER in place; only the cell of the saved position is written |
| `Interpreter.Context.Ret` | source/bearssl/T0/T0Comp.cs:1911-1920 | Pops the saved word, drops the locals and goes back or leaves |
| `Discipline.TruthKept` | source/bearssl/T0/TValue.cs:63-75 | Integers, tokens of gathered words and pointers into a block are true in the compiler exactly when their 32-bit image is not 0 |
| `Natives.NativeAgrees` | source/bearssl/T0/kern.t0:153-283 | For 31 native words and all operands: whenever the word succeeds in the compiler, its C code gives the 32-bit images of its results; the comparisons for equality do so if and only if their operands do not clash. What the results are is stated by the laws below |
| `NativeLaws.DivisionLaw` | source/bearssl/T0/T0Comp.cs:873-887 | In the compiler / and % succeed exactly on divisors other than 0 but for the one overflow, and give the quotient toward zero and a remainder below the divisor with the sign of the dividend |
| `NativeLaws.CDivisionLaw` | source/bearssl/T0/kern.t0:180-194 | The same of the C code, on words read as signed numbers |
| `NativeLaws.UnsignedDivisionLaw` | source/bearssl/T0/kern.t0:185-199 | u/ and u% on both sides: x is y times the quotient plus a remainder below y |
| `NativeLaws.BitwiseLaw` | source/bearssl/T0/T0Comp.cs:943-957 | and, or and xor in the compiler, bit by bit |
| `NativeLaws.CBitwiseLaw` | source/bearssl/T0/kern.t0:250-264 | The same of the C code |
| `NativeLaws.NotLaw` | source/bearssl/T0/kern.t0:265-268 | not on both sides, bit by bit |
| `NativeLaws.ShiftLaw` | source/bearssl/T0/T0Comp.cs:962-985 | Shifts in the compiler succeed exactly by 0 to 31 places and move every bit, filling with 0 or the sign |
| `NativeLaws.CShiftLaw` | source/bearssl/T0/kern.t0:269-283 | The same of the C code |
| `NativeLaws.BitsDetermine` | source/bearssl/T0/kern.t0:250-283 | Words with the same bits are the same |
| `NativeLaws.ShuffleLaw` | source/bearssl/T0/kern.t0:153-158 | drop, dup, over, swap, rot and -rot move exactly the operands their effects name |
| `Natives.EqualityAgrees` | source/bearssl/T0/kern.t0:220-229 | The C code of = and <> agrees with the compiler if and only if the operands do not clash: end of one block against start of a later one with nothing between, two tokens with one C text, a number against an equal slot or address |
| `Natives.SameImage` | source/bearssl/T0/TValue.cs:138-150 | Two values of a linked program have the same 32-bit image if and only if they are equal or clash |
| `Natives.NativeFaithful` | source/bearssl/T0/T0Comp.cs:795-985 | With these natives the snippet hypothesis of compiler correctness holds wherever the compiler raises no exception and compares no clashing values |
| `Natives.UsuallySeparate` | source/bearssl/T0/TValue.cs:138-150 | Integers, and pointers into one block, differ exactly when their images do |
| `Natives.AdjacentBlocks` | source/bearssl/T0/TValue.cs:138-150 | The end of a block and the start of the next are different for = in the compiler and equal in C |
| `Natives.DataGetAgrees` | source/bearssl/T0/kern.t0:284-287 | The byte at the image of a pointer is the byte its block holds at its offset |
| `Correctness.RunsMatch` | source/bearssl/T0/T0Comp.cs:1902-1967 | After every step of the opcode machine the byte machine, a known number of turns later, is at the same opcode with the same data stack, written locals and open frames, as long as each call finds its cells and addresses of 16 bits |
| `Correctness.CompilerCorrect` | source/bearssl/T0/T0Comp.cs:1902-1967 | No crash, and the two machines end together and alike |
| `Correctness.LaunchMatches` | source/bearssl/T0/T0Comp.cs:1813-1831 | The entry initialiser sets up the machine that matches a fresh call of the entry word |
| `Correctness.NeedFits` | source/bearssl/T0/WordInterpreted.cs:228-229 | In every sound state the next step finds its return-stack cells within the announced bound, unless it calls a data word |
| `Correctness.DataFits` | source/bearssl/T0/WordInterpreted.cs:228-229 | The cell for a data word is within the announced bound too if its callers call something deeper, and within one more in any case |
| `Correctness.OverrunExactly` | source/bearssl/T0/WordData.cs:89-95 | In a buffer of at least the announced size the emitted code crashes if and only if the run of the opcode machine calls a data word while its frames fill the buffer |
| `Simulation.StepSimulated` | source/bearssl/T0/T0Comp.cs:1911-1967 | One opcode step is simulated by one turn, or by three for a call of a data word |
| `Simulation.OpcodeAt` | source/bearssl/T0/WordInterpreted.cs:106-121 | The bytes of each opcode stand between its address and the next one, and no opcode is at address 0, which marks the outermost frame |
| `Simulation.JumpLands` | source/bearssl/T0/OpcodeJump.cs:60-63 | Adding an encoded jump offset to the address behind the jump gives the address of the target opcode |
| `Simulation.ReturnMatches` | source/bearssl/T0/T0Comp.cs:1911-1920 | Unpacking the saved word restores the caller's position and drops exactly the callee's cells |
| `Simulation.Entered` | source/bearssl/T0/T0Comp.cs:1814-1822 | Entering a slot reads the header back, reserves the locals and saves position and count in one word |
| `FlowSound.FlowAnalysisSound` | source/bearssl/T0/WordInterpreted.cs:142-268 | Every run of an accepted word entered with at least DataIn elements never faults, never touches what lies below them, returns with exactly depth - DataIn + DataOut, and never returns when the effect is no-exit |
| `FlowSound.ReturnStackBound` | source/bearssl/T0/WordInterpreted.cs:209-229 | At every moment of every run the open frames, each counted as 1 plus its locals, fit in the entry word's MaxReturnStack |
| `FlowSound.DataStackBound` | source/bearssl/T0/WordInterpreted.cs:191-228 | At every step, callees included, data-stack growth is at most maxDataStack plus g, if no live call of a native or data word ends more than g above the maxDataStack of its caller; with g = 0 at most maxDataStack |
| `FlowSound.GrowthCovers` | source/bearssl/T0/Word.cs:150-162 | The largest growth of a native or data word is always enough for g |
| `FlowSound.CallGraphAcyclic` | source/bearssl/T0/WordInterpreted.cs:144-153 | Acceptance makes the live call graph acyclic and bounds every call chain |
| `FlowSound.ChainBounds` | source/bearssl/T0/WordInterpreted.cs:191-229 | Bounds of a word deep in a call chain add up within those of the entry word |
| `FlowSound.StepSound` | source/bearssl/T0/WordInterpreted.cs:169-226 | Every step of the machine keeps the soundness invariant |
| `FlowCertificate.CoherentCertified` | source/bearssl/T0/WordInterpreted.cs:228-267 | The summaries the analysis leaves justify depth annotations for every live offset of every analysed word |
| `FlowAnalysis.Analyser.AnalyseFlow` | source/bearssl/T0/WordInterpreted.cs:142-268 | Terminates on every finite word table; acceptance leaves only justified summaries with drained queues; rejection, but for a full worklist, means that no consistent set of summaries can include the word; a full worklist means that in some word the chains of jumps entered from above are together longer than the code |
| `FlowExact.ReturnStackExact` | source/bearssl/T0/WordInterpreted.cs:192-229 | The announced return-stack use of an accepted word is the sum of 1 plus the locals over some chain of calls that control reaches, and no chain sums to more |
| `FlowExact.DataStackExact` | source/bearssl/T0/WordInterpreted.cs:191-228 | The announced data-stack use is the height that some chain of reached calls and a reached opcode add up to, as the source counts it, and none adds up to more |
| `FlowExact.EffectExact` | source/bearssl/T0/WordInterpreted.cs:193-267 | A declared effect is kept; an undeclared DataIn is the depth of some chain below the entry, and none goes deeper; every reached return is at the promised depth, and an undeclared word is no-exit exactly when no return is reached |
| `FlowExact.EdgesAreSteps` | source/bearssl/T0/WordInterpreted.cs:169-222 | Outside calls of interpreted words, the edges followed are exactly the steps the machine can make inside a frame |
| `FlowComplete.AcceptedExactly` | source/bearssl/T0/WordInterpreted.cs:142-268 | A word fits into a consistent table if and only if control stays in its code with one depth at each offset and one at all returns, the words it calls are finished with known effects, and a declared effect covers it |
| `FlowAnalysis.Analyser.Explore` | source/bearssl/T0/WordInterpreted.cs:154-226 | At most 2n iterations for n opcodes; on a normal end the annotated offsets are exactly the reachable ones, successors carry the depth plus the action, joins and exits agree, and the extremes are those of the live opcodes |
| `FlowAnalysis.Analyser.Round` | source/bearssl/T0/WordInterpreted.cs:165-226 | One iteration keeps the worklist invariant and makes progress, or ends with the finished analysis |
| `FlowAnalysis.Analyser.VisitCall` | source/bearssl/T0/WordInterpreted.cs:175-193 | The callee is analysed first; unknown words, unknown effects and recursion make the caller hopeless |
| `FlowAnalysis.Analyser.Publish` | source/bearssl/T0/WordInterpreted.cs:228-267 | The computed effect must be a sub-effect of the declared one, else no summary can be justified |
| `FlowAnalysis.Analyser.MergeSA` | source/bearssl/T0/WordInterpreted.cs:127-140 | A fresh offset is annotated, an equal depth merges, a different one conflicts, an offset outside is reported |
| `FlowUnique.SummaryUnique` | source/bearssl/T0/WordInterpreted.cs:142-268 | Any two consistent sets of summaries agree on every word they share, so the result depends neither on the order of analysis nor on what else was analysed |
| `FlowUnique.CoherentUnion` | source/bearssl/T0/WordInterpreted.cs:144-153 | Consistent sets of summaries can be joined |
| `FlowUnique.HopelessNowhere` | source/bearssl/T0/WordInterpreted.cs:150-190 | A word the analysis rejected, but for a full worklist, is in no consistent set of summaries at all |
| `FlowPaths.ReachedMarked` | source/bearssl/T0/WordInterpreted.cs:127-140 | A consistent annotation gives each reachable offset the depth of every path to it |
| `FlowPaths.HopelessRecursion` | source/bearssl/T0/WordInterpreted.cs:144-153 | A call chain back to a word in progress excludes every justified summary |
| `FlowQueue.QueueRoom` | source/bearssl/T0/WordInterpreted.cs:155-210 | If the chains of jumps that can be entered from above are together no longer than the code, the queue of n slots always has room |
| `FlowQueue.QueueFitsVisit` | source/bearssl/T0/WordInterpreted.cs:209-222 | Pushed targets and the chains still waiting never exceed the chains of the offsets entered so far |
| `FlowQueue.SingleJumpsRoomy` | source/bearssl/T0/WordInterpreted.cs:155-210 | Code without a jump to a jump always has room |
| `Edges.BranchInLoopRoomy` | source/bearssl/T0/kern.t0:10-12 | while-repeat with an if at the end of its body has a jump to a jump and still has room |
| `Edges.CircleNeverAccepted` | source/bearssl/T0/WordInterpreted.cs:160-226 | A word in which control reaches a circle of jumps is never accepted |
| `Edges.BeginAgainRejected` | source/bearssl/T0/WordInterpreted.cs:160-226 | begin again has a justified no-exit summary and is still never accepted |
| `Edges.CallerPeak` | source/bearssl/T0/Word.cs:150-162 | A word that only calls a native or data word is given maxDataStack 0, and all its runs keep to that if and only if the callee is a native word that does not grow the stack |
| `Limits.DataWordNeedsCell` | source/bearssl/T0/WordData.cs:89-95 | A well-formed build of a word that calls a data word: one cell is announced, and with one cell its first turn writes outside the buffer |
| `Limits.CallReturns` | source/bearssl/T0/T0Comp.cs:1813-1920 | A call of a word that returns at once comes back to where the opcode machine does if and only if the address behind the call has 16 bits |
| `Limits.LongReturn` | source/bearssl/T0/T0Comp.cs:1813-1920 | Every build of a word with 65536 constants before a call goes astray on the return; a shorter one does so if and only if the address behind the call is over 16 bits |
| `Limits.TableEntry` | source/bearssl/T0/T0Comp.cs:1791-1806 | A uint16_t table entry is its header address if and only if that address has 16 bits |
| `Limits.ShortCodeFits` | source/bearssl/T0/T0Comp.cs:1779-1806 | Code below 65536 bytes has only such addresses |
| `Simulation.Unpack` | source/bearssl/T0/T0Comp.cs:1813-1920 | A packed return address and number of locals come apart again if and only if the address has 16 bits |
| `Limits.UnwrittenRead` | source/bearssl/T0/T0Comp.cs:1832-1835 | At any moment of a run, reading a local that was not written goes on as in the compiler if and only if its cell holds 0 |
| `Edges.HeaderReadBack` | source/bearssl/T0/CodeElementUInt.cs:49-54 | A one-byte header reads back as written exactly up to 127 |
| `Edges.FreshLocal` | source/bearssl/T0/T0Comp.cs:1814-1822 | A local read before it is written gives 0 in the compiler and the buffer's old content in C |
| `StackEffect.SubEffectIsInclusion` | source/bearssl/T0/SType.cs:113-128 | IsSubOf holds if and only if every behaviour the first effect allows is allowed by the second |
| `StackEffect.SubEffectOrder` | source/bearssl/T0/SType.cs:113-128 | IsSubOf is a partial order on known effects |
| `StructuredRuns.StructuredMeaning` | source/bearssl/T0/T0Comp.cs:706-745 | For any nesting of the structured words, anywhere in a word: the machine first leaves the flat code with an outcome if and only if the structured evaluation gives that outcome |
| `StructuredRuns.TestsAre` | source/bearssl/T0/kern.t0:10-12 | if and while run their body on everything but 0, ifnot on 0; until ends the loop on everything but 0, untilnot on 0 |
| `StructuredRuns.WordMeaning` | source/bearssl/T0/WordBuilder.cs:72-84 | A word built from a structured body returns a stack exactly when its structured meaning does |
| `StructuredRuns.Follow` | source/bearssl/T0/OpcodeJumpIf.cs:41-47 | Step for step: a result is reached by the flat code, and without a result the machine is still inside it |
| `StructuredRuns.LiftRun` | source/bearssl/T0/CPU.cs:65-83 | A called word runs as it would on its own, whatever lies below it |
| `Structured.CallsBuild` | source/bearssl/T0/kern.t0:10-12 | The builder calls of any nesting succeed, append exactly its flat code and give the control-flow stack back as it was |
| `Structured.MakesThen` | source/bearssl/T0/WordBuilder.cs:338-344 | then makes the open jump skip exactly the opcodes added since |
| `Structured.MakesAgain` | source/bearssl/T0/WordBuilder.cs:358-384 | again, until and untilnot jump back to the remembered offset |
| `Builder.BuiltCodeClosed` | source/bearssl/T0/WordBuilder.cs:72-96 | After any sequence of builder calls that ends in a successful Build, all jumps are resolved and inside the code and the last opcode cannot fall through |
| `Builder.PerformSound` | source/bearssl/T0/WordBuilder.cs:101-177 | Every builder call keeps the invariant: unresolved jumps are on the control-flow stack, others land inside or at the end right after a then |
| `Builder.WordBuilder.Build` | source/bearssl/T0/WordBuilder.cs:72-84 | Fails exactly with a non-empty control-flow stack; otherwise the word is closed, its locals are in range, and a ret is added exactly when control may reach the end |
| `Builder.WordBuilder.Then` | source/bearssl/T0/WordBuilder.cs:338-344 | Succeeds exactly on an unresolved origin and resolves it to the end |
| `Builder.WordBuilder.Again` | source/bearssl/T0/WordBuilder.cs:358-384 | Succeeds exactly on a destination and jumps back to it |
| `Builder.WordBuilder.Ahead` | source/bearssl/T0/WordBuilder.cs:306-333 | Adds an unresolved jump and remembers it |
| `Builder.WordBuilder.CSRoll` | source/bearssl/T0/WordBuilder.cs:101-111 | The array copy is the rotation of the control-flow stack |
| `Builder.WordBuilder.CSPick` | source/bearssl/T0/WordBuilder.cs:113-117 | Copies an entry to the top; a negative depth may read a stale cell, still a sound one |
| `Builder.WordBuilder.DefLocal` | source/bearssl/T0/WordBuilder.cs:272-280 | New names get the next number, old ones are refused |
| `ClosedRuns.RunInside` | source/bearssl/T0/OpcodeJumpUncond.cs:42-46 | In a program of closed words no run ever fetches outside a code array |
| `Relaxation.Relax` | source/bearssl/T0/T0Comp.cs:1659-1679 | Ends within 4 passes per jump plus 2; then every length is the encoded length, addresses are prefix sums, and no self-consistent layout is shorter anywhere |
| `Relaxation.CodeElement.GetLength` | source/bearssl/T0/CodeElementJump.cs:41-62 | The length of any element under the current layout |
| `Relaxation.CodeElement.Encode` | source/bearssl/T0/CodeElementJump.cs:69-95 | Appends exactly the opcode and the argument bytes; refuses an opcode over one byte |
| `Layout.PassGrows` | source/bearssl/T0/CodeElementJump.cs:52-62 | A pass over longer lengths gives longer lengths |
| `Layout.SameTotal` | source/bearssl/T0/T0Comp.cs:1663-1679 | Lengths that never shrink and have the same total are the same, so testing the total is enough |
| `Layout.TotalBound` | source/bearssl/T0/T0Comp.cs:1663-1679 | A layout exceeds the first one by at most 4 bytes per jump |
| `Layout.BytesAt` | source/bearssl/T0/T0Comp.cs:1779-1788 | Each element's bytes stand at its prefix-sum address in the code block |
| `Codec.UnsignedRoundTrip` | source/bearssl/T0/T0Comp.cs:1699-1714 | Parsing the encoding of any 32-bit value, followed by any bytes, gives it back and consumes exactly it |
| `Codec.SignedRoundTrip` | source/bearssl/T0/T0Comp.cs:1716-1737 | The same for all signed 32-bit values |
| `Decoders.Parse7EUnsigned` | source/bearssl/T0/T0Comp.cs:1699-1714 | The decoding loop is the decoder of the theorems |
| `Decoders.Parse7ESigned` | source/bearssl/T0/T0Comp.cs:1716-1737 | The same for the signed decoder |
| `Codec.UnsignedShortest` | source/bearssl/T0/CodeElement.cs:59-75 | No bytes that parse to a value are fewer than its encoding |
| `Codec.SignedShortest` | source/bearssl/T0/CodeElement.cs:77-99 | The same for signed values |
| `Codec.ULenMonotone` | source/bearssl/T0/CodeElement.cs:59-75 | Larger values have encodings at least as long |
| `Codec.SLenMonotone` | source/bearssl/T0/CodeElement.cs:77-99 | Lengths grow with magnitude on each side of zero |
| `Codec.Encode7EUnsigned` | source/bearssl/T0/CodeElement.cs:59-75 | The shift loops write exactly the 7-bit groups of the value and return their number |
| `Codec.Encode7ESigned` | source/bearssl/T0/CodeElement.cs:77-99 | The same for signed values, with and without a writer |
| `Codec.EncodeOneByte` | source/bearssl/T0/CodeElement.cs:49-57 | One byte, refused above 255 |
| `Expressions.ExpressionRoundTrip` | source/bearssl/T0/T0Comp.cs:1739-1746 | For every value of the shifted range the chosen T0_INTn bytes decode to it if and only if n is at most 4 or the value is negative |
| `Expressions.MaxBitsLeast` | source/bearssl/T0/TPointerExpr.cs:62-74 | The reserved length is the least that fits every value of the range |
| `Expressions.BitLength` | source/bearssl/T0/TPointerExpr.cs:81-96 | The shift loops find the least two's complement length |
| `Expressions.GetMaxBitLength` | source/bearssl/T0/TPointerExpr.cs:62-74 | Both ends of the range are measured, capped at 32 |
| `Expressions.T0IntIsGroups` | source/bearssl/T0/T0Comp.cs:1739-1746 | The macro bytes are the 7-bit groups of the value |
| `Generation.Generate` | source/bearssl/T0/T0Comp.cs:1522-1679 | Succeeds only if natives and only they have C code, and then yields the bytes of the least layout with a table that makes the build well formed exactly under the stated input conditions |
| `Generation.CollectElements` | source/bearssl/T0/T0Comp.cs:1622-1643 | The element list is the words' elements in order, jumps aimed at their targets, and each table entry is its word's header |
| `Generation.TableLinked` | source/bearssl/T0/T0Comp.cs:1798-1806 | The address table at slot - base holds the address of that word's header |
| `Generation.EncodeAll` | source/bearssl/T0/T0Comp.cs:1782-1788 | Writes the bytes of all elements, refusing exactly a value over one byte |
| `Linking.GcodeAt` | source/bearssl/T0/WordInterpreted.cs:106-121 | Element k of a word stands k places after the word's first element |
| `Slots.AssignSlots` | source/bearssl/T0/T0Comp.cs:1564-1612 | Fails exactly on a native without C code; equal texts share a slot, other words get consecutive slots above |
| `Slots.SlotsDistinct` | source/bearssl/T0/T0Comp.cs:1564-1612 | Two words share a slot if and only if they run the same C text, and no slot is a built-in opcode |
| `Slots.PlaceData` | source/bearssl/T0/T0Comp.cs:1522-1539 | Addresses are the lengths of what comes before, starting at 1 |
| `Slots.BlocksPlaced` | source/bearssl/T0/T0Comp.cs:1771-1777 | Each block's bytes stand at its address, blocks do not overlap and none is at 0 |
| `Slots.BlocksInOrder` | source/bearssl/T0/T0Comp.cs:1522-1539 | Later blocks lie behind earlier ones, right behind exactly when all blocks between are empty |
| `Slots.PointersTrue` | source/bearssl/T0/T0Comp.cs:1522-1539 | A pointer into a block is never null |
| `Reachability.Gather` | source/bearssl/T0/T0Comp.cs:1478-1499 | Terminates on cyclic references and yields exactly the words needed from the entry points; fails exactly when a needed word is unknown |
| `Reachability.GatheredIsLeast` | source/bearssl/T0/WordInterpreted.cs:80-91 | The gathered set is inside every set that holds the entry points and is closed under references |
| `GatheredRuns.RunsInGathered` | source/bearssl/T0/T0Comp.cs:1478-1499 | At every moment of every run from an entry point the present word, the word of every saved position and the word about to be called are gathered |
| `GatheredRuns.TokensInGathered` | source/bearssl/T0/OpcodeConst.cs:42-50 | So are the words of all execution tokens on the stack and in locals, if neither the arguments nor the natives bring in others |
| `GatheredRuns.NeededIsMentioned` | source/bearssl/T0/WordInterpreted.cs:80-91 | A word is needed if and only if a chain of words leads to it from an entry point, each one called or pushed as a token in the code of the one before |
| `Selection.SameRuns` | source/bearssl/T0/T0Comp.cs:1478-1499 | From an entry point the table of the gathered words, renumbered, runs as the whole word table does, step for step |
| `Selection.GatherAndCompile` | source/bearssl/T0/T0Comp.cs:1469-1679 | From entry points to the tables of the C program: what is compiled are exactly the needed words, in name order |
| `DataWords.DataTable.Resolve` | source/bearssl/T0/WordData.cs:54-77 | Succeeds exactly when the chain of base words ends at a block, and then has that block and the wrapped sum of the offsets; circles and unknown bases are refused |
| `DataWords.FollowUnique` | source/bearssl/T0/WordData.cs:54-77 | A data word has at most one place |
| `DataWords.PlaceExactly` | source/bearssl/T0/WordData.cs:54-77 | The place is the block at the end of the chain of base words, at the sum of all offsets on the way as an int |
| `DataWords.CircleUngrounded` | source/bearssl/T0/WordData.cs:54-77 | A circle of base words leads nowhere |
| `Cpu.CPU.Loop` | source/bearssl/T0/T0Comp.cs:1411-1417 | n turns of the run loop leave the fields in the state the step function gives after n steps |
| `Cpu.CPU.Step` | source/bearssl/T0/T0Comp.cs:1415-1416 | One fetch and Run is one step, with the same exceptions |
| `Cpu.CPU.Push` | source/bearssl/T0/CPU.cs:105-114 | Growing the array keeps the stack |
| `Cpu.CPU.Pop` | source/bearssl/T0/CPU.cs:97-100 | Takes the top, or fails on an empty stack |
| `Cpu.CPU.Rot` | source/bearssl/T0/CPU.cs:129-135 | The array copy is the rotation, or an exception exactly outside the stack |
| `Cpu.CPU.NRot` | source/bearssl/T0/CPU.cs:141-147 | The array copy is the inverse rotation |
| `Cpu.CPU.Enter` | source/bearssl/T0/CPU.cs:65-74 | Adds one frame with zero locals and the caller's position |
| `Cpu.CPU.Exit` | source/bearssl/T0/CPU.cs:79-84 | Drops the top frame and restores the saved position |
| `Cpu.CPU.PutLocal` | source/bearssl/T0/CPU.cs:160-163 | Changes one local of the top frame and no other frame |
| `Rotation.RotationsInverse` | source/bearssl/T0/CPU.cs:129-147 | The two rotations undo each other, leave everything below in place and keep all elements |
| `Rotation.FullTurn` | source/bearssl/T0/T0Comp.cs:1866-1888 | d + 1 rotations at depth d change nothing, and d of them are one inverse rotation |
| `Rotation.Roll` | source/bearssl/T0/T0Comp.cs:1866-1871 | T0_ROLL is the same rotation on the C stack, cells above untouched |
| `Rotation.Swap` | source/bearssl/T0/T0Comp.cs:1872-1876 | T0_SWAP is rotation at depth 1 |
| `Rotation.Rot` | source/bearssl/T0/T0Comp.cs:1877-1882 | T0_ROT is rotation at depth 2 |
| `Rotation.NRot` | source/bearssl/T0/T0Comp.cs:1883-1888 | T0_NROT is the inverse rotation at depth 2 |
| `Literals.TryParseLiteral` | source/bearssl/T0/T0Comp.cs:2025-2084 | Strings are taken as they are and characters decoded; digit strings of any length succeed exactly when the mathematical value fits, yield it modulo 2^32, and overflow is reported on all other numerals |
| `Literals.ParseDigits` | source/bearssl/T0/T0Comp.cs:2058-2071 | Wrapping accumulation gives the value modulo 2^32 and flags exactly the values over 32 bits |
| `Literals.LiteralRoundTrip` | source/bearssl/T0/T0Comp.cs:2036-2083 | Every signed 32-bit value is denoted by its decimal rendering, which fits |
| `Literals.NumeralRoundTrip` | source/bearssl/T0/T0Comp.cs:2036-2083 | Every number is denoted by its digits, small or capital, behind any sign, 0x, 0X, 0b, 0B or no prefix, and any zeroes; it fits up to 2^32 - 1, or 2^31 behind a minus sign |
| `Literals.DigitsAre` | source/bearssl/T0/T0Comp.cs:1364-1375 | The digits and their values, one by one; nothing else is a digit |
| `Literals.DecodeCharConst` | source/bearssl/T0/T0Comp.cs:1318-1349 | The escapes and hexadecimal digits behind a backquote give the character code, and anything else is refused |
| `Literals.CharacterRoundTrip` | source/bearssl/T0/T0Comp.cs:1318-1362 | Every 16-bit character code is denoted by its four-digit escape, and up to 255 by its two-digit one, in either letter case |
| `Literals.EscapesAre` | source/bearssl/T0/T0Comp.cs:1279-1289 | The four letter escapes are line feed, carriage return, tab and space; other characters stand for themselves |
| `Utf8.StringRoundTrip` | source/bearssl/T0/ConstData.cs:137-190 | A stored string is read back unchanged if and only if its surrogates are paired and it has no NUL, wherever it stands in the block |
| `Utf8.PointRoundTrip` | source/bearssl/T0/ConstData.cs:155-190 | Each code point of section 3 of RFC 3629 is decoded from its bytes and exactly they are consumed |
| `Utf8.ShortestEncoding` | source/bearssl/T0/ConstData.cs:90-97 | No complete sequence that decodes to a code point is shorter than its encoding, so no overlong form is written (section 3 of RFC 3629) |
| `Utf8.AsciiBytes` | source/bearssl/T0/ConstData.cs:90-97 | A string of units below 0x80 is stored as exactly these bytes |
| `Utf8.LoneSurrogate` | source/bearssl/T0/ConstData.cs:90-97 | A surrogate without its partner is stored as EF BF BD |
| `Utf8.PointsRead` | source/bearssl/T0/ConstData.cs:137-153 | What is read back from any string: its code points up to the first NUL, unpaired surrogates replaced |
| `ConstBlocks.ConstData.AddString` | source/bearssl/T0/ConstData.cs:90-97 | Appends the bytes and a zero; earlier contents stay |
| `ConstBlocks.ConstData.ToString` | source/bearssl/T0/ConstData.cs:137-153 | The decoding loop is the reading function |
| `ConstBlocks.ConstData.DecodeUTF8` | source/bearssl/T0/ConstData.cs:155-190 | One code point, or the byte itself where no sequence starts |
| `ConstBlocks.ConstData.Expand` | source/bearssl/T0/ConstData.cs:49-58 | Growth keeps the contents and makes room |
| `ConstBlocks.WordsRoundTrip` | source/bearssl/T0/ConstData.cs:66-135 | Big-endian 32-bit values are read back; the narrower forms keep the low 24 and 16 bits |

## Left out

- Word forms: a word with both opcodes and C code counts as native; a native word always has C code once gathered.
- Word table: words, names and data blocks are indices in name order; all given blocks are placed, where the source gathers those that the words name; dictionaries keyed by name, `toResolve` and call targets by name are not modelled.
- Analysis fields: `flowAnalysis`, `maxDataStack` and `maxReturnStack` of all words are one map of one object; depths are unbounded integers, with no annotation where the source uses the smallest int.
- FlowAnalysis.Analyser.AnalyseFlow: which words overflow the queue is given by a condition that is necessary (chains of jumps longer than the code) and one that is sufficient (`Edges.CircleNeverAccepted`); between them it depends on the order of visits.
- Compiler.CheckEntryPoints: acceptance is characterised where no word has such chains of jumps, not for the other words that happen to pass.
- Compiler.Compile: a rejection of a program with such a word is not explained further.
- FlowSound.DataStackBound: the bound reported for a growing native or data word is not its peak, so a word may need g elements more than its maxDataStack.
- Deployment.DepthAtTurn: carries the same g.
- Deployment.RunEntry: asks for g elements above maxDataStack in the data-stack buffer.
- Native words: total functions of their declared arguments; `roll`, `pick`, `execute`, coroutines and natives with side effects are excluded, and depth inside a piece of C code is not counted. Joining two strings with + and execution tokens with an offset are not values of the model.
- Correctness.CompilerCorrect: takes as hypothesis that no step of the run leaves what C can follow; `Discipline.DisciplinedRuns` discharges it for disciplined programs. A program whose natives may raise exceptions in the compiler, such as division by zero, is not one.
- Natives.NativeAgrees: leaves out + on two strings, which makes a new block.
- Edges.FreshLocal: is one program; `Limits.UnwrittenRead` is about all.
- Pointer arithmetic and C expressions on the data stack: constants are integers, execution tokens and block addresses; C expressions are covered only as encoded elements.
- Frames of `CPU` are linked objects in `Cpu` and a sequence in `OpMachine`; the set of locals written is observed by the model only.
- Array and code sizes near the limits of int, memory exhaustion and culture-sensitive string prefixes are not modelled.
- Immediate words, `postpone`, nested definitions and the text reader: words are given as builder calls.
- Literals.TryParseLiteral: a string is returned as text; the block made of it is that of `ConstBlocks.ConstData.AddString`. Characters are code points, where the source has UTF-16 units.
- `MergeSA`, `Account`, `MarkSucc`, `VisitOpcode`, `QueueJump`, `VisitSuccessors` and `Round` are parts of one method body in the source.
- Printing: `BlobWriter` is an append-only byte sequence; comments, line wrapping, preambles and statistics are not part of this model.
