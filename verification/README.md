# Verified models of the uCLbench algorithms

uCLbench is a suite of OpenCL micro-benchmarks. Most of it sets up devices and prints times, but its
numbers mean something only if a handful of algorithms are right: that a pointer chase visits all of
its array, that a work-group of concurrent work-items computes one result, that generated kernels do
what the host compares them with. This project models these algorithms and proves them right, or
proves exactly when they are. `dafny verify dfyconfig.toml` checks all of it.

| files | models |
|---|---|
| `PointerChase`, `StepCycle`, `MemLatency`, `LatencyKernels` | the latency benchmark: sizing, the two layouts, the host walk, the three device kernels |
| `MemStreaming`, `MemStreamingRaces`, `MemStreamingLaunch` | the kernel `local_mem` under arbitrary scheduling: one work-group, its memory accesses, a launch of several groups |
| `MemStreamingPrivate`, `MemStreamingHost` | the kernel `private_mem`; the local memory the host passes |
| `KernelLanguage`, `ArithSpeed`, `ArithCheck` | the kernels the arithmetic benchmark generates: syntax, meaning, comparison with the host |
| `ArithCode`, `TextBuffer`, `ArithGenerator`, `ArithBuffer` | the generator that writes these kernels into a character buffer |
| `ExpressionReader`, `StatementReader`, `HeaderReader`, `KernelReader` | a reader for the kernels and their heads, with the precedence of OpenCL C |
| `LaunchSizing` | the loop that shrinks a launch to the device memory |
| `GetOpt`, `GetOptCases`, `OptionalArguments`, `GetOptItems`, `GetOptRoundTrip`, `Traces` | the option parser `getopt_long` |
| `Devices` | the two passes of `get_all_devices` |
| `BranchPenalty` | branch selectors and the 128-armed kernel |
| `KernelOverheads`, `KernelDraws`, `KernelBuffer` | the random kernel generator, a parser for its output, and which kernels there are |
| `Words`, `Arithmetic`, `CStrings`, `Reading`, `Wrappers` | machine words, division, C strings, reading text, `Option` |

How the parts fit together:

- **Latency.** `FillCacheStep` and `FillSequential` write the array, `StepIsOneCycle` (for any step
  width, here 128) and `SequentialIsOneCycle` prove it to be one cycle, `HostWalk` and `Chase` both
  compute the checksum of such a cycle, which `SequentialTotal` and `CacheStepTotal` give in numbers,
  and `RunBenchmark` puts them together with 32- and 64-bit wrap-around written out.
- **Streaming.** A step is one statement of one work-item. `StepKeepsInvariant` is the induction step
  for every interleaving, `EveryRunEndsTheSame` and `RunTotal` the results. Race freedom is stated
  over the locations a statement reads and writes; `WritesOnly`, `WrittenValue`, `ReadsOnly` and
  `ReadsAll` tie these to what it does, and `StepsCommute` draws the consequence that the order of two
  possible steps does not matter. `EveryLaunchEndsTheSame` carries the result over to all groups of a launch.
- **Arithmetic.** `KernelComputes` gives the meaning of the kernel as a syntax tree over uninterpreted
  arithmetic and `LaunchFills` the output buffer of a launch. `GenKernel` proves that the text in the
  buffer reads back as that tree behind the head it needs, by a reader with spellings of its own, and
  `LanesAgree`, `FirstResultAgrees` connect it with the host loops.
- **Options.** `Call` is the specification of one call, the class `GetOpt` the code with its static
  variables. `GetOptCases` says what a call does in terms of the words and strings alone, up to an
  equivalence for every error code (`CodesIff`). `Progress` bounds every option loop, `ReadsBackIff` says
  when writing options and reading them is the identity, `ReadRendered` is the program that does it.
- **Random kernels.** `CarriesDraws` and `CarriesIff` say that the random numbers determine the kernel
  and stand in it at their places, `OccursIff` which kernels come from some random numbers.

Where the code does not do what its use suggests, the exact condition is proved:

- The cache-step layout needs 256 elements. With 128, `254 % 127 == 0` leads the layout loop to slot 0
  and the check of line 146 fails (`RunBenchmark`).
- The latency size is the best possible only while the word count fits 32 bits
  (`SizingIsBestIff32Bits`), and 64 bytes stay free only if the device has 64
  (`AdjustedLimitLeavesRoomIff`).
- `getopt_long` does not step over a bad long option if `optstring` starts with a colon; an option
  loop would not end (`Progress`, `StuckForever`). No caller in the suite passes such a string.
- A long option whose optional argument is left out takes the next word, also if that is an option
  (`DeviceTakesCsv`); as the last word it gets none, and `optind` ends beyond the command line
  (`SizeAlone`, `OptindBoundIff`). Options are read as written exactly if this happens to the last word
  only (`ReadsBackIff`).
- Kernel and host of the arithmetic check agree for every arithmetic exactly if the function is not
  MAD_MUL and the size is a multiple of the unroll factor (for VLIW any size) with a quotient of 32
  bits (`AlwaysAgreesIff`). The default size is exact; 1K is not, except for VLIW (`DefaultAndOneK`).
  For MAD_MUL different things are compared (`MadMulAgreesIffZero`).
- The launch loop of the arithmetic benchmark does not end with less memory than 8 * vec
  (`NeverEnds`). For a power-of-two local size it ends with no work-items at all with less than
  (groups + 2) * 4 * vec (`PowerUsableIff`). For other local sizes the number of groups may change
  (`WholeGroupsIff`, `NothingLeftOverIff`), and the global size may not be a multiple of the local size
  (`LocalDividesIff`, `SevenInThreeGroups`).
- The streaming benchmark passes too little local memory for LARG with VEC 4 (`ArraysSufficeIff`), and
  the generator's array for the type name is too short for `double16` (`TypeFitsIff`).
- `global_mem` has the statements of `local_mem` over global arrays, but its barrier fences local
  memory only. In one work-group it is free of races exactly below two work-items or two elements, and
  otherwise every run has one (`HasRaceIff`, `RunHasRaceIff`).

## Model

| member | source | states |
|---|---|---|
| `PointerChase.NoRepeat` | mem_latency/mem_latency.cpp:136-146 | Until the walk is back at slot 0 it never meets a slot twice. |
| `PointerChase.FirstReturnBound` | mem_latency/mem_latency.cpp:136-146 | The first return to slot 0 comes after at most one load per slot. |
| `PointerChase.OneCycleIffHamiltonian` | mem_latency/mem_latency.cpp:136-146 | What `opcount == num_elems` really checks: the walk returns after exactly one load per slot if and only if the array is a permutation whose cycle through 0 reaches every slot. |
| `StepCycle.Link` | mem_latency/mem_latency.cpp:115-126 | For any step width and number of rows (both at least 2): when the layout loop ends, what it links a slot to, and the row and column that leads to. |
| `StepCycle.SlotInverse` | mem_latency/mem_latency.cpp:111-127 | The column-major position formula is injective: step k goes to a slot whose step number is k. |
| `StepCycle.StepOfInverse` | mem_latency/mem_latency.cpp:111-127 | Every slot but 0 is the slot of its own step, so the formula is onto. |
| `StepCycle.StepWalk` | mem_latency/mem_latency.cpp:111-127 | The k-th load of the chase ends in slot ((k-1) % m) * width + (k-1) / m + 1, for any width and m rows. |
| `StepCycle.StepIsOneCycle` | mem_latency/mem_latency.cpp:111-127 | The step layout is one cycle through all slots, for any width and number of rows from 2 on. |
| `MemLatency.AdjustedLimitLeavesRoomIff` | mem_latency/mem_latency.cpp:98-101 | 64 bytes of the device memory stay free if and only if the device reports at least 64 bytes; below that the unsigned subtraction wraps. |
| `MemLatency.HalvedIff` | mem_latency/mem_latency.cpp:98-101 | The limit is the device memory without 64 bytes (modulo 2^64), cut in half if and only if the memory is local and the device an accelerator. |
| `MemLatency.SizingIsBestIff32Bits` | mem_latency/mem_latency.cpp:102-106 | The final byte size is the largest multiple of 512 within the request and the limit if and only if the word count fits `unsigned`; the element count is always a multiple of 128. |
| `MemLatency.NothingLeftIff` | mem_latency/mem_latency.cpp:102-105 | The sizing leaves no element if and only if fewer than 512 bytes are granted, or a word count that does not fit 32 bits wraps to fewer than 128. |
| `MemLatency.LinkArithmetic` | mem_latency/mem_latency.cpp:115-126 | One turn of the layout loop with the width 128 of the source: the link computed for a slot, and the row and column it leads to. |
| `MemLatency.NoWrap` | mem_latency/mem_latency.cpp:116 | `index + CACHE_STEP_WIDTH` does not wrap 32 bits for any slot of an array of whole blocks. |
| `MemLatency.FillCacheStep` | mem_latency/mem_latency.cpp:113-127 | The `while(true)` ends after exactly num_elems - 1 turns; from 256 elements on, turn k links the slot (k % m) * 128 + k / m + 1, and every slot holds its cache-step successor; with 128 elements it overwrites `data[0]` with 0. |
| `MemLatency.LinkedOnce` | mem_latency/mem_latency.cpp:115-126 | Slots linked in this order: every slot but 0 is written, and none twice. |
| `MemLatency.FillSequential` | mem_latency/mem_latency.cpp:128-133 | Every slot links to the next one, the last one to 0. |
| `MemLatency.CacheStepWalk` | mem_latency/mem_latency.cpp:111-127 | The k-th load of the cache-step chase ends in slot ((k-1) % m) * 128 + (k-1) / m + 1, with m = num_elems / 128. |
| `MemLatency.CacheStepIsOneCycle` | mem_latency/mem_latency.cpp:111-127 | For every multiple of 128 from 256 on, the cache-step layout is one cycle through all slots. |
| `MemLatency.SequentialIsOneCycle` | mem_latency/mem_latency.cpp:128-133 | The sequential layout is one cycle through all slots. |
| `MemLatency.SequentialTotal` | mem_latency/mem_latency.cpp:128-145 | The checksum of one sequential pass is 64 * m * (m - 1). |
| `MemLatency.CacheStepTotal` | mem_latency/mem_latency.cpp:111-145 | The checksum of one cache-step pass is the sum over b = 1 to m - 1 of 128 * ((128b-1) % m) + (128b-1) / m + 1, with m = num_elems / 128. |
| `MemLatency.HostWalk` | mem_latency/mem_latency.cpp:136-145 | On an array whose walk returns to 0, the host loop ends, `opcount` is the number of loads of that walk, and the expected result is iterations times the checksum modulo 2^32 (through a 64-bit product). |
| `MemLatency.PrepareData` | mem_latency/mem_latency.cpp:109-134 | Both layouts are one cycle, except cache-step with 128 elements, which leaves 0 in `data[0]`. |
| `MemLatency.RunBenchmark` | mem_latency/mem_latency.cpp:90-252 | The host check fails if and only if the layout is cache-step with 128 elements. Otherwise the array chased has the layout asked for and `opcount` elements; the device result equals the expected result for all three memory types, and that is iterations * 64m(m-1) for the sequential layout and iterations times the sum of CacheStepTotal for the cache-step layout, modulo 2^32; the loads are iterations * opcount. |
| `LatencyKernels.Chase` | mem_latency/global_latency.cl:7-143 | The 128-way unrolled do/while ends on every pass with `next == 0`, performs iterations * length loads, and returns iterations times the checksum modulo 2^32. The constant kernel has the same text. |
| `LatencyKernels.OnePass` | mem_latency/global_latency.cl:11-141 | One do/while: it ends with `next == 0` after one load per slot, and adds the checksum of the cycle to the accumulator, modulo 2^32. |
| `LatencyKernels.CopyToLocal` | mem_latency/local_latency.cl:9-76 | The copy in blocks of 32 makes `shared` equal to the input. |
| `LatencyKernels.LocalLatency` | mem_latency/local_latency.cl:7-213 | Copying to local memory 32 elements at a time and chasing the copy gives the result of the global kernel. |
| `MemStreaming.NextPlaced` | mem_streaming/mem_streaming.cl:17-130 | Whatever statement a work-item executes, its next one is inside its loop bounds and on an element of its own stride. |
| `MemStreaming.StepKeepsInvariant` | mem_streaming/mem_streaming.cl:13-256 | Any statement of any work-item keeps the group invariant: completed stores hold their values, every `s1` element holds as many additions as its owner has executed, and nobody passes the barrier early. |
| `MemStreaming.RunInvariant` | mem_streaming/mem_streaming.cl:13-256 | The invariant holds in every state of every run from arbitrary local memory. |
| `MemStreaming.SourceReady` | mem_streaming/mem_streaming.cl:130-137 | Behind the barrier every lane of every element of `s2` is 0.5, whoever stored it. |
| `MemStreaming.SomeoneMoves` | mem_streaming/mem_streaming.cl:13-256 | No deadlock: unless all work-items are done, one of them can execute its next statement. |
| `MemStreaming.RunBound` | mem_streaming/mem_streaming.cl:13-256 | Every run is finite: its length is bounded by the work left in its initial state. |
| `MemStreaming.EveryRunEndsTheSame` | mem_streaming/mem_streaming.cl:13-256 | Under every interleaving the group stops only when all are done, and then in one and the same state, with 10000 in every lane of `s1`. |
| `MemStreaming.StridesPartition` | mem_streaming/mem_streaming.cl:17-17 | The strided loops share out the elements: the numbers owned by the work-items add up to ELEMENTS for every local size. |
| `MemStreaming.GroupTotal` | mem_streaming/mem_streaming.cl:240-256 | The final state adds 10000 * ELEMENTS * lanes to the outputs of the group. |
| `MemStreaming.LanesArePower` | mem_streaming/mem_streaming.cpp:85-90 | For every VEC the program accepts, 0 to 4, the vector type has 2^VEC lanes. |
| `MemStreaming.RunTotal` | mem_streaming/mem_streaming.cl:13-256 | Every complete run, for every accepted VEC and every local size, adds exactly 10000 * ELEMENTS * 2^VEC to the part of the output that belongs to the group and leaves the rest alone. |
| `MemStreamingRaces.WritesOnly` | mem_streaming/mem_streaming.cl:13-256 | Executing a statement changes no memory location outside its declared writes, and no other work-item moves. |
| `MemStreamingRaces.ReadsOnly` | mem_streaming/mem_streaming.cl:13-256 | What a statement writes is determined by its own place and the locations it is declared to read. |
| `MemStreamingRaces.WrittenValue` | mem_streaming/mem_streaming.cl:17-256 | For arbitrary contents of memory: an initialising statement stores 0.5 to `s2` and 0 to `s1`, an addition stores s1[idx] + s2[idx] + s2[2*idx] in every lane, a flush adds all lanes to the output. |
| `MemStreamingRaces.ReadsAll` | mem_streaming/mem_streaming.cl:133-256 | Every location a statement is declared to read matters: with another value there it stores another value. |
| `MemStreamingRaces.NoConflict` | mem_streaming/mem_streaming.cl:17-137 | Statements of different work-items conflict in one way only: a store before the barrier and the read of `s2[2*idx]` behind it. |
| `MemStreamingRaces.StepsCommute` | mem_streaming/mem_streaming.cl:13-256 | In every reachable state, the next statements of two work-items that can move may be executed in either order, and there is one state both orders lead to; neither disables the other. |
| `MemStreamingRaces.NeedsBarrierIff` | mem_streaming/mem_streaming.cl:17-137 | Some statements of two work-items conflict, and only the barrier orders them, if and only if there are two work-items and two elements. |
| `MemStreamingRaces.HasRaceIff` | mem_streaming/mem_streaming.cl:263-387 | A barrier that fences local memory only leaves `local_mem` without a race; `global_mem` in one work-group, with the same statements on global arrays, has two unordered conflicting statements if and only if there are two work-items and two elements. |
| `MemStreamingRaces.EverythingExecuted` | mem_streaming/mem_streaming.cl:13-256 | Every complete run executes every statement of every work-item, each inside its loops and on an element of its own stride. |
| `MemStreamingRaces.RunHasRaceIff` | mem_streaming/mem_streaming.cl:263-387 | In every complete run of one work-group the two unordered conflicting statements are executed if and only if the arrays are in global memory, as in `global_mem`, and there are two work-items and two elements; `local_mem` has none. |
| `MemStreamingRaces.RaceFree` | mem_streaming/mem_streaming.cl:13-256 | In no reachable state are two work-items about to execute conflicting statements. |
| `MemStreamingRaces.ReadsAreInitialised` | mem_streaming/mem_streaming.cl:133-256 | Every statement reached is in bounds, and what it reads has been stored by this launch. |
| `MemStreamingLaunch.LaunchStepKeeps` | mem_streaming/mem_streaming.cl:13-256 | A statement of one group keeps the invariants of all groups of the launch: no group notices the others. |
| `MemStreamingLaunch.EveryLaunchEndsTheSame` | mem_streaming/mem_streaming.cl:13-256 | Under every interleaving of all work-items of all groups, a launch of `local_mem` is finite, stops only when all are done, and leaves one and the same output. |
| `MemStreamingLaunch.LaunchTotal` | mem_streaming/mem_streaming.cl:240-256 | A complete launch, for every accepted VEC, adds 10000 * ELEMENTS * 2^VEC to the output for every group. |
| `MemStreamingHost.BytesPassed` | mem_streaming/mem_streaming.cpp:184-208 | The bytes passed for `s1` and `s2` are 4 * 2^VEC * ELEMENTS and twice that, except for VEC 4, where they are half of it. |
| `MemStreamingHost.ArraysSufficeIff` | mem_streaming/mem_streaming.cpp:184-208 | The local memory passed to `local_mem` holds its two arrays if and only if it is not LARG with VEC 4 and an element; VEC 4 is given the element size of VEC 3. |
| `MemStreamingPrivate.PrivateInit` | mem_streaming/mem_streaming.cl:518-629 | The two loops of `private_mem` fill `r1` with 0 and `r2` with 0.5 in every lane. |
| `MemStreamingPrivate.PrivateAccumulate` | mem_streaming/mem_streaming.cl:633-738 | Whatever the arrays hold, one element of `r1` gets 10000 times the sum of r2[idx] and r2[2*idx] added in every lane, and no other element changes. |
| `MemStreamingPrivate.PrivateFlush` | mem_streaming/mem_streaming.cl:740-756 | The elements are added to one entry of the output, and no other entry changes. |
| `MemStreamingPrivate.PrivateMem` | mem_streaming/mem_streaming.cl:509-756 | `private_mem` leaves the output in the final state of `local_mem` run by a group of one work-item. |
| `ArithSpeed.RowRuns` | arith_speed/arith_speed.cpp:437-463 | Executing one generated row never reads an unset variable and advances every lane by one operation, the VLIW operator being `"+*-"[(row*vec+lane)%3]`. |
| `ArithSpeed.LoopRuns` | arith_speed/arith_speed.cpp:433-465 | The generated loop advances every lane by all rows, once per iteration. |
| `ArithSpeed.DeclarationsHold` | arith_speed/arith_speed.cpp:347-431 | The generated declarations stay inside the input and give every lane its inputs i and i + vec. |
| `ArithSpeed.KernelComputes` | arith_speed/arith_speed.cpp:334-500 | For every function, width, unroll factor, iteration count and arithmetic, the generated kernel assigns to output[vec*gid+i] what the operations of lane i make of its two inputs, and reads no unset variable. |
| `ArithSpeed.OutputIndexOnce` | arith_speed/arith_speed.cpp:467-497 | Two output statements store to the same place only if they are the same statement of the same work-item. |
| `ArithSpeed.PlaceOf` | arith_speed/arith_speed.cpp:585-585 | Every place of the output buffer of global * vec elements belongs to a statement of some work-item. |
| `ArithSpeed.LaunchFills` | arith_speed/arith_speed.cpp:334-500 | In whatever order the work-items of a launch execute their output statements, the buffer ends with the result of lane n at vec * gid + n, for every work-item. |
| `ArithCheck.HostRecurrence` | arith_speed/arith_speed.cpp:643-692 | The host loops of ADD, MUL, SUB, DIV and MAD compute size steps of the recurrence. |
| `ArithCheck.HostMadMul` | arith_speed/arith_speed.cpp:693-707 | The value of `a` in the host loop of MAD_MUL, unaffected by its `d = tmp`. |
| `ArithCheck.HostVec` | arith_speed/arith_speed.cpp:708-714 | The host loop of VEC computes size steps. |
| `ArithCheck.LaneZeroOperator` | arith_speed/arith_speed.cpp:718-740 | The operator of lane 0 in a row depends on `vec` through `vec % 3` only, in the order of the three cases of the host. |
| `ArithCheck.HostVliw` | arith_speed/arith_speed.cpp:715-741 | The three-way switch of the host computes lane 0 of the generated VLIW program, for every width and size. |
| `ArithCheck.HostMath` | arith_speed/arith_speed.cpp:742-807 | The host loops of the seven functions of one argument compute size steps. |
| `ArithCheck.LoopIsRun` | arith_speed/arith_speed.cpp:594-600 | Unrolled and looped, the kernel performs unroll * iterations operations in every lane. |
| `ArithCheck.ExactSizeSteps` | arith_speed/arith_speed.cpp:594-600 | The kernel performs exactly `size` operations if and only if the unroll factor divides `size` and the quotient fits the 32-bit argument. |
| `ArithCheck.LanesAgree` | arith_speed/arith_speed.cpp:574-714 | With an exact size, lane i of the kernel is the result of the host loop on the two inputs of that lane, whatever the arithmetic. |
| `ArithCheck.FirstResultAgrees` | arith_speed/arith_speed.cpp:639-817 | With an exact size, the first value read back is the value the host computes, VLIW included. |
| `ArithCheck.ExactSizeNeeded` | arith_speed/arith_speed.cpp:594-714 | For every function but MAD_MUL and every width: with an arithmetic that counts operations, kernel and host agree if and only if the size is exact. |
| `ArithCheck.DefaultAndOneK` | arith_speed/arith_speed.cpp:1021-1034 | The default size 100000 is exact for every function; size 1024, given as 1K, is exact for VLIW only, and for the other functions the check compares different values. |
| `ArithCheck.FixedPointAgrees` | arith_speed/arith_speed.cpp:551-568 | A one-argument function whose data is a fixed point, as 1 is for the square and the square root, agrees for every size. |
| `ArithCheck.MadMulNeverSafe` | arith_speed/arith_speed.cpp:693-707 | MAD_MUL: for every size there is an arithmetic in which the value the kernel stores (a + c, line 483) is not the one the host computes. |
| `ArithCheck.AlwaysAgreesIff` | arith_speed/arith_speed.cpp:574-817 | Kernel and host agree for every arithmetic and all data if and only if the function is not MAD_MUL and the size is exact. |
| `ArithCheck.MadMulAgreesIffZero` | arith_speed/arith_speed.cpp:693-707 | MAD_MUL with an exact size, in exact arithmetic: kernel and host agree if and only if one of the two inputs is zero; for size 0, if and only if the second is. |
| `ArithCode.RecurrenceText` | arith_speed/arith_speed.cpp:124-144 | function_to_code of the two-term recurrences is the text of the row of the kernel. |
| `ArithCode.MadMulText` | arith_speed/arith_speed.cpp:145-148 | function_to_code of MAD_MUL is the text of the row of the kernel. |
| `ArithCode.MathCodeText` | arith_speed/arith_speed.cpp:155-168 | function_to_code of the one-argument functions is the text of the row of the kernel, native or not. |
| `ExpressionReader.NamesDistinct` | arith_speed/arith_speed.cpp:347-429 | Two variables of a generated kernel have the same name in the text if and only if they are the same variable. |
| `ExpressionReader.ReadSumThen` | arith_speed/arith_speed.cpp:124-168 | Reading the text of an expression, with products before sums, gives back the expression and the text behind it. |
| `StatementReader.ReadStatementsText` | arith_speed/arith_speed.cpp:437-463 | Reading the statements printed in a row gives back the statements. |
| `StatementReader.ReadDeclText` | arith_speed/arith_speed.cpp:351-431 | Reading a printed declaration gives back the declaration, with all its input elements. |
| `StatementReader.ReadOutputText` | arith_speed/arith_speed.cpp:467-497 | Reading a printed output statement gives back its place and its terms. |
| `KernelReader.ReadOfPrinted` | arith_speed/arith_speed.cpp:334-500 | Reading the text of a kernel gives back its declarations, rows and outputs: the text has one meaning. |
| `HeaderReader.HeaderRead` | arith_speed/arith_speed.cpp:235-263 | The head writeStart prints for a type and a local size reads back as extensions, work-group size, kernel name, parameters in order, loop counter and the function that sets gid. |
| `TextBuffer.TextBuffer.constructor` | arith_speed/arith_speed.cpp:334-341 | A fresh buffer holds the first text and the cursor is at its end. |
| `TextBuffer.TextBuffer.Sprintf` | arith_speed/arith_speed.cpp:353-353 | sprintf at an offset writes the text and a terminator there and leaves what is in front unchanged. |
| `TextBuffer.TextBuffer.Strlen` | arith_speed/arith_speed.cpp:354-354 | strlen finds the end of the C string the buffer holds. |
| `TextBuffer.TextBuffer.Print` | arith_speed/arith_speed.cpp:353-354 | sprintf at the cursor followed by strlen: the buffer holds the old text and the piece, and the cursor equals strlen. |
| `TextBuffer.TextBuffer.PrintCounted` | arith_speed/arith_speed.cpp:391-392 | sprintf at the cursor followed by a hard-coded increment: the same, if the increment is the length of the piece. |
| `ArithGenerator.RowCodeText` | arith_speed/arith_speed.cpp:437-463 | The line printed for a row is the text of that row of the kernel, for every function. |
| `ArithGenerator.PrintGather` | arith_speed/arith_speed.cpp:375-382 | Prints the list of `vec` input elements, the first one outside the loop. |
| `ArithGenerator.PrintVectors` | arith_speed/arith_speed.cpp:375-431 | Prints exactly the declarations of the vector kernels, with the increment 3. |
| `ArithGenerator.PrintPairs` | arith_speed/arith_speed.cpp:351-355 | Prints exactly the declarations of VEC and VLIW. |
| `ArithGenerator.VecCode` | arith_speed/arith_speed.cpp:357-364 | Assembles the VEC code, and `fctLen` is its length. |
| `ArithGenerator.PrintSameRows` | arith_speed/arith_speed.cpp:458-462 | Prints `unroll` equal rows, with the increment fctLen + 5. |
| `ArithGenerator.PrintVliwRow` | arith_speed/arith_speed.cpp:444-453 | Prints a row of VLIW with the operators the running counter selects; the counter goes on by `vec`. |
| `ArithGenerator.PrintVliwRows` | arith_speed/arith_speed.cpp:440-454 | Prints all rows of VLIW; the counter at row i is i * vec. |
| `ArithGenerator.PrintLoop` | arith_speed/arith_speed.cpp:433-465 | Prints the loop, with the increments 36 and 4. |
| `ArithGenerator.PrintOutputs` | arith_speed/arith_speed.cpp:467-500 | Prints the assignments of the results and the end of the kernel. |
| `ArithGenerator.PrivateTypeSpelled` | arith_speed/arith_speed.cpp:268-326 | How the type of the private variables is spelled for every function, element type and width, and which widths are refused. |
| `ArithGenerator.GenKernel` | arith_speed/arith_speed.cpp:334-500 | The text handed to the compiler, unless the type is refused, reads back as its head (the two fp64 extensions exactly for double, the local size, `arith_speed`, the parameters input, output and iterations with their types, gid = get_global_id(0)) and as the kernel KernelComputes is about; the cursor equals strlen before every sprintf. |
| `ArithGenerator.ProgramRead` | arith_speed/arith_speed.cpp:334-500 | For every function, type and width that is not refused, the program text reads back as this head and the kernel. |
| `ArithBuffer.ProgramFits` | arith_speed/arith_speed.cpp:334-334 | For at most 16 lanes and 100 rows every program is shorter than the 131072 characters allocated. |
| `ArithBuffer.ScratchFits` | arith_speed/arith_speed.cpp:344-344 | The code strings fit `fctStr`. |
| `ArithBuffer.TypeFitsIff` | arith_speed/arith_speed.cpp:343-343 | The type name and its terminator fit `type` if and only if the type is not `double16`. |
| `ArithBuffer.BuildProgram` | arith_speed/arith_speed.cpp:331-500 | With its own buffer, genKernel refuses exactly the types the source refuses and otherwise produces the program, which reads back as its head and its kernel. |
| `LaunchSizing.Shrink` | arith_speed/arith_speed.cpp:1207-1213 | The loop ends with both sizes halved equally often, (global + 2) * 4 * vec within the memory, and above it after every smaller number of halvings. |
| `LaunchSizing.NeverEnds` | arith_speed/arith_speed.cpp:1209-1213 | With less memory than 8 * vec, the loop condition holds for every size. |
| `LaunchSizing.HalvedIsQuotient` | arith_speed/arith_speed.cpp:1211-1212 | After j halvings a size is its quotient by 2^j. |
| `LaunchSizing.HalvedGlobal` | arith_speed/arith_speed.cpp:1158-1213 | For any local size: after j halvings the global size is groups * local plus what is left over, groups * (maxLocal % 2^j) divided by 2^j. |
| `LaunchSizing.WholeGroupsIff` | arith_speed/arith_speed.cpp:1158-1213 | The number of groups is kept, global == groups * local, if and only if nothing is left over. |
| `LaunchSizing.NothingLeftOverIff` | arith_speed/arith_speed.cpp:1158-1213 | Nothing is left over if and only if groups * (maxLocal % 2^j) < 2^j. |
| `LaunchSizing.LocalDividesIff` | arith_speed/arith_speed.cpp:1158-1213 | For any local size that is left with a work-item: the global size is a multiple of the local size, as a launch demands, if and only if what is left over is one. |
| `LaunchSizing.SevenInThreeGroups` | arith_speed/arith_speed.cpp:1158-1213 | Local size 7 in 3 groups: one halving leaves 10 work-items, no multiple of the local size 3. |
| `LaunchSizing.ThreeInTwoGroups` | arith_speed/arith_speed.cpp:1158-1213 | Local size 3 in 2 groups: one halving leaves 3 groups of one work-item, so the two conditions differ. |
| `LaunchSizing.UsableIff` | arith_speed/arith_speed.cpp:1158-1213 | For any local size from 2^p up to 2^(p+1): the launch keeps local >= 1 if and only if memory >= (groups * maxLocal / 2^p + 2) * 4 * vec. |
| `LaunchSizing.PowerUsableIff` | arith_speed/arith_speed.cpp:1158-1213 | For a power-of-two local size: local >= 1 if and only if memory >= (groups+2)*4*vec, and then global == groups * local. |
| `GetOpt.ScanTable` | cllib/clcommon.cpp:139-156 | The scan with its null / candidate / ambiguous pointer returns the first exact match, else the only prefix match, else ambiguous or none. |
| `GetOpt.LookupLong` | cllib/clcommon.cpp:139-157 | What is found resolves the key by that rule. |
| `GetOpt.ResolvesOnce` | cllib/clcommon.cpp:139-156 | The rule names at most one entry. |
| `GetOpt.FullNameResolves` | cllib/clcommon.cpp:145-149 | With distinct names every full name is found, also when it is a prefix of another name. |
| `GetOpt.GetOpt.GetoptLong` | cllib/clcommon.cpp:120-217 | One call updates the static and global variables, the flags and the option index exactly as the specification function says, and `goto again` ends. |
| `GetOpt.GetOpt.OnePass` | cllib/clcommon.cpp:125-217 | From `again` to a return or to the jump back, which happens exactly at the end of a cluster. |
| `GetOpt.GetOpt.LongOptionWord` | cllib/clcommon.cpp:137-182 | A long option word: a resolved name takes its argument behind `=`, from the next word, or not at all, and writes its flag or returns its value; otherwise '?' or ':', with `optind` moved as the source does in each case. |
| `GetOpt.GetOpt.ShortOption` | cllib/clcommon.cpp:187-216 | The letter at hand is treated as the specification function says, of which UnknownLetter and KnownLetter give all cases. |
| `GetOpt.Progress` | cllib/clcommon.cpp:120-217 | A call that does not return -1 gets closer to the end by (words, characters of the word) if and only if it is not stuck; `optind` never decreases. |
| `GetOpt.StuckForever` | cllib/clcommon.cpp:165-179 | A stuck call (`optstring` starts with ':' and the long option is unknown, ambiguous or lacks its argument) returns ':' and every later call does the same. |
| `GetOpt.TakeTurn` | mem_latency/mem_latency.cpp:323-327 | One turn of the option loop of a caller: what the call wrote, or the end. |
| `GetOpt.ReadOptions` | mem_latency/mem_latency.cpp:305-365 | The option loop of a caller ends and reports the events of the calls. |
| `GetOpt.ReadAll` | mem_latency/mem_latency.cpp:305-365 | For any `optstring`: on a command line known to yield some events and then -1, the loop ends and reports these events. |
| `GetOptCases.UnknownLetter` | cllib/clcommon.cpp:183-216 | A letter that is not in `optstring`: the call returns '?', steps over the rest of the word, and writes no argument, index or flag. |
| `GetOptCases.KnownLetter` | cllib/clcommon.cpp:183-212 | A letter at its first place in `optstring`, by the colons behind it: without one it moves on by a letter; with one or two the rest of the word is the argument; at the end of the word one colon takes the next word, or returns ':' with the word stepped over if there is none, and two colons take nothing. |
| `GetOptCases.KnownKey` | cllib/clcommon.cpp:137-178 | A long option whose key names an entry, in all cases: what is returned, the argument, the index, the flag and `optind`; a required argument missing on the last word gives '?', or ':' without a step if `optstring` starts with a colon. |
| `GetOptCases.UnknownKey` | cllib/clcommon.cpp:139-181 | A key that names no entry or more than one gives '?' and is stepped over, or gives ':' and changes nothing if `optstring` starts with a colon; no flag, argument or index is written. |
| `GetOptCases.UsedUpCall` | cllib/clcommon.cpp:183-193 | A used-up cluster is left behind, and the call does what it does at the next word. |
| `GetOptCases.OtherWords` | cllib/clcommon.cpp:126-136 | An operand gives 1 and is the argument if `optstring` starts with a dash; at any other word that is no option and behind the last word the call returns -1 and changes nothing; `--` gives -1 and is stepped over. |
| `GetOptCases.CodesIff` | cllib/clcommon.cpp:120-217 | A call returns '?' if and only if the next letter is not in `optstring`, or the long option fails and `optstring` has no leading colon; ':' if and only if a letter lacks its argument, the letter is a colon found in `optstring`, or a long option fails with a leading colon; -1 if and only if it is at the end, at `--`, or at a word that is neither an option nor an operand in order. |
| `OptionalArguments.OptionalArgument` | cllib/clcommon.cpp:157-178 | An optional argument that is not attached: the next word is taken, there is none exactly behind the last word, and `optind` moves by 2 either way. |
| `OptionalArguments.OptindBoundIff` | cllib/clcommon.cpp:120-217 | A call leaves `optind` within the command line if and only if the word it reads is not a last long option whose optional argument is left out. |
| `OptionalArguments.SizeAlone` | mem_latency/mem_latency.cpp:307-325 | `mem_latency --size`: code a without an argument, and `optind` is 3 with two words. |
| `OptionalArguments.DeviceTakesCsv` | mem_latency/mem_latency.cpp:307-325 | `mem_latency --device --csv`: the argument of the device option is --csv, and the flag of --csv is not set. |
| `GetOptItems.BareItemCall` | cllib/clcommon.cpp:157-178 | A long option written without its optional argument: the call reports the next word as the argument, or none behind the last word. |
| `GetOptItems.OverfullItemCall` | cllib/clcommon.cpp:157-178 | A value written for an option that takes none is not reported; the call consumes the word of the option only. |
| `GetOptItems.LongItemParses` | cllib/clcommon.cpp:137-178 | A long option, abbreviated or not, written with the argument it takes, attached or in the next word, gives one event with its index, argument and flag write. |
| `GetOptItems.OperandParses` | cllib/clcommon.cpp:126-130 | For an `optstring` that starts with a dash, an operand gives code 1 with the word as argument. |
| `GetOptItems.ClusterParses` | cllib/clcommon.cpp:183-216 | A rendered cluster of short options gives its letters in order, the last with its argument. |
| `GetOptRoundTrip.ItemsParse` | cllib/clcommon.cpp:120-217 | A written list of options and operands that are read as written gives back the list. |
| `GetOptRoundTrip.StopsAtOperands` | cllib/clcommon.cpp:126-136 | At the operands the call returns -1 and steps over nothing but `--`. |
| `GetOptRoundTrip.ReadsBackIff` | cllib/clcommon.cpp:120-217 | For every list of options and operands: reading until -1 gives back exactly what was written if and only if no option is written with an argument it does not take, and an optional argument is left out by the last word of the command line only. |
| `GetOptRoundTrip.ReadRendered` | cllib/clcommon.cpp:120-217 | Under that condition a program reads exactly the written codes, arguments, indices and flag writes, for every `optstring`; `optind` ends at the first operand, or one beyond the end after a last option without its optional argument. |
| `Devices.CountDevices` | cllib/clcommon.cpp:436-440 | The first pass counts the devices of every platform and their sum. |
| `Devices.FillFrom` | cllib/clcommon.cpp:446-452 | One platform: either its devices are appended and the offset moves, or the expected number shrinks. |
| `Devices.GetAllDevices` | cllib/clcommon.cpp:430-456 | offset plus the devices still to come is always `*num_devices`; at the end the array starts with the devices of exactly the platforms whose call succeeded, in order. |
| `BranchPenalty.SelectorStep` | branch_penalty/branch_penalty.cpp:178-182 | The closed form (i / s) % b + 1 goes on from work-item to work-item as the wrapping counter does. |
| `BranchPenalty.FillSelectors` | branch_penalty/branch_penalty.cpp:176-183 | The counter loop stores (i / s) % b + 1 for every i. |
| `BranchPenalty.AllBranchesOccurIff` | branch_penalty/branch_penalty.cpp:176-183 | All b branches occur among n work-items if and only if (b - 1) * s < n. |
| `BranchPenalty.BenchmarkSizes` | branch_penalty/branch_penalty.cpp:174-175 | Every configuration the benchmark runs has all its branches. |
| `BranchPenalty.OneArm` | branch_penalty/bp_kernel.cl:16-399 | No value satisfies the tests of two arms. |
| `BranchPenalty.RunWorkItem` | branch_penalty/bp_kernel.cl:15-399 | A work-item fires at most one arm and assigns the result of that arm to its own entry, and nothing if none fires. |
| `BranchPenalty.RunConfiguration` | branch_penalty/branch_penalty.cpp:176-190 | For every configuration each of the 128 work-items fires exactly the arm of its selector. |
| `KernelOverheads.ParseStatementThen` | kernel_overheads/kernel_overheads.cpp:76-84 | Parsing a printed statement gives it back and leaves the text behind it. |
| `KernelOverheads.ParseOfPrinted` | kernel_overheads/kernel_overheads.cpp:62-87 | Parsing a printed program gives back its number of arguments and its statements. |
| `KernelOverheads.TextIsBody` | kernel_overheads/kernel_overheads.cpp:75-87 | The lines the loop prints are the text of the statement list in which every `if` guards the assignment printed next. |
| `KernelOverheads.AssembledWellFormed` | kernel_overheads/kernel_overheads.cpp:75-85 | Every index is in range and every `if` guards an assignment, for any random numbers. |
| `KernelOverheads.ScaledInRange` | kernel_overheads/kernel_overheads.cpp:77-84 | Whatever rand() returns, the scaled numbers are below their bound. |
| `KernelOverheads.IfsClosedForm` | kernel_overheads/kernel_overheads.cpp:82-84 | The number of `if`s printed from a given iteration on. |
| `KernelOverheads.GeneratedWellFormed` | kernel_overheads/kernel_overheads.cpp:59-87 | For every stream of random numbers the kernel is well-formed, has 2 * ceil(n_lines / 2) assignments and floor((n_lines + 3) / 6) `if`s, and parses back to its statements. |
| `KernelOverheads.CarriesDraws` | kernel_overheads/kernel_overheads.cpp:75-85 | For every stream of random numbers: the assignments and conditions of the kernel, in order, are exactly those made of the numbers drawn in each iteration, each number at its own place, and no others. |
| `KernelOverheads.GenKernel` | kernel_overheads/kernel_overheads.cpp:51-87 | The text printed at a moving cursor parses back to the statements that carry exactly the numbers drawn; nothing is printed without arguments or lines. |
| `KernelDraws.CarriesIff` | kernel_overheads/kernel_overheads.cpp:75-85 | The numbers drawn determine the kernel: no other statements carry them. |
| `KernelDraws.ScaledOntoIff` | kernel_overheads/kernel_overheads.cpp:77-84 | Every number below a bound can be drawn if and only if the bound is at most RAND_MAX + 1. |
| `KernelDraws.OccursIff` | kernel_overheads/kernel_overheads.cpp:59-87 | For any statements: there are values of rand() for which the printed text parses to them if and only if their indices and factors are in range, they stand in the order of the iterations with the conditions in their places, and each number can be drawn. |
| `KernelDraws.AllDrawable` | kernel_overheads/kernel_overheads.cpp:77-84 | With RAND_MAX from 99999 and n_args - 1 on, every number in range can be drawn, so every kernel of that shape occurs. |
| `KernelBuffer.ProgramBound` | kernel_overheads/kernel_overheads.cpp:62-87 | The text is at most 33 * n_args + 117 * ceil(n_lines / 2) + 60 characters long, whatever the random numbers. |
| `KernelBuffer.BuildKernel` | kernel_overheads/kernel_overheads.cpp:53-87 | With the 16 MiB it allocates, gen_kernel succeeds up to 1000 arguments and 200000 lines, and its text parses back to statements that carry the numbers drawn. |

## Left out

- OpenCL calls, contexts, queues, buffers, timing, CSV and console output, usage texts, file loading:
  foreign calls and plumbing. `clGetDeviceIDs` is a parameter of the model (a list, whether the second
  call succeeds, what a failing call leaves behind).
- Floating point: `real` in the streaming and branch kernels, where all values are multiples of one
  half and sums of them; uninterpreted operations in the arithmetic kernels. Rounding and the tolerance
  `MAX_ERROR` of the comparisons are not modelled.
- Runs of identical lines (128 loads, 100 additions, 32 copies, 128 branch arms) are counted loops.
- MemStreamingRaces.RunHasRaceIff: says whether conflicting statements are ordered, not which values
  `global_mem` computes when they are not.
- `global_mem`: several work-groups write the same `g1` through local ids, so no
  final state is promised.
- The streaming kernels are modelled with arrays of ELEMENTS and 2 * ELEMENTS elements, as their text
  requires; when the host passes that much is ArraysSufficeIff.
- MemLatency.RunBenchmark: sizes that leave no element (NothingLeftIff), for which there is no `data[0]`,
  and local memory arrays or iteration counts from 2^31 on, where the `int` counters of the local kernel
  overflow.
- LatencyKernels.LocalLatency: array lengths and iteration counts from 2^31 on, for the same reason.
- GetOpt.GetOpt.GetoptLong: a null `longindex`, and callers that set `optind` to something other than 0
  between calls.
- GetOptRoundTrip.ReadsBackIff: what is written consists of options that exist and have the argument they
  require; for the errors there are GetOptCases.CodesIff and GetOpt.Progress.
- GetOptCases.CodesIff: option tables and strings that use the values of '?', ':' or -1 for options.
- KernelDraws.OccursIff: the product of the bound with rand() is exact, not a rounded `double`.
- KernelOverheads.GenKernel: the random numbers are indexed by iteration and position in the printed
  line; C leaves the order of the calls of rand() in one argument list open, and the theorems hold for
  any numbers.
- ArithBuffer.BuildProgram: the array `type` is a string without a bound; when its eight characters
  suffice is TypeFitsIff. `printf` formats are the texts they produce.
- ArithSpeed.KernelComputes: `native_` functions and ordinary ones share one meaning; the loop counter of
  the kernel is a mathematical number bounded by the 32-bit argument.
- ArithCheck.MadMulAgreesIffZero: exact arithmetic, exact sizes, and without the tolerance of the
  comparison; for other sizes there is MadMulNeverSafe.
- ArithCheck.ExactSizeNeeded: shows a disagreement for one arithmetic, not for floating point; with an
  inexact size some data may still agree (FixedPointAgrees).
- Devices.GetAllDevices: a first counting call that fails leaves its count uninitialised in the source;
  the model gives both calls the same count. The number of devices fits 32 bits.
- LaunchSizing.Shrink: products that overflow `size_t`.
- BranchPenalty.RunWorkItem: `funfun` is a parameter; its own loop is not modelled.
- `buffer_bandwidth`, `clinfo`, `dirname`, `gettimeofday`, `qsort`, comma-list parsing: nothing hard to
  prove.
