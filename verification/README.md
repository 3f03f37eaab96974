# A verified model of the miner's hardest parts

This project models, in Dafny, the parts of the repository with the most state, branching and
arithmetic, and proves what they are for. `dafny verify dfyconfig.toml` checks everything.

- **RandomX analysis scripts** (`RandomxDecode`, `DependencyGraph`). The weight table becomes the
  opcode dictionary; instructions are decoded and drawn as a graph of renamed registers. Evaluating
  the graph in any topological order gives every register the value sequential execution gives it;
  a path from an initial register is exactly a possible influence. As the scripts number from 0, the
  node of a writing instruction 0 collides with the initial node of its register: that is the only
  cycle possible, and a topological order exists if and only if instruction 0 writes nothing (or
  numbering starts at 1). What paths say about influence holds under either numbering.
- **Result pipeline** (`JobPipeline`, `JobQueue`, `ResultCheck`). Producers, the event loop and the
  worker batons are interleaved steps; no wakeup is lost although signals coalesce, results are
  delivered once and in order, every bundle enters one baton, and a run that has stopped has
  delivered everything. The queue's own methods are proved to be runs of those steps. The re-check
  of a bundle overwrites one blob in place and keeps exactly the accepted nonces, and these are what
  survives a bundle in the pipeline.
- **Mining control** (`Miner`, `Network`). Every interleaving of job changes, pauses, ticks, dataset
  callbacks and configuration changes. Mining is asked for only while active and enabled; a donation
  round keeps the user's nonce counter; automatic pausing counts its flags; results go back to the
  strategy their job came from. The network is proved to drive the miner through the miner's runs.
- **Nonce counter** (`Nonce`). Any number of workers reserve ranges with one atomic addition each:
  between two resets no nonce is given out twice, a range never leaves its 32-bit block, and whoever
  reaches the end pauses mining.
- **Base32 encoder** (`Base32`), over a 32-bit accumulator that is never masked.
- **Format engines** (`SafeDuration`, `ChronoFormat`, `CompileFormat`, `PrintfFormat`, `FormatArgs`):
  overflow-checked duration conversion, the two passes over a time format, compiled format strings
  against an interpreter, the printf scanner and its directives as written (`PrintfDirectives`), the
  packed argument descriptor.
- **OpenCL minifier** (`OpenclMinify`, `MinifyPasses`, `MinifyTokens`, `MinifyOperators`): all passes
  after comment removal keep one canonical form of the text and so its words; for words, operators
  and lines it is shown by the text exactly when the whole minifier keeps them.

`Wrappers`, `Bytes`, `Powers` and `Escapes` hold what several modules share; `Marks` holds the general
account of what dropping characters does to the tokens of a text.

Code that changes state is a class or a method with its loops, proved against a specification
function; the theorems are lemmas about those functions over every input or every run. Concurrency
is a state machine over atomic steps. Hash functions, backends, dataset readiness, strategies, the
power and activity readings and what an argument's own formatter writes are parameters.

Six results are about promises that do not hold as one would expect, each with a concrete input and
the exact condition under which the promise is kept:

- The flag workers read can say "go" while the miner is disabled, because stopping the nonce counter
  also clears the pause flag (`Miner.StopUnpauses`); `Miner.FlagBreaksExactly` and
  `Miner.FlagRightIffNeverBroken` say exactly when. The last pause command never does.
- A miner paused on battery stays paused when the battery check is then switched off in the
  configuration (`Miner.NoResumeWhileBatteryCheckOff`, with a run in
  `Miner.BatteryCheckOffRefusesResume`). A resume command works if and only if the last tick that
  looked at the power source saw no battery (`Miner.ResumeWorksIff`).
- The compiled form of a format string accepts a lone closing brace and drops the character behind
  it (`CompileFormat.LoneCloseSwallows`); `CompileFormat.CompiledMeansInterpreted` says that a string
  that compiles means what interpreting it gives exactly when nothing is passed over in this way.
  Strings the compiler rejects are malformed, and those it leaves to run time are read there whole.
- `safe_duration_cast` refuses some counts whose converted value would fit
  (`SafeDuration.RefusedThoughRepresentable`); `SafeDuration.SafeDurationCast` says exactly which.
- A printf directive cut off at the end of the string is not reported as an invalid format unless it
  ends in a length modifier: `"%"` is formatted, `"%h"` is not (`PrintfDirectives.LonePercent`). Exactly
  which strings are reported is `PrintfDirectives.InvalidFormatIff`, and `PrintfDirectives.CutOffFormat`
  for a directive written out.
- The minifier makes one operator of two (`a - -b`), its comment removal joins words (`a/**/b`), and a
  lone `#` takes the next line into the directive (`MinifyTokens.OperatorsCanMerge`,
  `MinifyTokens.CommentRemovalJoinsWords`, `MinifyTokens.LoneHashTakesNextLine`). When operators, words
  and lines are kept is `MinifyOperators.MinifyKeepsOperatorsIff`,
  `MinifyTokens.MinifyKeepsSourceWordsIff` and `MinifyTokens.MinifyKeepsLinesIff`.

## Model

| member | source | states |
|---|---|---|
| RandomxDecode.BuildDecoderDict | python_analysis/randomx_vm/instruction.py:46-51 | Each entry of any weight table gets the consecutive codes after those of the entries before it, and no other code exists |
| RandomxDecode.CodesOfEntry | python_analysis/randomx_vm/instruction.py:52-60 | With distinct names, the codes decoding to a name are exactly its interval, so as many as its weight |
| RandomxDecode.TableIsComplete | python_analysis/randomx_vm/instruction.py:11-45 | The table in use has distinct names and its weights sum to 256 |
| RandomxDecode.GetDecoderDict | python_analysis/randomx_vm/instruction.py:9-61 | The dictionary in use knows every opcode byte and nothing else |
| RandomxDecode.DecodedLayout | python_analysis/randomx_vm/instruction.py:109-117 | A buffer decodes exactly when it has eight bytes, immediate first and little-endian, and its layout is kept |
| RandomxDecode.StructRoundTrip | python_analysis/randomx_vm/instruction.py:109-117 | Every encodable instruction survives being written and read back |
| RandomxDecode.BuildInsts | python_analysis/randomx_vm/instruction.py:100-106 | Every opcode finds its class, and each object keeps the operands of its own encoding |
| RandomxDecode.ProgramInit | python_analysis/randomx_vm/instruction.py:120-136 | A program is built unless some encoding is too short, and then instruction k is the decoding of encoding k |
| DependencyGraph.DependencyNodes.constructor | python_analysis/randomx_vm/dep_graph.py:9-18 | The initial nodes of all four banks are declared, in order, and each register's current node is its initial one |
| DependencyGraph.DependencyNodes.AddDependencies | python_analysis/randomx_vm/instruction.py:162-173 | One instruction adds its target, an edge from the old source and destination nodes, and then renames the destination |
| DependencyGraph.Analyze | python_analysis/randomx_vm/dep_graph.py:26-29 | The fold over the program, numbered from 0, builds the specified graph |
| DependencyGraph.EdgeForward | python_analysis/randomx_vm/instruction.py:162-173 | Every edge goes to a strictly later number, except into the node of a writing instruction 0 |
| DependencyGraph.Acyclic | python_analysis/randomx_vm/instruction.py:162-173 | The graph has no cycle unless instruction 0 writes a register |
| DependencyGraph.SelfLoopOfInstructionZero | python_analysis/randomx_vm/dep_graph.py:12-29 | A writing instruction 0 adds a self-loop on its node, and every cycle stays on that node |
| DependencyGraph.PredsOfTarget | python_analysis/randomx_vm/instruction.py:170-172 | The edges into an instruction's node are exactly the nodes its operands had when it was drawn |
| DependencyGraph.CurrentValue | python_analysis/randomx_vm/instruction.py:162-173 | Behind every instruction a register's current node stands for the register's current value, under any numbering; at the start too, unless a writing instruction 0 shares the initial node |
| DependencyGraph.DataflowEqualsExecution | python_analysis/randomx_vm/instruction.py:162-173 | For every program, operations, initial registers and topological order, evaluating the graph gives every register its sequential final value |
| DependencyGraph.OrderExistsIffSafe | python_analysis/randomx_vm/dep_graph.py:12-29 | A topological order exists if and only if no writing instruction has number 0 |
| DependencyGraph.NoPathNoInfluence | python_analysis/randomx_vm/instruction.py:162-173 | An initial register with no path to a register's node cannot change that register's value |
| DependencyGraph.PathMeansInfluence | python_analysis/randomx_vm/instruction.py:162-173 | Conversely, for every program and numbering, with a path there are operations and inputs for which it does |
| JobPipeline.StepKeepsInv | xmrig_copied_src/src/net/JobResults.cpp:214-278 | Every step of producers, loop and workers keeps mutual exclusion, wakeups, accounting and delivery order |
| JobPipeline.NoLostWakeup | xmrig_copied_src/src/net/JobResults.cpp:214-248 | In every reachable state a non-empty queue has a pending signal, a producer about to send, or a callback that has not swapped |
| JobPipeline.ResultsDeliveredInOrder | xmrig_copied_src/src/net/JobResults.cpp:214-252 | Delivered, drained and queued CPU results together are the submissions in lock order, each once |
| JobPipeline.BundlesAccountedFor | xmrig_copied_src/src/net/JobResults.cpp:239-278 | Every bundle is in exactly one place, every nonce of a baton unchecked, a result or a counted error, and deliveries are a prefix of the survivors |
| JobPipeline.QuiescentMeansDelivered | xmrig_copied_src/src/net/JobResults.cpp:214-278 | When nothing is under way, everything submitted was delivered or counted |
| JobPipeline.Progress | xmrig_copied_src/src/net/JobResults.cpp:214-278 | No deadlock: unless all is done, some step of the program itself is possible |
| JobPipeline.InternalRunBounded | xmrig_copied_src/src/net/JobResults.cpp:239-278 | After the last submission only boundedly many steps remain |
| JobPipeline.StuckMeansDelivered | xmrig_copied_src/src/base/io/Async.cpp:55-79 | A run that can take no further internal step has delivered everything, though signals coalesce |
| JobQueue.JobResults.SubmitResult | xmrig_copied_src/src/net/JobResults.cpp:214-220 | The call is the run lock, push, send, unlock, and appends the result and raises the signal |
| JobQueue.JobResults.SubmitBundle | xmrig_copied_src/src/net/JobResults.cpp:224-230 | The same for a bundle |
| JobQueue.JobResults.OnAsync | xmrig_copied_src/src/net/JobResults.cpp:239-257 | The drain swaps both lists out, delivers the results in order and queues one baton exactly when there are bundles |
| JobQueue.JobResults.BatonWork | xmrig_copied_src/src/net/JobResults.cpp:260-266 | The work callback is a run of work steps, bundle by bundle, for any outcome of the re-check; the outcome it has is JobQueue.SurvivorsAreResults |
| JobQueue.JobResults.BatonDone | xmrig_copied_src/src/net/JobResults.cpp:267-276 | The completion callback delivers the surviving results in order and closes the baton |
| JobQueue.DrainIsSteps | xmrig_copied_src/src/net/JobResults.cpp:239-257 | The drain's effect is that of wake, lock, both swaps, unlock, every delivery and the end |
| JobQueue.WorkIsSteps | xmrig_copied_src/src/net/JobResults.cpp:260-266 | The work callback's effect is that of the protocol's work steps from any state |
| JobQueue.SurvivorsAreResults | xmrig_copied_src/src/net/JobResults.cpp:260-266 | With the outcomes hashing gives, what survives a bundle is exactly its re-check's results, in order, each under its own nonce |
| ResultCheck.Tally.CheckHash | xmrig_copied_src/src/net/JobResults.cpp:103-112 | A result is kept exactly when the hash's last word is below the target, otherwise one error is counted |
| ResultCheck.HashNonce | xmrig_copied_src/src/net/JobResults.cpp:133-137 | Hashing through the overwritten blob equals hashing the original blob with this nonce |
| ResultCheck.CheckNonces | xmrig_copied_src/src/net/JobResults.cpp:133-139 | Results and errors added make up all nonces, the errors in 32-bit arithmetic, and only nonce bytes change |
| ResultCheck.GetResults | xmrig_copied_src/src/net/JobResults.cpp:115-194 | A family that is re-checked adds the accepted nonces' results; Argon2 and RandomX without dataset count all as errors |
| ResultCheck.FullNonceLowWord | xmrig_copied_src/src/net/JobResults.cpp:148-155 | The 64-bit KawPow nonce ends in the 32-bit nonce that was stored |
| ResultCheck.ResultsAreSound | xmrig_copied_src/src/net/JobResults.cpp:103-177 | Every result is the hash of the blob holding its own nonce, below target, and results keep nonce order |
| ResultCheck.ResultsAreComplete | xmrig_copied_src/src/net/JobResults.cpp:133-139 | Among the results every accepted nonce is found as often as it was submitted, every other never |
| Miner.Miner.DoHandleJobChange | xmrig_copied_src/src/core/Miner.cpp:131-155 | Commands to the nonce counter, backends and timer, as specified |
| Miner.Miner.DoSetEnabled | xmrig_copied_src/src/core/Miner.cpp:499-531 | Resuming on battery is refused, a change while inactive issues no command |
| Miner.Miner.DoSetJob | xmrig_copied_src/src/core/Miner.cpp:534-573 | Stop if the dataset is not ready, store the job and the reset flag, activate, hand on when ready |
| Miner.Miner.DoOnTimer | xmrig_copied_src/src/core/Miner.cpp:602-656 | Tick count, both automatic pauses in order, and a stop when some backend's tick failed |
| Miner.Miner.DoOnConfigChanged | xmrig_copied_src/src/core/Miner.cpp:586-599 | The algorithm list is rebuilt always, backends get the job unless active pools changed |
| Miner.UsableIsExact | xmrig_copied_src/src/core/Miner.cpp:117-128 | The rebuilt list holds each usable algorithm once, in increasing order, and no other |
| Miner.AutoPauseCountsFlags | xmrig_copied_src/src/core/Miner.cpp:633-650 | In every reachable state the counter is the number of raised flags, and on battery the miner is not enabled |
| Miner.BatteryIsLastReading | xmrig_copied_src/src/core/Miner.cpp:633-641 | In every reachable state the battery flag is what the last tick that looked has read, however long ago |
| Miner.ResumeWorksIff | xmrig_copied_src/src/core/Miner.cpp:505-509 | In every reachable state a resume command enables the miner if and only if that last reading was not battery power |
| Miner.TimerStartsOnce | xmrig_copied_src/src/core/Miner.cpp:151-154 | In every run the timer is started at most once, by the first job change handled, and never if a tick came before |
| Miner.NoResumeWhileBatteryCheckOff | xmrig_copied_src/src/core/Miner.cpp:505-509 | Once battery power was seen, the miner stays paused for as long as the battery check is switched off, whatever else happens |
| Miner.BatteryCheckOffRefusesResume | xmrig_copied_src/src/core/Miner.cpp:505-509 | A concrete run: a tick on battery, a tick with the check off and the mains back, a resume without effect |
| Miner.GoOnlyWhenMining | xmrig_copied_src/src/core/Miner.cpp:490-573 | Over every run the last pause command is "go" only if the miner is active and enabled |
| Miner.JobChangeIsExact | xmrig_copied_src/src/core/Miner.cpp:131-155 | After each job change the last pause command says exactly whether it is, and every backend holds the current job |
| Miner.StopUnpauses | xmrig_copied_src/src/crypto/common/Nonce.cpp:70-77 | A concrete run after which the workers' flag says "go" and the miner is disabled |
| Miner.FlagBreaksExactly | xmrig_copied_src/src/core/Miner.cpp:576-583 | From a state where that flag is right, a step makes it wrong if and only if it stops the counter while the miner should not mine |
| Miner.FlagRightIffNeverBroken | xmrig_copied_src/src/core/Miner.cpp:576-583 | The flag is right all through a run if and only if no such step occurs in it |
| Miner.ResetIsHistory | xmrig_copied_src/src/core/Miner.cpp:548-558 | The nonce is to be kept exactly when the last job set was the return, right after a donate job, of the last user job |
| Miner.BackendsHoldLastHandedOver | xmrig_copied_src/src/core/Miner.cpp:141-143 | In every reachable state all backends hold the job that was current at the last hand-over, or nothing since a stop |
| Miner.DonationKeepsUserNonce | xmrig_copied_src/src/core/Miner.cpp:548-572 | From the first donate job to the job after the user job's return, the user nonce counter is never reset |
| Network.Network.DoOnJob | xmrig_copied_src/src/net/Network.cpp:167-174 | A user job is dropped while donation is active, any other is installed with its origin |
| Network.Network.DoOnJobResult | xmrig_copied_src/src/net/Network.cpp:177-185 | One submit call, chosen by the result's index |
| Network.Network.DoOnPause | xmrig_copied_src/src/net/Network.cpp:212-224 | A finished donation resumes the user strategy, which may hand over a job at once; no active pool pauses the miner |
| Network.Network.DoOnConfigChanged | xmrig_copied_src/src/net/Network.cpp:151-164 | Changed active pools stop and delete the strategy and connect a new one |
| Network.LoginAlgorithms | xmrig_copied_src/src/net/Network.cpp:193-200 | The list sent is a permutation with the pool's algorithm first if it is in the list, and other elements but the first keep their places |
| Network.ResultsGoHome | xmrig_copied_src/src/net/Network.cpp:177-185 | In every run results of donate jobs go to the donate strategy, those of user jobs to the user strategy then in place |
| Network.NoCallAfterDelete | xmrig_copied_src/src/net/Network.cpp:151-185 | In every run no strategy is called after it was deleted |
| Network.ResultsAccountedFor | xmrig_copied_src/src/net/JobResult.h:46-53 | In every run each reported result is on its way or was submitted exactly once |
| Network.MinerRunsUnderneath | xmrig_copied_src/src/net/Network.cpp:266-285 | Every run of the network drives the miner through a run of the miner's own events |
| Network.NetworkMinesSafely | xmrig_copied_src/src/net/Network.cpp:212-224 | So in every network run mining is asked for only while active and enabled, and never on battery |
| Nonce.NoNonceTwice | xmrig_copied_src/src/crypto/common/Nonce.cpp:46-66 | In every interleaving of workers, between two resets no nonce is granted twice, all are in the nonce space, and a range keeps its high word |
| Nonce.RefusalMeansPause | xmrig_copied_src/src/crypto/common/Nonce.cpp:48-56 | A call refused for want of nonces means mining was paused since the last reset, or the call that reached the end is about to pause it |
| Nonce.Counter.NextRange | xmrig_copied_src/src/crypto/common/Nonce.cpp:39-67 | The retry loop ends; a granted range lies in the space behind the old value and ends at the new one, and exactly the call that passes the end pauses |
| Nonce.StoreNonce | xmrig_copied_src/src/crypto/common/Nonce.cpp:61-64 | Over both words the low bits become the counter and the bits above stay, below, at and above 32 bits |
| Nonce.PowerMaskOk | xmrig_copied_src/src/base/net/stratum/Job.h:85 | Every mask in use ends a 32-bit block or lies in the first one |
| Base32.Base32Encode | xmrig_copied_src/src/3rdparty/base32/base32.h:35-65 | For any buffer size the output is the prefix of that length of the full encoding, a NUL follows if there is room, nothing else is written, bad lengths give -1 |
| Base32.EncodeLetters | xmrig_copied_src/src/3rdparty/base32/base32.h:40-60 | The loop emits exactly the five-bit groups of the zero-padded input stream |
| Base32.HoldsShift | xmrig_copied_src/src/3rdparty/base32/base32.h:47-52 | Shifting in bits keeps the low bits right whatever 32-bit wrap-around does above them |
| Base32.HoldsTake | xmrig_copied_src/src/3rdparty/base32/base32.h:56-57 | The five bits taken are the first held, whatever stale bits stand above |
| Base32.RoundTrip | xmrig_copied_src/src/3rdparty/base32/base32.h:35-65 | A decoder recovers every input |
| SafeDuration.LosslessConversion | xmrig_copied_src/src/3rdparty/fmt/chrono.h:35-102 | For all widths and signs, an error exactly when the value does not fit, otherwise the value itself |
| SafeDuration.ProductChecks | xmrig_copied_src/src/3rdparty/fmt/chrono.h:180-190 | The two comparisons before the product are exact for overflow and underflow |
| SafeDuration.SafeDurationCast | xmrig_copied_src/src/3rdparty/fmt/chrono.h:151-197 | No error if and only if count, product and truncated quotient fit their types; then the result is exact, and nothing wraps on the way |
| SafeDuration.FirstStageFailsOnNegativesOnly | xmrig_copied_src/src/3rdparty/fmt/chrono.h:171-177 | The first conversion fails only for a negative count when a 64-bit unsigned type takes part |
| SafeDuration.FinerAndBack | xmrig_copied_src/src/3rdparty/fmt/chrono.h:151-197 | Converting to a finer unit and back returns the count |
| SafeDuration.ConversionMonotone | xmrig_copied_src/src/3rdparty/fmt/chrono.h:151-197 | Conversion keeps order |
| SafeDuration.RefusedThoughRepresentable | xmrig_copied_src/src/3rdparty/fmt/chrono.h:180-190 | A count is refused although its converted value fits |
| ChronoFormat.ParseChronoFormat | xmrig_copied_src/src/3rdparty/fmt/chrono.h:472-627 | For a handler that refuses any set of specifiers, the loop reports the specified events to it, stops at a closing brace or the end, or fails as specified |
| ChronoFormat.DurationFormatter.Parse | xmrig_copied_src/src/3rdparty/fmt/chrono.h:1062-1089 | The stored format is exactly the accepted range |
| ChronoFormat.DurationFormatter.Format | xmrig_copied_src/src/3rdparty/fmt/chrono.h:1092-1113 | Value and unit for an empty format, otherwise the events of its format |
| ChronoFormat.CheckIsExact | xmrig_copied_src/src/3rdparty/fmt/chrono.h:629-656 | The check accepts exactly the well-formed strings none of whose events needs a date |
| ChronoFormat.AcceptedRangeFormats | xmrig_copied_src/src/3rdparty/fmt/chrono.h:472-627 | An accepted range is consumed completely by the formatting pass, with the same events in order and no error |
| ChronoFormat.ParsedFormats | xmrig_copied_src/src/3rdparty/fmt/chrono.h:1062-1109 | Whatever parse accepts, format carries out |
| ChronoFormat.DoubledWritesText | xmrig_copied_src/src/3rdparty/fmt/chrono.h:487-489 | For any such handler, text without closing braces and with percent signs doubled is accepted, consumed and written back |
| CompileFormat.ParseText | xmrig_copied_src/src/3rdparty/fmt/compile.h:480-485 | The loop stops at the first brace or the end |
| CompileFormat.CompiledMeansInterpreted | xmrig_copied_src/src/3rdparty/fmt/compile.h:490-558 | What the program does agrees with interpreting unless a string compiles in which a closing brace outside a field is not doubled or a field does not end at one; a string left to run time is read there as a whole |
| CompileFormat.LoneCloseSwallows | xmrig_copied_src/src/3rdparty/fmt/compile.h:544-547 | A lone closing brace is accepted and the next character lost |
| CompileFormat.FieldsInOrder | xmrig_copied_src/src/3rdparty/fmt/compile.h:532-541 | Fields take existing arguments in increasing order, 0, 1, 2, ... unless a specification takes arguments itself |
| CompileFormat.DoubledCompilesToText | xmrig_copied_src/src/3rdparty/fmt/compile.h:523-578 | Any text with its braces doubled, the empty one included, compiles back to that text |
| PrintfFormat.ParseNonNegativeInt | xmrig_copied_src/src/3rdparty/fmt/format.h:2233-2252 | The number of the whole digit run, or an error exactly when it exceeds an int, without wrap-around |
| PrintfFormat.PrintfContext.DoParseHeader | xmrig_copied_src/src/3rdparty/fmt/printf.h:430-467 | Index, flags and width read in place as specified, asking for a width argument where it stands |
| PrintfFormat.PrintfContext.DoFormat | xmrig_copied_src/src/3rdparty/fmt/printf.h:469-597 | The scan ends for every string with the specified text and conversions, or the specified error |
| PrintfFormat.HeaderIsFlagsAndWidth | xmrig_copied_src/src/3rdparty/fmt/printf.h:435-466 | Unless an index is written, reading a leading number at once equals reading flags and then the width, errors included |
| PrintfFormat.DoubledPrintsText | xmrig_copied_src/src/3rdparty/fmt/printf.h:481-485 | Any text with its percent signs doubled prints that text |
| PrintfFormat.NumbersAreUniform | xmrig_copied_src/src/3rdparty/fmt/printf.h:420-428 | Every run without error uses automatic numbers 0, 1, 2, ... for all arguments, widths and precisions included, or manual ones for all, and each exists |
| PrintfDirectives.DirectiveReadAsWritten | xmrig_copied_src/src/3rdparty/fmt/printf.h:486-575 | A directive written out with index, flags, width, precision, length modifier and conversion, width and precision as numbers or stars, reads back as exactly these with the right arguments, or gives the error of the first unusable argument, wherever it stands |
| PrintfDirectives.CutOffDirective | xmrig_copied_src/src/3rdparty/fmt/printf.h:486-575 | Reading a directive reports an invalid format if and only if the string ends with its length modifier; cut off before it, the last character is the conversion |
| PrintfDirectives.InvalidFormatIff | xmrig_copied_src/src/3rdparty/fmt/printf.h:469-597 | For every string and arguments the error is an invalid format if and only if the scan gets to a directive whose length modifier ends the string |
| PrintfDirectives.CutOffAsWritten | xmrig_copied_src/src/3rdparty/fmt/printf.h:486-575 | A written directive cut off before its conversion is an invalid format if and only if its length modifier is not empty and its arguments exist; without one it is formatted with the last character as conversion |
| PrintfDirectives.CutOffFormat | xmrig_copied_src/src/3rdparty/fmt/printf.h:469-597 | The same for a whole format string that ends in such a directive |
| PrintfDirectives.LonePercent | xmrig_copied_src/src/3rdparty/fmt/printf.h:537-575 | `"%"` is formatted, with itself as conversion; `"%h"` is an invalid format |
| FormatArgs.InitNamedArgs | xmrig_copied_src/src/3rdparty/fmt/core.h:935-950 | The array receives name and position of each named argument in order, earlier entries stay |
| FormatArgs.MakeStore | xmrig_copied_src/src/3rdparty/fmt/core.h:1590-1607 | The store built with its descriptor, slots and, in front of them, the named arguments' information is the specified one |
| FormatArgs.FlagsOfStore | xmrig_copied_src/src/3rdparty/fmt/core.h:1590-1595 | Both flag bits and the size are read back from the descriptor, at any number of arguments below 2^31 |
| FormatArgs.PackedTypes | xmrig_copied_src/src/3rdparty/fmt/core.h:1421-1427 | Up to fifteen types are returned at their index and "none" past the end, untouched by the flag bits |
| FormatArgs.GetIsArgument | xmrig_copied_src/src/3rdparty/fmt/core.h:1913-1923 | Position i holds argument i, positions past the end nothing, packed or not, and nothing outside the storage is read |
| FormatArgs.NamedLookup | xmrig_copied_src/src/3rdparty/fmt/core.h:1925-1939 | Lookup by name gives the first argument of that name, or none if there is none |
| FormatArgs.GetId | xmrig_copied_src/src/3rdparty/fmt/core.h:1931-1939 | The scanning loop finds what the lookup specification says |
| FormatArgs.NumberingIsUniform | xmrig_copied_src/src/3rdparty/fmt/core.h:585-602 | A sequence of requests is answered without error if and only if all are automatic or all manual |
| FormatArgs.NumbersGiven | xmrig_copied_src/src/3rdparty/fmt/core.h:585-602 | Automatic requests are answered 0, 1, 2, ..., manual ones by their own number |
| OpenclMinify.ReplaceAllSame | xmrig_copied_src/scripts/js/opencl_minify.js:17-42 | Replacing all occurrences of a pattern by a text no context can tell from it changes no canonical form |
| OpenclMinify.CompactKeeps | xmrig_copied_src/scripts/js/opencl_minify.js:7-10 | The four whitespace passes keep the canonical form, whitespace between words included |
| OpenclMinify.MinifyLineSame | xmrig_copied_src/scripts/js/opencl_minify.js:12-45 | The passes over a line keep the canonical form in every context |
| OpenclMinify.JoinSplit | xmrig_copied_src/scripts/js/opencl_minify.js:12-47 | Splitting into lines and joining gives the text back |
| OpenclMinify.MinifyKeepsTokens | xmrig_copied_src/scripts/js/opencl_minify.js:3-48 | Non-whitespace characters and word tokens of the comment-stripped text are kept, in order, none joined |
| Marks.DroppingKeepsTokens | xmrig_copied_src/scripts/js/opencl_minify.js:5-42 | Dropping characters outside tokens keeps the tokens if and only if it joins none, and otherwise there are fewer, for any kind of token |
| Marks.JoinsMeansBridge | xmrig_copied_src/scripts/js/opencl_minify.js:5-42 | Tokens are joined if and only if somewhere two token characters have dropped characters between them and nothing else |
| MinifyPasses.MinifyKeepsIff | xmrig_copied_src/scripts/js/opencl_minify.js:7-47 | For each kind of token, those of the comment-stripped text are kept if and only if no later pass joins two |
| MinifyTokens.TighteningKeepsOperatorsIff | xmrig_copied_src/scripts/js/opencl_minify.js:18-41 | Removing the spaces around one operator keeps the operators of a text if and only if nowhere two operator characters have only dropped spaces between them |
| MinifyPasses.LineKeepsIff | xmrig_copied_src/scripts/js/opencl_minify.js:12-45 | For each kind of token and every line, the passes over it keep its tokens if and only if none joins two |
| MinifyOperators.LineKeepsOperatorsIff | xmrig_copied_src/scripts/js/opencl_minify.js:12-45 | A line with single spaces, as all that get here, keeps its operators if and only if it is a directive or has no listed operator between spaces, and no comma before a space, with an operator character beyond the space |
| MinifyOperators.OnePass | xmrig_copied_src/scripts/js/opencl_minify.js:18-41 | The pass over one operator joins operators if and only if that operator clashes in the line, and otherwise leaves the same clashes of every operator |
| MinifyOperators.MinifyKeepsOperatorsIff | xmrig_copied_src/scripts/js/opencl_minify.js:3-48 | The operators are kept if and only if no `#` at a line start has whitespace and then an operator character behind it, and no line of the text, its whitespace reduced, has such a clash |
| MinifyTokens.MinifyKeepsLinesIff | xmrig_copied_src/scripts/js/opencl_minify.js:3-48 | What stands together on a line stays so, and apart, if and only if no `#` at a line start has a line end in the whitespace behind it and more text behind that |
| MinifyTokens.DirectivesKeepLineEndsIff | xmrig_copied_src/scripts/js/opencl_minify.js:7 | The pass over directives keeps the number of line ends if and only if no `#` at a line start is followed by whitespace that holds one |
| MinifyTokens.CommentRemovalKeepsWordsIff | xmrig_copied_src/scripts/js/opencl_minify.js:6 | Comment removal keeps the words, a comment counting as a space, if and only if nowhere two word characters have only comments between them |
| MinifyTokens.ReturnRemovalKeepsWordsIff | xmrig_copied_src/scripts/js/opencl_minify.js:5 | Removing carriage returns keeps the words if and only if nowhere two word characters have only these between them |
| MinifyTokens.MinifyKeepsSourceWordsIff | xmrig_copied_src/scripts/js/opencl_minify.js:3-48 | The whole minifier keeps the words of the source, carriage returns aside, under exactly the condition on comments |
| MinifyTokens.OperatorsCanMerge | xmrig_copied_src/scripts/js/opencl_minify.js:37 | `a - -b` is minified to `a--b` |
| MinifyTokens.CommentRemovalJoinsWords | xmrig_copied_src/scripts/js/opencl_minify.js:6 | `a/**/b` is minified to `ab` |
| MinifyTokens.LoneHashTakesNextLine | xmrig_copied_src/scripts/js/opencl_minify.js:7 | A `#` alone on its line takes the next line: with `int` behind the line end, the result is `#int` |

## Left out

- Hash functions, virtual machines, datasets and the workers' hashing loops: uninterpreted functions or arbitrary choices.
- Memory operands and ISTORE in the dependency graph: an operation may depend on its own number, so what it reads from memory is part of its meaning; the graph draws no memory edges and neither does the model.
- Node names as text, labels and rendering of the graph; floating-point registers are never written by the scripts, so their nodes are only declared.
- Builds without RandomX or KawPow: the re-check is modelled with both compiled in; without one of them, its nonces are neither results nor errors (JobResults.cpp:121, 150).
- JobResults.stop racing with late submitters: the delivery theorems are for runs before it.
- The cache levels of memory instructions: computed as in the source, no property beyond that.
- Hashrates, printing, process priority, TLS, pool protocols and the HTTP API beyond its pause, resume and stop commands.
- The inside of the donate strategy: its state and answers are inputs of each step.
- Wrap-around of the 64-bit tick and nonce counters, and the sequence numbers workers compare; for mining control the nonce counter is a log of commands.
- Nonce.NoNonceTwice: one mask for all calls of a run, as between two resets; memory ordering is not modelled.
- A fresh nonce counter for every new user job: not guaranteed when a job whose dataset is not ready is superseded before it is handled, so not stated.
- SafeDuration.SafeDurationCast: boolean and 128-bit representations are not modelled, nor floating-point durations.
- ChronoFormat.DurationFormatter.Parse: where alignment, width and precision parsing stop is an input; locale-dependent output of the events is not modelled.
- Hour, minute and second of a duration: which digits an event writes is not modelled, only which events there are and in what order.
- CompileFormat.CompiledMeansInterpreted: the parsing of a specification and the writing of an argument are parameters; the older part-collecting compiler is left out.
- PrintfFormat.PrintfContext.DoFormat: what a conversion writes and whether the argument's formatter refuses its type, and the conversion of arguments by length modifier, are left out.
- FormatArgs.GetIsArgument: the dynamic argument store and negative identifiers are left out.
- The fixed-size output buffers of fmt and how they are flushed.
- Network.LoginAlgorithms: the JSON document it is written to.
- String literals in minified sources: the passes do not look at them and neither does the model.
- OpenCL and ADL headers, ethash, argon2 and endian headers, and the application shell: declarations, constants and plumbing.
