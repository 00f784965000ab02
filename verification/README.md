# The SGLang front-end runtime, modelled and proved

SGLang programs are functions that append expressions to a state: constant text, arguments, generated
text (`gen`), choices (`select`), variables of other calls, and role blocks. The repository runs the same
program in several ways that ought to agree, and this project models each way and proves when they do:

* directly, expression by expression (`Executor.dfy`, `StreamTexts.dfy`), or with one worker thread a stream
  (`Network.dfy`);
* compiled: traced on symbols (`Tracing.dfy`, `Tracer.dfy`), ordered by a worklist and Kahn's algorithm
  (`Compiler.dfy`), and replayed on fresh streams (`CompiledMeaning.dfy`, `CompiledProofs.dfy`,
  `CompiledSettings.dfy`, `CompiledFunctions.dfy`), with what goes wrong for programs the compiler does not
  support (`RepeatedObjects.dfy`, `RoleText.dfy`, `NameClashes.dfy`, `ClashExample.dfy`, `NamedReads.dfy`,
  `RepeatedNames.dfy`, `HungReads.dfy`);
* speculatively, cutting later generations out of one reply made ahead (`Speculation.dfy`);
* with forked children that are joined again (`ForkJoin.dfy`);
* incrementally through role blocks, or rendered at once from the recorded messages (`TemplateTexts.dfy`,
  `Rendering.dfy`);
* only as far as its constant prefix, to be cached (`PrefixTracing.dfy`, `PrefixExtent.dfy`).

Smaller modules prove the queue protocol of one worker with its drain after an error
(`WorkerQueue.dfy`, `WorkerAlone.dfy`), greedy choice by elimination (`Choices.dfy`), the model-swapping policies of the
multi-model benchmark (`Swapping.dfy`), the sizes and offsets of padded images (`Geometry.dfy`), and the
sharded copy of weights to a GPU (`ShardedCopy.dfy`). Where two runs differ, a model shows it: by the length of
its answers (`HeavyModels.dfy`, `FixedLengthModels.dfy`), or by answering every question differently
(`DiscerningModels.dfy`).

**How to read it.** What an object holds is a datatype value, and what one operation does to it is a
function on values. Code that updates fields or loops over state is a class or a method that is proved
to do what that function says. Protocols are state machines: a run is any sequence of atomic steps, each
enabled where it is taken, and theorems quantify over all of them. The model behind the runtime is an
arbitrary function of the text so far and the sampling parameters; speculation alone assumes more, a
completion model that emits one token a character and continues its own continuations.

**Where the code does not do what one would hope.** Each of these is proved, with the exact condition
under which the hope is met unless noted:

* A compiled run gives its sampling defaults and its backend to every function that is called; a direct
  run starts a called function with defaults of its own, on the default backend. The texts agree for
  every backend exactly when all generations the result depends on resolve to the same parameters
  (`SameTextIffSameSettings`), which each does exactly when the two sets of defaults agree on whatever it leaves
  open (`SettingsAgreeIff`), and for every pair of backends exactly when, besides, no answer inside a
  called function matters (`SameTextIffOnlyOuterAsks`). The program of test/lang/test_tracing.py, run with
  another temperature than the default one, is an example (`OneTipIsSampledDifferently`).
* A function that calls no other and uses one argument (or any other object) twice cannot be compiled: its
  links form a cycle and the last node is never ordered (`LastIsListedIffNothingRepeats`). With calls,
  such a program may compile and silently lose text: whatever an outer function appended and some call
  appended again later is gone, and so is what was only linked behind it (`LostTextIsMissing`,
  `PassingOnLosesText`).
* Role text built by the tracer carries no label, so compiling moves it to another stream. For a function that
  calls no other the condition is exact (`RolesSurviveIffSilent`). With calls, role text of the outermost
  function is lost if its last node carries a label (`LostTextIsMissing`), and all its answers are lost if its
  last node is role text (`RoleEndLosesAnswers`).
* A variable is resolved by its name among the variables of the outermost call, whichever call it was made in.
  Where clashing names ask for different things, the texts agree for every backend exactly when every
  variable that the result depends on was resolved to what it was made from, and the settings agree
  (`SameTextIffResolved`). If the generation found comes later than the variable, the function is not ordered
  at all (`LaterSourceIsNeverListed`).
* While tracing, an argument hides a variable of the same name; a direct run looks a name up among the
  variables only. The texts agree for every backend exactly when, besides, no read that the result depends on
  is hidden, and every other hidden name is that of a variable (`NamesAgreeIff`). A function with an argument
  x that generates x and appends `s["x"]` is an example (`ArgumentHidesVariable`).
* A name that is generated twice on a stream makes what a reader on another stream sees depend on the
  schedule, exactly when the definition is not the only one (`ReadAgreesIffSole`).
* Registering a name again replaces its event, and whoever waits for the old one may wait forever. A read,
  from its own stream or another one, can always still be executed exactly when no later expression defines
  its name (`ReadNeverHangsIff`); a function that generates x, passes it on, and generates x again can hang
  once compiled (`ReusedNameHangs`). If every read comes after all definitions of its name, however many there
  are, no schedule of a compiled run blocks (`NoReadIsHung`).
* A speculative generation that asks for text raises its own token limit to the size of the request,
  so that without a stop string in the reply it returns all of it (`SameCompletionIffExact`,
  `EmptyStopListIgnoresLimit`); a stop string beyond the token limit is honoured although a plain
  generation would have ended before it.
* Extracting a prefix fails exactly when a run fails on what is traced, which may be behind the leading
  constants: an argument, a variable or an unknown element stops the trace, a generation does not
  (`ExtractedIsConstantText`). What is extracted is all that runs have in common, unless the first element that is
  not constant is one the tracer does not know, whose text is fixed and not extracted (`SharedIff`).
* A message that starts with white space is recorded without it (`IncrementalIsBatchIffClean`).
* After an error the worker sets the events of all variables in a loop over a dictionary. It dies there
  exactly when another thread registers a new name between the first and the last step of the loop
  (`EndsProperlyIff`); whoever waits for a name it has not visited waits forever
  (`NewNameStrandsWaiters`). Which events are set, however the loop ends, is proved exactly
  (`WaitedEventIsSetIff`, `CurrentEventIsSetIff`).
* What is put in a queue after the drain has looked for the last time, or behind the end mark, is never
  acknowledged (`LateSubmissionsHang`, `PutBehindEndHangs`).
* Choosing among options fails exactly when some option has no tokens and another has (`Choose`).
* The benchmark's rule that swaps two persistent models never applies, because no activation time is ever
  recorded (`OneQueueIsSteady`).
* Unpadding can cut the first line of an image off, and can leave nothing of a very thin one
  (`UnpaddingFindsImage`, `UnpaddedIsEmptyIff`).
* With more than one thread the weight copy works only for tensors whose rows divide by shards times
  threads; a tensor that fails the assertion leaves the earlier tensors already submitted
  (`AllShardsPassIff`, `MultiThreadCopyModelToGpu`).

The documentation of `unpad_image` gives the original size as height and width; the code reads width
first, and so does the model.

## Model

| member | source | states |
|---|---|---|
| Prelude.LstripCutsSpaces | python/sglang/lang/interpreter.py:585 | the longest beginning of white space is cut off the body of a role, and nothing else |
| Ir.ResolvedIsGoverned | python/sglang/lang/interpreter.py:657-707 | the parameters of a request are the ones with every value set at the generation, and the value of the run for every other: no more and no fewer |
| Ir.AsksAlikeIff | python/sglang/lang/interpreter.py:657-707 | a generation asks the same under two sets of defaults if and only if they agree on whatever it leaves open |
| Executor.FirstStopIsEarliest | python/sglang/lang/interpreter.py:454-466 | the position found carries a stop string, no earlier one does, and none is found only if no stop string occurs |
| Executor.StreamExecutor.ExecuteFill | python/sglang/lang/interpreter.py:400-417 | text grows by the value; the speculated text is consumed if it starts with the value and dropped otherwise; nothing else changes |
| Executor.StreamExecutor.FindStop | python/sglang/lang/interpreter.py:454-466 | the loop over the stop strings finds the earliest occurrence of any of them in the speculated text |
| Executor.StreamExecutor.GenerateAhead | python/sglang/lang/interpreter.py:438-486 | if what is speculated will do (long enough, or not empty where stop strings are given) no request is made and it is split; else the reply to one request at the raised limit is; the split is at the first stop string, at the token limit if there are no stop strings, and at the raised limit if none occurs |
| Executor.StreamExecutor.ExecuteGen | python/sglang/lang/interpreter.py:488-513 | the completion extends the text and is stored under its key; it is the model's answer, or the beginning of the speculated text if that will do; nothing else changes |
| Executor.StreamExecutor.ExecuteSelect | python/sglang/lang/interpreter.py:539-550 | the decision extends the text and is stored only under a name |
| Executor.StreamExecutor.ExecuteRoleBegin | python/sglang/lang/interpreter.py:557-573 | nested roles are refused with the state unchanged; a default system block is inserted before the first message of another role |
| Executor.StreamExecutor.ExecuteRoleEnd | python/sglang/lang/interpreter.py:575-609 | the suffix is appended and the stripped body of the role is recorded as one message |
| Executor.StreamExecutor.Fork | python/sglang/lang/interpreter.py:267-299 | fresh, pairwise different children with the text, variables, messages, role and role position of the parent, its length as fork position, and nothing speculated |
| Executor.StreamExecutor.ConcatenateAndAppendText | python/sglang/lang/interpreter.py:621-628 | joining by text equals filling in the additions of the children in order |
| Executor.StreamExecutor.ConcatenateAndAppendKvCache | python/sglang/lang/interpreter.py:630-642 | joining by KV cache stops at the first child not forked at this length, keeping what was added before |
| StreamTexts.ContributionsAre | python/sglang/lang/interpreter.py:400-555 | in the unthreaded run the text of a stream is what its submissions contribute in order: a text itself, the answer of its model to the text so far, and for a read what its definition contributed |
| StreamTexts.RunsAsStream | python/sglang/lang/interpreter.py:358-400 | each stream of a run is in the state to which the interpreter comes that executes the elements of that stream by themselves, in a world where variables have the values read in the run |
| Network.VariableIsKept | python/sglang/lang/interpreter.py:488-513 | in the unthreaded run a variable with one definition keeps the output of that definition for good |
| NetworkProofs.LookupAfterDefinition | python/sglang/lang/interpreter.py:251-254 | once the event of a variable is set, a lookup gives what the unthreaded run stored |
| NetworkProofs.StepsAddUp | python/sglang/lang/interpreter.py:511-517 | the small steps in which text, variable and event are written add up to the whole expression |
| NetworkProofs.StepKeeps | python/sglang/lang/interpreter.py:239-254 | preparing, putting and executing keep the invariant that ties every worker to the unthreaded run |
| NetworkProofs.EveryScheduleAgrees | python/sglang/lang/interpreter.py:319-336 | confluence: under every interleaving no variable is missing, and when all work is done every stream has the text and variables of the unthreaded run |
| NetworkProofs.NoDeadlock | python/sglang/lang/interpreter.py:251-254 | after every schedule either all work is done or some thread can step |
| NetworkProofs.EveryScheduleEnds | python/sglang/lang/interpreter.py:319-336 | no schedule is longer than five small steps for each submission |
| RepeatedNames.AnyDefinitionIsSeen | python/sglang/lang/interpreter.py:646-653 | a reader on another stream may end up with the value of any definition of its name, under some schedule |
| RepeatedNames.ReadAgreesIffSole | python/sglang/lang/interpreter.py:251-254 | such a read agrees with the unthreaded run, for every model and schedule, if and only if its definition is the only one in the program |
| StreamRuns.StepKeepsRun | python/sglang/lang/interpreter.py:646-653 | for every program whose reads are left to the workers, however often it defines its names: a name stands for its latest event, and what has run is stored and has set its event unless that was replaced |
| HungReads.HungForever | python/sglang/lang/interpreter.py:251-254 | a read that waits for an event replaced before it was set, or that only expressions behind it would set, is never executed, whatever is scheduled |
| HungReads.ReadNeverHangsIff | python/sglang/lang/interpreter.py:646-653 | a read from any stream, before which nothing is read on the two streams, can always still be executed if and only if no later expression defines its name |
| HungReads.ReusedNameHangs | python/sglang/lang/interpreter.py:646-653 | a compiled function that generates x, passes it to another call and generates x again can hang, for every model |
| HungReads.NoReadIsHung | python/sglang/lang/interpreter.py:251-254 | if every read comes after all definitions of its name, no schedule misses a variable or blocks, and every schedule ends |
| Tracer.SumExecutesInOrder | python/sglang/lang/ir.py:324-333 | a sum of expressions executes as its two sides one after the other, however lists are nested |
| Tracer.TracerProgramState.AppendNode | python/sglang/lang/tracer.py:143-146 | appending links an object behind the last one, overwriting any earlier link |
| Tracer.TracerProgramState.ExecuteFillText | python/sglang/lang/tracer.py:183-186 | role text becomes a new object without a label |
| Tracer.TracerProgramState.ExecuteObject | python/sglang/lang/tracer.py:148-200 | an object is labelled, linked, and entered under its name or a made-up one if it generates something |
| Tracer.TracerProgramState.ExecuteRoleBegin | python/sglang/lang/tracer.py:202-219 | what a role begin appends, with the inserted system block; nested roles fail |
| Tracer.TracerProgramState.ExecuteRoleEnd | python/sglang/lang/tracer.py:221-230 | what a role end appends, and the blank message it records |
| Tracer.TracerProgramState.Execute | python/sglang/lang/tracer.py:148-177 | executing an expression, lists inside lists included, traces its elements in order up to the first that stops or fails |
| Tracer.TracerProgramState.GetVar | python/sglang/lang/tracer.py:236-242 | reading a name while tracing gives what was given under it unless that is None, else a new variable node for the last generation of it, else fails |
| Tracing.UnnamedAreNumbered | python/sglang/lang/tracer.py:188-200 | the generations and choices of a tracer that names none of them are told apart: each is entered under its kind and the number of those before it |
| NamedReads.HiddenReadShows | python/sglang/lang/tracer.py:236-242 | a hidden read that the last node depends on has a model with which the run by name returns another text than the compiled run |
| NamedReads.NamesAgreeIff | python/sglang/lang/tracer.py:236-242 | for all arguments: the compiled run returns the text of the direct run, which looks names up among the variables, for every backend if and only if no ordered read is hidden, every hidden name is a variable's, and all ordered generations resolve alike |
| NamedReads.ArgumentHidesVariable | python/sglang/lang/tracer.py:236-242 | a function with an argument x that generates x and appends the variable x: some model tells the two runs apart, however it is compiled and whatever it is given |
| Tracer.TraceProgram | python/sglang/lang/tracer.py:58-76 | tracing call by call builds the heap, the last nodes and the tables of variables of the whole trace |
| Compiler.ReachesAll | python/sglang/lang/compiler.py:40-65 | a finished worklist holds exactly what can be reached backwards from the last node |
| Compiler.SortedIsTopological | python/sglang/lang/compiler.py:72-87 | what Kahn's algorithm lists has every object once and after both its previous object and its source |
| Compiler.ListedIffGrounded | python/sglang/lang/compiler.py:72-87 | an object is listed if and only if nothing it depends on lies on a cycle |
| Compiler.CompiledFunction.BuildGraph | python/sglang/lang/compiler.py:32-70 | the graph holds exactly the reachable objects, its links are those of the objects, and labels are renamed injectively onto an initial segment |
| Compiler.CompiledFunction.Worklist | python/sglang/lang/compiler.py:39-70 | the loop ends with every node visited, linked and relabelled |
| Compiler.CompiledFunction.Roots | python/sglang/lang/compiler.py:73-78 | the counters start at the number of dependencies of each node, and the candidates are the nodes without any |
| Compiler.CompiledFunction.Release | python/sglang/lang/compiler.py:81-86 | listing a node lowers each follower's counter once for every link, also when one node follows twice |
| Compiler.CompiledFunction.TopologicalSort | python/sglang/lang/compiler.py:72-87 | the loop ends; the list is without repetition, ordered, and complete below |
| Compiler.CompiledFunction.constructor | python/sglang/lang/compiler.py:24-30 | compiling any closed heap: reachable objects, the order among them, which are listed, and the renaming |
| Compiler.CompiledFunction.RunInternal | python/sglang/lang/compiler.py:95-123 | each object is submitted on its stream as what it is: a constant, the value of a given argument, a choice, a read from the stream of the source its name resolves to, or a generation whose every parameter is the one set at it, or else that of the run; the run fails exactly at the first argument that is missing, with the earlier submissions made |
| CompiledProofs.ChainIsOrdered | python/sglang/lang/compiler.py:43-51 | everything a tracer appended before an ordered object is ordered before it |
| CompiledProofs.ReadOfObject | python/sglang/lang/compiler.py:111-116 | in both runs a read is directed to the stream of the only definition of its variable, which comes earlier |
| CompiledProofs.CompiledIsWellFormed | python/sglang/lang/compiler.py:108-120 | every read of a compiled run is served by exactly one earlier definition on the stream it names |
| CompiledProofs.DirectIsWellFormed | python/sglang/lang/interpreter.py:552-555 | every read of the direct run is served by exactly one earlier definition |
| CompiledProofs.ObjectsAgree | python/sglang/lang/compiler.py:108-120 | when every ordered object is answered the same after the same text, each has the same executor before and after it and the same output in both runs |
| CompiledProofs.CompilationPreservesMeaning | python/sglang/lang/compiler.py:95-123 | then the stream of the last node ends as direct interpretation of the outermost call ends, with each call on its own defaults and backend |
| CompiledProofs.ThreadedRunsAgree | python/sglang/lang/compiler.py:103-123 | finished threaded runs of both return the unthreaded results, whatever their schedules; neither reads a missing variable |
| CompiledProofs.CompiledRunsFinish | python/sglang/lang/compiler.py:108-122 | a threaded compiled run is bounded in length and never blocks before it is finished |
| CompiledFunctions.TraceIsGrounded | python/sglang/lang/tracer.py:143-146 | the dependencies of every object of a supported trace end after at most as many links as there were appends |
| CompiledSettings.CompiledIsNoShorter | python/sglang/lang/compiler.py:103-107 | with a model whose answers grow with the text, nothing is shorter in the compiled run if no answer is |
| CompiledSettings.SettingsAgreeIff | python/sglang/lang/compiler.py:103-107 | an ordered generation resolves alike in both runs if and only if the defaults of the run and of its call agree on whatever it leaves open |
| CompiledSettings.FullySetProgramIgnoresSettings | python/sglang/lang/compiler.py:103-107 | a program whose ordered generations set the limit, the stop strings and every other parameter that has a default means the same compiled, whatever the defaults |
| CompiledSettings.SameTextIffSameSettings | python/sglang/lang/compiler.py:103-107 | compiled and direct text agree for every backend if and only if every ordered generation resolves to the same parameters under the defaults of the run and of its own call |
| CompiledSettings.SameTextIffOnlyOuterAsks | python/sglang/lang/ir.py:290-298 | with called functions on a backend of their own they agree for every pair of backends if and only if, besides, no ordered answer is given inside a called function |
| CompiledFunctions.CompiledFunctionMeansProgram | python/sglang/lang/compiler.py:95-123 | whatever state the compiler leaves for a supported program, a run of it accepts the program's arguments and is well formed, and it means the program for every backend if and only if all ordered generations resolve alike |
| CompiledFunctions.OneTipIsSampledDifferently | test/lang/test_tracing.py:39-79 | the repository's own program, with one of its tips: other defaults than those of the call give another text for some model, however it is ordered |
| CompiledFunctions.TraceAndCompile | python/sglang/lang/compiler.py:17-30 | tracing and compiling a supported program: the order is a topological order of exactly the reachable objects, and two objects share a stream if and only if one call appended both |
| RepeatedObjects.LastIsListedIffNothingRepeats | python/sglang/lang/tracer.py:143-146 | a function of one call can be compiled if and only if no object is appended twice |
| RepeatedObjects.LostTextIsMissing | python/sglang/lang/tracer.py:143-152 | with any calls: an append of the outermost call that is not silent, and that is role text, was appended again later or is out of reach, makes the compiled text of a listed program shorter for a one-letter model, if its last node carries the label of that call |
| RepeatedObjects.PassingOnLosesText | python/sglang/lang/tracer.py:143-152 | an argument passed on and used: the program compiles, and loses what was written before the call |
| RoleText.SameIffEmpty | python/sglang/lang/compiler.py:67-70 | moving some submissions to another stream keeps the text, for every backend, if and only if all of them add nothing |
| RoleText.RolesSurviveIffSilent | python/sglang/lang/tracer.py:183-186 | a function with roles keeps its text under compilation if and only if everything labelled unlike its last node is silent |
| RoleText.RoleEndLosesAnswers | python/sglang/lang/tracer.py:183-186 | with any calls: a listed program whose last node is role text and whose outermost call asks the model anything gets a shorter text from some model when it is compiled |
| RoleText.ChainOrder | python/sglang/lang/compiler.py:72-87 | the only topological order with the last node of a one-call function is the order of its appends |
| NameClashes.ResolvedIsLatest | python/sglang/lang/compiler.py:54-58 | a compiled read takes the value of the object it is resolved to, which is the latest definition of the name on its stream |
| NameClashes.RunsAreInStep | python/sglang/lang/compiler.py:108-120 | with answers of one length compiled and direct text have the same length at every object, whatever names are resolved to |
| DiscerningModels.DiscerningModel | python/sglang/lang/interpreter.py:438-466 | for any two programs there is a model that answers every question either asks differently, with answers longer than all that the programs say |
| NameClashes.ClashShows | python/sglang/lang/compiler.py:55-58 | with such a model every variable that was resolved to something asked with other parameters, choices or amount of text than what it was made from leaves another text, in whatever call |
| NameClashes.ClashChangesResult | python/sglang/lang/compiler.py:55-58 | if it is a variable of the outermost call, the text returned differs, whatever other names clash |
| NameClashes.AnyClashChangesResult | python/sglang/lang/compiler.py:55-58 | in whatever call it is, the text returned differs if all ordered clashes ask for different things |
| NameClashes.SameTextIffResolved | python/sglang/lang/compiler.py:54-58 | for such programs compiled and direct text agree for every backend if and only if every ordered variable was resolved to what it was made from and all ordered generations resolve alike |
| NameClashes.LaterSourceIsNeverListed | python/sglang/lang/compiler.py:72-87 | a variable resolved to a later append of its own call is never listed, nor is the last node |
| ClashExample.NameClashIsMisresolved | python/sglang/lang/compiler.py:55-58 | a program whose variable of a nested call is resolved to the outer one, so that its real source is not even reached |
| ClashExample.NameClashChangesText | python/sglang/lang/compiler.py:55-58 | that program gives different text directly and compiled |
| Speculation.RunStaysBalanced | python/sglang/lang/interpreter.py:438-486 | after any run with any backend, nothing is speculated, or the text and the speculated text make up the text at the last request and its reply |
| Speculation.CompletionHasNoStop | python/sglang/lang/interpreter.py:472-484 | with a stop list no completion contains a non-empty stop string |
| Speculation.FirstStopOfPrefix | python/sglang/lang/interpreter.py:454-466 | the stop found in a beginning of a text is the first position where a stop string fits in it whole |
| Speculation.StepStaysAhead | python/sglang/lang/interpreter.py:412-417 | what is speculated stays a beginning of what the model would say next |
| Speculation.SameCompletionIffExact | python/sglang/lang/interpreter.py:468-484 | a speculative generation returns what a plain one returns if and only if a condition on reply, stop strings and limit holds |
| Speculation.SingleStopIsExact | python/sglang/lang/interpreter.py:472-484 | that condition holds for a single stop string found within the token limit |
| Speculation.EmptyStopListIgnoresLimit | python/sglang/lang/interpreter.py:473-484 | under an empty stop list a request made here is returned whole, past the limit whenever the model says more |
| Speculation.SpeculationRefines | python/sglang/lang/interpreter.py:488-513 | over whole programs all completions agree if and only if every generation is exact, and then text and variables agree |
| Speculation.ModelDoesNotMatterIff | python/sglang/lang/interpreter.py:468-484 | the outcome of a speculative generation is the same for all models if and only if nothing is asked: the speculated text is long enough, or not empty where stop strings are given |
| Speculation.SupplyServesProgram | python/sglang/lang/interpreter.py:468-484 | a program that what is speculated will do for asks the model nothing: text and leftover make up what they made up before, and any other model gives the same |
| Speculation.PlainRunWrites | python/sglang/lang/interpreter.py:488-513 | a plain run extends the text by its fills and completions in order |
| Speculation.SpeculativeRunWrites | python/sglang/lang/interpreter.py:468-513 | so does a speculative run, by its own completions |
| PrefixTracing.AccumulatePrefix | python/sglang/lang/tracer.py:49-55 | the loop accumulates the leading constant text |
| PrefixTracing.ExtractPrefix | python/sglang/lang/tracer.py:33-55 | the method computes what the trace of the flattened program gives: the failed assertion if there is one, else the leading text of what was traced; what that is, the next rows say |
| PrefixTracing.BeginMatches | python/sglang/lang/tracer.py:202-219 | the tracer's role text equals the interpreter's although its messages are blank, and both refuse nested roles |
| PrefixTracing.TextOnlyGrows | python/sglang/lang/interpreter.py:358-417 | executing any elements only ever extends the text |
| PrefixTracing.PrefixOfEveryRun | python/sglang/lang/tracer.py:33-55 | the extracted prefix is a prefix of the text of every real run, for all arguments and backends, that follows the trace up to its first element that is not constant |
| PrefixTracing.ConstantProgramIsExtracted | python/sglang/lang/tracer.py:49-55 | of a program of constants and roles the whole text is extracted |
| PrefixExtent.ExtractedIsConstantText | python/sglang/lang/tracer.py:33-55 | for every program and world: extraction fails if and only if the interpreter fails on what is traced, and else gives exactly the text the interpreter has after the leading constants |
| PrefixExtent.SharedIff | python/sglang/lang/tracer.py:33-55 | a text is a beginning of all runs that follow the trace if and only if it is a beginning of the extracted prefix, together with the fixed text of an unknown element that follows it |
| PrefixExtent.FullTraceAppendsAll | python/sglang/lang/tracer.py:148-177 | a trace for compilation appends every object, arguments and variables included |
| ChatTemplates.ChatTemplate.GetPrompt | python/sglang/lang/chat_template.py:41-52 | the loop renders the conversation message by message; what each renders to, the next rows say |
| TemplateTexts.PlainPromptSplits | python/sglang/lang/chat_template.py:41-52 | with a plain template the rendering of two conversations one after the other is the two renderings one after the other |
| TemplateTexts.PlainMessage | python/sglang/lang/chat_template.py:39-51 | and a message renders as the first entry of its role, its content, and the second entry |
| TemplateTexts.LlamaOpens | python/sglang/lang/chat_template.py:24-36 | a LLAMA2 conversation that starts with system and user renders as the user's first entry, the system message within its entries, the user's content and the user's second entry |
| TemplateTexts.LlamaGoesOn | python/sglang/lang/chat_template.py:31-39 | a user message after a longer history, or after one message without content, renders within both its entries |
| TemplateTexts.AbsentContent | python/sglang/lang/chat_template.py:45-51 | absent content: a system message takes the default prompt and is skipped if there is none, any other renders as the word for nothing |
| TemplateTexts.SystemThenUser | python/sglang/lang/interpreter.py:557-609 | the text the executor writes for a system and a user block, in terms of the entries of the template, for both styles |
| TemplateTexts.DefaultPromptIsSaid | python/sglang/lang/interpreter.py:557-573 | with a default prompt that is not empty, a first role other than the system's is executed as if the system had said the prompt before |
| TemplateTexts.UserSpeaksFirst | python/sglang/lang/interpreter.py:557-573 | without one, the user's entries and body are all there is |
| Rendering.RoleAddsMessage | python/sglang/lang/interpreter.py:557-609 | a role block adds affixes and body to the text, and the same affixes around the stripped body to the rendering |
| Rendering.ConversationDrops | python/sglang/lang/interpreter.py:583-586 | the executor's text is never shorter than the rendering of its messages, and equal only for clean conversations |
| Rendering.IncrementalIsBatchIffClean | python/sglang/lang/chat_template.py:41-52 | for every conversation, template and backend the text equals the rendering if and only if nothing is said outside roles and no message starts with white space |
| ForkJoin.ChildExtendsParent | python/sglang/lang/interpreter.py:267-299 | whatever a child executes, its text is the parent's at the fork followed by its additions |
| ForkJoin.ChildGoesOnAsParent | python/sglang/lang/interpreter.py:267-299 | for every world, template and elements, a child comes to the same error, or the same text, variables, messages, role and role position, as its parent would |
| ForkJoin.KvJoinStops | python/sglang/lang/interpreter.py:630-642 | the KV path appends the children before the first that was not forked at this length, fails there, and appends none after it |
| ForkJoin.AdditionsInOrder | python/sglang/lang/interpreter.py:621-628 | the additions of some children and of others follow one another |
| ForkJoin.JoinedText | python/sglang/lang/interpreter.py:621-628 | a join by text gives the parent's text and then each child's own text in order |
| ForkJoin.KvJoinIsTextJoin | python/sglang/lang/interpreter.py:630-642 | the KV path agrees with the text path if and only if there are no children or the parent has its length at the fork; otherwise it fails and adds nothing |
| ForkJoin.ProgramStateGroup.JoinGatherVariables | python/sglang/lang/interpreter.py:893-907 | parent variables are kept, every other name holds the children's values in order, and no other name appears |
| ForkJoin.ValuesInOrder | python/sglang/lang/interpreter.py:893-907 | the values under a name come in the order of the children, one from each that has it |
| WorkerQueue.QueueAccounting | python/sglang/lang/interpreter.py:319-336 | at every moment the counter is the queue plus the item in flight, and items are acknowledged once each, in order |
| WorkerAlone.JobsAreExecuted | python/sglang/lang/interpreter.py:319-336 | if nobody submits anything more, jobs that do not fail are all executed: exactly the events their names stand for are set, a sync returns, and the worker waits |
| WorkerAlone.FailureReleasesAll | python/sglang/lang/interpreter.py:325-347 | and a job that fails takes the rest with it: the queue is emptied, a sync returns, every event is set and the worker ends |
| WorkerAlone.EndMarkEnds | python/sglang/lang/interpreter.py:321-326 | an end mark ends the worker, and nothing behind it is touched |
| WorkerQueue.EndsProperlyIff | python/sglang/lang/interpreter.py:346-347 | after an error the worker ends properly if and only if no new name is registered from the first step of the loop over the events to its last |
| WorkerQueue.WaitedEventIsSetIff | python/sglang/lang/interpreter.py:251-254 | the event someone waits for during the loop is set if and only if it was already, or the loop visits its name before it is registered again |
| WorkerQueue.CurrentEventIsSetIff | python/sglang/lang/interpreter.py:346-347 | the event a name stands for afterwards is set if and only if, for a visited name, it was not registered since, and else, it was set before and not replaced |
| WorkerQueue.ProperEndVisitsAll | python/sglang/lang/interpreter.py:346-347 | a loop that ends properly has visited every name there was at its start |
| WorkerQueue.QuietLoopReleasesAll | python/sglang/lang/interpreter.py:338-347 | if nothing is registered during the loop, it ends properly and every event is set |
| WorkerQueue.NewNameStrandsWaiters | python/sglang/lang/interpreter.py:646-653 | a new name registered in the loop kills the worker at its next step, and events not visited stay unset for good |
| WorkerQueue.SecondNameStrandsFirst | python/sglang/lang/interpreter.py:646-653 | a schedule from the start on which that happens |
| WorkerQueue.LateSubmissionsHang | python/sglang/lang/interpreter.py:339-345 | from the drain's last look on, through the loop and however it ends, a sync finds the counter at zero if and only if nothing was put since |
| WorkerQueue.PutBehindEndHangs | python/sglang/lang/interpreter.py:323-326 | after a normal end a sync returns if and only if nothing was put behind the end mark |
| WorkerQueue.WorkerStops | python/sglang/lang/interpreter.py:319-336 | the worker's steps are bounded by the items put, and it can step whenever it has something to do |
| Choices.PaddingKeepsMean | python/sglang/lang/choices.py:87-95 | padding an option with its average leaves its average unchanged |
| Choices.SumOfTwo | python/sglang/lang/choices.py:87-95 | the log probabilities of an option are added up in whatever parts |
| Choices.MeanIsBalanced | python/sglang/lang/choices.py:87-95 | as many times the average as there are tokens make up the sum |
| Choices.GreatestOneMore | python/sglang/lang/choices.py:99-101 | the greatest rows in one more column are those of the greatest rows that have the largest entry there |
| Choices.SingleStaysGreatest | python/sglang/lang/choices.py:102-103 | the early exit is sound: a single greatest row stays the only one in all later columns |
| Choices.Eliminate | python/sglang/lang/choices.py:97-104 | elimination of numbers never empties the set and puts first the first lexicographically greatest row |
| Choices.GreedySelection | python/sglang/lang/choices.py:97-104 | nothing remains if and only if some row is not a number; else the first greatest row comes first |
| Choices.BuildLogprobMatrix | python/sglang/lang/choices.py:87-95 | each row of the matrix is its option padded with its average; an option without tokens gives a row that is not a number |
| Choices.Choose | python/sglang/lang/choices.py:58-78 | the choice is the first option whose padded row is lexicographically greatest; it fails if and only if some options have no tokens and others have |
| Swapping.ChainLinks | benchmark/multi-model/benchmark.py:277-310 | in a chain of swaps each model taken out is the one the swap before brought in |
| Swapping.EventKeeps | benchmark/multi-model/benchmark.py:508-567 | answers, sends and collections at any time keep the invariant of sequential swapping |
| Swapping.SequentialSwappingIsSafe | benchmark/multi-model/benchmark.py:507-579 | only the current model has requests in flight, none is when a swap is queued, the swaps are exactly those that the order of the requests calls for, and result slot i has the outcome of request i |
| Swapping.NothingBlocks | benchmark/multi-model/benchmark.py:507-579 | when all that was sent is answered the next request can be sent, and after the last the policy returns if and only if all are answered |
| Swapping.OneQueueIsSteady | benchmark/multi-model/benchmark.py:604-674 | for any clock a dynamic model is active if and only if it is current, swaps alternate and chain, and the second persistent rule never applies |
| Swapping.PassTakesOutIdle | benchmark/multi-model/benchmark.py:641-656 | a pass over the dynamic models takes out the current one if it is found idle, and changes nothing else |
| Swapping.CurrentIsResident | benchmark/multi-model/benchmark.py:604-674 | the model that is in after any number of requests, told from requests and clock alone: a dynamic model comes in with a request for it while no other is in, and goes when its last request is more than two seconds old; one swap is queued for each coming and going |
| Swapping.ShortRunSwapsOnce | benchmark/multi-model/benchmark.py:618-656 | in a run of at most two seconds the first dynamic model asked for comes in and stays, with one swap |
| Swapping.LatePassesSwapEachTime | benchmark/multi-model/benchmark.py:618-656 | if every pass is late, each request for a dynamic model swaps it in and out again |
| Swapping.SwapOutLongest | benchmark/multi-model/benchmark.py:658-674 | whatever activation times there were: with two persistent models the one that ran for more than ten seconds makes room for the other, and nothing is done otherwise |
| Swapping.SwapOutIdle | benchmark/multi-model/benchmark.py:641-656 | the loop over the dynamic models computes that pass, and its assertion never fails |
| Swapping.RunGenerationOneQueue | benchmark/multi-model/benchmark.py:604-674 | for all requests, models and clocks the imperative policy ends in the specified state, with active models, swaps and count as just stated |
| Geometry.UnpadImageShape | python/sglang/srt/mm_utils.py:296-317 | the reported shape is the size of the window, which lies within the canvas |
| Geometry.ScaledIsLeast | python/sglang/srt/mm_utils.py:92-113 | a resized image fills the side that is met first, its other side is the least that keeps the ratio, and it is pasted in the middle |
| Geometry.UnpaddingFindsImage | python/sglang/srt/mm_utils.py:265-293 | unpadding picks the axis that padding did; the window is exactly the image if and only if an even number of lines was blank, and otherwise gains one blank line or loses the first line |
| Geometry.UnpaddedIsEmptyIff | python/sglang/srt/mm_utils.py:281-291 | nothing is left of an image if and only if it was scaled below one line in a target with an even number of lines |
| Geometry.SelectBestResolution | python/sglang/srt/mm_utils.py:41-78 | one pass finds the first candidate that no other beats, and finds none only in an empty list |
| Geometry.DownscaledIsGreatest | python/sglang/srt/mm_utils.py:58-62 | the image scaled to a candidate fills the side that is met first, and its other side is the greatest that keeps the ratio |
| Geometry.SurvivingOrWasted | python/sglang/srt/mm_utils.py:63-67 | each pixel of a candidate survives from the image or is wasted, and no more survive than image and scaled image have |
| Geometry.AllSurviveIffContained | python/sglang/srt/mm_utils.py:58-68 | a candidate keeps every pixel of the image if and only if it is as wide and as high as the image |
| Geometry.BestContainsImage | python/sglang/srt/mm_utils.py:41-78 | if some candidate contains the image, the selected one does and has no more pixels than it |
| ShardedCopy.TransfersPartitionRows | python/sglang/multi_model/model_sevice.py:158-167 | for all sizes, shards and threads every row belongs to exactly one transfer |
| ShardedCopy.PartsAreBalanced | python/sglang/multi_model/model_sevice.py:159-160 | shards differ by at most one row |
| ShardedCopy.EveryRowHasOneJob | python/sglang/multi_model/model_sevice.py:143-180 | if no shard fails, every row of every tensor is copied by exactly one submitted job of exactly one shard |
| ShardedCopy.AllShardsPassIff | python/sglang/multi_model/model_sevice.py:164 | all shards pass the assertion if and only if there is one thread or the rows divide by shards times threads |
| ShardedCopy.MultiThreadCopyModelToGpu | python/sglang/multi_model/model_sevice.py:143-180 | the transfers a shard submits, and the first tensor at which the assertion fails with the earlier ones already submitted |
| ShardedCopy.BrokersAreDistinct | python/sglang/multi_model/model_sevice.py:168 | the jobs of a tensor, up to the number of GPUs, use different brokers, each the next one after the job before, and the target itself only last |
| ShardedCopy.ConcurrentCopyIsExact | python/sglang/multi_model/model_sevice.py:131-180 | under every interleaving, row by row, no row is written twice, and the transfers are over if and only if the GPU holds every row of the CPU |

## Left out

- CompiledProofs.CompilationPreservesMeaning: programs with roles, forks, images or variable scopes are not supported by the compiler; what becomes of roles, repeated objects and clashing names is proved separately.
- CompiledSettings.SameTextIffSameSettings: backends are arbitrary functions, and the answer to a choice may be any string, so a program whose settings differ only where the choices offered would hide it counts as different.
- NameClashes.SameTextIffResolved: for programs in which no variable is resolved to another generation that is asked after as much text with the same parameters; such a clash can give the same text for every backend. Names that the tracer makes up for unnamed generations are assumed not to be used by the program.
- NamedReads.NamesAgreeIff: what a call was given under a name it reads is text or an argument of the outermost function; a name that hides a variable by another variable is a clash of the same kind as above, and an argument object that is appended elsewhere, too, is a repeated object.
- RepeatedNames.ReadAgreesIffSole: for the first read of a stream, from a stream without reads; later reads depend on what the earlier ones saw. It speaks of reads that are executed; which of them can hang is proved separately.
- HungReads.ReadNeverHangsIff: for a read before which nothing is read on its own stream and on the one it reads from. With earlier reads a later definition need not hang it, because the source may have to be past the first definition before the reader gets there.
- RepeatedObjects.LostTextIsMissing: one direction; an object that a nested call appended before the outermost one did may or may not matter. When another call takes the last node over, the compiled function returns the stream of that call, which is not compared.
- RoleText.RolesSurviveIffSilent: for programs of one call whose roles hold only constants, arguments, generations, choices and variables. For programs with calls there is one direction only.
- RoleText.RoleEndLosesAnswers: a function that ends with a role and asks nothing outside of calls is not compared; role text of all calls meets on one stream then.
- Executor.StreamExecutor.ExecuteGen: the chat template's stop strings are not added to the stop list, a single stop string is the list of that string, meta information and streaming are not modelled, and neither is speculation with chat models, which is done by a backend that is not part of this model.
- Executor.StreamExecutor.ExecuteRoleEnd: images in messages.
- Executor.StreamExecutor.ConcatenateAndAppendKvCache: the call that joins the caches of the backend.
- Tracer.TracerProgramState.Execute: when tracing for compilation it stops at an image, which the code appends as an opaque node; forks of a traced program are not modelled.
- PrefixTracing.PrefixOfEveryRun: programs that compare or convert argument values may take a branch in the trace that a real run does not take; they do not follow the trace and are excluded. Exceptions other than those the extraction catches are not modelled.
- NetworkProofs.EveryScheduleAgrees: the main thread reads variables and submits; reading the text of a stream in the middle of a program, and forking in the middle, are not steps of the network. A list of expressions is submitted element by element, and expressions that fail are modelled for one executor only.
- WorkerQueue.EndsProperlyIff: for executors that do not stream. With streaming the worker runs a second loop of the same kind over the table of streaming events, in which a new name kills it in the same way.
- WorkerQueue.WaitedEventIsSetIff: looking an event up by its name and setting it is one step; waiters are represented by the number of the event they hold.
- Executor.StreamExecutor.ExecuteFill: with a chat model that speculates, text inside the assistant's role goes to the backend instead; that backend is not part of this model.
- Swapping.SequentialSwappingIsSafe: the swap loop that sends the queued swaps to the server runs behind the policy; the server's acting on them is not modelled. Sleeping until a request's arrival time has no effect in the model.
- Swapping.RunGenerationOneQueue: the outcomes of the requests, which the one-queue policy collects as the sequential one does.
- Tracer.TraceProgram: programs of plain objects; how names that a program reads are resolved is modelled in NamedReads.
- Geometry.UnpaddingFindsImage: ratios are exact, so rounding of floating-point ratios is not covered; pixels are not modelled, only positions.
- Choices.Choose: log probabilities are real numbers, without infinities; the only values that are not numbers are averages of options without tokens.
- ShardedCopy.ConcurrentCopyIsExact: a copy through a broker GPU is one step for each row; streams and their synchronisation are not modelled.
- Speculation.SpeculationRefines: programs of constant text and generations; choices, images and KV joins extend the text without looking at what is speculated.
- Variables hold strings, apart from what a gathering join collects: the conversion of other values to text is not modelled.
- Sampling parameters other than the token limit and the stop strings are passed on as they are.
- `text_iter` and `text_async_iter`, `run_program_batch`, `bind`, the pinning of cached prefixes, and the other choice methods.
- HTTP end points, process launching, schedulers, memory pools, tokenizers, and model execution.
- The template registry and its matching of model paths, argument parsing, metrics, plotting and file output.
