# Verified models of the ns-3 tree's algorithmic tools

The repository is mostly simulation scripts over the ns-3 libraries. A handful of its files hold
algorithms and protocols of their own. This project models those in Dafny and proves what they are for.

| area | source | Dafny files |
|---|---|---|
| dependency sorting and cycle enumeration | `bindings/python/topsort.py`, `is_rotated` of `rad_util.py` | `Graph`, `Topsort`, `Rotation`, `FindCycles`, `SortTheorems` |
| configuration-path gathering | `utils/print-introspected-doxygen.cc` | `ConfigPaths`, `ConfigRecords` |
| the test runner's worker pool | `test.py` | `WorkerPool` |
| the shell pipeline parser and runner | `waf-tools/shellcmd.py` | `ShellParser`, `ShellGrammar`, `ShellRunner`, `ShellLists`, `ShellTheorems` |
| unified-diff parser, printer and rewrite | `utils/check-style.py` | `PatchFormat`, `PatchRoundTrip`, `TrailingWhitespace` |
| bit strings, Gray codes, permutations | `bindings/python/rad_util.py` | `BitStrings`, `Permutations` |
| resumable sender, fairness index | `examples/tcp/tcp-large-transfer.cc`, `examples/tcp/dctcp-example.cc` | `BulkSender`, `Fairness` |

`Sequences` holds shared facts about lists, `Wrappers` optional values. `dafny verify dfyconfig.toml` checks the whole project.

## How the models are built

- Loops and objects of the source are methods and classes here, each proved against a specification
  function or predicate. What the source promises is then proved about those as lemmas.
- **Dictionaries** have no order in the model: wherever the source iterates over keys, a method returns
  the keys in an order about which nothing is known.
- **Generators** are modelled by the list of everything they yield, and by how they end.
- **Exceptions** are results. Where the model has no result for a lookup failure (for example
  `num_parents[child]`), the proof obligations of the map access show that it cannot fail.
- **Graphs** are multigraphs: a child may be listed repeatedly, and a node may list itself. "Deep(v, k)"
  means that a walk of k edges ends in v, so "AtLevel(v, k)" means that the longest such walk has k edges.
- **The worker pool** is a state machine over atomic steps. A run is any sequence of enabled steps of the
  main thread, the workers and the interrupt handler; running a job returns an arbitrary code.
- **Processes and files** of the shell runner are numbered events of a trace; exit codes come from an
  arbitrary function of the process number. Opening files and starting processes always succeeds.

## Where the code and its documentation differ

- `topsort.py:109` says that everything left over has a child. A leftover item may be a childless descendant
  of a cycle (`ChildlessLeftoverExample`), and the comment holds exactly when no childless item is downstream
  of a cycle (`LeftoverAllHaveChildrenIff`). What always holds is that every leftover item has a leftover
  *parent* (`LeftoverHasLeftoverParent`).
- A shell list is not read the way section 2.9.3 of the POSIX.1-2017 Shell Command Language reads it: a
  short-circuit ends the whole run, a cd is always carried out, a trailing or nameless cd is an error, and a
  pipe goes on behind a cd. `ShellLists` gives the standard's reading of the parsed nodes on its own terms. The
  two readings agree for all exit codes exactly when every cd has a name, something behind it and no pipe in
  front of it, and all `&&` and `||` from the first command on are of one kind, those behind cds included
  (`AgreesIffOneKind`, with `a && b || c` in `MixedExample`, `a || cd x && b` in `CdExample` and `cd x` in
  `LoneCdExample`).
- Printing a patch set and parsing it again gives the patch set back exactly when no deleted line starts with
  `-- ` and no added line with `++ ` (`RoundTripIffGood`, with `DeletedHeaderExample`).
- The whitespace rewrite can extend a line on the source side when a line of both sides stands at different
  positions of the two. It leaves the source side alone exactly when there is no such hazard, and aligned
  hunks have none (`Compared`, `AlignedHasNoHazard`, `HazardExample`).
- `int2bin` with width 0 checks and cuts nothing, because `[:-0]` is empty and `[-0:]` is everything (`ZeroWidth`).
- `Gather` makes a *copy* of its output unique and drops it, so the output keeps what `DoGather` records twice:
  an aggregation recorded twice, for example (`RepetitionExample`). With names that can be told apart, a record
  repeats exactly when some walk from the root comes to a type with two equal edges to a type it has not
  visited yet (`WellNamedNoRepetitionsIff`); such edges repeat a record whatever the names (`ParallelRepeats`).

## Model

| member | source | states |
|---|---|---|
| DependencyGraph.DeepIffPath | bindings/python/topsort.py:203-212 | the recursive notion of depth is the existence of a k-edge walk into a node |
| DependencyGraph.LoopInPath | bindings/python/topsort.py:367-369 | a walk that revisits a node contains an elementary cycle |
| DependencyGraph.FromCycleIffEndless | bindings/python/topsort.py:108-111 | nodes downstream of an elementary cycle are exactly those with walks of every length into them |
| Topsort.GraphOfEdges | bindings/python/topsort.py:79-90 | the child lists contain exactly the given pairs as edges |
| Topsort.ChildrenInPairOrder | bindings/python/topsort.py:84-90 | child lists follow the order of the pairs: those of two lists of pairs in a row are one behind the other |
| Topsort.BuildGraph | bindings/python/topsort.py:77-90 | keys are exactly the items of the pairs, child lists keep pair order and multiplicity, and each number is the item's number of in-edges |
| Topsort.Parentless | bindings/python/topsort.py:92-93 | lists each key with count 0 once, in any order |
| Topsort.KnockDown | bindings/python/topsort.py:97-106 | works off one child list without a missed lookup; afterwards exactly the parentless remaining items are queued, the new ones in the order of their last entries in that child list |
| Topsort.RankIsLevel | bindings/python/topsort.py:95-103 | an item queued when its last parent is worked off has exactly one level more than that parent |
| Topsort.FifoIsLevelOrdered | bindings/python/topsort.py:95-103 | the FIFO order never goes back to an earlier level, and nothing in it is downstream of a cycle |
| Topsort.FifoParentsFirst | bindings/python/topsort.py:95-103 | every parent of a listed item is listed before it |
| Topsort.DrainedQueue | bindings/python/topsort.py:95-111 | when the queue runs dry, the answer is exactly the items that no cycle leads to and the leftover exactly the others, with their remaining counts |
| Topsort.Topsort | bindings/python/topsort.py:61-112 | returns normally iff the multigraph has no directed cycle; the answer lists exactly the items that no cycle leads to, once each, parents first, in non-decreasing level, by the place of the last parent and then by the last place in its child list; on error the leftover keys, counts and child lists are those of the items downstream of a cycle |
| Topsort.ReleaseChildren | bindings/python/topsort.py:221-224 | decrementing along a removed item's child list restores "number = in-edges" for the rest |
| Topsort.RemoveLevel | bindings/python/topsort.py:214-224 | removes exactly the items of a level and keeps every count right |
| Topsort.ZeroCountIffLevel | bindings/python/topsort.py:204-205 | after k levels, an item has count 0 iff no walk of k+1 edges ends in it |
| Topsort.StuckMeansFromCycle | bindings/python/topsort.py:207-208 | when no item of the next level exists, the items left are exactly those downstream of a cycle |
| Topsort.LeftoverIffCycle | bindings/python/topsort.py:226-232 | something is left over iff the graph has a directed cycle |
| Topsort.TopsortLevelsCore | bindings/python/topsort.py:174-232 | for counts equal to the in-edges: the k-th list yielded is exactly the items whose longest incoming walk has k edges, no level is missing, and the end is an error with exactly the items downstream of a cycle iff there is one |
| Topsort.TopsortLevels | bindings/python/topsort.py:114-172 | the same for the graph of a list of pairs |
| SortTheorems.AnswerConcatenatesLevels | bindings/python/topsort.py:92-112 | the FIFO answer is a concatenation of permutations of exactly the levels that topsort_levels yields, on cyclic input too |
| SortTheorems.AnswerDetermined | bindings/python/topsort.py:95-103 | the order of the items without parents fixes the whole answer |
| SortTheorems.FirstExampleAnswer | bindings/python/topsort.py:66-67 | the documented example: the seven pairs give [1, 2, 3, 5, 4, 6] |
| SortTheorems.SameLeftover | bindings/python/topsort.py:226-229 | both sorts fail on the same inputs and leave the same counts and child lists, whatever the key order |
| SortTheorems.LeftoverHasLeftoverParent | bindings/python/topsort.py:108-111 | every leftover item has a leftover parent |
| SortTheorems.LeftoverAllHaveChildrenIff | bindings/python/topsort.py:108-111 | every leftover item has a child iff no childless item is downstream of a cycle |
| SortTheorems.ChildlessLeftoverExample | bindings/python/topsort.py:108-111 | on the pairs (a, b), (b, a), (b, c) the sort ends with c left over, which has no child |
| SortTheorems.RaisesIffCyclesFound | bindings/python/topsort.py:108-111 | topsort raises CycleError iff find_cycles yields something on the same edges |
| SortTheorems.LeftoverIsDownstreamOfFound | bindings/python/topsort.py:108-111 | the leftover items are exactly those that some yielded cycle leads to |
| SortTheorems.SameCycles | bindings/python/topsort.py:346-385 | which cycles are yielded up to rotation, and how many, does not depend on the dictionary order |
| Rotation.IsRotated | bindings/python/rad_util.py:735-775 | true iff the second list is the first with some prefix moved to its end |
| Rotation.RotatedSymmetric | bindings/python/rad_util.py:735-775 | being a rotation is symmetric, so the order of comparison does not matter |
| Rotation.RotatedTransitive | bindings/python/rad_util.py:735-775 | rotations of rotations are rotations |
| FindCycles.AddUnlessDuplicate | bindings/python/topsort.py:370-378 | appends a cycle unless a rotation of it is listed; the list stays free of rotations of each other |
| FindCycles.ExtendPath | bindings/python/topsort.py:357-385 | for one popped path: every cycle closed by a child has been listed, and exactly the extensions by new children are pushed and marked visited |
| FindCycles.PopWeight | bindings/python/topsort.py:352-353 | the weight of the stack, the number of pops still to come, strictly drops with every pop: the search terminates |
| FindCycles.ExploringStep | bindings/python/topsort.py:352-383 | stacked paths are simple, and every simple path from the root is popped or extends a stacked one |
| FindCycles.PoppedCovers | bindings/python/topsort.py:367-378 | once all simple paths are popped, every elementary cycle reachable from the root is listed up to rotation |
| FindCycles.CoveredDownstream | bindings/python/topsort.py:347-349 | skipping a visited root loses no cycle: what an explored root leads to is covered by it |
| FindCycles.ExploreRoot | bindings/python/topsort.py:351-385 | after a root's loop its cycles are all found, and exactly the other nodes reachable from it have been added to the visited ones |
| FindCycles.FindAll | bindings/python/topsort.py:235-385 | every list yielded is an elementary cycle, no two are rotations of each other, and every elementary cycle of the graph is yielded up to rotation |
| ConfigPaths.StaticInformation.GetCurrentPath | utils/print-introspected-doxygen.cc:328-338 | the labels of the stack, each behind a slash |
| ConfigPaths.StaticInformation.HasAlreadyBeenProcessed | utils/print-introspected-doxygen.cc:349-361 | true iff the type is on the stack |
| ConfigPaths.StaticInformation.RecordOutput | utils/print-introspected-doxygen.cc:341-346 | appends the type with the current path |
| ConfigPaths.StaticInformation.DoGather | utils/print-introspected-doxygen.cc:420-503 | terminates, restores both stacks, and appends one record per simple walk from the type, in the order of the walks |
| ConfigPaths.StaticInformation.Gather | utils/print-introspected-doxygen.cc:411-417 | the same; the copy made unique has no effect |
| ConfigPaths.WalksExact | utils/print-introspected-doxygen.cc:423-427 | the walks enumerated are exactly those that enter no type twice and none that is already processed |
| ConfigPaths.WalksInPreorder | utils/print-introspected-doxygen.cc:428-502 | they come in preorder: a walk before its extensions, earlier edges before later ones |
| ConfigPaths.UnprocessedShrinks | utils/print-introspected-doxygen.cc:449-453 | every recursive call has fewer types left to enter, also in cyclic type graphs |
| ConfigPaths.GatheredFromScratch | utils/print-introspected-doxygen.cc:411-503 | from empty stacks: every simple labelled walk from the root, counted by edge occurrences, is recorded exactly once with its target and its slash-joined labels |
| ConfigRecords.EdgesExactly | utils/print-introspected-doxygen.cc:428-502 | the edges that the gathering follows out of a type are exactly those that its pointer and container attributes, its registered children and its aggregations give, once for each, in that order |
| ConfigRecords.ChildExample | utils/print-introspected-doxygen.cc:470-483 | with B a child of A, gathering from A records A and "/$B", gathering from B records B alone |
| ConfigRecords.JoinPathText | utils/print-introspected-doxygen.cc:328-338 | the path of two label lists in a row is one path behind the other, and each label stands behind a slash |
| ConfigRecords.JoinPathInjective | utils/print-introspected-doxygen.cc:328-338 | a path joined from names, or names with an item index, can be taken apart in one way only |
| ConfigRecords.ParallelRepeats | utils/print-introspected-doxygen.cc:411-417 | two equal edges that a walk from the root can take are recorded twice, whatever the names |
| ConfigRecords.SameLabelsPart | utils/print-introspected-doxygen.cc:420-503 | two simple walks with the same labels part at two equal edges |
| ConfigRecords.NoRepetitionsIff | utils/print-introspected-doxygen.cc:411-417 | with labels that split and resolve uniquely, the output has no repetitions iff no walk comes to two equal edges to an unvisited type |
| ConfigRecords.DistinctEdgesNoRepetitions | utils/print-introspected-doxygen.cc:411-417 | with such labels, a registry whose types have no two equal edges gathers nothing twice, whatever the root |
| ConfigRecords.WellNamedLabels | utils/print-introspected-doxygen.cc:455-492 | names without slashes, different within a type and among types, give labels that split and resolve uniquely |
| ConfigRecords.WellNamedNoRepetitionsIff | utils/print-introspected-doxygen.cc:411-417 | the same for registries with such names |
| ConfigRecords.RepetitionExample | utils/print-introspected-doxygen.cc:484-501 | an aggregation recorded twice is gathered twice |
| WorkerPool.StartInv | test.py:1428-1431 | the invariant holds when the workers have been started |
| WorkerPool.NextFound | test.py:984-1052 | no step of any thread loses or duplicates a job: each is undispatched, queued, in a worker's hands, returned or collected |
| WorkerPool.NextHeld | test.py:991-1018 | break jobs stay behind all real jobs in the input queue, results are marked as break only after an interrupt |
| WorkerPool.NextBreaks | test.py:1701-1704 | break jobs queued, taken and still to be put add up to the number of workers, and none is taken while a real job is queued |
| WorkerPool.NextInv | test.py:984-1052 | every step of every thread keeps the whole invariant |
| WorkerPool.CollectingNotStuck | test.py:1723-1726 | while a result is missing, the collector's get or some worker can go on |
| WorkerPool.JoiningNotStuck | test.py:1862-1863 | a join always returns or the worker it waits for can go on |
| WorkerPool.NotStuck | test.py:1697-1863 | with at least one worker, no state short of completion is stuck, with or without an interrupt |
| WorkerPool.StepsLeftDrops | test.py:984-1052 | a bound on the remaining steps drops with every step |
| WorkerPool.RunsAreBounded | test.py:1428-1863 | no run has more than 7 steps a job plus 8 steps a worker plus 4 |
| WorkerPool.Completed | test.py:1862-1863 | at the end all workers have exited, both queues are empty and every dispatched job has been collected exactly once |
| WorkerPool.TallySums | test.py:1716-1757 | the counters and the interrupted jobs add up to the results; passed plus skipped is all of them iff every result succeeded |
| WorkerPool.TallyExact | test.py:1733-1757 | passed, failed, valgrind, crashed and skipped count exactly the results with return code 0, 1, 2, any other, and the skipped ones |
| WorkerPool.NothingStartsAfterInterrupt | test.py:994-1001 | once the interrupt flag is set, no job starts running; only those already running are still run |
| WorkerPool.InterruptHandsBack | test.py:994-1001 | from an interrupt on, jobs that no worker is running come back marked as interrupted, skipped ones included |
| WorkerPool.EveryRun | test.py:1946-1949 | in every interleaving: jobs are conserved, a run that can only be interrupted has finished, and the exit code is 0 iff every job came back uninterrupted and was skipped or returned 0 |
| WorkerPool.NextReal | test.py:1010-1052 | results of real runs arise only from finishing a run, with the return code of that run, and no step loses or changes one |
| WorkerPool.FinishesCollected | test.py:1010-1052 | at the end, for every property of job and return code, as many results have been collected as runs with that job and code have finished |
| WorkerPool.CountersFromFinishes | test.py:1733-1757 | passed, failed, valgrind and crashed are the numbers of runs that returned 0, 1, 2 and anything else; the exit code is 0 iff every run returned 0 and no job came back interrupted |
| WorkerPool.UninterruptedRun | test.py:1946-1949 | without an interrupt, every job that is not skipped has been run once for each time it was dispatched, skipped ones never, and the exit code is 0 iff all these runs returned 0 |
| WorkerPool.RunCompletes | test.py:1697-1863 | every reachable state leads to completion without a further interrupt |
| ShellParser.Pipeline.CommitCommand | waf-tools/shellcmd.py:101-104 | moves the current command to the pipeline, or fails without one |
| ShellParser.Pipeline.Parse | waf-tools/shellcmd.py:121-201 | the token loop computes the machine's result, failed assertions included |
| ShellGrammar.FeedOk | waf-tools/shellcmd.py:136-199 | every accepted token keeps the parser's invariant |
| ShellGrammar.ParsedIsWellFormed | waf-tools/shellcmd.py:121-201 | whatever is accepted has the well-formed shape |
| ShellGrammar.ParsedIffWellFormed | waf-tools/shellcmd.py:121-201 | the parser's results are exactly the well-formed pipelines |
| ShellGrammar.ParsedNeighbours | waf-tools/shellcmd.py:164-187 | nodes and operators alternate, stdout is the PIPE constant iff a pipe follows, a directory change is followed only by && or the end |
| ShellGrammar.ParseAfterPrint | waf-tools/shellcmd.py:121-201 | printing a well-formed pipeline canonically and parsing the tokens gives it back |
| ShellGrammar.ReparseAfterPrint | waf-tools/shellcmd.py:121-201 | for every accepted token list, printing the result and reparsing gives the same pipeline |
| ShellGrammar.ParsedIffAccepted | waf-tools/shellcmd.py:121-201 | a token list is rejected exactly if it is outside a grammar: assignments in front of a command only, at most one name behind cd, every stream redirected once and not into a pipe as well, a command at the end |
| ShellGrammar.LastAssignmentWins | waf-tools/shellcmd.py:137-142 | of several assignments to one name the last one counts |
| ShellGrammar.CommandEnvironment | waf-tools/shellcmd.py:137-155 | the command behind the assignments gets those values |
| ShellGrammar.RepeatedAssignmentExample | waf-tools/shellcmd.py:137-155 | `A=1 A=2 cmd` runs cmd with A=2 |
| ShellGrammar.MainExample | waf-tools/shellcmd.py:350-353 | what the tokens of the source's own example parse to |
| ShellRunner.ExecPipedCommands | waf-tools/shellcmd.py:203-212 | waits for every process in order and reports the status of the last |
| ShellRunner.OpenOutFile | waf-tools/shellcmd.py:46-50 | opens a named output other than the null device and notes it for closing |
| ShellRunner.Launch | waf-tools/shellcmd.py:242-291 | opens a command's files and starts it; a piped command reads from its predecessor whatever its own redirection says |
| ShellRunner.CloseFiles | waf-tools/shellcmd.py:301-304 | closes every noted file but the null device, in order |
| ShellRunner.Run | waf-tools/shellcmd.py:214-346 | for every parsed pipeline and all exit codes: result and trace are those of the right-nested reading with every cd applied to what follows; a trailing or nameless cd fails when it is reached |
| ShellTheorems.CommandsLocated | waf-tools/shellcmd.py:225-231 | the commands run are those of the pipeline in order, each in the directory accumulated from all cds in front of it; only a nameless cd cuts them short |
| ShellTheorems.JoinedDirectories | waf-tools/shellcmd.py:228-228 | what joined directories look like, absolute ones included |
| ShellTheorems.PipelinePiped | waf-tools/shellcmd.py:164-187 | a command reads from a pipe exactly if the command in front of it writes into one |
| ShellTheorems.RunIsWired | waf-tools/shellcmd.py:239-291 | process k of every run is the k-th command with its arguments, environment and directory; its streams are its predecessor, a new pipe, standard output, the null device, or a file opened under its name and in its mode for it alone; and no other file is opened |
| ShellTheorems.PipesConnected | waf-tools/shellcmd.py:239-255 | a process reads from its predecessor exactly if that one writes into a new pipe |
| ShellLists.CompilePipeline | waf-tools/shellcmd.py:298-346 | the runner takes the nodes up to the first list operator as one group; a cd at their end does not end the group |
| ShellLists.Agrees | waf-tools/shellcmd.py:214-346 | with plain cds and one kind of operator, the runner goes through a list as a shell does, from every state, trace and all |
| ShellLists.MixedDiffers | waf-tools/shellcmd.py:312-346 | with plain cds and two kinds of operator, a first pipeline that short-circuits its operator ends the run, where a shell goes on |
| ShellLists.PipedCdDiffers | waf-tools/shellcmd.py:225-231 | behind a piped cd the runner goes on with the pipe (or fails), where every shell waits for the pipe first |
| ShellLists.CdDiffers | waf-tools/shellcmd.py:225-231 | a nameless, trailing or piped cd tells the readings apart under exit codes that go through the whole list |
| ShellLists.AgreesIffOneKind | waf-tools/shellcmd.py:214-346 | the runner reads a parsed command line as the left-associative lists of the standard, for all exit codes, iff every cd is named, followed by something and not behind a pipe, and all list operators from the first command on are of one kind |
| ShellLists.SingleOperatorAgrees | waf-tools/shellcmd.py:214-346 | a command line with plain cds and only one of the two list operators is read as the shell reads it |
| ShellLists.MixedExample | waf-tools/shellcmd.py:330-341 | a parsed mixed list with a failing first command: the runner returns 1, the shell goes on to the last group |
| ShellLists.CdExample | waf-tools/shellcmd.py:312-323 | a command, an or-operator, `cd x && b`, with a successful first command: the runner stops behind it, the shell runs b where it is |
| ShellLists.LoneCdExample | waf-tools/shellcmd.py:225-227 | `cd x` alone: the runner fails, a shell returns 0 |
| ShellTheorems.ObserveGroup | waf-tools/shellcmd.py:203-206 | one group in order: all its processes start before any wait, every process is waited for, every file opened is closed once after the waits |
| ShellTheorems.RunsInOrder | waf-tools/shellcmd.py:222-346 | in every run, no process outside a pipe starts while another is not waited for; a run that returns has waited for every process and closed every opened file, each exactly once, and returns the status of the last process it started |
| PatchFormat.ParsePatchset | utils/check-style.py:370-414 | the line loop computes the reader's result, with the current chunk left in an older patch where the code leaves it there |
| PatchRoundTrip.HeaderRoundTrip | utils/check-style.py:297-304 | a printed hunk header reads back as both positions and as the numbers of source and destination lines |
| PatchRoundTrip.HeaderReads | utils/check-style.py:373-373 | a hunk header reads as its four numbers, whatever stands behind the second @@ |
| PatchRoundTrip.UnknownIff | utils/check-style.py:371-413 | a line is not understood iff it is neither a hunk header nor a single line that starts with -, + or a space |
| PatchRoundTrip.ParseFailsIff | utils/check-style.py:379-414 | parsing fails iff a line is not understood, or a destination name or hunk header comes before any source name, or content before any hunk header |
| PatchRoundTrip.ReadExample | utils/check-style.py:370-414 | what one small patch with text behind its hunk header reads as |
| PatchRoundTrip.StaleChunkExample | utils/check-style.py:380-395 | content behind a new source name still goes to the last hunk of the patch before |
| PatchRoundTrip.LineMeaning | utils/check-style.py:215-228 | a printed line reads back as itself unless it looks like a file header, and then as a file header |
| PatchRoundTrip.ReadCounts | utils/check-style.py:379-414 | parsing adds one line per content line of the input, and no other |
| PatchRoundTrip.RoundTripIffGood | utils/check-style.py:359-414 | parsing undoes printing iff no deleted line starts with "-- " and no added line with "++ " |
| PatchRoundTrip.DeletedHeaderExample | utils/check-style.py:380-385 | the deleted line "-- x" is lost |
| TrailingWhitespace.PatchChunkLine.AppendToLine | utils/check-style.py:190-196 | extends the line object in place |
| TrailingWhitespace.ExtendedBy | utils/check-style.py:417-429 | a destination line is extended by a character iff that is a space or a tab and the source line is the destination line with it |
| TrailingWhitespace.ExtendedExamples | utils/check-style.py:417-429 | spaces and tabs alike, but only the last of several |
| TrailingWhitespace.RestoreLine | utils/check-style.py:425-429 | extends the destination line by the source line's trailing blank iff they differ in nothing else |
| TrailingWhitespace.RestoreHunk | utils/check-style.py:421-431 | every line gains at most one blank and only compared destination lines do; without a hazard exactly the source's blanks come back; the source side keeps its text iff there is no hazard |
| TrailingWhitespace.AlignedHasNoHazard | utils/check-style.py:265-284 | hunks whose shared lines are at the same index of both sides have no hazard |
| TrailingWhitespace.HazardExample | utils/check-style.py:423-429 | a hunk in which a kept line is extended on its source side, too |
| TrailingWhitespace.RestoreHunks | utils/check-style.py:419-431 | all hunks up to the first with fewer destination than source lines are compared, those behind it are left alone |
| TrailingWhitespace.ComparedIsRewritten | utils/check-style.py:421-431 | a compared hunk as values: kinds and deleted lines stay, lines gain at most a blank; if aligned, the source side stays and every destination line becomes what its own source line makes of it |
| TrailingWhitespace.RemoveTrailingWhitespaceChanges | utils/check-style.py:416-432 | for every input: the parsed patch set comes back with the hunks that the pass makes of its hunks, up to and including the first with too few destination lines |
| TrailingWhitespace.PassKeepsSource | utils/check-style.py:297-306 | after the whole pass every hunk prints the same positions and counts, and every aligned hunk has its old source side |
| BitStrings.Int2BinExact | bindings/python/rad_util.py:74-105 | for a positive width n, exactly the values below 2^n are accepted, and the result is the n-digit string of that value |
| BitStrings.BinRoundTrip | bindings/python/rad_util.py:74-130 | int2bin undoes bin2int on every non-empty binary string |
| BitStrings.ZeroWidth | bindings/python/rad_util.py:100-104 | width 0 never rejects and returns the full value |
| BitStrings.Increment | bindings/python/rad_util.py:649-659 | the ripple-carry loop adds one, with the carry out of the top |
| BitStrings.BinaryRange | bindings/python/rad_util.py:632-660 | exactly 2^bits strings, the k-th being int2bin(k, bits); none for width 0 |
| BitStrings.GrayBits | bindings/python/rad_util.py:612-615 | digit k of a code tells whether digits k and k + 1 of the number differ |
| BitStrings.GrayAdjacent | bindings/python/rad_util.py:612-615 | the codes of k and k+1 differ in exactly one bit |
| BitStrings.DecodeEncode | bindings/python/rad_util.py:612-615 | the code can be decoded |
| BitStrings.EncodeDecode | bindings/python/rad_util.py:612-615 | every number is the code of its decoding |
| BitStrings.GrayCodeCycle | bindings/python/rad_util.py:612-615 | encoding is a bijection on [0, 2^n), and cyclically adjacent codes differ in exactly one bit |
| BitStrings.GrayAlongRange | bindings/python/rad_util.py:612-660 | the codes along binary_range's list are different, in range and one bit apart |
| Permutations.ListPermutations | bindings/python/rad_util.py:293-326 | the nested insertion loops compute the listing |
| Permutations.ListingCount | bindings/python/rad_util.py:293-326 | n! lists come back |
| Permutations.Rearrangements | bindings/python/rad_util.py:314-322 | each has the input's multiset of elements |
| Permutations.ListingComplete | bindings/python/rad_util.py:314-322 | every rearrangement of the input is listed |
| Permutations.ListedOnceIffDistinct | bindings/python/rad_util.py:314-322 | every permutation occurs exactly once iff no element repeats |
| BulkSender.Sender.constructor | examples/tcp/tcp-large-transfer.cc:81-86 | the buffer holds the first bytes of the alphabet stream |
| BulkSender.AlphabetStream | examples/tcp/tcp-large-transfer.cc:82-86 | the stream is the alphabet over and over |
| BulkSender.WindowOfStream | examples/tcp/tcp-large-transfer.cc:202-207 | the buffer window at the current offset continues the stream, because the buffer length is a multiple of 26 |
| BulkSender.Sender.WriteUntilBufferFull | examples/tcp/tcp-large-transfer.cc:198-219 | over any sequence of calls the accepted bytes are exactly the first currentTxBytes of the stream; every request offers what fits into the socket, the buffer and the total; a call ends only at the total, in front of a full socket or behind a refusal; and the socket is closed in exactly the calls that end at the total |
| Fairness.Accumulate | examples/tcp/dctcp-example.cc:185-189 | the 64-bit accumulators hold the sum and the sum of squares modulo 2^64 |
| Fairness.NoWrap | examples/tcp/dctcp-example.cc:185-191 | counters of at most (2^32-1)/n each make no operation wrap around |
| Fairness.JainRatio | examples/tcp/dctcp-example.cc:185-191 | for such counters numerator and denominator are the exact sum^2 and n * sumSquares |
| Fairness.JainUpperBound | examples/tcp/dctcp-example.cc:177-191 | sum^2 <= n * sumSquares, with equality iff all counters are equal |
| Fairness.JainLowerBound | examples/tcp/dctcp-example.cc:177-191 | sumSquares <= sum^2 |

## Left out

- All other programs under `examples/`: topology set-up over ns-3 classes that are not part of this model.
- `utils/grid.py`, `utils/bench-simulator.cc`, `utils/bench-packets.cc` and the C++ and pybindgen glue: user interface and calls into libraries that are not part of this model.
- `topsort.py`: interleaving a generator with its consumer, and consumers that change yielded lists.
- `print-introspected-doxygen.cc`: `RecordAggregationInfo`, `Get`, `GetNoTypeIds`, the template `Uniquefy` and all doxygen printing. The type registry is an arbitrary finite table; TypeId is a number.
- ConfigRecords.NoRepetitionsIff: for registries whose joined paths do not split uniquely only one half is stated (`ParallelRepeats`); what else repeats there depends on how the names happen to run together.
- `test.py`: launching processes, configuration, `eval` of conditions, reports and colours. Queue operations are single steps; the fields of a job that take no part in the protocol are not modelled.
- `shellcmd.py`: `shlex`, real processes and file descriptors, verbose printing and `get_abbreviated_command`. Failing `open` and `Popen` calls are not modelled (so every cd leads to a directory that exists), nor are files left open when a cd fails behind a pipe.
- ShellParser.Pipeline.Parse: starts from a list of tokens; a command given as one string is split by `shlex`, which is not part of this model.
- `check-style.py`: running uncrustify, `patch`, git, temporary files and the diff text of `difflib`.
- PatchFormat.ParsePatchset: works on values; the current patch is the last one and the current chunk is named by its patch's index, so object identity of patches and chunks is not captured. Line objects and their sharing between the two sides are modelled in `TrailingWhitespace`, on hunks given as lists of line objects.
- `rad_util.py`: the floating-point, random and introspection functions; `gray_encode` and `int2bin` of negative numbers; `bin2int` of strings that are not binary digits.
- BulkSender.Sender.WriteUntilBufferFull: a socket that accepts 0 bytes of one request for ever is not modelled (the loop would ask again for ever); it may do so any finite number of times.
- `dctcp-example.cc`: floating-point averages and formatting; the ratio is kept as numerator and denominator.
