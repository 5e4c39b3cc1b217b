# Verified models of gem5's Python utilities

gem5 ships a set of Python scripts around the simulator, most of them small state machines over
files: they upgrade checkpoints, merge them, print pipeline traces, convert dependency traces
between text and a framed binary stream, keep the tail of a log, and read copyright notices. This
project models the ones with real state or arithmetic, and proves what holds of every input and
every run. `dafny verify dfyconfig.toml` checks all of it.

| module | script | main results |
|---|---|---|
| `MigrationGraph`, `UpgraderFiles`, `CptUpgrader` | `util/cpt_upgrader.py` | round of every migration; success if and only if the graph is schedulable; final tags; legacy order; the load refines the graph described by the files |
| `StableSort`, `BatchQueue`, `PipeView`, `TraceRange` | `util/o3-pipeview.py` | output is the stable sort under bounded disorder, and the bound is exact; skipping and stopping early lose nothing |
| `Timeline` | `util/o3-pipeview.py` | each stage drawn exactly once at its column; exact row lengths; when printing fails |
| `Varint`, `Framing` | `util/protolib.py` | round trip if and only if below 2^32; reading streams, whole and cut anywhere |
| `Text`, `DepRecord`, `DepTrace` | `util/encode_inst_dep_trace.py`, `util/decode_inst_dep_trace.py` | text to binary to text is the identity if and only if every line is canonical |
| `SectionNames`, `MemoryImage`, `Aggregator` | `util/checkpoint_aggregator.py` | merged names never clash; every mapped byte is found at its moved address |
| `CopyrightYears`, `CommentBlocks` | `util/find_copyrights.py` | years round trip, with the exact condition; the scanner's result is the only scan of the file; when its assertion fails |
| `LogRoll` | `util/logroll.py` | the circular buffer always holds the last lines |

`Wrappers` holds the optional value the modules share.

## How the code is modelled

Objects that the scripts update in place are classes (the upgrader registry, the viewer with its
queue, files, the line buffer); loops are methods with invariants, each proved equal to a function
or against a relation about which the properties are then proved. Sets whose iteration order
Python leaves open are iterated in an arbitrary order, so every result about them holds for all
orders. Errors (`sys.exit`, a raised exception) are results. Bit operations of the variable-length
integers are written as the arithmetic they perform, including the sign extension above 63 bits.

Places where the code and its own documentation disagree; the model follows the code:

- `util/cpt_upgrader.py` says (lines 56-60) that a tag depending on a tag with a downgrader waits
  until that tag has been removed. The code waits until the tag is *present*. `DowngraderRuleFails`
  shows a graph on which the rule fails; `DowngradersFirstIff` gives the exact condition for it.
- `util/protolib.py` speaks of a 32-bit length; its decoder accepts up to ten bytes and keeps 32
  bits. `DecodeEncode` gives the value read for every value written.
- An empty message, which the encoder writes, is the end of the stream for the decoder
  (`ReadEmptyFrame`, `ReadAllFrames`).
- `util/find_copyrights.py` writes ranges of years of any length and reads only four-digit ones;
  `YearsRoundTripIff` gives the exact sets that survive.
- Two upgraders each claim the legacy versions 15 and 16; the one loaded last wins, as in
  `LegacyTags`.
- `util/find_copyrights.py` asserts that no line has both kinds of comment marks. Files can have
  one: `EndIff` says exactly when the assertion fails, `AssertionCanFail` gives a file.

Where a script states an assumption without an argument, the model proves it exact:
`SortingGuaranteeIff` shows that the pipeline viewer's bound on disorder is sufficient and necessary.

## Model

| member | source | states |
|---|---|---|
| `MigrationGraph.StateInvariant` | gem5-ml-sim/util/cpt_upgrader.py:257-269 | before every round, what is still to apply is part of the first work set, and the tags are those of the start with everything applied so far added or removed |
| `MigrationGraph.HeldIff` | gem5-ml-sim/util/cpt_upgrader.py:144-158 | which tags a round finds: an upgrader's tag iff present from the start or applied, a downgrader's tag iff present from the start and not yet applied, any other tag iff present from the start |
| `MigrationGraph.RoundIsLongestChain` | gem5-ml-sim/util/cpt_upgrader.py:258-269 | on any dependency graph, a migration runs in exactly the round given by the length of its longest chain of missing upgrades |
| `MigrationGraph.JustApplied` | gem5-ml-sim/util/cpt_upgrader.py:258-269 | what becomes ready in a round waited for an upgrade applied in the round before |
| `MigrationGraph.AppliedByRound` | gem5-ml-sim/util/cpt_upgrader.py:258-269 | on a schedulable graph, the migrations left before round k are exactly those with a chain of k missing upgrades |
| `MigrationGraph.SchedulableSucceeds` | gem5-ml-sim/util/cpt_upgrader.py:258-269 | on a schedulable graph the loop empties its work set within as many rounds as there are migrations to apply |
| `MigrationGraph.SucceedsIffSchedulable` | gem5-ml-sim/util/cpt_upgrader.py:258-269 | the loop applies everything if and only if: no cycle of missing upgrades, no dependency that is neither present nor provided by an upgrader, and no dependency on a downgrader's tag that goes away before the dependent is ready |
| `MigrationGraph.PathHasCycle` | gem5-ml-sim/util/cpt_upgrader.py:258-263 | a dependency path longer than the set it stays in closes a cycle inside that set |
| `MigrationGraph.StuckDecides` | gem5-ml-sim/util/cpt_upgrader.py:259-263 | a round that finds nothing ready settles the run: it succeeds if and only if nothing is left |
| `MigrationGraph.StopsWithin` | gem5-ml-sim/util/cpt_upgrader.py:258-269 | the loop reaches a round with nothing ready within as many rounds as there is work left |
| `MigrationGraph.StuckRemainderHasCycle` | gem5-ml-sim/util/cpt_upgrader.py:260-263 | when no dependency names a downgrader's tag, what an aborted run leaves contains a dependency cycle |
| `MigrationGraph.AbortsIffCycle` | gem5-ml-sim/util/cpt_upgrader.py:258-269 | when no dependency names a downgrader's tag, the loop aborts if and only if the missing upgrades contain a cycle |
| `MigrationGraph.AppliedExactlyOnce` | gem5-ml-sim/util/cpt_upgrader.py:257-269 | in a successful run each migration of the work set, and no other, is applied, in one round only |
| `MigrationGraph.FinalTags` | gem5-ml-sim/util/cpt_upgrader.py:247-275 | a successful run leaves the tags of the start plus all upgraders' minus all downgraders' tags; unrecognised tags survive, and a second run has nothing to apply |
| `MigrationGraph.DependenciesHeldAtUpdate` | gem5-ml-sim/util/cpt_upgrader.py:265-266 | a migration finds all its dependencies present in every order inside its round if and only if it depends on no other migration of the round that is a downgrader; in particular always when no dependency names a downgrader's tag |
| `MigrationGraph.RunsAfterDependency` | gem5-ml-sim/util/cpt_upgrader.py:258-269 | a migration runs in a later round than every missing upgrade it depends on |
| `MigrationGraph.DowngradersFirstIff` | gem5-ml-sim/util/cpt_upgrader.py:56-60 | the documented rule that a downgrader runs before the tags depending on it holds in a successful run if and only if nothing that is applied depends on a downgrader's tag |
| `MigrationGraph.RemovedDowngraderBlocks` | gem5-ml-sim/util/cpt_upgrader.py:56-60 | a migration that depends on a downgrader's tag which is already gone blocks the run for good |
| `MigrationGraph.DowngraderRuleFails` | gem5-ml-sim/util/cpt_upgrader.py:56-60 | a two-migration graph on which the documented downgrader rule fails, both ways |
| `UpgraderFiles.RechainedIsChained` | gem5-ml-sim/util/cpt_upgrader.py:171-175 | after the chain loop, every legacy version from 3 on depends on its predecessor alone and all other dependency lists are untouched |
| `UpgraderFiles.LinkOneMore` | gem5-ml-sim/util/cpt_upgrader.py:178-186 | turning round the forward dependencies of one more file extends the dependency lists by exactly those |
| `UpgraderFiles.AuditOneMore` | gem5-ml-sim/util/cpt_upgrader.py:187-192 | auditing a list after forward dependencies were added to it finds an unknown name if and only if the files contain one |
| `UpgraderFiles.Registered` | gem5-ml-sim/util/cpt_upgrader.py:142 | each loaded file is found under its tag |
| `UpgraderFiles.LegacyFrom` | gem5-ml-sim/util/cpt_upgrader.py:139-140 | the tag registered for a legacy version comes from a file that claims it |
| `UpgraderFiles.LastClaimWins` | gem5-ml-sim/util/cpt_upgrader.py:139-140 | a version is registered iff some file claims it, and belongs to the last file that does |
| `UpgraderFiles.BaseDependencyIs` | gem5-ml-sim/util/cpt_upgrader.py:171-175 | a version of the unbroken chain from 3 on depends on its predecessor instead of what its file lists; any other file on what it lists |
| `UpgraderFiles.DependsExactly` | gem5-ml-sim/util/cpt_upgrader.py:165-192 | the dependencies of a loaded file: those, and every file that names it as a forward dependency |
| `UpgraderFiles.LegacyStartIs` | gem5-ml-sim/util/cpt_upgrader.py:226-228 | the tags of a legacy version are those of the versions from 2 up to it |
| `UpgraderFiles.LegacyInjective` | gem5-ml-sim/util/cpt_upgrader.py:139-142 | no two legacy versions have the same tag, and all of them are loaded |
| `UpgraderFiles.LoadedGraphAudited` | gem5-ml-sim/util/cpt_upgrader.py:177-192 | after a normal load every dependency, forward ones included, names a loaded migration |
| `UpgraderFiles.ChainedNames` | gem5-ml-sim/util/cpt_upgrader.py:171-192 | the names to be resolved after chaining are those the files give, except where the chain replaced a list |
| `UpgraderFiles.LinkingDescribes` | gem5-ml-sim/util/cpt_upgrader.py:171-186 | chaining and linking together give exactly the dependencies the files describe |
| `UpgraderFiles.LoadedChainInGraph` | gem5-ml-sim/util/cpt_upgrader.py:171-175 | in a loaded graph each legacy version depends on its predecessor, an upgrade, if and only if the versions of the chain, but for the last, are upgraders' |
| `UpgraderFiles.ChainReaches` | gem5-ml-sim/util/cpt_upgrader.py:171-175 | a chain of missing upgrades at one legacy version extends to every later version by the distance between them |
| `UpgraderFiles.LegacyAscending` | gem5-ml-sim/util/cpt_upgrader.py:221-232 | from any legacy version the missing members of the legacy chain are applied in ascending order, at least as many rounds apart as their versions |
| `CptUpgrader.StuckOutcome` | gem5-ml-sim/util/cpt_upgrader.py:260-263 | aborting in a round with nothing ready is the right outcome: no run could have succeeded |
| `CptUpgrader.DoneOutcome` | gem5-ml-sim/util/cpt_upgrader.py:271-279 | the file is written if and only if it was converted or something was applied, with the final tags |
| `CptUpgrader.Registry.constructor` | gem5-ml-sim/util/cpt_upgrader.py:90-94 | the tables start empty |
| `CptUpgrader.Registry.LoadFiles` | gem5-ml-sim/util/cpt_upgrader.py:96-169 | loading fails iff a file has neither function; otherwise the four tables hold exactly what the files say |
| `CptUpgrader.Registry.LoadedValid` | gem5-ml-sim/util/cpt_upgrader.py:90-142 | tables filled from files are consistent with each other |
| `CptUpgrader.Registry.ChainLegacy` | gem5-ml-sim/util/cpt_upgrader.py:171-175 | fails iff version 3 is claimed and version 2 is not; otherwise rewrites exactly the chained dependency lists |
| `CptUpgrader.Registry.AddForward` | gem5-ml-sim/util/cpt_upgrader.py:179-186 | fails iff a forward dependency of the file is unknown; otherwise adds exactly its reversed dependencies |
| `CptUpgrader.Registry.Audit` | gem5-ml-sim/util/cpt_upgrader.py:187-192 | succeeds iff every dependency of the file is known |
| `CptUpgrader.Registry.LinkForward` | gem5-ml-sim/util/cpt_upgrader.py:177-192 | fails iff some file names an unknown tag, whatever the order of the files; otherwise adds exactly the reversed dependencies of all files |
| `CptUpgrader.Registry.LoadAll` | gem5-ml-sim/util/cpt_upgrader.py:165-192 | succeeds iff the files are loadable, and then the graph is the one the files describe and is audited |
| `CptUpgrader.Registry.IsReady` | gem5-ml-sim/util/cpt_upgrader.py:144-148 | true iff all dependencies are among the tags |
| `CptUpgrader.Registry.Update` | gem5-ml-sim/util/cpt_upgrader.py:150-158 | an upgrader adds its tag, a downgrader removes it, and nothing else changes |
| `CptUpgrader.Registry.ReadyTags` | gem5-ml-sim/util/cpt_upgrader.py:259 | exactly the ready migrations of the work set |
| `CptUpgrader.Registry.ApplyRound` | gem5-ml-sim/util/cpt_upgrader.py:265-267 | applies each ready migration once, in some order; the resulting tags do not depend on the order, and no downgrader misses its tag |
| `CptUpgrader.Registry.RunRound` | gem5-ml-sim/util/cpt_upgrader.py:258-269 | one pass of the loop is one step of the schedule |
| `CptUpgrader.Registry.Migrate` | gem5-ml-sim/util/cpt_upgrader.py:255-279 | terminates, and aborts, does nothing or writes exactly when the schedule says so, with the final tags and the migrations of each round |
| `CptUpgrader.AppliesPending` | gem5-ml-sim/util/cpt_upgrader.py:257-269 | a complete run lists exactly the migrations that were pending |
| `CptUpgrader.RunsWithoutRepeats` | gem5-ml-sim/util/cpt_upgrader.py:258-269 | no migration is listed twice, in one round or in two |
| `CptUpgrader.OutcomeMeans` | gem5-ml-sim/util/cpt_upgrader.py:255-279 | from given start tags: aborted iff not schedulable, nothing to do iff unconverted with all upgrades and no downgradable tag present, written only with a section for it; then exactly the missing upgrades and the present downgradable tags were applied, once each, and the tags recorded are given one by one |
| `CptUpgrader.Registry.MigrateAndRecord` | gem5-ml-sim/util/cpt_upgrader.py:255-279 | a written file has applied a tag present at the start iff it has a downgrader, and any other iff it has an upgrader |
| `CptUpgrader.Registry.ProcessLegacy` | gem5-ml-sim/util/cpt_upgrader.py:221-232 | a legacy version n stands for the tags of versions 2 to n: an unknown one among them is an error, none of them is applied again unless it has a downgrader, and every other upgrader is applied exactly once |
| `CptUpgrader.Registry.ProcessFile` | gem5-ml-sim/util/cpt_upgrader.py:220-279 | a legacy version counts first, then the tags of the old section, then those of the new one; with none there is an error; and the outcome from those tags, as for a legacy version |
| `StableSort.SortIsStable` | gem5-ml-sim/util/o3-pipeview.py:241-242 | the sort is ordered by key, a permutation, and keeps the order of equal keys |
| `StableSort.StableSortUnique` | gem5-ml-sim/util/o3-pipeview.py:241-242 | two ordered lists with the same entries in the same order for every key are equal: the stable sort is the only one |
| `StableSort.FilterOfSort` | gem5-ml-sim/util/o3-pipeview.py:241-277 | selecting from a sorted list is sorting what is selected |
| `BatchQueue.FlushConserves` | gem5-ml-sim/util/o3-pipeview.py:231-277 | sorting and taking off the smallest loses and invents nothing |
| `BatchQueue.FeedConserves` | gem5-ml-sim/util/o3-pipeview.py:212-227 | at every moment the entries out and in the queue are the arrivals, as multisets, whatever thresholds and order |
| `BatchQueue.DrainedConserves` | gem5-ml-sim/util/o3-pipeview.py:195-206 | once the queue has been emptied, everything that arrived is out exactly once |
| `BatchQueue.Reserve` | gem5-ml-sim/util/o3-pipeview.py:45-50 | once anything has been printed the queue never holds fewer than the lower threshold |
| `BatchQueue.WaitsBelowThreshold` | gem5-ml-sim/util/o3-pipeview.py:212-227 | up to the higher threshold nothing is sorted or printed |
| `BatchQueue.QueueLength` | gem5-ml-sim/util/o3-pipeview.py:218-227 | one arrival beyond the higher threshold cuts the queue to the lower one |
| `BatchQueue.FlushKeepsView` | gem5-ml-sim/util/o3-pipeview.py:241-244 | what is out followed by the sorted queue is the same before and after a flush |
| `BatchQueue.NothingOutLarger` | gem5-ml-sim/util/o3-pipeview.py:45-50 | an arrival preceded by at most the lower threshold of larger numbers comes after nothing larger that is out |
| `BatchQueue.FeedView` | gem5-ml-sim/util/o3-pipeview.py:45-50 | under bounded disorder, what is out followed by the sorted queue is at all times the stable sort of all arrivals |
| `BatchQueue.DrainedIsSort` | gem5-ml-sim/util/o3-pipeview.py:45-50 | if no arrival is preceded by more than the lower threshold of larger numbers, the whole output is the stable sort of the arrivals |
| `BatchQueue.LateDisorder` | gem5-ml-sim/util/o3-pipeview.py:49-50 | arrivals with one entry behind one larger number too many |
| `BatchQueue.LateBreaksOrder` | gem5-ml-sim/util/o3-pipeview.py:49-50 | an entry that arrives after something larger was printed makes the output unsorted |
| `BatchQueue.LateEntry` | gem5-ml-sim/util/o3-pipeview.py:49-50 | for any two thresholds there are arrivals, one place beyond the assumption, whose output is not sorted |
| `BatchQueue.SortingGuaranteeIff` | gem5-ml-sim/util/o3-pipeview.py:45-50 | over all arrivals, disorder of up to d places is always sorted out if and only if d is at most the lower threshold |
| `PipeView.RegionStep` | gem5-ml-sim/util/o3-pipeview.py:156-207 | one pass of the main loop advances the list of queued instructions by what the line adds |
| `PipeView.SkipToFinds` | gem5-ml-sim/util/o3-pipeview.py:94-126 | skipping stops at the first line looked for, or at the end, and drops no such line |
| `PipeView.Viewer.constructor` | gem5-ml-sim/util/o3-pipeview.py:51-66 | the queue starts empty |
| `PipeView.Viewer.PrintFirst` | gem5-ml-sim/util/o3-pipeview.py:244-277 | the first instruction leaves the queue and is printed exactly when it is in range |
| `PipeView.Viewer.TakeOff` | gem5-ml-sim/util/o3-pipeview.py:243-277 | instructions leave the front of the queue until the threshold is reached |
| `PipeView.Viewer.PrintInsts` | gem5-ml-sim/util/o3-pipeview.py:231-277 | the queue ends sorted and cut to the threshold, and of what was taken off exactly the instructions in range are printed, in order |
| `PipeView.Viewer.QueueInst` | gem5-ml-sim/util/o3-pipeview.py:212-227 | one more arrival; the queue, what was taken off and what was printed are those of the arrivals so far |
| `PipeView.Viewer.ViewRegion` | gem5-ml-sim/util/o3-pipeview.py:154-207 | the instructions queued are those of the region, up to the stop rule or the end |
| `PipeView.Viewer.FindStart` | gem5-ml-sim/util/o3-pipeview.py:94-119 | skipping stops at the start of the region: at a tick, at a sequence number, or at once |
| `PipeView.Viewer.FindRegion` | gem5-ml-sim/util/o3-pipeview.py:94-126 | from the start of the region, skipping goes on to the next fetch line or to the end of the trace |
| `PipeView.Viewer.ProcessTrace` | gem5-ml-sim/util/o3-pipeview.py:69-207 | what is printed is a function of the trace, about which `TraceRange.PrintedExactly` says what it is; the queue ends empty |
| `TraceRange.NoiseIrrelevant` | gem5-ml-sim/util/o3-pipeview.py:94-207 | lines of other kinds anywhere in the trace do not change what is queued |
| `TraceRange.SkipBlocks` | gem5-ml-sim/util/o3-pipeview.py:94-126 | the start rule skips whole instructions only, none of which meets it with its fetch line |
| `TraceRange.RegionStart` | gem5-ml-sim/util/o3-pipeview.py:94-126 | the region begins with the first instruction whose fetch meets the start bound, or, for ticks, behind the first with a later stage that does; nothing in front of it is in range |
| `TraceRange.BlockUpdates` | gem5-ml-sim/util/o3-pipeview.py:154-193 | the reused dictionary holds nothing of an earlier instruction once a block of lines has been read |
| `TraceRange.RegionBlock` | gem5-ml-sim/src/cpu/o3/dyn_inst.cc:221-250 | the lines the simulator writes for one instruction queue that instruction and nothing else |
| `TraceRange.RegionRecords` | gem5-ml-sim/util/o3-pipeview.py:156-207 | the loop queues a prefix of the instructions, ending at the first that meets the stop rule |
| `TraceRange.StopRule` | gem5-ml-sim/util/o3-pipeview.py:160-166 | the loop stops at a fetch later, or a number larger, than its bound by more than the slack |
| `TraceRange.StoppedOutOfRange` | gem5-ml-sim/util/o3-pipeview.py:160-166 | from the instruction that meets the stop rule on, nothing is in range, given the documented drift |
| `TraceRange.ArrivalsSlice` | gem5-ml-sim/util/o3-pipeview.py:94-207 | the instructions queued are a slice of the trace and nothing outside it is in range |
| `TraceRange.NothingLost` | gem5-ml-sim/util/o3-pipeview.py:60-207 | late start and early stop lose no instruction of the requested range |
| `TraceRange.PrintsTheRange` | gem5-ml-sim/util/o3-pipeview.py:69-277 | exactly the instructions of the range are printed, each once |
| `TraceRange.InRangeFields` | gem5-ml-sim/util/o3-pipeview.py:250-268 | the five conditions on an instruction's number, fetch tick and retire tick |
| `TraceRange.PrintedExactly` | gem5-ml-sim/util/o3-pipeview.py:69-277 | an entry is printed as often as there are instructions in the trace that look like it and meet the bounds on number and fetch tick and, if asked, have retired; nothing else is printed |
| `TraceRange.ShownFromLines` | gem5-ml-sim/util/o3-pipeview.py:156-193 | every tick, number and text shown is that of the instruction's own lines, and the text of one that never retired is marked |
| `TraceRange.PrintsTheRangeSorted` | gem5-ml-sim/util/o3-pipeview.py:45-277 | under the documented disorder, the output is the stable sort by sequence number of the instructions of the range |
| `Timeline.DrawOne` | gem5-ml-sim/util/o3-pipeview.py:392-408 | drawing one more event in order keeps the text equal to the picture of the columns reached so far |
| `Timeline.FinishRow` | gem5-ml-sim/util/o3-pipeview.py:409-411 | filling up with dots completes the picture |
| `Timeline.DrawEvent` | gem5-ml-sim/util/o3-pipeview.py:398-408 | one event's dots and letter |
| `Timeline.DrawRow` | gem5-ml-sim/util/o3-pipeview.py:389-411 | drawing left to right gives the reference picture, in which each column is its letters or one dot |
| `Timeline.CollectEvents` | gem5-ml-sim/util/o3-pipeview.py:374-386 | the events of a line, in stage order |
| `Timeline.PrintLine` | gem5-ml-sim/util/o3-pipeview.py:369-411 | one line of the timeline, and whether it has no event |
| `Timeline.PrintLines` | gem5-ml-sim/util/o3-pipeview.py:369-411 | all lines in order; fails iff there is a single line without events |
| `Timeline.PrintInst` | gem5-ml-sim/util/o3-pipeview.py:335-411 | fails iff the instruction has no non-zero tick; otherwise prints every line, at least one |
| `Timeline.RowsAt` | gem5-ml-sim/util/o3-pipeview.py:369-411 | the i-th line printed is the picture of line i |
| `Timeline.RowLength` | gem5-ml-sim/util/o3-pipeview.py:389-411 | a drawn row has its width plus one letter for every event that shares a column |
| `Timeline.LineLength` | gem5-ml-sim/util/o3-pipeview.py:369-411 | the length of every line of an instruction, exactly |
| `Timeline.OneLineIffCompact` | gem5-ml-sim/util/o3-pipeview.py:354-359 | there is one line exactly when the instruction lives shorter than a line, and always at least one |
| `Timeline.SpannedIff` | gem5-ml-sim/util/o3-pipeview.py:370-378 | a tick lies in the span of a line iff the line is the one it is computed to be on, in compact form too |
| `Timeline.OnExactlyOneLine` | gem5-ml-sim/util/o3-pipeview.py:369-386 | a stage with a tick from the base on is on exactly one line; a tick before the base is on none |
| `Timeline.EventsMember` | gem5-ml-sim/util/o3-pipeview.py:374-387 | the events of a line are exactly the stages whose tick is in its span |
| `Timeline.EventsDistinct` | gem5-ml-sim/util/o3-pipeview.py:374-387 | no stage occurs twice on a line |
| `Timeline.EventsOrdered` | gem5-ml-sim/util/o3-pipeview.py:379-387 | events are ordered by offset and lie inside the row |
| `Timeline.MarksFrom` | gem5-ml-sim/util/o3-pipeview.py:392-401 | the letters drawn come from the events, dispatch left out when it coincides with issue |
| `Timeline.MarksDistinct` | gem5-ml-sim/util/o3-pipeview.py:392-401 | no letter is drawn twice in a row |
| `Timeline.LineCount` | gem5-ml-sim/util/o3-pipeview.py:340-359 | one line for a life shorter than a row, otherwise one for each row from that of the fetch to that of the last event |
| `Timeline.StageOnLine` | gem5-ml-sim/util/o3-pipeview.py:369-386 | a stage is on the line of its own row, counted from the row of the fetch, and on none if it lies in an earlier row |
| `Timeline.StageDrawnOnce` | gem5-ml-sim/util/o3-pipeview.py:337-408 | exactly where each stage's letter appears, from the ticks alone: line, column, and when it is left out; and no letter twice |
| `Timeline.OnlyStagesDrawn` | gem5-ml-sim/util/o3-pipeview.py:392-401 | no other letters are drawn |
| `Timeline.StageLetters` | gem5-ml-sim/util/o3-pipeview.py:289-333 | the stages shown and the letter of each |
| `Timeline.LinePicture` | gem5-ml-sim/util/o3-pipeview.py:363-367 | empty columns show `=` exactly for an instruction that never retired |
| `Timeline.CellHolds` | gem5-ml-sim/util/o3-pipeview.py:392-411 | a column holds the letters of its events, or else the filling character |
| `Timeline.RankIsAlphabetical` | gem5-ml-sim/util/o3-pipeview.py:387 | events are compared by the names of their stages |
| `Timeline.TiesAlphabetical` | gem5-ml-sim/util/o3-pipeview.py:379-387 | events in the same place are drawn in alphabetical order of their stages |
| `Timeline.EmptyLineIff` | gem5-ml-sim/util/o3-pipeview.py:372-391 | the only line is empty exactly when all ticks are zero, where the printer fails |
| `Varint.OutFile.Write` | gem5-ml-sim/util/protolib.py:156 | appends to the file |
| `Varint.InFile.Read` | gem5-ml-sim/util/protolib.py:113 | returns what is left up to the asked length, everything for a negative length, and moves on by that |
| `Varint.EncodeVarint32` | gem5-ml-sim/util/protolib.py:147-159 | appends the base-128 digits of the value, least significant first, all but the last flagged |
| `Varint.DecodeVarint32` | gem5-ml-sim/util/protolib.py:100-128 | result, error or end of file, and the bytes consumed, as a function of the bytes left |
| `Varint.Wrap` | gem5-ml-sim/util/protolib.py:119-125 | the reduction to 32 bits: congruent to the number read, within 32 bits, negative exactly from 2 to the 63 on |
| `Varint.Reduce` | gem5-ml-sim/util/protolib.py:119-125 | subtracting 2 to the 64 and setting the high bits, or masking, computes that reduction |
| `Varint.Consumed` | gem5-ml-sim/util/protolib.py:112-128 | at most ten bytes are taken, never more than there are, and at least one unless the file is at its end |
| `Varint.PayloadSnoc` | gem5-ml-sim/util/protolib.py:116-118 | each further byte adds its seven bits at its place |
| `Varint.EncodeShape` | gem5-ml-sim/util/protolib.py:147-159 | the digits written stand for the value, and only the last byte has no flag |
| `Varint.EncodeLength` | gem5-ml-sim/util/protolib.py:147-159 | n bytes are enough iff the value is below 128 to the n |
| `Varint.DecodeEncode` | gem5-ml-sim/util/protolib.py:100-128 | what every written value is read as: 32 bits of it, sign-extended above 63 bits, or an error when it takes more than ten bytes |
| `Varint.RoundTripIff` | gem5-ml-sim/util/protolib.py:100-159 | a written value is read back, whatever follows, if and only if it is below 2 to the 32 |
| `Framing.EncodeMessage` | gem5-ml-sim/util/protolib.py:162-168 | appends the length and the message |
| `Framing.DecodeMessage` | gem5-ml-sim/util/protolib.py:131-144 | whether a message is found, the message, and what is left |
| `Framing.DecodeMessages` | gem5-ml-sim/util/decode_inst_dep_trace.py:163-164 | reading until none is found gives all messages of the stream |
| `Framing.ReadFrame` | gem5-ml-sim/util/protolib.py:131-168 | a written non-empty message is read back and exactly its bytes are consumed |
| `Framing.ReadEmptyFrame` | gem5-ml-sim/util/protolib.py:137-139 | an empty message reads as the end of the stream |
| `Framing.NegativeLength` | gem5-ml-sim/util/protolib.py:137-142 | a negative length reads all that is left |
| `Framing.ReadAllFrames` | gem5-ml-sim/util/protolib.py:131-168 | of a stream of messages, exactly those in front of the first empty one are read |
| `Framing.CutInLength` | gem5-ml-sim/util/protolib.py:114-115 | a stream cut inside a length prefix yields no message there |
| `Framing.CutInMessage` | gem5-ml-sim/util/protolib.py:140-142 | a stream cut inside a message yields the shortened message |
| `Framing.ReadAllCut` | gem5-ml-sim/util/protolib.py:131-144 | what is read from a stream cut at any byte, exactly |
| `Framing.CutIsPrefix` | gem5-ml-sim/util/protolib.py:131-144 | reading a cut stream gives a prefix of the messages, the last possibly shortened, and never anything else |
| `Text.DecimalOfValue` | gem5-ml-sim/util/decode_inst_dep_trace.py:168 | a decimal without leading zeros is what printing its value gives |
| `Text.SplitJoin` | gem5-ml-sim/util/encode_inst_dep_trace.py:158-159 | splitting undoes joining for parts free of the separator |
| `Text.JoinSplit` | gem5-ml-sim/util/encode_inst_dep_trace.py:158-159 | joining undoes splitting |
| `Text.ParseSigned` | gem5-ml-sim/util/encode_inst_dep_trace.py:162 | a number with a sign in any amount of whitespace |
| `Text.ParsedIsSigned` | gem5-ml-sim/util/encode_inst_dep_trace.py:162 | nothing else is a number |
| `DepRecord.PrintDeps` | gem5-ml-sim/util/decode_inst_dep_trace.py:200-213 | a comma in front of each dependency |
| `DepRecord.PrintOptional` | gem5-ml-sim/util/decode_inst_dep_trace.py:188-195 | a field present is appended, a missing one leaves no trace |
| `DepRecord.PrintRecord` | gem5-ml-sim/util/decode_inst_dep_trace.py:167-215 | the line of a record: defaults for missing pc and weight, present optional fields only |
| `DepRecord.ParseDepList` | gem5-ml-sim/util/encode_inst_dep_trace.py:195-206 | all non-empty items as numbers, or an error |
| `DepRecord.ParseHead` | gem5-ml-sim/util/encode_inst_dep_trace.py:162-179 | the first four fields give number, pc and weight, and never a record of the invalid type |
| `DepRecord.ParseLine` | gem5-ml-sim/util/encode_inst_dep_trace.py:158-206 | the record of a line, with every error: number of parts, bad number, unknown or invalid type, missing fields, out of range |
| `DepRecord.ParseOfPrint` | gem5-ml-sim/util/decode_inst_dep_trace.py:167-215 | reading a printed record back gives it, with defaults filled in, if and only if its optional fields fit its type; a record of the invalid type is refused |
| `DepRecord.ReadBack` | gem5-ml-sim/util/decode_inst_dep_trace.py:167-215 | the same field by field, with 0 for a missing pc and 1 for a missing weight |
| `DepRecord.PrintedHead` | gem5-ml-sim/util/decode_inst_dep_trace.py:167-186 | what the first fields of a printed line are |
| `DepRecord.ParseNewline` | gem5-ml-sim/util/encode_inst_dep_trace.py:158 | a line reads the same with and without a newline |
| `DepRecord.ExtraFields` | gem5-ml-sim/util/encode_inst_dep_trace.py:183-191 | fields beyond those of the type are passed over |
| `DepRecord.HeadFieldsAre` | gem5-ml-sim/util/encode_inst_dep_trace.py:162-167 | what the first four fields of any line that parses stand for |
| `DepRecord.TailFieldsAre` | gem5-ml-sim/util/encode_inst_dep_trace.py:183-191 | what the other fields of any line that parses stand for |
| `DepRecord.DependencyItem` | gem5-ml-sim/util/encode_inst_dep_trace.py:195-206 | one more item of a dependency list: passed over if empty, otherwise a number of 64 bits or an error |
| `DepRecord.PrintedCanonical` | gem5-ml-sim/util/decode_inst_dep_trace.py:167-215 | printed lines of such records are canonical |
| `DepRecord.ParsedPrintable` | gem5-ml-sim/util/encode_inst_dep_trace.py:158-206 | every record read from a line fits its type |
| `DepRecord.CanonicalIsPrinted` | gem5-ml-sim/util/decode_inst_dep_trace.py:167-215 | every canonical line is what some record prints |
| `DepRecord.PrintOfParseIff` | gem5-ml-sim/util/encode_inst_dep_trace.py:158-206 | reading a line and printing the record gives the same line if and only if the line is canonical |
| `DepTrace.EncodeTrace` | gem5-ml-sim/util/encode_inst_dep_trace.py:136-211 | fails iff some line does; in any case magic number, header and all records in front of the first line in error are written, framed in order |
| `DepTrace.DecodeTrace` | gem5-ml-sim/util/decode_inst_dep_trace.py:133-215 | fails without the magic number or at the first message that does not parse; the lines printed are those of the records in front of it, and of all records otherwise |
| `DepTrace.PrintMessages` | gem5-ml-sim/util/decode_inst_dep_trace.py:163-215 | the loop over the messages, up to the end or the first that does not parse |
| `DepTrace.LeadingItems` | gem5-ml-sim/util/encode_inst_dep_trace.py:157-206 | record i comes from line i, and the line behind the last record does not parse |
| `DepTrace.DecodedOfEncoded` | gem5-ml-sim/util/encode_inst_dep_trace.py:136-211 | decoding an encoded list of records prints the line of each, in order |
| `DepTrace.SameLinesIff` | gem5-ml-sim/util/decode_inst_dep_trace.py:163-215 | the lines printed for parsed lines are those lines iff all are canonical |
| `DepTrace.TraceRoundTripIff` | gem5-ml-sim/util/encode_inst_dep_trace.py:136-211 | converting a text trace to binary and back reproduces it line for line if and only if every line is canonical |
| `SectionNames.PaddedIndex` | gem5-ml-sim/util/checkpoint_aggregator.py:59-69 | the index is padded to one common width and keeps its value |
| `SectionNames.IndexWidthIs` | gem5-ml-sim/util/checkpoint_aggregator.py:59 | the width is exactly the length of the longest index |
| `SectionNames.HasCpuIs` | gem5-ml-sim/util/checkpoint_aggregator.py:68 | a processor section is one with `cpu` anywhere in its name |
| `SectionNames.InsertAtFirst` | gem5-ml-sim/util/checkpoint_aggregator.py:69 | the mark goes right behind the first `cpu`, and then behind those that follow |
| `SectionNames.InsertNowhere` | gem5-ml-sim/util/checkpoint_aggregator.py:69 | a name without `cpu` is unchanged |
| `SectionNames.RemoveInsert` | gem5-ml-sim/util/checkpoint_aggregator.py:69 | taking the mark out behind every `cpu` gives the original name back |
| `SectionNames.MarkOfInsert` | gem5-ml-sim/util/checkpoint_aggregator.py:69 | the checkpoint's index can be read off a renamed section |
| `SectionNames.RenamedInjective` | gem5-ml-sim/util/checkpoint_aggregator.py:67-70 | two renamed sections have one name only if they come from the same section of the same checkpoint |
| `SectionNames.RenamedHasCpu` | gem5-ml-sim/util/checkpoint_aggregator.py:68-70 | a renamed section is still a processor section |
| `MemoryImage.CopyPages` | gem5-ml-sim/util/checkpoint_aggregator.py:104-117 | copies the announced number of pages, or all there is |
| `MemoryImage.Pad` | gem5-ml-sim/util/checkpoint_aggregator.py:123-131 | pads with whole pages until the memory size is reached |
| `MemoryImage.BodyLength` | gem5-ml-sim/util/checkpoint_aggregator.py:99-117 | the images together have the announced length iff none is short |
| `MemoryImage.BodyPrefix` | gem5-ml-sim/util/checkpoint_aggregator.py:99-117 | each image stands behind those in front of it |
| `MemoryImage.PlacedIff` | gem5-ml-sim/util/checkpoint_aggregator.py:99-117 | an image starts where its addresses are moved to if and only if no image in front of it is short |
| `MemoryImage.RelocatedByte` | gem5-ml-sim/util/checkpoint_aggregator.py:74-117 | at a moved address stands the byte that stood at the original one |
| `MemoryImage.RelocatedBy` | gem5-ml-sim/util/checkpoint_aggregator.py:74-77 | addresses move by 4096 bytes for every page of the checkpoints in front |
| `MemoryImage.PaddingBytes` | gem5-ml-sim/util/checkpoint_aggregator.py:124-131 | padding is zero digits behind the memory, which it leaves unchanged |
| `MemoryImage.RelocatedDisjoint` | gem5-ml-sim/util/checkpoint_aggregator.py:74-77 | addresses of different checkpoints never meet |
| `MemoryImage.FinalSize` | gem5-ml-sim/util/checkpoint_aggregator.py:123-131 | the padded image has the announced size, at least the memory size, and not a page more than needed |
| `Aggregator.GivesNameOnce` | gem5-ml-sim/util/checkpoint_aggregator.py:67-94 | no two sections of all checkpoints give the same name |
| `Aggregator.MergedOrigin` | gem5-ml-sim/util/checkpoint_aggregator.py:67-94 | every merged section comes from a section of some checkpoint |
| `Aggregator.MergedUnique` | gem5-ml-sim/util/checkpoint_aggregator.py:67-94 | merged sections have different names at all times, so adding one never fails |
| `Aggregator.MergedContains` | gem5-ml-sim/util/checkpoint_aggregator.py:67-94 | every section that is to be kept is there, with its address moved |
| `Aggregator.MergeOne` | gem5-ml-sim/util/checkpoint_aggregator.py:68-94 | a section is kept, renamed and moved exactly when it is a processor's, or of the last checkpoint and not one of the two written anew; only a global section's tick counts |
| `Aggregator.MergeSections` | gem5-ml-sim/util/checkpoint_aggregator.py:67-94 | merges one checkpoint's sections and the latest tick; fails iff an address or tick is no number |
| `Aggregator.MergeCheckpoint` | gem5-ml-sim/util/checkpoint_aggregator.py:61-117 | one pass: sections, page count and memory move on together; fails iff this checkpoint lacks a page count or a number, and then the whole merge does |
| `Aggregator.MergeCheckpoints` | gem5-ml-sim/util/checkpoint_aggregator.py:61-117 | all checkpoints; fails iff one of them does |
| `Aggregator.StoreKept` | gem5-ml-sim/util/checkpoint_aggregator.py:138-140 | the last checkpoint's memory section is in the merged configuration with the final size |
| `Aggregator.ImageLength` | gem5-ml-sim/util/checkpoint_aggregator.py:99-131 | the image written is never longer than the final pages, and exactly as long if and only if no checkpoint's image is short |
| `Aggregator.RangeSizeIff` | gem5-ml-sim/util/checkpoint_aggregator.py:123-140 | the size announced for the memory equals the length of the image written if and only if no checkpoint's image is short |
| `Aggregator.LatestIsLargest` | gem5-ml-sim/util/checkpoint_aggregator.py:86-89 | the merged tick is the largest of any checkpoint, or zero if none is positive |
| `Aggregator.FinalTick` | gem5-ml-sim/util/checkpoint_aggregator.py:142-143 | the last section written is the global one with that tick |
| `Aggregator.TickOfIs` | gem5-ml-sim/util/checkpoint_aggregator.py:86-89 | which section records a tick, and under which key |
| `Aggregator.SystemKept` | gem5-ml-sim/util/checkpoint_aggregator.py:119-121 | the merged configuration has a system section with the pages of all checkpoints and their number, and nothing else in it |
| `Aggregator.SectionOkIs` | gem5-ml-sim/util/checkpoint_aggregator.py:74-87 | what a section must hold: a processor's address and a global tick are numbers |
| `Aggregator.AggregatableIs` | gem5-ml-sim/util/checkpoint_aggregator.py:44-145 | a merge succeeds iff there is a checkpoint, every one has a page count, every section holds what it must, and the last has a memory section |
| `Aggregator.Aggregate` | gem5-ml-sim/util/checkpoint_aggregator.py:44-145 | succeeds exactly then; the merged configuration and the padded image, about which the rows below say what they hold |
| `Aggregator.IsFdMapIs` | gem5-ml-sim/util/checkpoint_aggregator.py:81 | a descriptor table is a section whose name ends in `workload`, one character, `FdMap256` |
| `Aggregator.ProcessorSectionKept` | gem5-ml-sim/util/checkpoint_aggregator.py:67-82 | every processor section is there under its new name, its address moved by the pages in front of its checkpoint, with its process number if it is a descriptor table, and every other item as it was |
| `Aggregator.OtherSectionKept` | gem5-ml-sim/util/checkpoint_aggregator.py:90-94 | every other section of the last checkpoint, but the two written anew, is there with its items; only the memory's size is replaced |
| `Aggregator.MergedNamesUnique` | gem5-ml-sim/util/checkpoint_aggregator.py:61-145 | all sections of the merged configuration have different names |
| `Aggregator.MovedAddress` | gem5-ml-sim/util/checkpoint_aggregator.py:74-77 | a section's address is moved like the memory it points to |
| `Aggregator.MappedMemoryPreserved` | gem5-ml-sim/util/checkpoint_aggregator.py:44-145 | every mapped page survives: its section is in the merged checkpoint under the new name, and at any offset from the new address the merged memory holds the byte that stood at that offset from the old one |
| `CopyrightYears.Sorted` | gem5-ml-sim/util/find_copyrights.py:196-197 | the years ascending, each once |
| `CopyrightYears.RunsFromProperties` | gem5-ml-sim/util/find_copyrights.py:209-218 | the runs closed from some point on cover exactly the years left and are maximal |
| `CopyrightYears.RunsAreMaximal` | gem5-ml-sim/util/find_copyrights.py:195-220 | the runs written for a set are its maximal runs of consecutive years, ascending |
| `CopyrightYears.WriteRuns` | gem5-ml-sim/util/find_copyrights.py:199-218 | the loop writes exactly those runs |
| `CopyrightYears.DateStr` | gem5-ml-sim/util/find_copyrights.py:195-220 | fails iff the set is empty; otherwise the runs joined by commas |
| `CopyrightYears.AddRange` | gem5-ml-sim/util/find_copyrights.py:122-124 | adds all years of a range, none if it is reversed |
| `CopyrightYears.ProcessDates` | gem5-ml-sim/util/find_copyrights.py:115-132 | the years of all items; an item that is no number adds none |
| `CopyrightYears.SpacesAroundItem` | gem5-ml-sim/util/find_copyrights.py:116 | whitespace around an item does not matter |
| `CopyrightYears.SpacedRange` | gem5-ml-sim/util/find_copyrights.py:112 | four digits, a dash with any whitespace around it, and four digits are a range, whatever follows |
| `CopyrightYears.SpacedRangeYears` | gem5-ml-sim/util/find_copyrights.py:120-124 | such an item stands for all years from the first to the second |
| `CopyrightYears.OtherItems` | gem5-ml-sim/util/find_copyrights.py:125-130 | any other item stands for its number, or for nothing |
| `CopyrightYears.RunYears` | gem5-ml-sim/util/find_copyrights.py:112-130 | what is read back of a run: all of it iff it is one year or both its ends have four digits, otherwise not its last year |
| `CopyrightYears.ReadBackIff` | gem5-ml-sim/util/find_copyrights.py:115-132 | reading back written runs gives their years iff every run is legible |
| `CopyrightYears.LegibleRunsIff` | gem5-ml-sim/util/find_copyrights.py:195-220 | all runs are legible iff any two consecutive years have four digits each |
| `CopyrightYears.YearsRoundTripIff` | gem5-ml-sim/util/find_copyrights.py:195-220 | reading back the text of a set of years gives the set if and only if any two consecutive years in it have four digits each |
| `CommentBlocks.IndexIs` | gem5-ml-sim/util/find_copyrights.py:69-76 | wherever the text occurs, an occurrence is found, and none later than that one |
| `CommentBlocks.MarksOfLine` | gem5-ml-sim/util/find_copyrights.py:14-17 | the marks of a line, character by character: slashes, opening and closing, code in front of the first slashes, a copyright notice right behind them, blank |
| `CommentBlocks.ModeLineIs` | gem5-ml-sim/util/find_copyrights.py:12 | an editor mode line, character by character |
| `CommentBlocks.ClosingLine` | gem5-ml-sim/util/find_copyrights.py:67-73 | the first later line that closes a comment |
| `CommentBlocks.ScanLine` | gem5-ml-sim/util/find_copyrights.py:63-106 | one pass of the scanner's loop takes exactly the step of the recursive reading; its assertions about start line and mode (lines 68, 92, 101) hold on the way |
| `CommentBlocks.CommentOfText` | gem5-ml-sim/util/find_copyrights.py:62-106 | a block whose first line holds `/*` ends on the first later line that holds `*/`; any other begins with slashes and has only lines with slashes and blank ones |
| `CommentBlocks.FirstComment` | gem5-ml-sim/util/find_copyrights.py:62-106 | a comment opened on the first line of a file is found, up to the first line that closes it |
| `CommentBlocks.FindBlocks` | gem5-ml-sim/util/find_copyrights.py:62-106 | the blocks found are comments of the text in that sense, and the result is the scan of the file as defined without a scanner |
| `CommentBlocks.BlocksScan` | gem5-ml-sim/util/find_copyrights.py:62-106 | the result is a scan: blocks in order and apart, each a whole comment; every line in front of the end in a block, blank or a mode line; and a reason for the end |
| `CommentBlocks.OnlyBlocks` | gem5-ml-sim/util/find_copyrights.py:62-106 | no other list of blocks and end is a scan from that line on |
| `CommentBlocks.ScanIff` | gem5-ml-sim/util/find_copyrights.py:62-106 | the scanner's result is the one and only scan of the file |
| `CommentBlocks.RunEnds` | gem5-ml-sim/util/find_copyrights.py:86-98 | a run of line comments is a block, and the scan goes on outside, in front of a new copyright line or a line that is no line comment |
| `CommentBlocks.OnlyStarBlock` | gem5-ml-sim/util/find_copyrights.py:67-73 | a block comment runs from its opening line to the first later closing one, or leaves the scan open there |
| `CommentBlocks.InsideComment` | gem5-ml-sim/util/find_copyrights.py:67-73 | nothing inside a block comment ends the scan |
| `CommentBlocks.RunIsMaximal` | gem5-ml-sim/util/find_copyrights.py:78-98 | a block of line comments is a whole run, which the line behind it ends |
| `CommentBlocks.RunLeftOpen` | gem5-ml-sim/util/find_copyrights.py:78-98 | how a scan ends that leaves a run open: at the end of the file, at code in front of slashes, or at a line with both marks |
| `CommentBlocks.EndIff` | gem5-ml-sim/util/find_copyrights.py:62-106 | the file is read to its end iff no line outside block comments has code or both kinds of marks; the assertion of line 79 fails iff the first such line has both marks, and the scan stops iff it has not |
| `CommentBlocks.AssertionCanFail` | gem5-ml-sim/util/find_copyrights.py:78-79 | a two-line file on which that assertion fails |
| `LogRoll.LastIs` | gem5-ml-sim/util/logroll.py:75-94 | the last lines: the target's number of them at the end of what was read, or all there are |
| `LogRoll.DumpLines` | gem5-ml-sim/util/logroll.py:63-67 | the lines from the index on, then those in front of it |
| `LogRoll.LineBuffer.constructor` | gem5-ml-sim/util/logroll.py:75-78 | the buffer starts empty |
| `LogRoll.LineBuffer.Append` | gem5-ml-sim/util/logroll.py:83-89 | while filling, the buffer holds all lines seen |
| `LogRoll.LineBuffer.Overwrite` | gem5-ml-sim/util/logroll.py:91-92 | overwriting keeps the buffer, read from the index round, equal to the last lines seen |
| `LogRoll.OldestReplaced` | gem5-ml-sim/util/logroll.py:91-92 | overwriting at the index and stepping on drops the oldest line and appends the new one |
| `LogRoll.Roll` | gem5-ml-sim/util/logroll.py:75-94 | every request gets the last lines read by then, and the end the last of all; a target below one keeps everything |

## Left out

- CptUpgrader.Registry.LoadFiles: takes the files' contents as values with tags that differ, as line 60-61 of the script demands; executing the files, the type errors in them, and one upgrader object shared by two tables are not modelled.
- CptUpgrader.Registry.ProcessFile: takes the version information as already read; the bodies of the upgraders, the backup, and reading and writing the file are not modelled; whether the section for the new tags is there once the upgraders have run is a parameter. New tags are written to `root.globals` while an old `Globals` section, if there is one, is read first next time; the model covers one run.
- PipeView.Viewer.ProcessTrace: takes trace lines already split into fields, with ticks that are natural numbers; malformed lines, the header text and the timestamps are not modelled. The thresholds and the slack are parameters.
- Timeline.PrintInst: models the timeline between the brackets without colours; the columns behind it (tick, pc, disassembly) are left out.
- TraceRange.NothingLost: assumes ticks and numbers do not fall back further than the slack of the stop rule when a stop bound is given; the script states this for ticks and leaves it implicit for numbers.
- Varint.EncodeVarint32: lengths are natural numbers, as they are in the script.
- DepTrace.EncodeTrace: writes the magic number as four bytes (the script passes a string to a binary file); the generated protobuf classes are a pair of functions that undo each other, and the content of the header is a parameter.
- DepTrace.DecodeTrace: reads the header as a message and passes over it; a header that does not parse, compressed input and the counters printed at the end are not modelled.
- DepTrace.TraceRoundTripIff: for records whose serialised form is shorter than 2^32 bytes, the limit of the length prefix.
- DepRecord.ParseLine: numbers are ASCII digits with an optional sign and surrounding spaces; digits of other scripts, underscores and whitespace beyond Latin-1, which Python accepts, are not modelled.
- Aggregator.Aggregate: items are numbers or text, without order inside a section; the page count of the `system` section is a field; `ConfigParser`'s own typing rules, compression and printing are left out.
- MemoryImage.Pad: the padding is 4096 bytes of the digit zero (the script passes a string).
- CopyrightYears.DateStr: years are natural numbers.
- CommentBlocks.FindBlocks: only the C family; the branches for shell-like and Lisp comments are a simpler form of the same scan.
- LogRoll.Roll: a request to print arrives between two lines; an interrupt, and a signal inside the loop body, are not modelled.
- Extracting authors and owners from a copyright block (`get_data`), and the other scripts of `util/` that decode packet traces, draw graphs or drive builds: they would add only easy members.
- The C++ simulator, its configuration scripts and the machine-learning experiments beside it.
