# A verified model of the benchmark's timeline, scorers and schedulers

The benchmark asks whether a video generator remembers a story. Authors write scenes; a compiler turns them
into segments with memory labels; renderers, planners, generators and scorers consume those labels. This
project models that chain in Dafny and proves what each part promises the next, for all inputs, all runs and
all interleavings. `dafny verify dfyconfig.toml` checks everything.

**The timeline compiler and its consumers.** `Timeline.dfy` says what a story means: every label (op, gap,
last_seen, state, forbidden roster, probes) is found by searching the flat timeline backwards. `Flatten.dfy`
places scenes on that timeline, and `Compiler.dfy` is the one-pass program with its running dicts, proved to
accept exactly the stories that meet the memory rules and to return exactly that meaning. `TimelineLaws.dfy`
holds the laws of the labels; `Meaning.dfy`, `Rosters.dfy` and `Rules.dfy` say in the author's terms, with no
search at all, what every label, probe and roster entry stands for and which stories compile. Four consumers
read the output: the prompt renderer (`Prompt.dfy`), the last-seen planner and its selector
(`LastSeenControl.dfy`, with `Causality.dfy` for the way from compiled labels to the causality guard), the
identity units (`Units.dfy`, with `Flashbacks.dfy` for the state they take an entity to be in, pooled in
`Pooling.dfy`), and the end-to-end scorer (`Scorer.dfy`, `Tallies.dfy`, `TallyRun.dfy`, with `Counters.dfy`
for what each counter counts, `Judges.dfy` for a truthful and a yes-to-all judge, `Questions.dfy` for the
questions put to it, and `Wilson.dfy` for the interval). `Stories.dfy` holds three small stories that compile
and show what the laws leave open.

**Runs.** `Runner.dfy` is the select, realize, observe loop with failures and resume; resuming is proved to
be the same run. `Dispatching.dfy` is the multi-node dispatcher, working its queue in place, with
`ReturnCodes.dfy` for the codes it reads. `JudgeCache.dfy` is the single-flight judge cache as a transition
system over all interleavings, `VisualScore.dfy` the score of a segment from what its callers got, and
`CachedScore.dfy` joins the two: through the cache the score is the serial uncached one.

**Algorithms.** `ConflictGate.dfy` (conflict components of crops), `Dedup.dfy` (attribute-diverse selection),
`Wrap.dfy` (greedy line wrapping), `Threshold.dfy` with `Rounding.dfy` (Youden threshold and AUC), and
`LogTail.dfy` (the event log, the handler that tails it, and the client of section 9.2 of the WHATWG HTML
Living Standard). `Basics.dfy`, `Decimal.dfy` and `Sorting.dfy` are shared.

Where the code and its documentation disagree, the model follows the code:

- A second removal of an entity overwrites the first, so the entity leaves the roster for one segment:
  `TimelineLaws.RosterGrowsUnlessRemovedAgain` is the equivalence, and
  `Stories.SecondRemovalLeavesTheRoster` a story that compiles in which it happens. The roster only grows when
  entities are removed once.
- `youden_threshold` compares each value with the stored rounded record, so ties do not always go to the
  lowest threshold as its documentation says. `Threshold.TiesGoLowestIff` gives the exact condition and
  `Threshold.TiesCanGoHigher` an input on which it fails; the reported value itself is right.
- The dispatcher's swap keeps the order of the skipped jobs exactly when at most one job is skipped
  (`Dispatching.SwapKeepsOrderIff`); `Dispatching.SkippedJobsChangeOrder` has three jobs in which two change
  places.
- A job is skipped only after it was refused every free slot, but its node may cool down before the next job is
  tried. Without services launches keep the order of the jobs where the clock stands still during a pass, or nodes
  need no cooldown (`Dispatching.Dispatcher.Run`); on a clock that moves between two readings a later job can
  overtake an earlier one (`Dispatching.HeadIsOvertaken`). Which job a pass launches is exact on every clock
  (`Dispatching.Dispatcher.LaunchNext`).
- The dispatcher gives up, with jobs left over and nothing running, after a pass in which every waiting job
  was refused every slot. With a cooldown no longer than a poll, as in the defaults (8 and 20 seconds,
  run_stage1_multinode.py:305-306), that happens exactly when some job needs services and no slot's node was
  found ready: `--service-warmup-sec` is parsed (line 309) and never used, so services that come up later are
  not waited for. `Dispatching.Dispatcher.Run` states this, and `Dispatching.WarmUpIsNotWaitedFor` is a run
  with the defaults that leaves its job over. With a cooldown longer than a poll a node that is still cooling
  is not waited for either; `Dispatching.CooldownIsNotWaitedFor` is such a run.
- The conflict gate never compares entity ids, and two proposals without a crop path coincide. Its documentation
  says that it rejects crops assigned to different ids; it rejects only those exactly when no conflict lies
  within one entity's own proposals (`ConflictGate.RejectsOnlyOtherEntitiesIff`), and
  `ConflictGate.OneEntityAgainstItself` has two proposals of one entity, both rejected, that name no peer.
- Where the gate is asked for no margin, of those tied for the best score the one listed first in its component
  is kept. The model lists a component in the order of the proposals, where the source follows the order in which
  Python iterates over a set of small integers. So the order decides for exactly those tied
  (`ConflictGate.SameInEveryOrderIff`).
- A flashback label passes for the current look in the identity units until the next transform or persist
  label: the units' state is the timeline's exactly when no flashback came since, or the last one shows the
  current look (`Flashbacks.UnitsKeepTheStateIff`). `Stories.FlashbackMisleads` is a story that compiles and
  gives a unit whose two sides are both taken for a look the entity never had.
- The scorer's documentation says that the judge is not told which entities are present. The questions about state
  and count are put for entities shown and for no others (`Questions.AskedAreShown`), so they do tell.
- A truthful judge is perfect on a compiled segment only when no absent look-alike of the segment is on
  screen: `Judges.CompiledSegmentScores` is the equivalence, and in the story of `Stories.TruthIsScoredAViolation`
  truthful votes, which exist, are scored a violation.
- A log line with a carriage return inside is not read back by the client, and every other line is
  (`LogTail.ReadBackIff`). The repository's own JSON writer escapes control characters and never produces one.

## Model

| member | source | states |
|---|---|---|
| Flatten.FlattenScenes | assets/trackB/scripts/complete_gt.py:92-135 | flattening succeeds exactly when every scene has actions and every scene event lies in range; otherwise it names the first faulty scene and the fault |
| Flatten.WellFormedIs | assets/trackB/scripts/complete_gt.py:96-113 | a scene is well-formed exactly when it has actions and each event happens at one of them |
| Flatten.OneSegmentPerAction | assets/trackB/scripts/complete_gt.py:115-134 | every action becomes exactly one segment, at the place given by the actions before it, and opens a cut exactly when it is the first of its scene |
| Flatten.SegmentAtTells | assets/trackB/scripts/complete_gt.py:115-134 | an action's segment has its own text, cast and look-alikes where it gives them and else the scene's, a cut for the first action, and the scene's events placed there, in their order, before its own |
| Flatten.EventsAreConserved | assets/trackB/scripts/complete_gt.py:109-132 | the multiset of events on the flat timeline is the multiset authored at scenes and actions: none lost, none doubled |
| Flatten.BuildStory | assets/trackB/scripts/complete_gt.py:138-402 | a story compiles exactly when its scenes are well-formed and its flat timeline meets the memory rules, and the result is then the declarative gold; in the author's terms, exactly when the story is well told, and every segment and label of the result then says what its items, its events and the segments before it say; a story of well-formed scenes that does not compile has every broken rule reported |
| Compiler.CollectEvents | assets/trackB/scripts/complete_gt.py:201-209 | the two per-segment event dicts answer like a search for the last event of the entity, and an error is raised exactly for unknown event types |
| Compiler.FindRemovals | assets/trackB/scripts/complete_gt.py:172-177 | the first-pass dict holds the first segment that removes each entity |
| Compiler.CheckReentry | assets/trackB/scripts/complete_gt.py:178-183 | reports whoever is on screen after a removal, in each segment where that happens, and nothing else |
| Compiler.LabelNext | assets/trackB/scripts/complete_gt.py:229-314 | one item labelled from the running dicts gets the label the backward search gives, and the dicts keep agreeing with that search |
| Compiler.LabelCast | assets/trackB/scripts/complete_gt.py:211-314 | the cast of a segment is the declarative one, its probes are those of the labels, and errors are raised exactly when an item breaks a rule |
| Compiler.ApplyRemovals | assets/trackB/scripts/complete_gt.py:316-328 | the removal dict keeps agreeing with the latest removal of each entity, in order of first removal; errors exactly for unknown or off-screen shown removals |
| Compiler.ForbidRemoved | assets/trackB/scripts/complete_gt.py:330-347 | the removal part of the roster and its probes are those of the entities gone by this segment |
| Compiler.ForbidTwins | assets/trackB/scripts/complete_gt.py:349-372 | absent look-alikes are forbidden; errors exactly for undeclared pairs or members outside the pair |
| Compiler.CompileSegment | assets/trackB/scripts/complete_gt.py:194-389 | one pass of the loop yields the declarative gold segment, keeps all running state in step, and errs exactly when the segment breaks a rule |
| Compiler.Build | assets/trackB/scripts/complete_gt.py:170-402 | the one-pass compiler succeeds exactly on timelines that meet the memory rules and then returns the declarative gold; else its errors are every broken rule, with its segment and entity, and nothing else |
| Compiler.RulesHoldIff | assets/trackB/scripts/complete_gt.py:172-399 | a timeline meets the memory rules exactly when there is nothing to report of it |
| Compiler.StateComesFromTransform | assets/trackB/scripts/complete_gt.py:229-271 | a remembered state of a registered entity was put there by an earlier transform entry |
| Compiler.RecheckNeverFires | assets/trackB/scripts/complete_gt.py:391-399 | every persist entry follows a transform entry of the same entity, so the closing re-check can never report anything |
| Compiler.Recheck | assets/trackB/scripts/complete_gt.py:391-399 | the re-check reports exactly the persist entries without an earlier transform |
| Meaning.AnnouncedIs | assets/trackB/scripts/complete_gt.py:201-228 | a segment gives an entity the look of its last state change, or without one of its last removal if that is shown |
| Meaning.LatestStateIs | assets/trackB/scripts/complete_gt.py:229-235 | the look remembered before an item is the one last taken on, flashbacks aside, or none |
| Meaning.EntryMeans | assets/trackB/scripts/complete_gt.py:211-312 | on a story that compiles a label is a transform exactly for an item that takes on a look, else an introduction exactly for a first appearance, else persists exactly when it is no flashback and the look last taken on differs from the authored first one; of the rest it is recalled after a gap exactly when the segments in between reach the threshold; gap, last_seen, state, appearance and extras likewise |
| Rosters.SegmentIs | assets/trackB/scripts/complete_gt.py:330-389 | every probe is set exactly when some label, some gone entity or the look-alikes call for it; the roster lists the gone once each, in the order of first removal, with the reason of the last, and then the unlisted twins in the order of the pair |
| Rosters.EntitiesAre | assets/trackB/scripts/complete_gt.py:415-426 | the registry is as authored, save that a stateful entity has no look of its own and names its first one |
| Rosters.PairIsNamed | assets/trackB/scripts/complete_gt.py:371-371 | an absent look-alike is grounded by the two names of its pair with a slash between them |
| Rules.CompilesIff | assets/trackB/scripts/complete_gt.py:172-399 | a story meets the memory rules exactly when every item, event and look-alike pair is as its author has to see to, and nobody removed is on screen later |
| Rules.GoldTells | assets/trackB/scripts/complete_gt.py:192-389 | on a story that compiles every segment and every label says so |
| TimelineLaws.LastSeenIsLatest | assets/trackB/scripts/complete_gt.py:241-244 | the backward search behind `gap` and `last_seen` finds the latest earlier appearance, and nothing when there is none |
| TimelineLaws.IntroducedOnce | assets/trackB/scripts/complete_gt.py:248-250 | an entity has at most one introduce label in a story |
| TimelineLaws.GapIsNegativeIffRepeated | assets/trackB/scripts/complete_gt.py:252-252 | all gaps are at least zero exactly when no segment lists an entity twice |
| TimelineLaws.LabelsPointBack | assets/trackB/scripts/complete_gt.py:239-284 | with distinct entities per segment every gap and last_seen measure back to one strictly earlier segment |
| TimelineLaws.CompiledCast | assets/trackB/scripts/complete_gt.py:213-312 | on a story that compiles the cast lists the present items one by one, all registered |
| TimelineLaws.RosterIsTheGone | assets/trackB/scripts/complete_gt.py:330-347 | the removal roster has exactly one entry per entity gone by the segment, grounded by its latest removal |
| TimelineLaws.GoneIsOffScreen | assets/trackB/scripts/complete_gt.py:172-183 | on a story that compiles nobody on the removal roster is on screen |
| TimelineLaws.RosterGrowsUnlessRemovedAgain | assets/trackB/scripts/complete_gt.py:324-334 | an entity stays on the roster to the next segment exactly when that segment does not remove it again, since a second removal overwrites the first |
| Stories.SecondRemovalLeavesTheRoster | assets/trackB/scripts/complete_gt.py:324-334 | a story that compiles in which an entity is removed twice, on the roster of one segment and off that of the next |
| TimelineLaws.RosterWithSingleRemovals | assets/trackB/scripts/complete_gt.py:316-347 | with one removal per entity the roster is exactly the entities removed in an earlier segment, each grounded by that segment, and it only grows |
| Decimal.ShotInvertsSegId | src/vmem_bench/testbed/controls.py:37-38 | reading back the id of segment i gives production shot i and segment number i + 1 |
| Decimal.SegIdInjective | assets/trackB/scripts/complete_gt.py:75-76 | different segments have different ids |
| LastSeenControl.BuildPlan | src/vmem_bench/testbed/controls.py:45-71 | the plan is built exactly when the ids align and no wanted entry is non-causal, and it is then the sorted plan of every segment |
| LastSeenControl.Chosen | src/vmem_bench/testbed/controls.py:130-139 | at most `budget` distinct shots, each this run's own and strictly earlier |
| LastSeenControl.ChosenMeans | src/vmem_bench/testbed/controls.py:130-139 | the shots taken are the planned ones with a clip of the run's own, once each in the order of the plan, and then the preceding one exactly when there is room, a clip of it, and it is not among them |
| LastSeenControl.StillsMean | src/vmem_bench/testbed/controls.py:141-149 | one reference for each source with a still, in order, named after the source |
| LastSeenControl.Selector.Sources | src/vmem_bench/testbed/controls.py:130-139 | the loop over the plan with its lazily read progress file returns the chosen shots |
| LastSeenControl.Selector.Select | src/vmem_bench/testbed/controls.py:141-149 | the references are the middle frames of the chosen shots, in order |
| LastSeenControl.UsableKeepsEachStillOnce | src/vmem_bench/testbed/runner.py:173-186 | every existing image still is kept exactly once and nothing else is |
| LastSeenControl.UsableMeans | src/vmem_bench/testbed/runner.py:173-186 | the references kept are the first with their still, in rank order |
| LastSeenControl.SourceOfIs | src/vmem_bench/testbed/runner.py:54-54 | a name gives a source exactly when it is a c, five digits and an at sign, and anything after |
| LastSeenControl.UsableReferences | src/vmem_bench/testbed/runner.py:173-186 | the loop with its seen set computes that filter |
| LastSeenControl.CheckCausal | src/vmem_bench/testbed/runner.py:189-202 | the guard passes exactly when every reference names a strictly earlier segment and lies in the run's own tree, and then returns those sources |
| LastSeenControl.RepIdReadsBack | src/vmem_bench/testbed/runner.py:54-54 | the guard's pattern reads a reference id back exactly for shots below 100000 |
| Causality.PlanNeverRaises | src/vmem_bench/testbed/controls.py:53-63 | on a compiled story with distinct entities per segment the planner never raises |
| Causality.PlanIsOldestFirst | src/vmem_bench/testbed/controls.py:65-66 | each shot's sources run oldest first and are all strictly earlier |
| Causality.PlanMeans | src/vmem_bench/testbed/controls.py:53-67 | the plan of a shot has one source for each character or prop in it that was shown before, the shot that showed it last, and nothing else |
| Causality.CompiledPlan | src/vmem_bench/testbed/controls.py:45-71 | end to end: the compiled story has one plan entry per shot, holding that shot's own sources |
| Causality.SelectedRefsPass | src/vmem_bench/testbed/runner.py:189-202 | what the selector returns passes the guard exactly when its source shot is below 100000; up to shot 100000 the guard never raises |
| Runner.LoadPromptStream | src/vmem_bench/testbed/runner.py:103-116 | segments are numbered from zero and keep their prompt, go by the id given or else by that of their place, and carry the transition given, in lower case, or else a cut; the first empty prompt is the error |
| Runner.Store.Observe | src/vmem_bench/testbed/store.py:93-113 | observing a clip advances the clock by its duration and appends the span |
| Runner.ObservedTiles | src/vmem_bench/testbed/store.py:102-104 | observing keeps the spans a tiling of [0, clock) |
| Runner.EveryInstantHasOneSegment | src/vmem_bench/testbed/store.py:5-8 | every instant before the clock lies in exactly one segment's span |
| Runner.EndedByTheClock | src/vmem_bench/testbed/store.py:5-8 | at the clock every observed segment has ended, so the retriever's causal gate admits only earlier segments |
| Runner.VideosOfSuccesses | src/vmem_bench/testbed/store.py:90-91 | after any run the store knows exactly the clips of the successful records |
| Runner.SpansOfSuccesses | src/vmem_bench/testbed/store.py:93-113 | the store has one span for each success, in order, with its prompt and as long as its clip, two seconds where no length can be read |
| Runner.ClipsAreTheirOwn | src/vmem_bench/testbed/runner.py:306-315 | different segments have different clips and keyframes |
| Runner.ClosedPrefix | src/vmem_bench/testbed/runner.py:226-236 | the longest prefix of numbered successes whose clips exist |
| Runner.ClosedIs | src/vmem_bench/testbed/runner.py:226-236 | a record is replayed exactly when it and all before it carry their own number, succeeded, and have a clip that is a file |
| Runner.RunStory | src/vmem_bench/testbed/runner.py:260-329 | the loop with its store, counters and progress file does what the run function says, from any saved progress file |
| Runner.Retrace | src/vmem_bench/testbed/runner.py:265-283 | the state rebuilt by replaying a stretch of successes is the one the run was in |
| Runner.ResumingIsTheSameRun | src/vmem_bench/testbed/runner.py:265-329 | resuming from any moment's progress file, failures included and whatever clips remain, ends exactly as the uninterrupted run |
| Runner.EveryRun | src/vmem_bench/testbed/runner.py:283-338 | ids count from zero, references are causal, the store is the replay of the successes, three failures in a row occur only at the end of a run that gave up, and successes plus failures account for every requested segment unless more were resumed; every record past the replayed ones tells what happened to its segment: the references its policy offered from the history before it, first with their still and in rank order, and what the backend answered when asked with that record's id, prompt and seed and the stills of those references one by one; and a run the guard ended was refused its next segment |
| Runner.LastSeenRunsAreCausal | src/vmem_bench/testbed/runner.py:285-286 | a run of the last-seen control with at most 100000 segments is never stopped by the guard |
| Prompt.SpotIs | assets/trackB/scripts/get_sut_prompts.py:117-124 | a name can go exactly where it reads in the action on characters that no name placed before it has |
| Prompt.Place | assets/trackB/scripts/get_sut_prompts.py:116-129 | a name goes to its leftmost occurrence disjoint from the spans taken, and to none exactly when there is none |
| Prompt.PlaceAll | assets/trackB/scripts/get_sut_prompts.py:112-129 | all names are placed so, each in its turn, in the order the caller gives |
| Prompt.PlacedNamesAreDisjoint | assets/trackB/scripts/get_sut_prompts.py:124-125 | placed names never share a character |
| Prompt.LeftmostIsUnique | assets/trackB/scripts/get_sut_prompts.py:112-129 | the placement rule leaves no choice |
| Prompt.Splice | assets/trackB/scripts/get_sut_prompts.py:134-136 | inserting from right to left equals cutting the original action at the insertion points |
| Prompt.UnweaveRestores | assets/trackB/scripts/get_sut_prompts.py:134-136 | taking the inserted texts out again restores the action exactly |
| Prompt.RevealsMean | assets/trackB/scripts/get_sut_prompts.py:93-109 | one reveal for each cast entry that introduces or transforms a registered entity that is not forbidden |
| Prompt.LongestFirst | assets/trackB/scripts/get_sut_prompts.py:110-110 | the longest names come first, names of one length in the order of the cast |
| Prompt.AppearanceStands | assets/trackB/scripts/get_sut_prompts.py:122-136 | the appearance of a placed name stands in brackets where the name ends, moved by what is inserted ahead |
| Prompt.RenderSegment | assets/trackB/scripts/get_sut_prompts.py:93-137 | the prompt of a segment: longest-first reveals, leftmost placement, one insertion per placed name, and removing them gives the action back |
| Units.BuildUnits | src/vmem_bench/scoring/identity_consistency.py:107-162 | the units are in the order of the story, at most one from each entry, each from an eligible entry with the states of both sides; an eligible entry of an operation wanted at gap 0 has one exactly when its own draw succeeds, the draws being made in document order, one for each such entry; every other entry of a stratum has one; and the audit counts the mismatches |
| Units.GivesIff | src/vmem_bench/scoring/identity_consistency.py:133-150 | which entries give a unit, in terms of the entry, its gap and the casts before it |
| Units.DrawsAreInOrder | src/vmem_bench/scoring/identity_consistency.py:109-113 | the draw of an entry is numbered by the entries that hang on one before it in document order |
| Units.MismatchIff | src/vmem_bench/scoring/identity_consistency.py:137-142 | when the audit ticks: an entry of a kind wanted, not introduced here, whose recorded segment is not the latest one before it that shows its entity |
| Units.UnitRecords | src/vmem_bench/scoring/identity_consistency.py:82-83 | what a unit records: bin, stratum, the numbers of both segments and the states after them |
| Units.PrevIsLastSeen | src/vmem_bench/scoring/identity_consistency.py:160-161 | the second program's last-seen map agrees with the compiler's backward search |
| Units.UnitsAgreeWithCompiler | src/vmem_bench/scoring/identity_consistency.py:140-142 | on a compiled story with distinct entities per segment the mismatch audit never ticks and every unit's gap is cur - prev - 1 |
| Flashbacks.StateIsFlashedOrRemembered | src/vmem_bench/scoring/identity_consistency.py:123-132 | the units' state of an entity is the look of the last flashback since its last transform or persist label, and without one the timeline's state: the latest transform, else the initial one |
| Flashbacks.UnitsKeepTheStateIff | src/vmem_bench/scoring/identity_consistency.py:123-132 | so it is the timeline's state exactly when there was no such flashback or it shows that state |
| Flashbacks.UnitStates | src/vmem_bench/scoring/identity_consistency.py:123-158 | both sides of every unit of a compiled story, in those terms |
| Stories.FlashbackMisleads | src/vmem_bench/scoring/identity_consistency.py:123-158 | a story that compiles whose unit takes an entity for painted on both sides, where the timeline says clean |
| Pooling.TallyTells | src/vmem_bench/scoring/identity_consistency.py:435-449 | a judgment counts once, and each counter says whether the judge said so |
| Pooling.CellsAre | src/vmem_bench/scoring/identity_consistency.py:463-468 | the cells of a unit, each counting it once, unless its kind is called "all" |
| Pooling.UnitsAddUp | src/vmem_bench/scoring/identity_consistency.py:471-473 | the tally of a cell and story adds up over any cut of the list of units |
| Pooling.OneUnitTallies | src/vmem_bench/scoring/identity_consistency.py:471-473 | one unit adds its own tally to the cells that hold it, in its own story alone |
| Pooling.Aggregate | src/vmem_bench/scoring/identity_consistency.py:545-551 | the per-cell, per-story dicts hold the sums of the judged units of that cell and story |
| Pooling.Pooled | src/vmem_bench/scoring/identity_consistency.py:498-502 | pooling a cell over a draw adds the stories' tallies, repeats included |
| Pooling.DrawsAddUp | src/vmem_bench/scoring/identity_consistency.py:498-502 | pooling adds up over any cut of a draw, one story giving its own tally |
| Pooling.PoolConserves | src/vmem_bench/scoring/identity_consistency.py:491-509 | for any draw of stories with repeats, a cell pools to the sum of the cells that split it |
| Pooling.AllSplitsByKind | src/vmem_bench/scoring/identity_consistency.py:463-468 | the `all` cell of a stratum is split by the kinds |
| Pooling.AllSplitsByKindAndGap | src/vmem_bench/scoring/identity_consistency.py:463-468 | the `all` cell of a stratum is split by the kind-by-gap cells |
| Pooling.MainSplitsByGap | src/vmem_bench/scoring/identity_consistency.py:466-467 | the main `all` cell is split by its gap cells |
| Pooling.SplitNeedsNoKindAll | src/vmem_bench/scoring/identity_consistency.py:465-465 | each unit counts once in the `all` cell of a stratum exactly when no kind is itself called "all" |
| Pooling.PooledTalliesAreBounded | src/vmem_bench/scoring/identity_consistency.py:436-449 | same <= both, same <= consistent <= visible B <= n and the rest, for every pooled cell |
| Scorer.ByEidKeepsDistinct | src/vmem_bench/scoring/end2end_coverage.py:144-146 | the dict by eid keeps the set of eids, and the whole cast when eids are distinct |
| Scorer.ByEidKeepsLast | src/vmem_bench/scoring/end2end_coverage.py:145-145 | of each entity the dict keeps the last entry alone |
| Scorer.FriendsAre | src/vmem_bench/scoring/end2end_coverage.py:151-154 | false friends are the introduced entries that name somebody they may be confused with |
| Scorer.DecoysAre | src/vmem_bench/scoring/end2end_coverage.py:156-158 | who can be a decoy: registered, not in the cast, not forbidden, and nobody a new look-alike may be confused with |
| Pooling.PooledRatesAreShares | src/vmem_bench/scoring/identity_consistency.py:452-460 | each of the seven rates of a pooled cell is its counter over its denominator to four digits, lies in [0, 1] and is absent exactly when the denominator is zero; rounded, consistent stays at most visible B, and both visible at most either side |
| Scorer.PrepSegment | src/vmem_bench/scoring/end2end_coverage.py:137-197 | the segment plan does not depend on the decoy top-up: with a sample of the drawn size that branch is never taken |
| Questions.Meta | src/vmem_bench/scoring/end2end_coverage.py:168-189 | the plan of questions covers the roster: state exactly for entities with a transform or persist entry, count exactly for those with a count, instance exactly for the look-alike members |
| Questions.AskTells | src/vmem_bench/scoring/end2end_coverage.py:168-189 | what is asked about an entity, in terms of the entries of the cast and the look-alikes |
| Questions.AskedAreShown | src/vmem_bench/scoring/end2end_coverage.py:142-189 | state and count are asked of nobody but the entities shown |
| Questions.OnlyAnswersCount | src/vmem_bench/scoring/end2end_coverage.py:183-400 | the counters hang on nothing but the answers to the questions put, provided every change of state that counts is asked about |
| Questions.CompiledAnswersCount | src/vmem_bench/scoring/end2end_coverage.py:183-400 | on a compiled segment that is so: answers that were not asked for change no counter |
| Scorer.MostCommon | src/vmem_bench/scoring/end2end_coverage.py:262-263 | the vote's winner is the first seen of the answers that no other answer outnumbers |
| Scorer.UnanimousVote | src/vmem_bench/scoring/end2end_coverage.py:257-272 | calls that agree on an entity elect exactly that answer |
| Scorer.VoteMeans | src/vmem_bench/scoring/end2end_coverage.py:257-272 | no answer is given by more calls than the elected one, and none given first before it by as many, for presence and for each question among the calls that answered it |
| TallyRun.Tally | src/vmem_bench/scoring/end2end_coverage.py:288-400 | the counter loops add up to the declarative marks of the segment |
| TallyRun.PoolArrivals | src/vmem_bench/scoring/end2end_coverage.py:541-569 | pooling over whatever order the workers finish in gives the pool over the segment list |
| TallyRun.CompletionOrderIsIrrelevant | src/vmem_bench/scoring/end2end_coverage.py:554-569 | two completion orders of the same results pool to the same counters |
| Counters.TallyCounts | src/vmem_bench/scoring/end2end_coverage.py:301-399 | every counter, taken alone, is the number of cast entries, forbidden entries, look-alike members or false friends that count towards it, or the size of its entity set |
| Counters.PrecisionMeans | src/vmem_bench/scoring/end2end_coverage.py:349-353 | precision is over the seen entities that are no locations, decoys aside, and a hit is one that is present |
| Counters.BucketsAre | src/vmem_bench/scoring/end2end_coverage.py:126-133 | the bins of the gap-decay curve |
| Counters.EntryMarksCount | src/vmem_bench/scoring/end2end_coverage.py:302-347 | a cast entry adds one to exactly the counters it counts towards |
| Counters.ForbiddenMarksCount | src/vmem_bench/scoring/end2end_coverage.py:356-369 | the avoidance counters are the numbers of forbidden entries of their reason, and of those seen |
| Tallies.TallyIsSound | src/vmem_bench/scoring/end2end_coverage.py:288-400 | for any votes every hit, ok and violation counter is at most its total, long gaps equal the >=30 bucket, and deprecation plus absent look-alike equal avoidance, opportunities and violations alike |
| TallyRun.PoolIsSound | src/vmem_bench/scoring/end2end_coverage.py:565-569 | the same holds of pooled counters |
| Judges.JudgeMatches | src/vmem_bench/scoring/end2end_coverage.py:288-400 | truthful votes win every total with no violation, confusion or decoy when no forbidden entity is on screen; all-true votes keep recall full and make every forbidden entry a violation and every decoy a false positive |
| Judges.ForbiddenMeetsCast | assets/trackB/scripts/complete_gt.py:349-372 | on a compiled segment the roster and the cast are disjoint exactly when no absent look-alike is on screen |
| Judges.ViolationsSeen | src/vmem_bench/scoring/end2end_coverage.py:356-360 | a violation is counted exactly when a forbidden entity is seen |
| Judges.CompiledSegmentScores | src/vmem_bench/scoring/end2end_coverage.py:288-400 | on a compiled segment the truthful judge is perfect exactly when no absent look-alike is on screen, and the yes-to-all judge scores as stated |
| Stories.TruthIsScoredAViolation | src/vmem_bench/scoring/end2end_coverage.py:288-400 | a story that compiles on whose segment no truthful votes are scored as perfect |
| Stories.TruthCanBeTold | src/vmem_bench/scoring/end2end_coverage.py:288-400 | there are truthful votes on that segment |
| Wilson.WilsonContainsRate | src/vmem_bench/scoring/end2end_coverage.py:445-454 | before clamping and rounding the interval lies in [0, 1] and contains the rate |
| Wilson.AvoidanceInterval | src/vmem_bench/scoring/end2end_coverage.py:581-585 | on sound pooled counters every avoidance interval is defined and contains the share of kept opportunities |
| Dispatching.SwapKeepsOrderIff | scripts/evaluate_baselines/trackB/run_stage1_multinode.py:456-460 | bringing job k to the head keeps the order of the other waiting jobs exactly when at most one job is skipped |
| Dispatching.SkippedJobsChangeOrder | scripts/evaluate_baselines/trackB/run_stage1_multinode.py:456-460 | three jobs of which the two skipped ones change places |
| Dispatching.Dispatcher.LaunchNext | scripts/evaluate_baselines/trackB/run_stage1_multinode.py:440-477 | a pass launches the first job that fits on the first slot it can use: every job ahead was refused every free slot in turn, and it every slot listed before, each at its own reading of the clock; without services, and on a clock that stands still meanwhile or with no cooldown, it is the head of the queue |
| Dispatching.HeadIsOvertaken | scripts/evaluate_baselines/trackB/run_stage1_multinode.py:444-455 | three jobs without services of which, on a clock that moves between readings, the last is launched second |
| Dispatching.LedgerAtLaunch | scripts/evaluate_baselines/trackB/run_stage1_multinode.py:456-475 | a launch keeps the queue a permutation whose first qi entries are exactly the running and the done |
| Dispatching.LedgerAtFinish | scripts/evaluate_baselines/trackB/run_stage1_multinode.py:505-508 | retiring a job keeps that and the job was not done before |
| Dispatching.ConservedAtLaunch | scripts/evaluate_baselines/trackB/run_stage1_multinode.py:461-473 | a launch keeps free slots plus running slots equal to the slots given, as multisets |
| Dispatching.ConservedAtFinish | scripts/evaluate_baselines/trackB/run_stage1_multinode.py:505-508 | so does retiring a job |
| Dispatching.SpacedAtLaunch | scripts/evaluate_baselines/trackB/run_stage1_multinode.py:448-472 | a launch on a node that is not cooling keeps launches on one node at least the stagger apart |
| Dispatching.Dispatcher.FindSlot | scripts/evaluate_baselines/trackB/run_stage1_multinode.py:446-453 | a slot found is free, past its cooldown and served; none found means every slot was refused |
| Dispatching.Dispatcher.LaunchJob | scripts/evaluate_baselines/trackB/run_stage1_multinode.py:456-475 | the swap, the slot taken and the job recorded, with all invariants kept |
| Dispatching.Dispatcher.Fill | scripts/evaluate_baselines/trackB/run_stage1_multinode.py:440-477 | it stops only with no slot, no job, or a whole pass in which every waiting job was refused every slot |
| Dispatching.Dispatcher.Reap | scripts/evaluate_baselines/trackB/run_stage1_multinode.py:483-508 | exactly those jobs go whose log has a sentinel, or has none while by the clock read for them they have run too long; each leaves the sentinel's code or 124, its slot is freed in the order of the list, and the others stay in theirs |
| Dispatching.Dispatcher.Round | scripts/evaluate_baselines/trackB/run_stage1_multinode.py:439-509 | a turn fills the slots and, unless nothing runs then, sleeps one poll and sweeps what runs; it ends the loop exactly if nothing does |
| Dispatching.Dispatcher.Run | scripts/evaluate_baselines/trackB/run_stage1_multinode.py:439-519 | the loop ends, with all slots back; the code is zero exactly when every job is done with code zero; each code is the one in the log of the job, or 124 for a job launched longer ago than it may run; jobs are left over only after a pass, a poll or more after every launch, that refused every waiting job every slot; with a cooldown no longer than a poll jobs are left over exactly when some job needs services and no slot's node was found ready, so none are where some slot's services answer all along; and where all jobs need services and only sleeping takes time, exactly when no slot's services answer at the start; where no job needs services, and only sleeping takes time or nodes need no cooldown, the launches are in the order of the jobs |
| Dispatching.GivingUpIsForServices | scripts/evaluate_baselines/trackB/run_stage1_multinode.py:446-455 | a loop that gives up when no node can be cooling leaves only jobs that need services, with no slot's node ready |
| Dispatching.WarmUpIsNotWaitedFor | scripts/evaluate_baselines/trackB/run_stage1_multinode.py:439-480 | a run with the defaults whose services come up four minutes in: its one job is left over and the code is one |
| Dispatching.CooldownIsNotWaitedFor | scripts/evaluate_baselines/trackB/run_stage1_multinode.py:439-480 | a run with a cooldown longer than a poll that leaves a job over although nothing needs services |
| Dispatching.AllOk | scripts/evaluate_baselines/trackB/run_stage1_multinode.py:515-519 | as many zero codes as jobs means every job is done with code zero |
| Dispatching.ZeroMeansEveryStreamRan | scripts/evaluate_baselines/trackB/run_stage1_multinode.py:515-519 | with codes made by the shell from its streams or recorded as 124 by the watchdog, all jobs are at zero exactly when every stream of every job returned zero and the watchdog recorded none |
| Dispatching.Dispatcher.RunStreams | scripts/evaluate_baselines/trackB/run_stage1_multinode.py:439-519 | the same of the exit code of a whole run |
| ReturnCodes.MergeAll | scripts/evaluate_baselines/trackB/baseline_runners/common.py:240-250 | folding the codes keeps the first failure |
| ReturnCodes.FailsFirstIsKept | scripts/evaluate_baselines/trackB/baseline_runners/common.py:240-250 | the merged code is the code of the first failing stream |
| ReturnCodes.ShellRcTells | scripts/evaluate_baselines/trackB/baseline_runners/common.py:253-261 | no code is an error, a signal N is 128 + N, an exit code of a byte is itself and any other its low byte |
| ReturnCodes.ShellSeesEveryFailure | scripts/evaluate_baselines/trackB/baseline_runners/common.py:253-261 | for signal and byte codes the shell's code is a byte and is zero exactly when every stream returned zero; for any codes, exactly when the first failure is zero or a positive multiple of 256 |
| JudgeCache.ParsedLabels | src/vmem_bench/scoring/visual_coverage.py:343-356 | a response that validates lists exactly its own ids, all allowed, distinct and sorted |
| JudgeCache.ParseIs | src/vmem_bench/scoring/visual_coverage.py:343-356 | exactly the responses in form are accepted, an empty list among them, and the labels are their ids in order |
| JudgeCache.InvHolds | src/vmem_bench/scoring/visual_coverage.py:434-493 | the locking, publishing and counting invariant holds in every state of every interleaving |
| JudgeCache.SingleFlight | src/vmem_bench/scoring/visual_coverage.py:434-493 | per key at most one valid response is ever obtained, none for a key on record, and all callers of a key return the same labels |
| JudgeCache.RecordsAreKept | src/vmem_bench/scoring/visual_coverage.py:391-411 | a stored record is never replaced or lost |
| JudgeCache.MutualExclusion | src/vmem_bench/scoring/visual_coverage.py:464-486 | two threads never hold the lock of one key |
| JudgeCache.NoDeadlock | src/vmem_bench/scoring/visual_coverage.py:464-486 | while some thread is unfinished some thread can step |
| JudgeCache.CachedEqualsUncached | src/vmem_bench/scoring/visual_coverage.py:434-493 | with a judge that is a function of the key every caller of a fresh key gets what an uncached call gives |
| VisualScore.Collect | src/vmem_bench/scoring/visual_coverage.py:923-931 | the worker pool puts results in place by index, whatever the completion order, and raises exactly when a caller raised |
| VisualScore.GatheredMeans | src/vmem_bench/scoring/visual_coverage.py:887-931 | a reference that raised raises for the segment unless the roster is empty; else each reference has its own labels, none where the roster is empty |
| VisualScore.ScoreSegment | src/vmem_bench/scoring/visual_coverage.py:843-984 | for any worker count and completion order the score is that of the callers' labels in order, and it is raised exactly when a caller raised |
| VisualScore.ScoreMeans | src/vmem_bench/scoring/visual_coverage.py:919-971 | precision is the share of the references that show something, recall that of the wanted entities reached, F1 their harmonic mean, each to four digits |
| VisualScore.F1IsBetween | src/vmem_bench/scoring/visual_coverage.py:694-697 | F1 lies between precision and recall |
| CachedScore.CallersGetTheExpected | src/vmem_bench/scoring/visual_coverage.py:434-493 | in any interleaving in which no call fails every caller that is done got the labels on record, else those of an uncached call, else an exception |
| CachedScore.ScoreThroughCache | src/vmem_bench/scoring/visual_coverage.py:843-984 | whether the callers run together or one after the other up to the first that raises, on fresh keys the score through the cache is the serial uncached score; with keys on record it is the score of the records; it is raised exactly when a caller raised, and where no call fails exactly when some record or answer is not valid; with all records as their responses say, exactly when some response is out of form |
| VisualScore.ScoreIgnoresOrder | src/vmem_bench/scoring/visual_coverage.py:933-971 | permuting the references does not change the score |
| VisualScore.AddingAReferenceKeepsRecall | src/vmem_bench/scoring/visual_coverage.py:957-971 | one more reference never lowers either recall |
| Threshold.YoudenThreshold | src/vmem_bench/scoring/embedding_consistency.py:356-365 | the loop reports the sample held by the rounded-record search, nothing for two empty lists, and divides by zero when one is empty |
| Threshold.ReportTells | src/vmem_bench/scoring/embedding_consistency.py:360-364 | the record of a threshold gives the share of positive and of negative samples that reach it and their difference, rounded |
| Threshold.ChosenIsHighest | src/vmem_bench/scoring/embedding_consistency.py:359-364 | the held sample's value has the same rounding as the true maximum |
| Threshold.SamplesSuffice | src/vmem_bench/scoring/embedding_consistency.py:359-362 | no real threshold does better than the best sample |
| Threshold.ReportsTheMaximum | src/vmem_bench/scoring/embedding_consistency.py:356-365 | the reported youden_j is the 4-digit rounding of the maximum of TPR - FPR over all real thresholds |
| Threshold.TiesGoLowestIff | src/vmem_bench/scoring/embedding_consistency.py:363-364 | the search ends on the lowest best threshold exactly when that one beats the rounded record before it and no later one beats the rounded maximum |
| Threshold.TiesCanGoHigher | src/vmem_bench/scoring/embedding_consistency.py:357-364 | a concrete input on which the documented tie rule fails |
| Threshold.RocAuc | src/vmem_bench/scoring/embedding_consistency.py:345-353 | the double loop computes the rounded Mann-Whitney statistic, or nothing for an empty side |
| Threshold.AucsAddToOne | src/vmem_bench/scoring/embedding_consistency.py:345-353 | unrounded AUC(pos, neg) + AUC(neg, pos) = 1 |
| Threshold.AucBoundsEveryThreshold | src/vmem_bench/scoring/embedding_consistency.py:345-353 | unrounded AUC is at least TPR(t) (1 - FPR(t)) for every threshold |
| Rounding.Round4IsIdempotent | src/vmem_bench/scoring/embedding_consistency.py:364-364 | rounding to four digits fixes its grid |
| Rounding.NearestOfHalf | src/vmem_bench/scoring/embedding_consistency.py:364-364 | halfway between two integers rounding goes to the even one |
| Rounding.RoundsToDigits | src/vmem_bench/scoring/embedding_consistency.py:364-364 | rounding goes to the nearest number with so many digits |
| Rounding.Round4Monotone | src/vmem_bench/scoring/embedding_consistency.py:364-364 | rounding to four digits is monotone |
| ConflictGate.IouIsARatio | src/vmem_bench/common/crop_identity_gates.py:11-20 | for all integer boxes the overlap is symmetric and lies in [0, 1] |
| ConflictGate.IouCountsCells | src/vmem_bench/common/crop_identity_gates.py:11-20 | the overlap is the unit squares shared over those covered, and zero where none is covered |
| ConflictGate.IouExtremes | src/vmem_bench/common/crop_identity_gates.py:11-20 | it is one exactly for equal boxes that are not empty, and zero exactly where no square is shared |
| ConflictGate.ScoreByWord | src/vmem_bench/common/crop_identity_gates.py:8-28 | three words in any case, three tenths apart, and a twentieth of the detector's score |
| ConflictGate.Component | src/vmem_bench/common/crop_identity_gates.py:92-99 | the stack search computes exactly what the start reaches, and at least two members |
| ConflictGate.Rank | src/vmem_bench/common/crop_identity_gates.py:101-114 | for any margin the winner is ranked before every other member and leads it by the margin, and there is none exactly when nobody does |
| ConflictGate.BuildAdjacency | src/vmem_bench/common/crop_identity_gates.py:74-86 | the pair loop links exactly the conflicting pairs of the group |
| ConflictGate.GroupByFrame | src/vmem_bench/common/crop_identity_gates.py:57-71 | every eligible proposal lands in exactly one group, that of its frame and kind |
| ConflictGate.SettleComponent | src/vmem_bench/common/crop_identity_gates.py:115-133 | the members of a component get their outcome, everything else is untouched |
| ConflictGate.Gate | src/vmem_bench/common/crop_identity_gates.py:45-134 | for any margin the array in place ends up as the declarative gate says |
| ConflictGate.GateAcceptsSurvivors | src/vmem_bench/common/crop_identity_gates.py:105-133 | accepted afterwards are exactly those accepted before that are ranked before all they reach and lead them by the margin |
| ConflictGate.CoincidingCrops | src/vmem_bench/common/crop_identity_gates.py:45-134 | of two comparable crops of one file, or sharing the threshold of the squares they cover, at most one is accepted afterwards, the one ahead by the margin; both are rejected where a positive margin is not reached |
| ConflictGate.OtherCropsAreLeft | src/vmem_bench/common/crop_identity_gates.py:57-86 | a crop that coincides with no comparable one is left as it came |
| ConflictGate.PairDecided | src/vmem_bench/common/crop_identity_gates.py:105-114 | of two crops that coincide with no third the one ahead by a positive margin stays |
| ConflictGate.GateLeavesNoConflict | src/vmem_bench/common/crop_identity_gates.py:51-56 | for any margin, afterwards no two accepted proposals of a frame and kind conflict |
| ConflictGate.VerdictNamesTheComponent | src/vmem_bench/common/crop_identity_gates.py:31-42 | a contested proposal passes exactly as a survivor, otherwise fails with the reason, and its verdict names exactly the other entities of its component |
| ConflictGate.PeersListMembers | src/vmem_bench/common/crop_identity_gates.py:115-133 | each other entity as often as it has members assigned to it |
| ConflictGate.RejectedReasons | src/vmem_bench/common/crop_identity_gates.py:31-42 | a rejected crop keeps its reasons, with the gate's at their end unless it was among them |
| ConflictGate.GatingTwiceIsGatingOnce | src/vmem_bench/common/crop_identity_gates.py:45-134 | for any margin, a second run changes nothing |
| ConflictGate.GateIgnoresOrder | src/vmem_bench/common/crop_identity_gates.py:45-134 | with a positive margin the accepted set does not depend on the order of the proposals |
| ConflictGate.SameInEveryOrderIff | src/vmem_bench/common/crop_identity_gates.py:101-114 | for any margin a proposal is accepted in every order or in none, except exactly those tied for the best score of their component where the margin is zero or less |
| ConflictGate.PeersAreOtherEntities | src/vmem_bench/common/crop_identity_gates.py:115-133 | the verdict of a contested proposal names no peer exactly when all it reaches is assigned to its own entity |
| ConflictGate.RejectsOnlyOtherEntitiesIff | src/vmem_bench/common/crop_identity_gates.py:52-56 | only crops in conflict with another entity are rejected exactly when every contested proposal is in conflict with another entity |
| ConflictGate.OneEntityAgainstItself | src/vmem_bench/common/crop_identity_gates.py:77-86 | two proposals of one entity with equal scores: both are rejected and neither names a peer |
| Dedup.BestForBucket | src/vmem_bench/common/attribute_dedup.py:43-51 | each bucket is represented by its best member: most known labels, best quality, lowest index |
| Dedup.BucketWinners | src/vmem_bench/common/attribute_dedup.py:53-56 | the winners, ranked |
| Dedup.SomeoneWins | src/vmem_bench/common/attribute_dedup.py:71-71 | there is always a kept index when `min` is taken |
| Dedup.Fill | src/vmem_bench/common/attribute_dedup.py:66-74 | the greedy filling meets the selection promise: filled indices are far from all kept before them, and others are left out only for being close or for want of slots |
| Dedup.SelectAttributeDiverse | src/vmem_bench/common/attribute_dedup.py:11-74 | misaligned inputs are the errors; otherwise the result is increasing, holds at most max_keep indices, and meets the selection promise |
| Dedup.SelectionIsDetermined | src/vmem_bench/common/attribute_dedup.py:19-25 | the promise determines the selection: two sets that meet it are equal |
| Dedup.WinnerIsBest | src/vmem_bench/common/attribute_dedup.py:43-51 | the winner of a bucket has its best quality and is the first that has |
| Dedup.KnownBucketsFirst | src/vmem_bench/common/attribute_dedup.py:21-24 | when not all buckets fit, none with fewer known labels is kept while one with more is dropped |
| Dedup.FilledAreFarApart | src/vmem_bench/common/attribute_dedup.py:71-73 | with a symmetric distance every filled index is at least min_distance from every other kept one |
| Wrap.TokenizeHighlight | scripts/packaging/annotate_long_video.py:326-349 | the runs spell the text, and a character is highlighted exactly when a match covers it |
| Wrap.LayoutRuns | scripts/packaging/annotate_long_video.py:352-369 | the nested loops compute the greedy layout |
| Wrap.LayoutsAreLossless | scripts/packaging/annotate_long_video.py:352-369 | every layout keeps all but the newlines |
| Wrap.NewlineSplits | scripts/packaging/annotate_long_video.py:358-361 | a newline ends its line: what comes before it and what comes after are laid out each on its own |
| Wrap.LinesAreCounted | scripts/packaging/annotate_long_video.py:352-369 | one line more than there are newlines and breaks |
| Wrap.GreedyIsLegal | scripts/packaging/annotate_long_video.py:363-367 | every line fits or is one character |
| Wrap.GreedyIsOptimal | scripts/packaging/annotate_long_video.py:352-369 | no other breaking into legal lines with the same newlines has fewer lines |
| Wrap.Caption | scripts/packaging/annotate_long_video.py:397-399 | text to lines, end to end: lossless with its highlights, legal and of least length |
| LogTail.EventLog.Emit | src/vmem_bench/annotation/pipeline_track_first/events.py:25-32 | each event is appended as one line |
| LogTail.Handler.Turn | src/vmem_bench/web/server.py:414-439 | one turn of the loop, from state and look to the new state and the bytes written |
| LogTail.PollWrites | src/vmem_bench/web/server.py:414-438 | what a turn writes: that it waits without a file; else a reset first exactly if the file is shorter than what was read, then data alone, or one ping exactly if there is nothing to read |
| LogTail.StripTells | src/vmem_bench/web/server.py:428-429 | stripping takes away white space alone, and all of it at both ends |
| LogTail.LinesAreTheText | src/vmem_bench/web/server.py:426-426 | the complete lines plus the buffer are the bytes read |
| LogTail.LinesResume | src/vmem_bench/web/server.py:424-426 | splitting what arrives with the rest in front is splitting all of it |
| LogTail.PollKeepsConsistent | src/vmem_bench/web/server.py:414-439 | for any look at the file whatever, the lines shown since the last reset are those of the bytes read |
| LogTail.PollInStep | src/vmem_bench/web/server.py:416-425 | a poll ends in step with the file exactly when the file was not cut short under it and had either visibly shrunk or still starts with all read before |
| LogTail.AppendOnlyStaysInStep | src/vmem_bench/web/server.py:414-439 | however the appends fall between polls, the bytes taken are the first `offset` of the log |
| LogTail.ShownIsAPrefix | src/vmem_bench/web/server.py:426-430 | in step with a log of records, the first records are shown whole and once, all of them once all is read |
| LogTail.TailIsFaithful | src/vmem_bench/web/server.py:414-439 | after any polls of a growing log the records shown are the first ones, and all of them once a poll has seen the whole log |
| LogTail.TruncationStartsAgain | src/vmem_bench/web/server.py:417-420 | an observed truncation restarts on the new log |
| LogTail.ClientReadsTheFrames | src/vmem_bench/web/server.py:409-433 | a client that follows section 9.2.6 of the WHATWG HTML Living Standard dispatches exactly the events of the frames |
| LogTail.ClientSeesTheLog | src/vmem_bench/web/server.py:402-441 | from log bytes to client events: one reset, then the first records, one message each |
| LogTail.ClientSeesEachLog | src/vmem_bench/web/server.py:402-441 | when a log is replaced and the first look at the next one finds it shorter than what was read, any number of times, the client gets for each log in turn one reset and then its first records, all of them when it was read to its end |
| LogTail.ReadBackIff | src/vmem_bench/web/server.py:430-430 | a data frame is read back exactly when its line holds no carriage return |

## Left out

- Compiler.Build: the manifest's counts, histogram, balance and warnings, and the wording and order of the errors, are not modelled; a declared state machine is assumed to list a state, where the source would raise an IndexError.
- Flatten.FlattenScenes: action texts arrive already stripped of white space.
- Prompt.RenderSegment: the appearance text of a reveal is a parameter, and warnings are not returned; the placement shows which names were not found.
- Units.BuildUnits: covers gold whose segments are numbered from one, as the compiler writes them; unit names and descriptions are left out and the gap-0 sampling draws are a parameter.
- Pooling.Pooled: bootstrap resamples are any list of stories; percentiles are left out. Cells are records, so a kind that contains the separator of the cell names is not modelled.
- Scorer.PrepSegment: the seeded decoy draw is any sample of the size it asks for; the questions are those of `Questions.Meta`, and the shuffle of the roster is any order.
- Decimal.ParseInt: accepts plain digits only, where Python's int also takes signs, underscores and white space.
- LastSeenControl.Selector.Select: the run's files, and which middle frames can be extracted, are fixed sets; the resumed progress file is a map from segment to clip.
- Runner.LoadPromptStream: prompts arrive already stripped of white space, lower case covers the ASCII letters, and durations and the story id are left out.
- Runner.RunStory: timings, log lines, the stitched film and the run manifest are left out; retrieval, generation and probing are deterministic functions and image files do not change during a run, so retrieval scores and arms are not recorded.
- Runner.ResumingIsTheSameRun: the selector's fallback to an old progress file is the same fixed map before and after the interruption.
- Dispatching.Dispatcher.Run: job names are distinct, logs are readable, and polls take at least a second; the text of a log is reduced to what its sentinel says, services are a function of node and time, the clock moves by any amounts, and shell scripts and the summary file are left out.
- JudgeCache.SingleFlight: threads of one process; other processes writing the same directory, crashes inside a write and hash collisions are left out.
- VisualScore.ScoreSegment: which of several exceptions is raised, timing fields and the detail record are left out.
- CachedScore.ScoreThroughCache: the raw response is a function of the key; each reference of the segment has its own caller, and callers of other segments may run beside them.
- ConflictGate.Rank: the members of a component are listed by index, where the source follows a set's own order; that decides only between equal best scores where no margin is asked for.
- ConflictGate.SettleComponent: members are visited in index order, where the source follows a set's own order, so the order inside the list of conflicting ids is not promised.
- Dedup.SelectAttributeDiverse: the distance is any total function of two vectors; vectors of unequal length, which raise, are left out.
- Wrap.TokenizeHighlight: the matches are whatever the regular expression engine returns, assumed nonempty, ordered and disjoint.
- Wrap.GreedyIsOptimal: widths of single characters are not negative and add up, as the source adds them.
- LogTail.Handler.Turn: sleeping, broken connections and file descriptors are left out; bytes are characters below 256.
- LogTail.EventLog.Emit: the record arrives as its JSON text; locking between writers is left out.
- Real numbers stand for floating point throughout; square roots are numbers with the required square.
- Model calls, video decoding, GPU launchers, the web pages, command lines, plan tables and the leaderboard are outside the model, as are `run_all.py` and the older v2 segment scorer.
