# Verification of AAT's guarantees

AAT runs API test plans: a graph of API nodes, plans of steps over it, fuzz cases on copies of a step's
setup, request templates, cleanup, and archives with their secrets taken out. This project models the
parts whose correctness is hardest to see from one function, keeps to the code's branches, orders and
constants, and proves what the code and its documentation promise of them.

- **Ordering.** `TopoOrder` is the theory of taking the least ready node; `EdgeCounts` keeps the counts.
  `Scheduler` (a plan's steps) and `ChainSort` (a backward chain) are both it; `SchedulerFacts` says what a
  schedule is of the steps alone. Go's maps are walked in any order: the methods take any element next, and
  their contracts leave the order no say.
- **Backward chaining.** `ChainGraph` says what is meant, the least set closed under the preferred
  satisfiers; `ChainConditions`, `ChainSearch`, `ChainChoice`, `ChainDecisions`, `ChainSort` and `Chain` are the program,
  and `ChainMeaning` says its results of the graph's fields alone. `RequiresCycles` and `CycleFinder` are the
  validator's search for cycles, `RequiresFacts` what it reports.
- **Fuzz runs.** `FuzzState`, `FuzzRunState` (what the program keeps, a class), `RunSpec` (one pass of the
  run loop, as a function), `RunLoop` (the loop, a class), then the invariants: `FuzzReuse`, `FuzzPlaces`,
  `FuzzRuns`, `FuzzTheorems`, `FuzzAccounts`, `FuzzReports`, `RunVerdict`, and `RunFromStart`, `RunExact`,
  `RunAtRisk`, `RunPlanned` for whole runs. `FuzzOutputs`, `FuzzFacts` and `RunEffects` say of the answers and
  of what was sent what outputs a case reads, when a setup is reused, and what a run leaves. Every answer the
  API may give is a parameter.
- **Redaction.** `Redact` works on byte strings, `RedactUtf8` and `RedactJson` on what is stored:
  `JsonString`, `JsonText`, `JsonRead`, `Utf8Text` and `UrlEscape` say what those texts mean. `RedactFacts`
  and `UrlFacts` say it byte by byte.
- **Templates.** `Template`, `Conditionals`, `Iterations` (with `BlockCopies` and `Separators`), `Scanner`,
  `Filling` and `Substitution` are the phases of filling a request, and `Rendering` is what its blocks mean;
  `RenderJson`, `RenderQuery`, `ListBlocks`, `ListTexts` and `SubstitutionFacts` say what a filled template
  then is. `TemplateScan`, `TemplateTrees`, `TemplatePaths`, `TemplateFacts`, `Patches`, `PatchLaws` and
  `PatchFacts` are the paths of values in a body.
- **Forms.** `Form`, `FormBody`, `FormTheorems`, `FormObjects`: form bodies written and read back. `FormFacts`
  and `FormReads` say of any value and any bytes what is sent and what is read.
- **Cleanup.** `RunStates`, `CleanupSkip`, `CleanupChain`, `Cleanup`, `CleanupRunning`, `CleanupPlan`,
  `CleanupCycles`; `CleanupReads` and `CleanupFacts` say what a cleanup sends and when it is left out.
- **Retry and repeat.** `RetryRules`, `Retry`, `Cursors`, `Collecting`, `Repeat`, `RepeatTheorems`;
  `RetryFacts` and `RepeatFacts` say of the attempts and responses what is sent again and why it stops.
- **Addons.** `Addons`, `AddonPlans`, `AddonOrder`, `AddonNames`, `AddonLists`, `AddonTheorems`, `AddonExact`
  and `AddonMerges` are composing, `Compose` and `ComposeRun` the program; `AddonRefs` and `AddonRuns` are the
  composed plan once the references inside it are dependencies too; `AddonPlaces` and `AddonFacts` say where
  an addon goes and what becomes of its steps.

Three promises turned out false of the program. Each has its exact condition here:

- A run passes although a finding on the plan's own fail list stands against it, when the case was not
  sent because its setup failed. It can happen to a plan exactly when the plan has such a case at risk
  (`RunAtRisk.TellsAllIff`).
- A paging step with two or more cursors can stop for a loop no request made: the key it compares joins
  cursors without escaping them. It tells cursors apart exactly when there is at most one
  (`Cursors.KeysTellIffOne`, `RepeatTheorems.LoopsAreRealIffOne`).
- A cycle with no cycle-breaker on it can go unreported, hidden by a breaker elsewhere
  (`RequiresCycles.BreakerHidesCycle`). It cannot where no edge of it also closes a cycle with a breaker on
  it (`RequiresCycles.ClearCycleIsReported`), so in any component without breakers, nor in a graph that has
  one such cycle for those it has (`RequiresCycles.ReportsIffRealCycle`).

A fourth is false of composition alone. It leaves a step without the dependency on its insertion step exactly
when that step depends on itself and on no other step of its template (`AddonExact.AlwaysBehindIff`). No such
step runs: a step that depends on itself makes validation reject the plan (plan/validate.go:390-392), and in a
plan it does not reject, every step of an addon runs behind its insertion step (`AddonRuns.AddonsRunBehind`).

Where code and documentation part, the code is followed:

- docs/user/fuzzing.md has the findings of the fail list fail the run; engine/engine.go:351-365 reports a
  not-sent one without looking at it.
- docs/user/templates.md:270 says that a block inside another is not repeated for each element of the outer
  one; adapter/template.go:692-735 repeats it (`Substitution.InnerIsRepeated`).

## Model

| member | source | states |
|---|---|---|
| TopoOrder.GreedyAgree | engine/scheduler.go:59-88 | two orders that always take the least ready node are one order |
| TopoOrder.GreedyIsLexLeast | engine/scheduler.go:59-88 | taking the least ready node gives the first, by that order, of all the orders the dependencies allow |
| TopoOrder.KahnLeavesTheBlocked | engine/scheduler.go:90-99 | what is left when nothing is ready is exactly what has a cycle before it |
| TopoOrder.KahnCompletesIffAcyclic | engine/scheduler.go:90-99 | every node is taken exactly when there is no cycle |
| EdgeCounts.TakeLowers | engine/scheduler.go:82-88 | taking a node lowers the count of exactly its dependents, each by one, though dependencies are listed twice |
| EdgeCounts.ReadyIsCountZero | engine/scheduler.go:55-60 | a count of zero means every dependency has been taken |
| Scheduler.TopologicalSort | engine/scheduler.go:15-102 | sorts exactly when the dependencies but for self-dependencies are acyclic, always taking, of the ready steps, the one of the least index in the plan; otherwise names the steps behind a cycle |
| Scheduler.ScheduleIsLexLeast | engine/scheduler.go:51-54 | of all orders that respect the dependencies, the schedule keeps closest to the plan's order |
| Scheduler.OrderedPlanRunsAsWritten | engine/scheduler.go:51-54 | a plan whose order already respects its dependencies runs as written |
| SchedulerFacts.SortedIsFirstInOrder | engine/scheduler.go:15-102 | a schedule has each step once, behind the other steps it names, and of all such orders follows the plan as written the longest |
| SchedulerFacts.StuckIsDeadlock | engine/scheduler.go:90-99 | sorting fails exactly when no such order is, and the error names the most steps that all wait for one another |
| Names.SortStrings | graph/chain.go:449-459 | the in-place insertion sort orders its array and keeps what is in it |
| Names.InsertSorted | graph/chain.go:462-471 | inserting a new name keeps the queue ascending, with that name added and nothing lost |
| ChainGraph.LeastClosureExists | graph/chain.go:77-81 | there is a least set that holds the goals and the preferred satisfier of every token its members ask for |
| ChainSearch.SearchBack | graph/chain.go:136-191 | visits exactly the least set closed under all satisfiers, stopping at cycle-breakers, and tells of each breaker once |
| ChainChoice.ResolveTokens | graph/chain.go:193-271 | picks the preferred satisfier of every token, tells of every choice there was, by token, and prunes nothing the least closure needs |
| ChainChoice.PruneUnchosen | graph/chain.go:243-270 | pruning for one token takes no node of the least closure, nor any other token's satisfier |
| ChainChoice.KeepReachable | graph/chain.go:273-288 | what stays reachable is exactly the least closure, with exactly its edges |
| ChainSort.ChainTopoSort | graph/chain.go:385-436 | sorts exactly when acyclic, always taking the alphabetically first ready node |
| Chain.BackwardChain | graph/chain.go:81-337 | fails exactly on no goals, unknown goals, conditions that cannot be evaluated, or a cycle among the chain's own edges; otherwise gives the least closure, its edges, entry nodes and the decisions told |
| ChainMeaning.NoneIncludedWithoutEvaluator | graph/chain.go:101-111 | without an evaluator no condition is included: the chain is what its goals need |
| ChainMeaning.IncludedHold | graph/chain.go:112-134 | with one, a condition is included exactly when it holds and excluded exactly when it fails, in the order listed |
| ChainMeaning.NodesAre | graph/chain.go:136-288 | the chain is the least set with its goals, what included conditions require, and of each token asked for its first preferred satisfier, or else its first |
| ChainMeaning.EdgesAre | graph/chain.go:193-288 | its edges run exactly from that satisfier to the members that ask for the token |
| ChainMeaning.ChainIsInOrder | graph/chain.go:290-315 | satisfiers stand before those that ask for them and what a condition requires before what it names as later, and the order is the alphabetically first such |
| ChainMeaning.CycleMeansNoOrder | graph/chain.go:306-315 | a chain fails on a cycle exactly when no order of its nodes is such |
| ChainMeaning.EntriesComeFirst | graph/chain.go:320-334 | the entry nodes are exactly those that nothing in the chain, themselves included, is to stand before |
| ChainMeaning.DecisionsTell | graph/chain.go:195-241 | a choice is told of exactly the tokens with several satisfiers that a node walked to asks for, and a stop of each breaker walked to |
| Chain.ChainIsDetermined | graph/chain.go:81-337 | whatever order maps are walked in, two runs give one chain in one order, one set of edges and of decisions, and the same entry nodes |
| Chain.ChainIsFirstOrder | graph/chain.go:385-436 | the chain is the alphabetically first of all orders its edges allow |
| Chain.EdgeChoicesAreTold | graph/chain.go:213-228 | every edge of the chain whose token had another satisfier has its choice told, with that alternative |
| Chain.ChoicesOutsideAreTold | graph/chain.go:195-228 | a chain that succeeds can tell a choice for a token none of its nodes asks for: the node asking was itself passed over |
| Chain.EntriesAreReadyWithoutSelfEdge | graph/chain.go:320-334 | the entry nodes are the nodes with nothing before them, but for those with an edge to themselves |
| Chain.SelfSatisfierHidesEntry | graph/chain.go:320-334 | a goal that satisfies its own token gives a chain with no entry node |
| CycleFinder.Finder.Dfs | graph/validate.go:449-478 | the coloured search, with its parents, does what the walk over a stack does |
| CycleFinder.DetectRequiresCycles | graph/validate.go:437-503 | the validator's search reports exactly what walking the graph from every node does, in whatever order maps give |
| RequiresFacts.ReportsAreLoops | graph/validate.go:437-503 | each node of a reported path satisfies a token the next requires, it ends where it began, and none of its nodes breaks cycles |
| RequiresFacts.ReportsIffLoop | graph/validate.go:437-503 | in a graph without cycle-breakers something is reported exactly when there is such a path |
| RequiresCycles.ReportsAreRealCycles | graph/validate.go:452-472 | every path reported is a cycle of the graph with no cycle-breaker on it |
| RequiresCycles.ClearCycleIsReported | graph/validate.go:433-503 | in every order of walking something is reported, if there is a cycle no edge of which also closes a simple cycle with a breaker on it |
| RequiresCycles.ComponentWithoutBreaker | graph/validate.go:433-503 | a cycle whose strongly connected component holds no breaker is such a cycle |
| RequiresCycles.ReportsIffRealCycle | graph/validate.go:433-503 | unless every breaker-free cycle has an edge that also closes one with a breaker, something is reported exactly when there is a breaker-free cycle |
| RequiresCycles.ReportsIffCyclic | graph/validate.go:433-503 | without breakers, something is reported exactly when the graph has a cycle |
| RequiresCycles.BreakerHidesCycle | graph/validate.go:433-503 | a graph, and an order of walking it, whose breaker-free cycle goes unreported |
| RequiresCycles.PassingGraphFailsOnlyOnBefore | graph/chain.go:290-315 | in a graph that passes and hides nothing, a chain can only have a cycle through a condition's before |
| FuzzRunState.FuzzRun.BeforeSetupCopy | engine/fuzz.go:868-899 | decides on a copy by its group's state alone, and leaves the state that decision stands for |
| FuzzRunState.FuzzRun.Rebuild | engine/fuzz.go:907-916 | a case is sent again exactly once, and only if it reused a setup and got a stale answer |
| FuzzRunState.FuzzRun.SetupCopyFailed | engine/fuzz.go:927-939 | a failed copy empties its group, and the third failure in a row stops the target |
| FuzzTheorems.RunsAreSound | engine/fuzz.go:700-955 | over every run: each case sent on a copied setup stood on one whole successful build no case had changed since, and no target is tried after three setups in a row failed |
| FuzzTheorems.PassKeeps | engine/engine.go:292-464 | each pass keeps the run's place in the queue and the soundness of every target's history |
| FuzzFacts.ReusesIff | engine/fuzz.go:868-899 | over every run: a case stands on an earlier case's setup exactly when its target may reuse, three copies did not just fail in a row, and some whole build was only stood in for, read, or asked by cases turned away since |
| FuzzFacts.SentAgainIff | engine/fuzz.go:907-916 | over every run: a case and its copies come again exactly when its copies were stood in for and the answer says that what they made is gone |
| FuzzFacts.SentCameThrough | engine/engine.go:393-425 | over every run: each copy a build counts was sent for it and came through as its step should, known issues aside |
| FuzzOutputs.CasesReadTheirSetup | engine/fuzz.go:868-899 | over every run: when a case is sent, each copy of its setup has the outputs that the copy sent on the build the case stands on answered, whether sent for this case or stood in for |
| RunSpec.PassOnceProgresses | engine/engine.go:388-440 | each pass comes closer to the end, though a rebuild puts copies and the case back in the queue |
| FuzzReports.RunsBalance | engine/engine.go:292-464 | a run that is not interrupted reports each case whose target got through once and in order, and counts as skipped exactly the copies it never sent |
| RunVerdict.OutcomeSaysTrue | engine/engine.go:467-624 | a run passed exactly when no line of its results is to blame and the verification passed, and gates as passed exactly when also nothing was covered by a known issue |
| RunVerdict.OutcomeNeverRecovers | engine/engine.go:446-464 | once a run has failed, nothing later makes it pass |
| RunVerdict.PassesAgainstItsFailList | engine/engine.go:351-365 | a whole run that passes although its fail list names a finding it reports |
| RunAtRisk.TellsAllIff | engine/engine.go:351-365 | whatever the API answers, runs of a plan pass exactly when neither a result nor a finding of its fail list stands against them, if and only if no case with a copied setup, of a target in the plan, has its not-sent finding on the fail list |
| RunFromStart.RunsAreGood | engine/engine.go:292-464 | every run, whatever is answered, ends, with sound reuse, balanced reports and an outcome its results bear out |
| RunLoop.Engine.Pass | engine/engine.go:292-464 | one pass of the loop over the class's fields does what the step of the model does |
| RunLoop.Engine.RunAll | engine/engine.go:292-464 | the whole loop, in place, is the model's run |
| RunEffects.EveryRequestIsTold | engine/engine.go:355-495 | each request sent has a line in the results, but for one whose case is sent again, and each case not sent has one |
| RunEffects.OutputsAreLastLeft | engine/engine.go:407-583 | over every run that is not interrupted: a step that is no setup copy has the outputs of its last answer that left any, and no others |
| RunEffects.CleanupIsOwed | engine/engine.go:407-583 | over every run: cleanups are registered for exactly the answers that left something, in their order |
| RunEffects.CaseLinesAreTrue | engine/engine.go:442-445 | over every run: a case judged says truly whether its setup was its own, reused or built again, and whether it was sent before |
| RunEffects.GoesOnIff | engine/engine.go:497-610 | which answers let the plan go on behind a step |
| RunEffects.CheckpointIff | engine/engine.go:524-610 | it stops at its checkpoint exactly when that step would let it go on |
| RunEffects.NothingAfterTheEnd | engine/engine.go:295-301 | behind its end no step of the plan is sent or changes anything |
| RunEffects.NotVerifiedAfterTheEnd | engine/engine.go:275-290 | and what verification would come to changes nothing |
| RunEffects.BlamedIff | engine/known_issue.go:42-68 | a plan step's line is to blame exactly when its answer is not as planned and no active known issue covers it, which never covers an error |
| RunOrder.Order | engine/fuzz.go:770-789 | the plan's own steps first, then what runs after them, each in the order given, and each case's copies noted in order |
| RunOrder.PickedAre | engine/fuzz.go:759-789 | the steps run first are exactly those that are neither copies nor cases on copies, in the order given, and those run later the others |
| RunOrder.OrderIsPermutation | engine/fuzz.go:770-789 | the two lists hold each planned step as often as the plan does: none is lost or run twice |
| RunOrder.OrderStaysValid | engine/fuzz.go:770-789 | the reordering respects the dependencies if no step of the plan depends on a case or a copy |
| RunOrder.OrderBreaksWithSuch | engine/fuzz.go:770-789 | with such a step it can break them |
| RunPlanned.RunPlan | engine/engine.go:225-464 | ordering a planned list of steps and cases, then running it, ends in a good run from that start |
| Redact.NewRedactor | archive/redact.go:87-110 | every form of every secret, as it is and escaped for a URL's query and path, is kept to compare whole strings with; those of eight bytes and more are searched for, the longest first |
| Redact.RedactWith | archive/redact.go:113-150 | what is written masks exactly the stretches the forms cover, in one pass |
| RedactFacts.RedactedIs | archive/redact.go:87-150 | a text that is a secret, or one escaped for a URL, is replaced whole; in any other each maximal stretch that such texts of eight bytes and more cover gives way to one marker, and the rest stays |
| Redact.NoFormSurvives | archive/redact.go:113-150 | no stretch left standing holds a form, or overlaps one |
| Redact.CleanTextIsKept | archive/redact.go:113-150 | a text that holds no secret is kept as it is |
| RedactUtf8.RedactedIsValid | archive/redact.go:113-150 | UTF-8 stays UTF-8 |
| RedactUtf8.RedactedReadsBack | archive/redact.go:113-150 | so writing the redacted text as JSON and reading it loses nothing |
| RedactJson.RedactText | archive/redact.go:218-257 | the in-place scan of a text that is JSON redacts its string values, bytes outside them untouched; any other text is left alone |
| RedactJson.RedactedTextMeans | archive/redact.go:215-257 | the result is JSON again, means the redacted value, has the same keys, numbers and spacing, and differs only in string values that held a secret |
| JsonRead.MarshalReadsBack | archive/redact.go:247-253 | a string written as JSON reads back as itself, each byte outside UTF-8 as U+FFFD |
| UrlEscape.QueryRoundTrip | archive/redact.go:93-101 | unescaping undoes escaping for a query |
| UrlEscape.PathRoundTrip | archive/redact.go:93-101 | and for a path segment |
| UrlFacts.QueryBytes | archive/redact.go:93-101 | how each byte is written in a query |
| UrlFacts.PathBytes | archive/redact.go:93-101 | and in a path segment |
| UrlFacts.DecodedIsSpelled | archive/formbody.go:71-78 | what a text decodes to is what it spells, byte by byte |
| UrlFacts.SpelledDecodes | archive/formbody.go:71-78 | and every text that spells bytes decodes to them |
| Template.FindBlockClose | adapter/template.go:197-213 | the loop finds the first closing tag that no block of the same name takes before |
| Template.BlockClosesAtItsOwn | adapter/template.go:190-213 | in a well-nested template that is the block's own closing tag |
| Conditionals.ExpandIsPrune | adapter/template.go:630-660 | expanding the leftmost block again and again comes to deciding every conditional in the tree at once |
| Conditionals.PrunedHasNoCond | adapter/template.go:630-660 | which leaves no conditional, and all else well nested |
| SubstitutionFacts.ExpansionKeeps | adapter/template.go:630-684 | the tags kept are exactly those in whose every conditional block some named input is there, not null and not empty |
| Iterations.ExpandIterationBlocks | adapter/template.go:686-797 | filled, the expanded template is each block's body once for each element of its list, each copy with that element's values and index, blocks inside blocks with the outer element's; an error exactly when some block reached has an input that is no list |
| Separators.TokensAlike | adapter/template.go:737-769 | what joins a block's copies does not depend on the numbers of the placeholders earlier blocks left |
| Separators.LikeSeparate | adapter/template.go:737-769 | nor on what a tag of the body says, as long as it writes an equals sign where it did: bodies that differ in one tag are joined alike |
| Substitution.Substitute | adapter/template.go:583-628 | the three phases, in any context and at any nesting, come to what the template's structure means: conditionals decided, lists repeated, each value escaped for where it lands; or the error of one input that is no list |
| SubstitutionFacts.FillsKept | adapter/template.go:585-624 | a template that repeats nothing fails exactly when a placeholder that is kept lacks its input; else it is the kept text with those inputs' values |
| ListTexts.BlockIsArray | adapter/template.go:737-769 | a block inside brackets of a JSON body comes to the JSON array of exactly the list's elements, in order, for strings in quotation marks as for bare values |
| ListTexts.ElementsHaveCommas | adapter/template.go:737-769 | wherever a block's copies bring no separator of their own, they have commas between them |
| ListTexts.PathListHasCommas | adapter/render.go:154-171 | a list in a path before its query is its elements, each one segment, with commas between them |
| ListTexts.FormListIs | adapter/render.go:159-183 | a list right behind a form key repeats the pair; anywhere else its elements have commas between them |
| Values.JsonMeans | adapter/render.go:185-244 | a value written as JSON means that value |
| Substitution.InnerIsRepeated | adapter/template.go:692-735 | a block inside another is repeated for each element of the outer one |
| ListBlocks.EachElementIsSent | adapter/template.go:737-769 | a block that writes a pair of an element or of its field, behind any template of a form body, with the ampersand in the block or in front of it, adds exactly the pairs of its elements, which decode to them, lists one by one; an empty list adds nothing |
| ListBlocks.WherePairsBegin | adapter/template.go:737-769 | such a block may stand at the start of a body and behind any template that ends in an ampersand |
| Filling.Fill | adapter/render.go:123-183 | the scanner, fed the literals alone, escapes each value for the state the literals before it leave |
| RenderJson.InStepIff | adapter/render.go:126-171 | over values outside strings being JSON: every filling leaves the scanner where a JSON reader stands, exactly when no value follows a backslash |
| RenderJson.AlwaysInStepIff | adapter/render.go:126-171 | over all values, exactly when every value also stands inside a string literal |
| RenderQuery.FormSplitsIntoPairs | adapter/render.go:126-183 | a filled form body splits into exactly the template's pairs, and one for each element of a list right after its key: no value adds or ends a pair |
| RenderQuery.UrlSplitsIntoPairs | adapter/render.go:126-183 | in a path, no value begins the query, and the query splits likewise |
| RenderQuery.ListBecomesPairs | adapter/render.go:173-183 | a list right after its key becomes a pair for each element, which decodes to that element |
| RenderQuery.ValueBecomesPair | adapter/render.go:154-183 | any other value ends its pair, which decodes to its text |
| RenderQuery.PathValueReadsBack | adapter/render.go:154-171 | a value in a path is one segment, which decodes to its text |
| TemplateScan.ScanJSONTemplate | adapter/message_paths.go:110-264 | the scan over a stack of containers succeeds exactly when they close, with an event for each value |
| TemplateFacts.ScanMeans | adapter/message_paths.go:110-264 | over any tokens, blocks included: which are read as one object, and what each reports, by its place in the containers around it and the blocks opened before it |
| TemplateTrees.ScanReports | adapter/message_paths.go:110-264 | over the tokens of a JSON object it reports its tree's values, in order, each at its path |
| TemplatePaths.EveryPathAddresses | adapter/message_paths.go:110-264 | each reported path leads, in the body however filled, to the value it was reported for |
| TemplatePaths.EachValueOnce | adapter/message_paths.go:110-264 | every value inside the object is reported, and two reports of one path are two placeholders in one string |
| Patches.PatchBody | adapter/request_fields.go:265-354 | which of the four errors it fails with, and when; otherwise the body with that value set or removed |
| PatchFacts.ChildIs | adapter/request_fields.go:341-354 | the elements and fields a path leads to: an index is a decimal number with any sign and leading zeros that the array has |
| PatchLaws.SetReadsBack | adapter/request_fields.go:283-315 | a value set is the value then found there |
| PatchLaws.SetAgain | adapter/request_fields.go:283-315 | setting twice is setting the last |
| PatchLaws.SetOfSame | adapter/request_fields.go:283-315 | setting the value found at a path changes nothing |
| PatchLaws.SetsIff | adapter/request_fields.go:283-315 | a value can be set exactly in an object that is there, or in place of an element that is |
| PatchLaws.RemovesIff | adapter/request_fields.go:283-339 | a value can be removed exactly where there is one |
| PatchLaws.SetLeavesRest | adapter/request_fields.go:283-315 | what is on no path to the value set stays as it was |
| PatchLaws.RemoveLeavesRest | adapter/request_fields.go:283-339 | what parts from the removed path before its last key stays as it was |
| PatchLaws.RemovedFromArray | adapter/request_fields.go:318-339 | removing an element moves exactly the later ones, each one down |
| PatchLaws.RemovedFromObject | adapter/request_fields.go:300-315 | removing a field takes it and leaves every other |
| Form.AppendFormValue | adapter/form.go:285-310 | appends a pair for each scalar of a nested value, in order, under the key that says where it belongs |
| FormFacts.PairsAreScalars | adapter/form.go:285-310 | for any value and key: one pair for each scalar in it, in order, under the key with each map's name and each nested element's index in brackets, a trailing [] dropped before an index |
| FormFacts.PairIsWritten | adapter/form.go:346-352 | a pair byte by byte: brackets of a key are kept, all else is as in a query |
| FormFacts.BodyGrows | adapter/form.go:225-231 | a body is its pairs with ampersands between them |
| FormObjects.PairsAreSent | adapter/form.go:285-310 | the keys of those pairs are the paths to the scalars, a list's by repeating its key or, for maps and lists in it, by index |
| FormTheorems.BodyReadsBack | archive/formbody.go:51-78 | the pairs read from a form body are the pairs written, whatever bytes they hold |
| FormBody.FormObject | archive/formbody.go:80-153 | reading field by field into the object is adding each field to it in turn |
| FormReads.FieldsAre | archive/formbody.go:51-78 | of any text: a field for each part between ampersands that is not empty, cut at its first equals sign, unescaped where it can be |
| FormReads.PathIs | archive/formbody.go:98-125 | of any key: the path it spells in brackets, at most 32 steps deep, or else one name |
| FormReads.FieldSets | archive/formbody.go:127-153 | what stands at a field's path after it: the value, a list of it, or the list it adds to |
| FormReads.FieldLeaves | archive/formbody.go:127-153 | and what stands elsewhere: as before, and on its way maps |
| FormObjects.KeySplits | archive/formbody.go:98-125 | a key written for a path of names splits into that path |
| FormObjects.ObjectReadsBack | archive/formbody.go:80-153 | the object read back from a body is the value sent, a list of one as its element and a list of maps as a map by index |
| RunStates.RunState.StoreOutputs | engine/run_state.go:20-26 | keeps steps in the order they first stored outputs |
| RunStates.SourcesAre | engine/engine.go:1014-1041 | a step's inputs come from the plan's steps and its own fuzz case's, from no other case's |
| RunStates.LaterComesFirst | engine/engine.go:1014-1041 | of two steps of one owner, the one that ran later supplies first |
| RunStates.OwnComesFirst | engine/engine.go:1014-1041 | a case's own steps supply before the plan's |
| CleanupSkip.ResolveCleanupInputs | engine/cleanup_skip.go:10-46 | each input is what the nearest step that has it gives |
| CleanupReads.CleanupInputsAre | engine/cleanup_skip.go:10-46 | each input is what the nearest step of its chain that has one gives; else the step that registered it; else the latest step of its own case to store one, and then of the happy path |
| CleanupSkip.ReleasingStep | engine/cleanup_skip.go:100-120 | names the first step that released what the cleanup would, or none when none did |
| CleanupSkip.DecideSkip | engine/cleanup_skip.go:48-87 | skips or sends by the first reason that holds |
| CleanupSkip.OneDecision | engine/cleanup_skip.go:48-87 | and no two decisions fit one entry |
| CleanupFacts.LeftOutIff | engine/cleanup_skip.go:48-133 | the first entry of a chain is left out exactly when a later main step did its work, the first of which it names, or its condition does not hold |
| CleanupFacts.LeftOutLater | engine/cleanup_skip.go:48-133 | further on only a condition leaves an entry out, read from the outputs of the step before |
| Cleanup.CleanupStack.Push | engine/cleanup.go:31-33 | puts an entry on top of those there are |
| Cleanup.CleanupStack.Filter | engine/cleanup.go:40-49 | keeps exactly the entries wanted, in order |
| CleanupChain.GuardMeansCycle | engine/cleanup.go:119-135 | the guard against cleanup cycles fires only on a graph that has one |
| CleanupChain.GuardIsDead | engine/cleanup.go:119-135 | so on a validated graph it never does |
| CleanupRunning.CleanupRun.NextID | engine/cleanup.go:73-82 | the first ID of its form nothing has |
| CleanupRunning.CleanupRun.RunCleanupChain | engine/cleanup.go:102-161 | a chain's results, skips and IDs, each entry fitted to what the entries before it did |
| CleanupFacts.GoesOnIff | engine/cleanup.go:102-161 | a chain goes on exactly behind a step that went well and whose node has another cleanup, with that one |
| CleanupFacts.RecordIs | engine/cleanup.go:163-196 | a step records the answer to its own request, and fails without one |
| CleanupPlan.PairedCleanupNodes | engine/engine.go:762-778 | the least set that holds each step's cleanup and what its chain reaches |
| CleanupPlan.RunCleanup | engine/engine.go:650-723 | declared cleanups the outcome asks for run first, then the stack from the last pushed, each with its chain, whatever fails |
| CleanupFacts.WhatBegins | engine/engine.go:650-723 | which cleanups begin, and in what order: unpaired declared ones that ask for the outcome, then the entries that may run from the last pushed |
| CleanupFacts.MainStepsAre | engine/engine.go:650-723 | the steps that can release a cleanup are the plan's own, in order |
| CleanupPlan.EntryGivesOne | engine/cleanup.go:84-161 | every entry leaves a first result or a skip of its own |
| CleanupPlan.CleanupIsSound | engine/engine.go:650-723 | on a validated graph no cleanup runs into a cycle, and each one's ID is new: no ID of the run and of no other cleanup |
| CleanupCycles.DetectCleanupCycles | graph/cleanup_cycles.go:8-42 | tells, in alphabetical order, exactly the cleanup cycles of more than one node, each once, from its alphabetically first |
| CleanupCycles.NothingReportedMeansNone | graph/cleanup_cycles.go:8-42 | with the check for a node naming itself, nothing reported means no cycle |
| RetryRules.CleanupRetries | engine/errors.go:225-296 | exactly which failures a cleanup is tried again for |
| RetryFacts.SentAgainIff | engine/errors.go:225-316 | exactly which failures a block sends again, by status, gRPC status and category |
| RetryFacts.StepIsSentAgainIff | engine/retry.go:18-102 | exactly which failures of which step are: by the block it wrote, or only rate limits, three times |
| RetryFacts.OwnBlockIff | engine/retry.go:71-88 | and whose block is asked, if any |
| Retry.RetryResult | engine/retry.go:110-210 | sends until the first attempt that is not to be followed, with one recorded category for each retry counted, also when a wait was cut short |
| RetryFacts.EndsBecause | engine/retry.go:110-210 | each attempt but the last was one to send again, and the result says of the last why no other came |
| Retry.ExecuteStepWithRetry | engine/retry.go:45-69 | gives the last attempt sent, and the limits that hold of the default policies |
| Cursors.CursorsArriveWhole | engine/repeat.go:235-314 | the next request carries exactly the cursors the answer gave, and every other input as it was |
| Cursors.KeysTellIffOne | engine/repeat.go:270-281 | equal keys mean equal cursors, exactly when there is at most one |
| Cursors.KeysTell | engine/repeat.go:270-281 | equal keys mean equal cursors also where no text holds the marks a key is built with |
| Collecting.ListsConcatenate | engine/repeat.go:316-346 | lists are gathered page after page |
| Collecting.WholesAdd | engine/repeat.go:316-382 | whole numbers are gathered as their 64-bit sum |
| RepeatFacts.GathersMore | engine/repeat.go:316-382 | what each response adds to an output gathered: list items, a 64-bit or a real sum, or itself in its place |
| RepeatFacts.OutputsAre | engine/repeat.go:179-190 | and which outputs show what was gathered |
| Repeat.ExecuteStepRepeated | engine/repeat.go:32-200 | sends on until the first reason to stop, no more than the limit, with the inputs of the first request and the outputs gathered over the pages |
| RepeatFacts.RequestsAre | engine/repeat.go:55-165 | the inputs of each request: the first's, and in a paging step the cursors the response before gave, those it did not give left out |
| RepeatFacts.StopsBecause | engine/repeat.go:86-165 | the step goes on after every response but the last, stops for the first reason that holds of that one, and fails exactly where it neither met its condition nor ran out of pages |
| RepeatFacts.KeyIs | engine/repeat.go:270-281 | what cursors are told apart by: the names and texts of those set |
| RepeatFacts.RetriesAre | engine/repeat.go:70-71 | its retries and their reasons are those of its requests |
| RepeatTheorems.NoCursorsTwice | engine/repeat.go:120-160 | no two requests of a paging step carry the same cursors |
| RepeatTheorems.AFiniteListingEnds | engine/repeat.go:120-160 | a listing of finitely many cursors is paged in at most one request more than it has |
| RepeatTheorems.LoopsAreRealIffOne | engine/repeat.go:120-160 | stopping for a loop means a repeat, on every course of answers, exactly with at most one cursor |
| RepeatTheorems.LoopOfPlainCursorsIsReal | engine/repeat.go:120-160 | with any number of cursors, a stop for a loop means a repeat on every course whose texts hold none of the marks a key is built with |
| RepeatTheorems.EachPageFollows | engine/repeat.go:120-200 | each page is asked for with the cursors of the one before |
| RepeatTheorems.CollectedIs | engine/repeat.go:160-200 | what is told at the end is gathered over all the pages |
| RepeatTheorems.RetriesAgree | engine/repeat.go:160-200 | if each request records a category for each of its retries, so does the whole of the repeated step |
| Addons.DepsAre | plan/binding.go:133-156 | exactly the steps a step refers to, of its own plan or outside it as asked, are added to its dependencies |
| Addons.RefsFollow | intent/compose.go:127-212 | a renamed reference, of a step or of a check, names the renamed step, and the same output of it |
| Addons.RenamesApart | intent/compose.go:127-212 | renaming keeps names apart, and from every other step's |
| AddonOrder.SplicedKeeps | intent/compose.go:300-322 | splicing keeps the parent's steps in order, the addon's together right behind the step they are for |
| AddonOrder.AddonsCloseNoCycle | intent/compose.go:279-322 | adding an acyclic addon to an acyclic plan makes no cycle |
| AddonOrder.AddonsRunAfter | intent/compose.go:279-322 | each step of the addon then runs behind its insertion step |
| AddonExact.AlwaysBehindIff | intent/compose.go:267-299 | in every composed plan, before validation, it does so exactly when no template step depends on itself alone |
| AddonRefs.InjectedSplits | plan/binding.go:133-156 | making the references of a composed plan dependencies is doing so in the parent and in the addon apart |
| AddonRefs.InjectedIsMade | plan/binding.go:133-156 | and an addon so treated is one made from its template so treated: renaming, wiring and inserting come to the same before and after |
| Compose.PrefixesApart | intent/compose.go:531-533 | no name of one addon begins with another's prefix |
| Compose.LastGiverWins | intent/compose.go:104-125 | an output is wired to the last step that gives it |
| AddonLists.SortIsStable | intent/compose.go:520-526 | addons go in by priority, those of one priority as they were listed |
| AddonTheorems.AddonsAreSound | intent/compose.go:515-577 | adding any list of addons keeps the IDs distinct, the plan acyclic and the parent's own steps in order, and has every addon step behind the step chosen for it, but for those that depend on themselves alone; a failure leaves the addons before it |
| AddonRuns.AddonsAreReady | intent/autowire.go:20-21 | adding any list of addons keeps the plan acyclic also with every reference in it a dependency, if the parent and each template so are |
| AddonRuns.AddonsRunBehind | plan/validate.go:384-392 | in a composed plan without self-dependencies, its references dependencies too, every step of every addon runs behind the step chosen for it |
| AddonRuns.SelfComesAlong | intent/compose.go:267-299 | a template step that depends on itself still does in the composed plan, so validation sees it |
| AddonMerges.FirstCleanupCounts | intent/compose.go:324-342 | the plan's own cleanup steps stay first, and of all the addons' exactly the first for each node is kept, once |
| AddonMerges.LastCheckCounts | intent/compose.go:344-365 | the checks of a node are those of the last addon that checks it, renamed, in order, or else the plan's |
| ComposeRun.Plan.PrefixStepRefs | intent/compose.go:127-212 | renames the steps and all their references, and the steps that checks name, in place |
| ComposeRun.Plan.SpliceSteps | intent/compose.go:300-322 | the steps spliced in place |
| ComposeRun.Plan.MergeCleanup | intent/compose.go:324-342 | adds the cleanup steps of nodes that have none yet, in place |
| ComposeRun.Plan.MergeVerification | intent/compose.go:344-365 | puts the checks of a node in place of those it had |
| ComposeRun.ComposeAddonList | intent/compose.go:515-577 | the loop over the sorted addons, changing steps, cleanup and verification in place, is adding them one after another, and fails on the first whose template does not load or finds no step to follow, with the addons before it in |
| AddonPlaces.AddonsGoRight | intent/compose.go:528-577 | over any list: an addon goes by the first of its nodes that an earlier addon went by or a step is on, behind the last step of the latest such addon, or else the last step on the node |
| AddonPlaces.NoPlaceIff | intent/compose.go:535-551 | it finds no place exactly when none of its nodes offers one |
| AddonPlaces.FollowsTheLatest | intent/compose.go:535-577 | so all its steps run behind the last step of the latest addon that went by its node |
| AddonFacts.AddonStepBecame | intent/compose.go:127-300 | what becomes of each step of an addon: its name, its references, its inputs and what it depends on |
| AddonFacts.AfterIsNamed | intent/compose.go:367-394 | a wire to an output of the insertion step names that step |

## Left out

- RequiresCycles.ClearCycleIsReported: one way for graphs whose breakers lie on cycles. A report under every
  order of walking can also come about where no one cycle is clear: r asks on to a1 and a2, a1 to x1 and u,
  a2 to x2 and w, x1 to w, x2 to u, u and w back to r, with x1 and x2 breakers, is always reported, as each
  walk that hides one edge back runs into the other. An exact condition would say which depth-first forests
  there are, which is the search itself.
- RunAtRisk.TellsAllIff: for plans whose steps' nodes are in the graph, as validation has it.
- RunFromStart.RunsAreGood: expanding fuzz cases into copies (engine/fuzz.go:207-399) is not modelled; the
  blocks it makes, a case's copies right before it with IDs of their own, are assumed.
- Substitution.Substitute: a template is its tags and text, well nested; finding tags in text, and blocks that
  overlap or are not closed, are not modelled.
- TemplateScan.ScanJSONTemplate: takes tokens; splitting the text and failing on an unclosed tag or string
  are not modelled.
- FuzzOutputs.CasesReadTheirSetup: of the outputs a run stores; the inputs it stores beside them
  (engine/fuzz.go:883-885) are not modelled.
- FormBody.FormObject: maps are values, so that no two parts of an object are one map is not shown.
- Patches.PatchBody: documents are values; splitting a path's text into keys is the library's, and query
  parameters are not patched.
- RedactJson.RedactText: the library's verdict on a text is taken to be the grammar's, with the tree it reads.
- Retry.RetryResult: the waits between attempts, their jitter and the clock are parameters.
- RetryRules.CleanupRetries: a rule is matched by what it says; reading it from its text is left out.
- AddonTheorems.AddonsAreSound: a plan's and the templates' names are taken not to begin with an addon's
  prefix (inc0_, inc1_, ...).
- AddonRuns.AddonsAreReady: as AddonTheorems.AddonsAreSound, and for templates whose steps have names.
- ComposeRun.ComposeAddonList: filling slots, injecting values and the references of selection filters are
  not modelled.
- Executing a request (HTTP, gRPC), resolving a step's inputs, assertions and OpenAPI checks: their answers
  are parameters.
- Progress observers, archives' files, Lua transforms, the MCP server, the command line and the language
  model calls: no decision modelled here depends on them.
