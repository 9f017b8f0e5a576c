# Verified model of the AI test platform's core algorithms

The platform turns requirement documents into test points, test cases and device runs. Most of its
hard logic sits in small algorithms and protocols between network layers. This project models
those in Dafny, one module a component, and proves what they are relied on for.

* **JSON recovery** (`JsonSyntax`, `JsonParser`, `BraceScanner`, `JsonRepair`, `ExtractJson`,
  `JsonPrinter`). Concrete syntax trees after RFC 8259 (sections 2, 4, 5 and 7) stand for every text of a
  value: every layout, every way to spell a character. The parser reads each such text back;
  the quote repair mends quotes left bare in strings and leaves every well-formed text alone, the brace scanner finds it whole; so the whole cascade of `extract_json`
  returns a value exactly, from prose, from blanks or from a fenced block.
* **Batching and budgets** (`TokenEstimate`, `BatchPacking`, `TestpointCoverage`, `PromptTruncation`).
  Token weights are counted in tenths (15 for a CJK character, 3 for any other). Greedy packing
  is optimal exactly under an exchange condition, which monotone estimates such as the default one meet; batch-wise coverage composes to whole
  coverage by counting; truncated prompts stay within a numeric bound.
* **Navigation** (`PageModel`, `Navigation`). Exploration leaves a compressed path that the cache
  replays to the same page.
* **Knowledge index** (`KnowledgeIndex`). Incremental indexing with a commit per file agrees with a rebuild after
  any history of edits, runs and crashes.
* **Protocols** (`Pipeline`, `HealLoop`, `RunLock`, `Scheduler`, with `Decimals`). The review gate, the healing budget and
  its ledger, the lock file between processes, cron polling.
* **Case compilation** (`NlAssert`, `StepContracts`). Quoted texts in expectations compile to DSL assertions and to
  contract postconditions that mean the same on a page; step contracts form a chain that repair reproduces.
* **Ordering and accounting** (`Grouping`, `CaseOrdering`, `ExecutionAccounting`). Stable grouping with the fewest
  switches; every case counted once on every way out.
* **Sanitizing** (`Sanitizer`). No trace of an AI chat survives; when the first of two copies is kept.

Code that changes state is modelled by classes and methods with loops, each proved against a
specification function; the laws are lemmas about those functions. Agents, devices, executors, embedders, clocks
and the database's surroundings are parameters: arbitrary functions of their arguments and, where a call may
answer differently each time, of a call counter.

Where the code falls short of an intended law, a lemma gives the exact condition or the side condition, beside
an input on which the law fails: `JsonRepair.RepairKeepsIff`, `JsonRepair.RepairMendsIff`, `BatchPacking.OptimalIff`,
`TestpointCoverage.ComposesIff`, `PromptTruncation.SimpleTruncateBoundedIff`,
`Navigation.SavedPathReplaysIff`, `Pipeline.SafeIffHarmless` and `Pipeline.ContinueKeepsGateIff`,
`RunLock.ExclusionIff` and `RunLock.AbandonedLockRace`, `ExecutionAccounting.PassedMeansAllPassedIff`,
`Scheduler.JobRunsUnlessBlocked`, `StepContracts.DecodesIff`, `Sanitizer.KeepsFirstCopyIff`.
Two of these differ from the source's own documentation. The sanitizer's comment promises to keep the first copy
of a document whose title is repeated (`src/utils/document_sanitizer.py:74`); behind a preamble both copies are
dropped. `repair_json_text` is meant to leave valid JSON alone; a bare top-level string with a CJK character
loses its closing quote.

`dafny verify dfyconfig.toml` checks the project.

## Model

| member | source | states |
|---|---|---|
| JsonParser.LoadsText | src/agent_runtime/cli_shared.py:416-426 | Every text RFC 8259 allows for a value, in any layout and with blanks around it, loads as exactly that value. |
| JsonParser.LoadsIff | src/agent_runtime/cli_shared.py:416-426 | Conversely, a text loads as a value only if it is one of the value's texts between blanks: the parser accepts nothing else. |
| BraceScanner.FindOutermostBrace | src/agent_runtime/cli_shared.py:429-463 | The scanning loop returns what the scanner specification returns, for all texts and bracket pairs. |
| BraceScanner.OutermostBraceFindsDoc | src/agent_runtime/cli_shared.py:429-463 | An object or array is found whole, whatever its strings contain and whatever follows it. |
| BraceScanner.OutermostBraceShape | src/agent_runtime/cli_shared.py:434-463 | Conversely, a result is a contiguous part of the text from the first opening character to a closing one. |
| JsonRepair.RepairJsonText | src/agent_runtime/cli_shared.py:364-413 | The lexer loop with lookahead computes the repair specification. |
| JsonRepair.RepairMendsIff | src/agent_runtime/cli_shared.py:364-413 | What the repair is for: in an object or array with a CJK character and quotes left bare inside its strings, exactly these become U+201D if and only if none of them is followed, blanks apart, by one of `, : } ]`; without a CJK character nothing changes. |
| JsonRepair.RepairChangesQuotesOnly | src/agent_runtime/cli_shared.py:364-413 | On any text the repair keeps the length and changes nothing but some quotes, to U+201D. |
| JsonRepair.RepairIdempotent | src/agent_runtime/cli_shared.py:364-413 | Repairing a repaired text changes nothing, although the lookahead sees changed quotes. |
| JsonRepair.RepairKeepsDoc | src/agent_runtime/cli_shared.py:364-413 | Every object and array, however laid out and spelled, is left unchanged. |
| JsonRepair.RepairBreaksBareString | src/agent_runtime/cli_shared.py:384-407 | A bare top-level string stays as it is exactly when it holds no CJK character. |
| JsonRepair.RepairKeepsIff | src/agent_runtime/cli_shared.py:364-413 | Of all JSON texts without blanks around them the repair leaves exactly those alone that are not a bare string with a CJK character. |
| ExtractJson.ExtractObjectInProse | src/agent_runtime/cli_shared.py:178-222 | An object in surrounding text free of quotes, backticks, braces and brackets comes back exactly, whatever its strings contain. |
| ExtractJson.ExtractMendedObject | src/agent_runtime/cli_shared.py:178-222 | An object whose strings hold such bare quotes comes back from prose as well, each of them as U+201D. |
| ExtractJson.ExtractBareDoc | src/agent_runtime/cli_shared.py:184-190 | With only blanks around it an array, too, comes back exactly, bare quotes mended. |
| ExtractJson.ExtractFencedDoc | src/agent_runtime/cli_shared.py:192-205 | An object or array in a json fence comes back exactly, bare quotes mended, with arbitrary text behind the fence. |
| ExtractJson.FenceFindsDoc | src/agent_runtime/cli_shared.py:192-205 | The lazy fence pattern matches the whole block although strings may hold backticks and fences. |
| ExtractJson.ExtractPlainFence | src/agent_runtime/cli_shared.py:199-205 | An object or array without backticks in a fence without the tag comes back exactly, found by the second fence search. |
| ExtractJson.ExtractArrayInProse | src/agent_runtime/cli_shared.py:207-222 | An array without opening braces comes back exactly from prose without such, found by the last brace scan. |
| ExtractJson.ExtractEmptyIff | src/agent_runtime/cli_shared.py:180-182 | Exactly the blank outputs are reported as empty. |
| ExtractJson.ExtractNothing | src/agent_runtime/cli_shared.py:184-222 | From a text without brackets, braces and backticks all strategies fail. |
| JsonPrinter.LayoutDenotes | src/agent_runtime/cli_shared.py:416-426 | The printed form of a value, inline or indented, denotes that value, escapes included. |
| JsonPrinter.ExtractPrintedObject | src/agent_runtime/cli_shared.py:178-222 | Every printed object comes back from prose exactly, in every style. |
| TokenEstimate.CountTokens | src/agent_runtime/cli_shared.py:52-67 | The counting loop returns a tenth of the text's weight, rounded down. |
| TokenEstimate.WeightConcat | src/agent_runtime/cli_shared.py:52-67 | Weights add over concatenation: the base of every budget bound. |
| TokenEstimate.WeightMeaning | src/agent_runtime/cli_shared.py:52-67 | The weight is one and a half tokens for each CJK character, by code ranges, and three tenths for each other. |
| BatchPacking.PackTpBatchesByTokens | src/services/testcase_coverage.py:164-212 | The greedy loop computes the packing specification for any estimator. |
| BatchPacking.PackSound | src/services/testcase_coverage.py:164-212 | The batches joined are the input in order; each is non-empty, within the count limit, and within the token limit unless it is a single item. |
| BatchPacking.DefaultLimits | src/services/testcase_coverage.py:164-212 | Limits that are not positive stand for twelve test points and 7000 tokens. |
| BatchPacking.OptimalIff | src/services/testcase_coverage.py:164-212 | For any estimator and limits: no order-preserving division of any list into allowed batches is shorter than the packer's if and only if beginnings of allowed batches are allowed and, where two allowed batches overlap and the first cannot take the next test point, what the second still has to come is allowed. |
| BatchPacking.PackIsOptimal | src/services/testcase_coverage.py:164-212 | Monotone estimates meet that condition, so for them no order-preserving division into allowed batches has fewer batches. |
| BatchPacking.GreedyLosesWithoutMonotone | src/services/testcase_coverage.py:164-212 | An estimator without the condition and an input on which the packer is not optimal. |
| BatchPacking.BuildFrSummariesForBatch | src/services/testcase_coverage.py:131-144 | The loop with its seen-set lists a summary for each mentioned requirement once, in order of first mention. |
| BatchPacking.FrIdsAreMentions | src/services/testcase_coverage.py:131-144 | The summarized ids are distinct and are exactly the known ids mentioned in the batch. |
| BatchPacking.CompressMeaning | src/services/testcase_coverage.py:90-118 | A compressed test point keeps id, scenario, priority and requirement, a non-functional requirement only if there is one, and of each list that is not empty the first six texts, stripped and cut to 200 characters. |
| BatchPacking.FrSummaryMeaning | src/services/testcase_coverage.py:119-129 | A requirement's summary keeps its id, module and priority and cuts the description to 120 characters. |
| BatchPacking.EstimateGrows | src/services/testcase_coverage.py:90-161 | A contiguous part of a batch never has a higher estimate, whatever JSON values the fields hold and although summaries are de-duplicated. |
| BatchPacking.DefaultPackIsOptimal | src/services/testcase_coverage.py:90-212 | With the default estimator the packer is optimal for every list of test points. |
| TestpointCoverage.TpIdRoundTrip | src/services/testpoint_coverage.py:13-17 | Parsing a formatted id returns its number. |
| TestpointCoverage.TpIdShape | src/services/testpoint_coverage.py:144-153 | A formatted id is `TP-` and the number in at least three digits. |
| TestpointCoverage.ValidateTestpointCoverage | src/services/testpoint_coverage.py:50-141 | The validator's loops report exactly the specified errors, covered and missing ids and id range. |
| TestpointCoverage.TallyCounts | src/services/testpoint_coverage.py:70-88 | The counter the first loop fills agrees with counting each id separately. |
| TestpointCoverage.ValidationMeaning | src/services/testpoint_coverage.py:50-141 | Validation passes exactly if all entries are objects, four test points refer to each requirement of priority P0 or P1 and two to each other one, one to each non-functional one, and, for a full set, no number occurs twice, the numbers start at 1 or below, and the test points outnumber the requirements. |
| TestpointCoverage.ReportMeaning | src/services/testpoint_coverage.py:110-141 | A requirement is listed as covered or missing, and a short one reported with its counts, by the number of test points that refer to it. |
| TestpointCoverage.FilterMeaning | src/services/testpoint_coverage.py:110-141 | The covered and missing lists hold exactly the targets that meet the condition. |
| TestpointCoverage.RenumberTestPoints | src/services/testpoint_coverage.py:144-153 | Renumbering gives ids by position and drops entries that are no objects. |
| TestpointCoverage.RenumberLast | src/services/testpoint_coverage.py:144-153 | A further entry is numbered by its position in the list, or dropped if it is no object. |
| TestpointCoverage.SplitFrBatches | src/services/testpoint_coverage.py:156-162 | The slicing loop yields chunks of the given size. |
| TestpointCoverage.ChunksConcat | src/services/testpoint_coverage.py:156-162 | The chunks joined are the list. |
| TestpointCoverage.ChunkSizes | src/services/testpoint_coverage.py:156-162 | No chunk is empty, and all but the last have the given size. |
| TestpointCoverage.BatchesCompose | src/services/requirement_analysis_service.py:1489-1543 | If all ids are non-empty and distinct and every batch passes its own validation, the merged, renumbered list passes full validation. |
| TestpointCoverage.SumAtMostLength | src/services/testpoint_coverage.py:70-141 | For distinct ids the numbers of test points that refer to them sum to at most the number of test points. |
| TestpointCoverage.BatchOkIff | src/services/requirement_analysis_service.py:1489-1525 | A batch passes its own validation exactly when its entries are objects and each distinct id is referred to as often as its priority demands. |
| TestpointCoverage.BatchMeaning | src/services/requirement_analysis_service.py:1489-1525 | The same with numbers: four or two test points for each of the batch's requirements, one for each non-functional one. |
| TestpointCoverage.MergedPassesIff | src/services/requirement_analysis_service.py:1489-1543 | Whatever the ids: if every batch passes, the merged, renumbered list passes full validation exactly when one list of requirements is empty or there are more test points than requirements. |
| TestpointCoverage.ComposesIff | src/services/requirement_analysis_service.py:1489-1543 | Passing batches compose whatever the answers are if and only if one list is empty, the demands of the batches sum to more than the number of requirements, or some id has blanks around it, so that no batch with it ever passes. |
| TestpointCoverage.SharedIdsDoNotCompose | src/services/testpoint_coverage.py:118-141 | Four requirements sharing an id beside another do not meet that condition: their batches can pass and the whole fail. |
| TestpointCoverage.RunTestpointDesignStage | src/services/requirement_analysis_service.py:1474-1581 | The stage's loops compute the specified result, whichever agent calls raise: batch answers merged in order, a stop at the first failed batch, healing of the whole only if the merged list fails. |
| TestpointCoverage.StageOutcome | src/services/requirement_analysis_service.py:1489-1581 | If every batch has a passing answer, the first or else the healed one, the stage ends with the answers merged and renumbered if these pass, else with the healed whole if that passes, else it fails. |
| TestpointCoverage.StageStops | src/services/requirement_analysis_service.py:1489-1525 | The first batch without such an answer ends the stage. |
| TestpointCoverage.StageWithDistinctIds | src/services/requirement_analysis_service.py:1526-1581 | With distinct ids the whole-list healing and its failure are never reached, and the stage is done exactly when every batch has an answer that passes, with those answers merged and renumbered. |
| PromptTruncation.SimpleTruncateBoundedIff | src/services/requirement_analysis_service.py:2043-2058 | The bound of 1.2 tokens per budgeted token plus the notice holds for every text if and only if the budget is at least 3. |
| PromptTruncation.SimpleTruncateKeepsEnds | src/services/requirement_analysis_service.py:2043-2058 | Up to four characters for five tokens a text stays as it is; else equal parts of both its ends stay around the notice, and below three tokens all of it behind the notice. |
| PromptTruncation.SplitJoins | src/services/requirement_analysis_service.py:2073-2080 | Splitting a document at its headings loses nothing. |
| PromptTruncation.SectionsAreAtHeadings | src/services/requirement_analysis_service.py:2073-2080 | A document is split exactly at the line feeds in front of headings. |
| PromptTruncation.TruncateDocByChapters | src/services/requirement_analysis_service.py:2060-2156 | The loop over the middle sections computes the truncation specification. |
| PromptTruncation.ChaptersKeepBothEnds | src/services/requirement_analysis_service.py:2084-2156 | By chapters, the text up to the third heading and the last chapter survive word for word. |
| PromptTruncation.SummaryMeaning | src/services/requirement_analysis_service.py:2106-2148 | A middle chapter is replaced by its heading and the start of its body, at most the allowed number of characters and an ellipsis. |
| PromptTruncation.TruncateDocMeaning | src/services/requirement_analysis_service.py:2060-2156 | By chapters, with one summary for each middle one, if there are five sections, room for the middle and a result within 1.1 times the budget; as plain text otherwise. |
| PromptTruncation.TruncateDocBounded | src/services/requirement_analysis_service.py:2060-2156 | Whichever path is taken, a truncated document is within the bound. |
| PromptTruncation.TruncateJsonBounded | src/services/requirement_analysis_service.py:2158-2197 | A truncated JSON text is within the bound, whatever the serializer prints. |
| PromptTruncation.SummaryShape | src/services/requirement_analysis_service.py:2166-2190 | The summary keeps every key in place and no list of more than six entries. |
| PromptTruncation.SummarizeMeaning | src/services/requirement_analysis_service.py:2166-2190 | Lists of more than five entries keep five and a note, strings of more than 500 characters 500 and a mark, strings in large objects 200; everything else stays. |
| PromptTruncation.TruncateJsonMeaning | src/services/requirement_analysis_service.py:2158-2197 | An object is replaced by its summary if that fits; every other text is cut as plain text. |
| PromptTruncation.BuildReviewPrompt | src/services/requirement_analysis_service.py:1901-1960 | Contents within the budget stand in the prompt word for word; otherwise, with both shares at least 3, the prompt's estimate is at most the fixed part plus 1.2 times the content budget plus 48 tokens. |
| PromptTruncation.ReviewPromptBounded | src/services/requirement_analysis_service.py:1915-1960 | That bound on every truncation path, whatever the serializers print. |
| PromptTruncation.ReviewPromptShares | src/services/requirement_analysis_service.py:1915-1960 | Document and JSON each stay within their own share, in proportion to their sizes. |
| PageModel.MatchMeaning | execution_runtime/tools/observation.py:155-221 | A page matches exactly when package and activity agree where given, all required selectors exist, one alternative exists if any is listed, and none forbidden does. |
| PageModel.HitsMeaning | execution_runtime/tools/observation.py:155-221 | The forbidden selectors found and the required ones missing are reported, for pages that fit package and activity. |
| PageModel.SelectorMeaning | execution_runtime/tools/observation.py:155-221 | Which elements a selector finds, kind by kind. |
| Navigation.NavigationPathCache.LoadPath | execution_runtime/navigation/path_cache.py:18-37 | Loading returns the stored usable actions of the key, nothing for other keys. |
| Navigation.NavigationPathCache.SavePath | execution_runtime/navigation/path_cache.py:39-63 | Saving a path that is not empty stores all its actions under the key and touches no other key; an empty one changes nothing. |
| Navigation.NavigationPathCache.Invalidate | execution_runtime/navigation/path_cache.py:65-80 | Invalidating removes the key and nothing else. |
| Navigation.Runner.ReplayNavigationPath | execution_runtime/agent_tool_runner.py:186-231 | The replay loop moves the page and ends as the replay specification says, guards included. |
| Navigation.Runner.NavigateToModule | execution_runtime/agent_tool_runner.py:64-184 | Cache lookup, replay, exploration and saving leave page, cache and outcome as specified. |
| Navigation.ExploreIff | execution_runtime/agent_tool_runner.py:108-184 | Exploring arrives after n calls exactly if the calls decided on lead there within the limit, each of them known, harmless or read-only and not made on such a page before, and none of the earlier ones on the target or a forbidden page. |
| Navigation.ExploreRefuses | execution_runtime/agent_tool_runner.py:131-153 | An unknown tool, a writing call that names a risk and a repeated call end the exploration before they are made. |
| Navigation.ExploreStopsAtForbidden | execution_runtime/agent_tool_runner.py:154-172 | A forbidden page ends the exploration right after the call that led there. |
| Navigation.ReplayStopsAtGuard | execution_runtime/agent_tool_runner.py:196-208 | A stored action that is unknown, read-only or names a risk ends the replay where it stands. |
| Navigation.CacheAfter | execution_runtime/agent_tool_runner.py:93-184 | A path replayed in vain leaves the cache whether or not exploring arrives, a path found takes its place, and nothing else in the cache changes. |
| Navigation.SavedPathReplays | execution_runtime/agent_tool_runner.py:93-184 | A path saved by a navigation that found none is replayed from the same start page to the same matching page, in no more calls, without exploring. |
| Navigation.SavedPathReplaysFromExplorationStart | execution_runtime/agent_tool_runner.py:93-184 | Whatever was replayed in vain before, the saved path replays from the page on which exploration began to the page where it ended. |
| Navigation.SavedPathReplaysIff | execution_runtime/agent_tool_runner.py:76-231 | With tools, risk words, call limit, key and cache fixed: in every app every path found by exploring leads from the start page where it led if and only if nothing was stored under the key or the first stored action fails replay's guards. |
| Navigation.PathAfterFailedReplayMayNotReplay | execution_runtime/agent_tool_runner.py:76-125 | A two-step app as an example: a path found after a failed replay is stored under the original start page, from where it does not replay. |
| KnowledgeIndex.KnowledgeBaseIndex.WriteFile | src/services/knowbase_index.py:147-180 | Rewriting one file replaces exactly that file's rows. |
| KnowledgeIndex.KnowledgeBaseIndex.Ensure | src/services/knowbase_index.py:111-194 | A completed run leaves the tables as specified and returns the block count. |
| KnowledgeIndex.EnsureIndexEffect | src/services/knowbase_index.py:111-194 | For every path, a completed run leaves the rows of its current content, none for a deleted file, and the old rows only of unchanged files. |
| KnowledgeIndex.IndexHoldsVault | src/services/knowbase_index.py:111-194 | After any history, a completed run holds for every readable file, in order, one row for exactly those of its blocks that have an embedding, with heading, content and the embedding of both, and no row of a file that is gone. |
| KnowledgeIndex.ReachableConsistent | src/services/knowbase_index.py:111-194 | After any history of edits, additions, deletions, runs and crashes between commits, every indexed file's blocks are those of the content whose hash is recorded. |
| KnowledgeIndex.IncrementalEqualsRebuild | src/services/knowbase_index.py:111-194 | After any such history a completed incremental run leaves for each path the same blocks as a forced rebuild. |
| KnowledgeIndex.RunningAgainChangesNothing | src/services/knowbase_index.py:111-194 | From any tables: a second run right after a completed one leaves both tables exactly as they are. |
| KnowledgeIndex.SplitLongText | src/services/knowbase_index.py:346-361 | The window loop computes the splitting specification and ends whenever the limit is positive or the text empty. |
| KnowledgeIndex.PieceEnd | src/services/knowbase_index.py:352-358 | A window holds at most the limit, and the loop advances over it exactly when the limit is positive. |
| KnowledgeIndex.PieceEndMeaning | src/services/knowbase_index.py:352-358 | A window that does not reach the end of the text ends at the last empty line beyond its first third, at the limit if there is none. |
| KnowledgeIndex.SplitLongConserves | src/services/knowbase_index.py:346-361 | Splitting loses only blanks and no piece exceeds the limit. |
| Pipeline.PipelineStateMachine.Advance | src/pipeline/state_machine.py:86-148 | The advance trigger moves one stage on, only from stages that have a next one and when its guard holds. |
| Pipeline.PipelineStateMachine.Resume | src/pipeline/state_machine.py:175-232 | Resuming returns to the paused state. |
| Pipeline.Orchestrator.Run | src/pipeline/orchestrator.py:132-374 | The stage loop terminates and leaves status, stage and trace as specified. |
| Pipeline.Orchestrator.Continue | src/pipeline/orchestrator.py:377-428 | Continuing after review approves or rejects and runs on as specified. |
| Pipeline.RunOutcome | src/pipeline/orchestrator.py:132-374 | What a run comes to by its turns: fine all along it waits in review or, behind it, is completed; otherwise the first turn that is not fine decides status and stage, and just the stages before it are logged as successes. |
| Pipeline.RunWithoutRoute | src/pipeline/orchestrator.py:132-374 | From every other stage nothing is run and the status becomes the stage, failed for an unknown one, cancelled for a paused one cancelled by the user. |
| Pipeline.ContinueOutcome | src/pipeline/orchestrator.py:377-428 | With fine turns, an approval completes the pipeline unless a case is still open, when it changes nothing, and a rejection leads through a new generation back to review. |
| Pipeline.AllCallsSafe | src/pipeline/orchestrator.py:132-428 | The safety invariant holds after every sequence of run and continue calls each of which is harmless when it is made. |
| Pipeline.SafeIffHarmless | src/pipeline/orchestrator.py:132-428 | A call keeps the invariant whatever its stages do if and only if it is harmless: a run always; an approval when a case is still unapproved or the stored stage is review or behind it; a rejection when ingestion, parsing and analysis have succeeded. |
| Pipeline.ContinueAtReviewIsHarmless | src/pipeline/orchestrator.py:377-428 | In review, where continuing is meant to happen, approving and rejecting are harmless. |
| Pipeline.ContinueKeepsGateIff | src/pipeline/orchestrator.py:377-428 | For any row: an approval that leaves no case unapproved keeps the gate respected, whatever the stages do, if and only if a review is waiting or was approved. |
| Pipeline.OpenGateMeaning | src/pipeline/orchestrator.py:391-428 | The gate is open if and only if the latest review, not rejected since, was followed by an approval that left no case unapproved. |
| Pipeline.ExecutionOnlyAfterApproval | src/pipeline/orchestrator.py:165-428 | In every sequence of harmless calls, whenever the execution stage runs, the latest review before it had been followed by such an approval. |
| Pipeline.CompletedOnlyWithAllLogs | src/pipeline/orchestrator.py:165-357 | Completed is reached only with a success log for each of the seven non-review stages. |
| Pipeline.ContinueBeforeReviewSkipsTheGate | src/pipeline/orchestrator.py:377-428 | An approval of a fresh pipeline reaches execution without any review. |
| HealLoop.RunHealLoop | src/services/heal_loop.py:145-331 | The loop makes exactly the specified calls, result and ledger entries. |
| HealLoop.HealRounds | src/services/heal_loop.py:222-331 | Each round of the loop follows the specification until budget, defect or success ends it. |
| HealLoop.HealLoopContract | src/services/heal_loop.py:145-331 | For every behaviour of the injected functions: at most budget + 1 attempts, or budget if a failure is handed in, and budget diagnoses; each call follows the one before it as the protocol says and is about the failure or plan that one gave, nothing follows a success, a product defect or a plan that gives up, and otherwise only the used-up budget ends the run; a failure handed in as a product defect is followed by no call at all; success only through an attempt that returned; the result says how it ended; ledger counts equal the result's. |
| RunLock.MutualExclusion | src/services/requirement_analysis_service.py:265-342 | In every interleaving in which no lock file gets older than 7200 seconds at most one process holds the lock. |
| RunLock.OnlyTheCreatorRemoves | src/services/requirement_analysis_service.py:322-342 | In such runs a lock file disappears only through its creator's own release. |
| RunLock.HolderReleaseRemoves | src/services/requirement_analysis_service.py:322-342 | In such runs, whatever the others do in between, each call of a holder's release finds what it looks for and the last one removes the file. |
| RunLock.FreeLockIsAcquired | src/services/requirement_analysis_service.py:275-296 | In such runs a process that finds no file and lives on has the lock after its next two calls, whatever the others do in between. |
| RunLock.ExclusionIff | src/services/requirement_analysis_service.py:265-342 | Exclusion holds in every run in which no lock file gets older than a bound if and only if the bound is at most 7200 seconds. |
| RunLock.OldLockIsTaken | src/services/requirement_analysis_service.py:297-318 | For every larger bound there is a run with two holders: a second process takes the lock of a living holder. |
| RunLock.AbandonedLockRace | src/services/requirement_analysis_service.py:297-318 | Two processes can hold the lock although only files of dead processes ever get old: both find such a file stale, and the second removes the fresh lock of the first. |
| Scheduler.ParseFieldValues | src/scheduler/service.py:40-58 | The field parser's loops return the parsed set, or nothing where the source raises. |
| Scheduler.AddStepped | src/scheduler/service.py:49-52 | The stepping loop adds exactly the multiples of the step above the start up to the field's end. |
| Scheduler.FieldRoundTrip | src/scheduler/service.py:31-66 | Every field built from stars, values, ranges, steps from each of these, and lists parses to the set it denotes. |
| Scheduler.FieldRejects | src/scheduler/service.py:49-57 | What is no number is not accepted, nor is a step of zero. |
| Scheduler.CronRoundTrip | src/scheduler/service.py:31-77 | A printed expression parses, and the parsed form matches exactly the moments it denotes. |
| Scheduler.CronScheduler.Poll | src/scheduler/service.py:191-224 | One pass in table order; it ends early exactly if some enabled job's recorded run has no time zone, and otherwise drops the disabled jobs, triggers exactly the due ones and records their run. |
| Scheduler.JobRunsUnlessBlocked | src/scheduler/service.py:191-229 | Over any passes, an enabled job is triggered in each minute as often as it would be alone, unless it or an enabled job before it has a recorded run without time zone: then never. |
| Scheduler.TriggersExactly | src/scheduler/service.py:185-229 | After the last recorded run, a job is triggered once in a minute that some poll hits and that matches, otherwise never. |
| Scheduler.NeverTwiceInAMinute | src/scheduler/service.py:208-222 | With polls in time order no minute sees two triggers, and no minute at or before the recorded run sees one. |
| Scheduler.WholeMinutesArePolled | src/scheduler/service.py:185-229 | Polls at most a minute apart hit every whole minute they span. |
| Scheduler.OncePerDenotedMinute | src/scheduler/service.py:31-229 | In a table polled in time order at most a minute apart, an enabled job is triggered once in every whole minute its expression denotes and in no other, unless it is blocked so. |
| NlAssert.QuotesAreLeftmost | execution_runtime/compiler/nl_assert.py:27-32 | No quotation starts outside the matches found. |
| NlAssert.QuotesAreQuotations | execution_runtime/compiler/nl_assert.py:27-32 | The matches are quotations, in order and disjoint. |
| NlAssert.AbsentQuotedValues | execution_runtime/compiler/nl_assert.py:35-49 | The loop with found and seen computes the absent texts as specified. |
| NlAssert.AbsentMeaning | execution_runtime/compiler/nl_assert.py:35-49 | A text is absent exactly when some quotation of it follows a negative word, and it is listed once. |
| NlAssert.NegatedIff | execution_runtime/compiler/nl_assert.py:12-49 | A quotation is negated exactly if, blanks apart, one of the 53 negative words ends right before it and within sixteen characters. |
| NlAssert.AbsentIff | execution_runtime/compiler/nl_assert.py:35-49 | A text is absent exactly if some quotation of it stands right behind such a word. |
| NlAssert.VisibleIff | execution_runtime/compiler/nl_assert.py:52-60 | A text is visible exactly if it is quoted and no quotation of it stands right behind such a word. |
| NlAssert.QuotedBehindWordIsAbsent | execution_runtime/compiler/nl_assert.py:35-49 | On texts: what is quoted right behind such a word is absent and not visible, whatever stands around, unless another quotation swallows it. |
| NlAssert.NothingNegated | execution_runtime/compiler/nl_assert.py:35-60 | Without such a word before a quotation nothing is absent and all quoted texts are visible, in order. |
| NlAssert.VisibleAndAbsentPartitionQuoted | execution_runtime/compiler/nl_assert.py:52-60 | Visible and absent texts are disjoint and together are all quoted texts. |
| NlAssert.CompileAssertSteps | execution_runtime/compiler/local_compiler.py:116-154 | The loops compile one step per absent and per visible text, or one for the short text, or a screenshot. |
| NlAssert.ShortTextMeaning | execution_runtime/compiler/local_compiler.py:90-113 | Without quotations an objective expectation is asserted exactly if it holds a page mark or is short and names something: as two numbers around a slash with no blanks, or else as it is. |
| NlAssert.MarkEndIff | execution_runtime/compiler/local_compiler.py:103-106 | The deterministic scan finds a page mark at a position exactly if digits, blanks, a slash, blanks and digits stand there. |
| NlAssert.VerifyPostconditions | execution_runtime/tools/observation.py:249-278 | The guard reports exactly the failing conditions and passes when there is none. |
| NlAssert.ConditionMeaning | execution_runtime/tools/observation.py:224-278 | What each kind of condition asks of the pages before and after a step. |
| NlAssert.StepsAgreeWithPostconditions | execution_runtime/engine/executor.py:256-291 | On a page whose element texts occur in its source, the compiled steps of an expectation with a non-blank quotation pass exactly when its text postconditions hold. |
| NlAssert.BlanksAroundExpected | execution_runtime/compiler/nl_assert.py:27-60 | Blanks around an expectation change none of its visible and absent texts, the sixteen-character windows included. |
| StepContracts.BuildStepContracts | src/services/testcase_contract_compiler.py:171-281 | The building loop carries the state through the steps and yields the specified contracts. |
| StepContracts.RepairStepContractStates | src/services/testcase_contract_compiler.py:284-320 | The repair loop recomputes the state fields as specified and returns a copy for an unknown module. |
| StepContracts.DestinationMeaning | src/services/testcase_contract_compiler.py:89-106 | A step without a transition stays where it is; otherwise the last match decides: the module's main state if the page's name holds the module's, else the external page. |
| StepContracts.PostconditionsMeaning | src/services/testcase_contract_compiler.py:65-86 | When each of the four named conditions is demanded. |
| StepContracts.ActionKindMeaning | src/services/testcase_contract_compiler.py:45-49 | The kind of an action is that of the first lexicon entry with a word in it. |
| StepContracts.BuiltAt | src/services/testcase_contract_compiler.py:171-281 | Step number, intent, kind and target of the contract of each raw step, by the step and its position. |
| StepContracts.RepairFollowsSteps | src/services/testcase_contract_compiler.py:284-320 | Where the steps name actions, two contract lists are repaired to the same states and conditions, whatever these were, and the other fields are kept. |
| StepContracts.MatchHereIff | src/services/testcase_contract_compiler.py:26-28 | A match of the page-transition pattern is a transition word and the shortest page name behind it, behind an opening bracket if a name follows that. |
| StepContracts.TransitionsOfStep | src/services/testcase_contract_compiler.py:26-28 | The page-transition pattern is searched in action and expectation and never matches across. |
| StepContracts.BuiltContractsAreChained | src/services/testcase_contract_compiler.py:171-281 | Built contracts form an unbroken chain from the module's main state. |
| StepContracts.RepairedContractsAreChained | src/services/testcase_contract_compiler.py:284-320 | So do repaired ones, whatever the stored contracts were. |
| StepContracts.RepairIdempotent | src/services/testcase_contract_compiler.py:284-320 | Repairing repaired contracts changes nothing. |
| StepContracts.RepairReproducesBuild | src/services/testcase_contract_compiler.py:171-320 | Repair, which does not strip the texts, returns freshly built contracts exactly. |
| StepContracts.DecodesIff | execution_runtime/agent_tool_runner.py:253-258 | The executor recovers a destination without surrounding blanks if and only if it holds no arrow. |
| StepContracts.ExecutorFollowsTheChain | execution_runtime/agent_tool_runner.py:253-258 | Along built contracts the decoded destination is the next contract's start state exactly where that holds no arrow. |
| StepContracts.TextPostconditions | src/services/testcase_contract_compiler.py:65-86 | A contract's postconditions start with the text conditions of its expectation; all others are the four named ones. |
| Grouping.GroupedPermutes | execution_runtime/runner.py:117-135 | Grouping by keys is a permutation. |
| Grouping.GroupedStable | execution_runtime/runner.py:117-135 | Each key's items keep their order. |
| Grouping.GroupedRuns | execution_runtime/runner.py:117-135 | Equal keys stand together, each once, in order of first appearance. |
| Grouping.GroupedIdempotent | execution_runtime/runner.py:117-135 | Grouping what is grouped changes nothing. |
| Grouping.GroupedIsOptimal | execution_runtime/runner.py:117-135 | No permutation of the keys has fewer switches. |
| CaseOrdering.EnsureIdempotent | src/services/precondition_spec.py:22-46 | A normalized or inferred spec, once stored in the case, is what the case keeps. |
| CaseOrdering.Case.Store | src/services/precondition_spec.py:97-116 | Writing the ensured spec back leaves the case's fingerprint as it was. |
| CaseOrdering.SortCasesForExecution | execution_runtime/runner.py:117-135 | The runner's ordering writes each spec and returns the cases grouped by fingerprint. |
| CaseOrdering.GroupCasesByModule | src/services/execution_runtime_service.py:298-315 | The service's grouping returns the same order, although it does not strip the module. |
| CaseOrdering.RunnerKeepsServiceOrder | execution_runtime/runner.py:117-135 | Cases in the service's order stay in it when the runner orders them. |
| CaseOrdering.FingerprintIff | src/services/precondition_spec.py:117-126 | Two cases share a fingerprint exactly if login, kind of user, entry and, blanks aside, module agree. |
| CaseOrdering.NormalizeMeaning | src/services/precondition_spec.py:22-46 | What each field of a stored spec is normalized to. |
| CaseOrdering.EnsureMeaning | src/services/precondition_spec.py:49-116 | A stored spec decides if it says anything, otherwise the texts do. |
| CaseOrdering.FingerprintTellsModule | src/services/precondition_spec.py:117-126 | Equal fingerprints have equal stripped modules. |
| CaseOrdering.ModuleSessionCoordinator.Plan | execution_runtime/session/module_session.py:34-47 | Over all calls: a plan reuses the session exactly when its module is not blank and, blanks aside, that of the call before; otherwise it sets up, and the setups so far are counted. |
| CaseOrdering.OneSetupPerFingerprint | execution_runtime/session/module_session.py:34-47 | In execution order at most one setup per distinct fingerprint is requested if no module is blank. |
| ExecutionAccounting.SummarizeMeaning | src/services/execution_service.py:606-619 | Errors outweigh failures, the first error's message is reported, and a case passes if and only if no step failed and none was erroneous. |
| ExecutionAccounting.PassedMeansAllPassedIff | src/services/execution_service.py:606-619 | That a passed case has only passed steps holds exactly of results without skipped or generated steps, or with a failed or erroneous one. |
| ExecutionAccounting.SkippedStepsPass | src/services/execution_service.py:606-619 | A case all of whose steps were skipped passes. |
| ExecutionAccounting.FailureNamesSteps | src/services/execution_service.py:606-619 | The message of a failed case names every step that failed. |
| ExecutionAccounting.ReasonIsReported | src/services/execution_service.py:142-362 | A missing executor, a failed setup and a failed translation are reported with their reason. |
| ExecutionAccounting.OutcomeMeaning | src/services/execution_service.py:178-362 | A case is generated, passed or failed under exactly the stated conditions on executor, setup, route, translation and step results, and an error otherwise. |
| ExecutionAccounting.ExecutionService.MarkAllError | src/services/execution_service.py:621-634 | One error row for each case, in order. |
| ExecutionAccounting.ExecutionService.ExecuteGeneratedGroup | src/services/execution_service.py:385-486 | One generated or error row for each case, counters equal to the rows of their status. |
| ExecutionAccounting.ExecutionService.ExecuteGroup | src/services/execution_service.py:142-379 | On every exit path: one row per case, the record and the summary count those rows. |
| ExecutionAccounting.ExecutionService.ExecuteCases | src/services/execution_service.py:72-136 | Each case gets exactly one row; passed, failed, error and generated count the rows of that status and sum to the number of cases; each execution's record counts its own rows. |
| ExecutionAccounting.OneRowPerCase | src/services/execution_service.py:72-136 | The rows of the groups, taken together, have exactly the given cases' ids, with multiplicity. |
| ExecutionAccounting.CountsAddUp | src/services/execution_service.py:72-136 | The four counts of any rows sum to their number. |
| Sanitizer.DetectContamination | src/utils/document_sanitizer.py:28-34 | The loop lists the marks of exactly the patterns that match somewhere. |
| Sanitizer.TracesAreFound | src/utils/document_sanitizer.py:10-15 | What the four patterns are meant to catch they match, whatever blanks stand between the words. |
| Sanitizer.PartBeforeCutIsClean | src/utils/document_sanitizer.py:56-64 | No part of a text before its leftmost match contains a match. |
| Sanitizer.SanitizeRequirementMarkdown | src/utils/document_sanitizer.py:47-88 | The output contains no match, so the document is never blocked; the report says whether a match or a repeated title was found. |
| Sanitizer.SanitizedIsClean | src/utils/document_sanitizer.py:47-88 | For every document the sanitized text contains no match of any pattern. |
| Sanitizer.SanitizedIsPart | src/utils/document_sanitizer.py:47-88 | The output is a contiguous part of the input. |
| Sanitizer.KeepsTextBeforeTrace | src/utils/document_sanitizer.py:47-88 | The output is the text in front of the first match, blanks at its end dropped, up to the first repetition of its main title if there is one. |
| Sanitizer.KeepsCleanText | src/utils/document_sanitizer.py:47-88 | Without a match it is the stripped text up to that repetition. |
| Sanitizer.DuplicatedIff | src/utils/document_sanitizer.py:37-44 | The main title is repeated exactly if it heads two lines, the second behind the words of the first. |
| Sanitizer.CleanIsOnlyStripped | src/utils/document_sanitizer.py:47-88 | A document without matches and repeated title is only stripped. |
| Sanitizer.SanitizeIdempotent | src/utils/document_sanitizer.py:47-88 | Sanitizing twice is sanitizing once: no repeated title is left either. |
| Sanitizer.KeepsFirstCopyIff | src/utils/document_sanitizer.py:74-81 | Of a document with a repeated title the first copy is kept exactly when the document opens with that title line and the title's words come before the second one. |
| Sanitizer.PreambleLosesBothCopies | src/utils/document_sanitizer.py:74-81 | A document on which neither copy is kept. |

## Left out

- Subprocesses, HTTP, devices, browsers, the database session and the language model: arbitrary parameters of the model.
- JSON: numbers keep their spelling instead of a float value, `NaN` and the infinities are accepted as Python does, recursion limits are not modelled, lone surrogates stay as they are, and CPython's refusal of integers of more than 4300 digits, a `ValueError` that `_try_parse_json` does not catch, is not modelled.
- `\d` and `int()`: ASCII digits only; signs and underscores of `int()` are not accepted in cron fields and test point ids.
- Case folding: only the letters of the words compared with, with the non-ASCII letters Python folds to them.
- TokenEstimate.CountTokens: tenths instead of the source's floating-point weights, because rounding of 0.3 is not the point.
- JsonRepair.RepairKeepsDoc: for objects and arrays, because a bare string may be changed; `JsonRepair.RepairKeepsIff` says exactly when.
- BatchPacking.EstimateGrows: field values without lone surrogates, and what `str` makes of a `related_fr` that is not a string is a parameter.
- ExtractJson.ExtractArrayInProse: not for arrays of objects inside prose, where the code returns the first object.
- ExtractJson.ExtractPlainFence: for values without backticks, unlike the tagged fence.
- PromptTruncation.TruncateJsonBounded: the serializer is a parameter, because only the length of its output matters.
- PromptTruncation.ReviewPromptBounded: proportional shares are exact quotients, without floating-point rounding.
- Navigation.SavedPathReplays: for apps in which calls act deterministically and read-only or failing calls leave the page alone.
- Navigation: `run_step` and the recovery of page states, apart from the decoding of transitions.
- KnowledgeIndex.IncrementalEqualsRebuild: for a fixed embedder and chunker, readable files and hashes without collisions; searching and front matter are not modelled.
- Pipeline.ExecutionOnlyAfterApproval: for harmless calls, because an approval before review skips the gate; `Pipeline.SafeIffHarmless` shows that no more calls can be admitted.
- HealLoop: the default failure classifier; it is one of the injected functions.
- RunLock.MutualExclusion: for runs without a lock file older than 7200 seconds, the exact bound by `RunLock.ExclusionIff`; two tasks of one process share a process id and are not told apart.
- Scheduler.CronRoundTrip: splitting the expression at blanks is a parameter.
- Scheduler.CronScheduler.Poll: of the exceptions inside a pass only the comparison with a recorded run without time zone; jobs added or removed while a pass waits for the database, and the started pipelines, are not modelled.
- Scheduler.JobRunsUnlessBlocked: for jobs that stay enabled or disabled over the passes.
- NlAssert.StepsAgreeWithPostconditions: the page source stays as it is while the assertion polls.
- StepContracts.BuildStepContracts: the list of warnings and the quality score beside the contracts; the target description is a parameter.
- StepContracts.RepairReproducesBuild: for lexicon words without blanks around them, because only repair sees unstripped texts.
- ExecutionAccounting.ExecutionService.ExecuteCases: routing, progress callbacks, durations and teardown, which touch no counter; database errors.
- Upload validation, which reports what the sanitizer would remove without changing anything.
- Servers, templates, notifications, reports, generators, image comparison, login scripts, lint levels: plumbing that would add only easy members.
