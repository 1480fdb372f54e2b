# Verified models of the repository's tooling

This project models the parts of the trading-research repository's tooling that are hardest to get
right by reading, and proves what their documentation and tests rely on. `dafny verify dfyconfig.toml`
checks everything.

Code that the repository writes as loops over mutable state is modelled as methods with loops and
invariants, and its objects as classes; each method is proved against a specification, and the results
below are proved about the specification for all inputs, runs or reachable states. Code that is
expressions and calls is modelled as functions. Where several actors step between two calls (GitHub, other
clients, other workflow runs), the component is a step machine, or its remote is a function of time, and
results hold for every interleaving.

What the specification functions mean is in turn stated in the inputs' own fields and characters, by
equivalences that use none of those functions: which statement hands a name on, which branch may be deleted,
which update may be sent, which review blocks or approves, which rows a result is made of, and what the
texts the code matches look like. These are the modules named last in each row below.

| area | modules |
|---|---|
| acyclicity of code maps (Kahn's algorithm) | `CodeMap` |
| Markdown sections with fenced code | `MarkdownSections`, `MarkdownLines` |
| static re-export resolution | `PathSearch`, `SourceIndex`, `ExportMeaning` |
| compare-and-swap on a coordination ref, its one-shot client, inspection after an interruption | `CasMachine`, `RegistryCas`, `GraphQlClient`, `CasReceipts` |
| batched branch retirement under leases; the retention log and cleanup plan | `Branches`, `BranchRetirement`, `BranchRetention`, `RetirementRules`, `RetentionRecords` |
| at most one review for each identity | `ReviewGuard`, `ReviewProtocol`, `RetryEvidence` |
| review receipts: scanner, printer, outcome | `ReviewContent`, `ReviewReceipt`, `ReviewOutcome`, `ReviewLines`, `ReceiptRules`, `ReviewVerdicts` |
| file trees: merging, ZIP extraction, portable source packets | `FileTrees`, `TreeMerge`, `Unpacking`, `ZipRoster`, `PortablePaths` |
| ledger audit: tolerances, compounding, drawdown, and ledgers at its limits | `LedgerAudit`, `LedgerLimits` |
| run receipts of a paired diagnostic, and the order of their arms | `Task18Receipts`, `Task18Order`, `ReceiptFacts` |
| bounded paging | `Pagination` |
| shared | `Options`, `Sequences`, `Sorting`, `Text`, `Decimal` |

## Where the code differs from what it is expected to do

- The audit demands that the final drawdown plus 1e-11 covers every fall of the equity path, but compares
  that final value with the last interval's drawdown only up to 1e-9. So the interval trace can end
  1e-9 + 1e-11 short of a fall, and no less is guaranteed: `LedgerLimits.TraceBoundIsExact` proves both
  directions for every interval count, vector length and initial capital, with an accepted ledger of that
  size that uses up both tolerances.
- Extracting a section again from an extracted section gives it back unless the heading has an empty title
  and its section holds nothing else: blanks are stripped, and the bare hashes left are no heading.
  `MarkdownSections.ExtractionIdempotent` states exactly what happens in either case, and
  `MarkdownSections.EmptyTitleIsLost` gives such a text.
- The repeated-path test of the source packet is subsumed by the case-folded one
  (`PortablePaths.RepeatedFold`), and the length test on completed arms by the roster and status tests
  (`Task18Receipts.RosterSize` and `Task18Receipts.CompletedCount`).
- The evaluation of a run receipt can depend on the order of its arms, through the well-formedness of the
  metrics alone (`Task18Order.OtherVerdictsIgnoreOrder`; an example is `Task18Order.OrderMattersWithRepeats`).
  `Task18Order.OrderMattersExactly`: it is the same in every order exactly when some arm is unnamed, or some
  declared id has only ill-formed entries, or no entry with a declared id is ill-formed.

## Model

| member | source | states |
|---|---|---|
| `CodeMap.ValidateCodeMap` | guide/tools/content_contract.py:473-575 | accepts exactly the maps with nodes, unique ids, well-formed edges and no directed cycle; otherwise names the first bad edge, and answers "cyclic" only when there is a cycle |
| `CodeMap.CountDegrees` | guide/tools/content_contract.py:529-563 | the tables after the edge loop count, for every node, its incoming edges with multiplicity |
| `CodeMap.ReleaseTargets` | guide/tools/content_contract.py:570-573 | the inner loop lowers each in-degree by the number of parallel edges and queues exactly the targets that reach zero, once each |
| `CodeMap.PopReady` | guide/tools/content_contract.py:567-573 | one turn of the queue keeps the in-degrees equal to the edges from nodes not yet taken, and the queue equal to the unblocked nodes |
| `CodeMap.DrainReadyQueue` | guide/tools/content_contract.py:565-575 | the loop terminates and reports a cycle exactly when the edges have one |
| `CodeMap.TakingFrees` | guide/tools/content_contract.py:568-571 | taking a node lowers what blocks any other node by exactly the edges between the two |
| `CodeMap.BlockingEdge` | guide/tools/content_contract.py:563-573 | an in-degree stays positive exactly while an edge from a node not yet taken remains |
| `CodeMap.OrderedIsAcyclic` | guide/tools/content_contract.py:565-575 | an order in which every edge points forward excludes every cycle, self-loops included |
| `CodeMap.StuckHasCycle` | guide/tools/content_contract.py:574-575 | a non-empty set of nodes that are all blocked from within contains an actual cycle |
| `MarkdownSections.Headings` | guide/tools/content_contract.py:43-70 | the fence-tracking line loop lists exactly the headings outside fences, in order |
| `MarkdownSections.ExtractMarkdownSection` | guide/tools/content_contract.py:105-121 | the method returns the section, the missing-heading or the duplicate-heading outcome of its specification |
| `MarkdownSections.ExtractionOutcome` | guide/tools/content_contract.py:106-111 | missing exactly when no line outside a fence is that heading, duplicate exactly when two are |
| `MarkdownSections.SectionBounds` | guide/tools/content_contract.py:113-121 | a section runs from the only matching line, outside any fence, to the next heading of its level or above or the end, and contains no such heading |
| `MarkdownSections.FenceOfBlock` | guide/tools/content_contract.py:43-70 | scanning a block that starts outside every fence sees what the whole scan saw |
| `MarkdownSections.ExtractionIdempotent` | guide/tools/content_contract.py:105-121 | re-extracting from an extracted section gives it back, except, exactly, for an empty title alone in its section |
| `MarkdownSections.EmptyTitleIsLost` | guide/tools/content_contract.py:105-121 | the exception exists: a hash and two blanks are extracted as a section from which nothing can be extracted again |
| `MarkdownLines.HeadingExactly` | guide/tools/content_contract.py:21-66 | a line is a heading of a level and title exactly when it is so many hashes, at least one blank and a text whose title that is, once a closing run of hashes that blanks set off is dropped |
| `MarkdownLines.FenceExactly` | guide/tools/content_contract.py:22-58 | a line opens or closes a fence exactly when, after blanks, it is a maximal run of at least three equal backticks or tildes and anything else |
| `PathSearch.ReachedExactly` | tools/agent_repo/source_index.py:144-176 | the set built with a visited set for each path is exactly the nodes on paths that avoid the visited ones |
| `PathSearch.ReachedStep` | tools/agent_repo/source_index.py:144-176 | adding the current node to the visited set of every branch loses nothing that is reachable |
| `PathSearch.ReachedIsLeastClosed` | tools/agent_repo/source_index.py:144-176 | that set is what one worklist with a global visited set yields: the least set closed under successors |
| `SourceIndex.StarNames` | tools/agent_repo/source_index.py:110-142 | terminates on every module tree and returns the union of the star names of all reachable modules, or fails when one of them is malformed or unresolved |
| `SourceIndex.StarIsReachability` | tools/agent_repo/source_index.py:110-142 | a name is returned exactly when a module reachable past the visited ones declares it; it fails exactly when a faulty one is reachable |
| `SourceIndex.Export` | tools/agent_repo/source_index.py:144-176 | terminates on cyclic re-exports and returns the union of the local results of all reachable (module, name) pairs |
| `SourceIndex.ExportImports` | tools/agent_repo/source_index.py:162-176 | the loop over a module's imports follows exactly the imports that may provide the name, and accumulates exactly what they reach |
| `SourceIndex.ExportAll` | tools/agent_repo/source_index.py:158-161 | a star request is the union of the requests for each star name |
| `SourceIndex.ExportIsReachability` | tools/agent_repo/source_index.py:144-176 | a module is returned exactly when some reachable pair yields it locally; it fails exactly when a faulty pair is reachable |
| `SourceIndex.Collect` | tools/agent_repo/source_index.py:194-204 | a file's collected modules are those named directly and everything reachable from its from-imports |
| `SourceIndex.CollectDirect` | tools/agent_repo/source_index.py:178-192 | the direct walk names exactly the imported modules, the bases and their existing submodules |
| `SourceIndex.DirectIsWithinCollected` | tools/agent_repo/source_index.py:178-204 | whatever is named directly is among what following re-exports collects |
| `ExportMeaning.StarSuccessors` | tools/agent_repo/source_index.py:119-133 | a star import is followed exactly from a module without `__all__` into each known module that one of its statements stars |
| `ExportMeaning.OwnStarNames` | tools/agent_repo/source_index.py:119-142 | a module's own public names are its `__all__`, or every name a statement binds without a leading underscore; `import a.b` binds `a` |
| `ExportMeaning.ExportSuccessors` | tools/agent_repo/source_index.py:158-175 | a request leads to the imported name of each from-import that binds the requested one, to the same name in each star source that has it, and nowhere else |
| `ExportMeaning.ExportLocals` | tools/agent_repo/source_index.py:150-168 | by itself a request yields the module, a submodule of that name, and the plain imports bound to it |
| `ExportMeaning.ExportFaults` | tools/agent_repo/source_index.py:162-173 | a request raises by itself exactly on an unresolvable from-import of its module or on star names that cannot be listed |
| `ExportMeaning.SuccessorsAreContained` | tools/agent_repo/source_index.py:144-176 | when a request succeeds, every request it leads to succeeds and contributes all it yields |
| `ExportMeaning.ExportEquation` | tools/agent_repo/source_index.py:144-176 | without a visited set, the exports of a name are exactly its own modules and the exports of what the statements binding it import |
| `RegistryCas.PlannedChangesOneTask` | tools/github_coordination_disposable_e2e.py:346-386 | a prepared plan's two registries are readable and differ in exactly one entry |
| `RegistryCas.PlansExactly` | tools/github_coordination_disposable_e2e.py:346-386 | there is a plan exactly when both registries can be read and belong to the repository, one entry differs, and the planner turns one into the other by that entry |
| `RegistryCas.FencesExactly` | tools/github_coordination_ref_cas.py:85-176 | a request passes exactly when its repository is a well-formed disposable one and never production, its ref a well-formed coordination ref, its login well formed, its ids different, and the caller opted in |
| `CasMachine.RunKeeps` | tools/github_coordination_ref_cas.py:179-263 | every interleaving of clients, server and foreign writers keeps the protocol invariant |
| `CasMachine.UpdatesFormAChain` | tools/github_coordination_ref_cas.py:179-378 | without foreign writers the applied updates form a chain from the initial ref to the current one |
| `RegistryCas.EachUpdateChangesOneTask` | tools/github_coordination_disposable_e2e.py:346-428 | every applied update, in any interleaving, changes exactly one registry entry and removes none |
| `RegistryCas.NoTaskIsLost` | tools/github_coordination_disposable_e2e.py:389-428 | along the chain the entry ids only grow |
| `CasMachine.ReceiptIsInTheChain` | tools/github_coordination_ref_cas.py:323-378 | a client that finished successfully has its own transition in the log, once |
| `CasReceipts.ReceiptIsReadBack` | tools/github_coordination_ref_cas.py:323-378 | a client that finished read the ref at the expected id, then sent its mutation, then heard it was applied, then read the new id, both reads as the expected login and of one repository |
| `CasMachine.SendAndLose` | tools/github_coordination_disposable_e2e.py:431-496 | a client interrupted after sending looks the same whether or not the server applied its update |
| `RegistryCas.InspectionNeverAttributes` | tools/github_coordination_disposable_e2e.py:431-496 | for every observed id there are two runs, one applied and one not, with the same clients, ref and inspection result; so the inspection never tells who wrote |
| `RegistryCas.InspectsExactly` | tools/github_coordination_disposable_e2e.py:431-496 | the inspection answers exactly when fences, login and plan hold and both snapshots agree, and its answer is what the observed id says |
| `CasReceipts.EndsStay` | tools/github_coordination_ref_cas.py:323-378 | a client that finished or failed stays so in every continuation of the run |
| `GraphQlClient.GitHubGraphQLHttpApi.RequireReadback` | tools/github_coordination_disposable_e2e.py:138-162 | the guarded read section changes the client's state as specified and accepts exactly the specified replies |
| `GraphQlClient.GitHubGraphQLHttpApi.RequireMutation` | tools/github_coordination_disposable_e2e.py:164-207 | the guarded mutation section changes the client's state as specified and accepts exactly the exact update |
| `GraphQlClient.AttemptedMeansSent` | tools/github_coordination_disposable_e2e.py:164-207 | the attempted flag is set exactly when a mutation was let through |
| `GraphQlClient.PinnedByARead` | tools/github_coordination_disposable_e2e.py:138-162 | the pinned repository is set exactly after an accepted read, and all accepted reads agree on it |
| `GraphQlClient.AtMostOneMutation` | tools/github_coordination_disposable_e2e.py:164-207 | in every interleaving of callers one client lets at most one mutation through |
| `GraphQlClient.SendsExactlyWhen` | tools/github_coordination_disposable_e2e.py:164-207 | a mutation goes out exactly when the client may mutate, a read was accepted, none went out before, and its fields say one unforced update of the bound ref from the id every accepted read saw to the bound new one, in the repository they saw |
| `GraphQlClient.MutationFollowsARead` | tools/github_coordination_disposable_e2e.py:138-207 | a mutation comes after a read; every read before it saw the expected id, in the repository the mutation names |
| `GraphQlClient.ReadsAfterTheMutation` | tools/github_coordination_disposable_e2e.py:138-162 | every accepted read after the mutation saw the new id in the same repository |
| `BranchRetirement.Remote.DeleteBranchesWithLeases` | tools/branch_hygiene.py:338-373 | the push deletes the whole batch where every lease holds at that moment, or nothing |
| `BranchRetirement.DeletionConserves` | tools/branch_hygiene.py:591-650 | deleting branches whose tips a surviving main covers leaves exactly the same commits reachable |
| `BranchRetirement.BatchIsCovered` | tools/branch_hygiene.py:698-717 | a batch authorised by a fresh plan and deleted under its leases loses no commit, whatever others did since the inventory was read |
| `BranchRetirement.Reauthorize` | tools/branch_hygiene.py:698-713 | a batch is authorised only by three answers read for it, by an inventory equal to the expected one with main where the run was planned, and by a new plan over them and the run's own history and merged sources that contains the batch |
| `BranchRetirement.RetireBatch` | tools/branch_hygiene.py:698-725 | one round makes at most one push, of that batch; what authorised it is what the service listed, and answered about pull requests and running workflows, at three successive times after the round began and before the push; it succeeds only when the call after the push lists exactly the authorised inventory less the batch |
| `BranchRetirement.RoundKeeps` | tools/branch_hygiene.py:696-729 | one more push authorised since the last keeps the pushes whole batches in queue order, each authorised anew in exactly the inventory the push before it left |
| `BranchRetirement.RetireQueue` | tools/branch_hygiene.py:696-729 | however it ends, the pushes are whole batches of the queue in order, each authorised by answers given after the push before it, in exactly the inventory that push should have left; on success they are all of them and the service lists what remains |
| `BranchRetirement.ApplyMergedRetirement` | tools/branch_hygiene.py:653-729 | an invalid call changes nothing; otherwise exactly the first max_deletes planned deletions are deleted on success, whole batches on failure, each batch authorised anew by answers read since the push before it with main where the run was planned, and no commit becomes unreachable |
| `BranchRetirement.BatchesCover` | tools/branch_hygiene.py:697-728 | the batches put end to end are the queue, none empty, none larger than the batch size |
| `RetirementRules.PlanRaises` | tools/branch_hygiene.py:602-619 | the plan raises exactly on a malformed entry, a missing default branch or an empty history |
| `RetirementRules.PlanDeletesTheSpent` | tools/branch_hygiene.py:621-650 | otherwise it deletes exactly the listed branches that are neither default nor protected, in no open pull request or running workflow, under no reserved name, with a tip in main's history and among the merged sources |
| `RetirementRules.OnlySpentBranchesArePushed` | tools/branch_hygiene.py:697-728 | every branch of every push was so by what the service answered for that push, after the push before it, and was listed with that tip |
| `RetirementRules.QueueIsTheDeletions` | tools/branch_hygiene.py:689-692 | the queue holds the branches decided to be deleted, all of them and in order |
| `RetirementRules.ExpectedInventory` | tools/branch_hygiene.py:682-688 | the inventory to expect maps each planned name to its only planned branch |
| `BranchRetention.ParseRetentionLog` | tools/branch_hygiene.py:446-481 | the record loop computes the fold of the parsed records |
| `BranchRetention.CollectMeaning` | tools/branch_hygiene.py:446-481 | it raises exactly when a record is bad, and otherwise maps every observed tip, and no other, to its earliest observation |
| `BranchRetention.EarliestIsUnique` | tools/branch_hygiene.py:446-481 | that map depends only on the set of records |
| `BranchRetention.ParseIsHomomorphic` | tools/branch_hygiene.py:446-481 | two logs joined by the separator parse to the pointwise minimum of their maps |
| `BranchRetention.RecordOrderIsIrrelevant` | tools/branch_hygiene.py:446-481 | reordering or repeating records changes nothing |
| `BranchRetention.AnchorsAreKept` | tools/branch_hygiene.py:388-427 | the plan deletes no anchor branch, and every tip it deletes is in the reachable set it was given |
| `BranchRetention.CleanupConserves` | tools/branch_hygiene.py:388-546 | with reachability taken from the anchor commits, whichever of the planned deletions are carried out, branches and the ends of open pull requests reach exactly the commits they reached before |
| `BranchRetention.RepeatedCleanupConserves` | tools/branch_hygiene.py:905-927 | the same over any number of plans, with any observations, times and running workflows, each made on what carrying out the one before it left |
| `BranchRetention.DeletionIsMonotone` | tools/branch_hygiene.py:507-546 | a deletable branch stays deletable as time advances |
| `BranchRetention.MoreRecordsDeleteNoLater` | tools/branch_hygiene.py:507-546 | more retention records only make branches deletable earlier |
| `RetentionRecords.RecordMeans` | tools/branch_hygiene.py:450-480 | a record raises exactly when it is not blank and has no readable time; it is an observation exactly when its title is the canonical one and exactly one of its lines maps a branch to a commit id |
| `RetentionRecords.SplitsAtBreaks` | tools/branch_hygiene.py:465-467 | messages are cut at every line break, of which CR and LF together are one |
| `RetentionRecords.DecidesExactly` | tools/branch_hygiene.py:519-545 | a branch is deleted exactly when it is not in use, its very tip was observed at least the grace period ago, and that tip is reachable |
| `RetentionRecords.AnchorsAre` | tools/branch_hygiene.py:388-427 | the anchors are the tips of branches in use and both ends of open pull requests |
| `RetentionRecords.WhatARoundLeaves` | tools/branch_hygiene.py:905-927 | carrying a plan out removes a branch exactly when its deletion was reached and those conditions hold, reachability being from the anchor commits |
| `ReviewGuard.PacketRoundTrip` | tools/ppo_4h_gemini_review.py:153-162 | a packet artifact's name determines its identity, run and attempt |
| `ReviewGuard.ResultRoundTrip` | tools/ppo_4h_gemini_review.py:165-172 | a result artifact's name determines its run and attempt |
| `ReviewGuard.PacketNames` | tools/ppo_4h_gemini_review.py:153-162 | a name is read as a packet exactly when it is that packet's name |
| `ReviewGuard.ResultNames` | tools/ppo_4h_gemini_review.py:165-172 | a name is read as a terminal result exactly when it is that attempt's name |
| `ReviewGuard.NoTerminalEvidence` | tools/ppo_4h_gemini_review.py:188-231 | the first loop passes exactly when no listed artifact is a terminal result |
| `ReviewGuard.RequireReviewIdentityRetryable` | tools/ppo_4h_gemini_review.py:175-317 | both loops with their early exits accept exactly the retryable listings |
| `RetryEvidence.RetryableExactlyWhen` | tools/ppo_4h_gemini_review.py:269-317 | an earlier attempt is retryable exactly when the review job and its two steps are listed at most once and a provider that completed without being skipped has its evidence uploaded successfully |
| `ReviewProtocol.PassingMeans` | tools/ppo_4h_gemini_review.py:175-317 | a passing guard on complete listings saw no other run's packet for the identity and no result of its own run |
| `ReviewProtocol.ReachableKeeps` | tools/ppo_4h_gemini_review.py:175-317 | every step of every racing run keeps the protocol invariant |
| `ReviewProtocol.AtMostOneRunPasses` | tools/ppo_4h_gemini_review.py:175-317 | in every reachable state at most one run has ever passed for an identity |
| `ReviewProtocol.AtMostOneTerminalReview` | tools/ppo_4h_gemini_review.py:175-317 | at most one terminal review exists for an identity |
| `ReviewProtocol.TerminalReviewIsFinal` | tools/ppo_4h_gemini_review.py:175-317 | a terminal review comes from a passed attempt, and no later attempt of its run passes |
| `ReviewProtocol.OneReviewHappens` | tools/ppo_4h_gemini_review.py:175-317 | the protocol is not vacuous: alone, the first attempt of a run passes and leaves its terminal review |
| `ReviewContent.ReviewContent` | tools/independent_research_review.py:86-153 | the line loop over fences, comments and tags computes the scan of its specification |
| `ReviewContent.ClosedBlockIsInert` | tools/independent_research_review.py:97-151 | a closed fenced block that is not a receipt leaves a neutral scanner state unchanged, whatever it contains |
| `ReviewContent.InsertedBlockChangesNothing` | tools/independent_research_review.py:86-153 | inserting such a block anywhere the scanner is neutral changes neither lines nor receipts |
| `ReviewLines.FenceOpens` | tools/independent_research_review.py:59-113 | a fence opens exactly with at most three spaces and a maximal run of at least three marks |
| `ReviewLines.FenceCloses` | tools/independent_research_review.py:60-148 | it closes exactly with at least as many of the same marks and nothing but blanks |
| `ReviewLines.FollowsFirst` | tools/independent_research_review.py:117-120 | comment tests look at the first occurrence and what follows it |
| `ReviewLines.NamedTag` | tools/independent_research_review.py:61-134 | a tag is recognised where a name that starts with a letter follows `<` or `</` and ends at a blank, `>`, a slash or the line's end |
| `ReviewReceipt.ScanOfReceiptLines` | tools/independent_research_review.py:86-153 | the printed lines scan to one marker, one disposition and one receipt |
| `ReviewReceipt.RenderThenScan` | tools/independent_research_review.py:381-398 | for every payload the printer accepts, scanning its output gives back exactly the printed envelope |
| `ReviewReceipt.RenderedReceiptIsValid` | tools/independent_research_review.py:278-305 | a printed receipt is valid at its head for its publisher exactly when its disposition is APPROVED |
| `ReceiptRules.PayloadsExactly` | tools/independent_research_review.py:179-275 | the payloads accepted are exactly the records of the two schemas with their fields and no others, bound to head and publisher, by models known by name, and for independent reviews with implementers other than the reviewer and distinct tasks |
| `ReceiptRules.ReceiptsExactly` | tools/independent_research_review.py:278-305 | a receipt is valid exactly when it is the only one and wraps an approving valid payload and its digest |
| `ReviewOutcome.ResolveReviewOutcome` | tools/independent_research_review.py:308-370 | the loop with its dictionary of latest reviews returns the outcome of the order-free specification |
| `ReviewOutcome.TrackedDecides` | tools/independent_research_review.py:363-369 | with distinct ids the dictionary holds an approval exactly when some reviewer's highest-id marked review is one |
| `ReviewVerdicts.BlockedExactlyWhen` | tools/independent_research_review.py:308-398 | the outcome is BLOCKED exactly when some listed review of the head, by a known user, submitted, holds the marker and the blocking disposition, whatever else is listed |
| `ReviewVerdicts.ApprovedExactlyWhen` | tools/independent_research_review.py:308-398 | it is APPROVED exactly when none does, no two reviews of the head share an id, and some endorsement is its author's latest marked review |
| `ReviewVerdicts.PostedBlockBlocks` | tools/independent_research_review.py:308-398 | a blocking payload, printed and submitted by anyone at the head, blocks whatever else is listed |
| `ReviewOutcome.OrderIsIrrelevant` | tools/independent_research_review.py:308-370 | every permutation of the reviews, repeated ids included, resolves alike |
| `ReviewOutcome.BlockingIsFinal` | tools/independent_research_review.py:308-370 | a blocked outcome survives adding any reviews |
| `ReviewOutcome.PostedReceiptApproves` | tools/independent_research_review.py:308-398 | a printed APPROVED receipt posted by its publisher counts as that reviewer's approval |
| `ReviewOutcome.PostedReceiptResolves` | tools/independent_research_review.py:308-398 | and resolves the pull request to APPROVED when nothing blocks, ids are distinct and it is the reviewer's latest |
| `TreeMerge.ParentsComeFirst` | tools/ppo_checkpoint_actions.py:873-876 | in a listing sorted by path text every directory precedes what it contains |
| `TreeMerge.MergeEntry` | tools/ppo_checkpoint_actions.py:877-905 | one entry is added, or found equal in kind and bytes, or refused with nothing changed |
| `TreeMerge.MergeCheckpointTrees` | tools/ppo_checkpoint_actions.py:863-905 | a merge succeeds exactly when the trees agree on shared paths, then yields their union, and never replaces or removes anything |
| `TreeMerge.RestoreCheckpointInputs` | tools/ppo_checkpoint_actions.py:1546-1586 | the loop over the inputs computes the repeated merge |
| `TreeMerge.MergeAllMeaning` | tools/ppo_checkpoint_actions.py:1546-1586 | merging all inputs succeeds exactly when they agree pairwise, and yields exactly their union |
| `TreeMerge.MergeOrderIsIrrelevant` | tools/ppo_checkpoint_actions.py:1546-1586 | order and repetition of inputs change neither success nor result |
| `Unpacking.UnpackedMeaning` | tools/ppo_checkpoint_actions.py:786-794 | creating the entries one after the other succeeds exactly when no file is at or above another entry, and leaves exactly the declared entries and the directories above them |
| `Unpacking.UnpackOrderIsIrrelevant` | tools/ppo_checkpoint_actions.py:786-794 | the order of the entries changes neither success nor result |
| `Unpacking.ExtractionIsUnique` | tools/ppo_checkpoint_actions.py:786-811 | the entries determine the tree |
| `ZipRoster.NamesOfAPath` | tools/ppo_checkpoint_actions.py:691-706 | the accepted names of a path are exactly its slash-joined text and that text with one final slash |
| `ZipRoster.AcceptedPathIsSafe` | tools/ppo_checkpoint_actions.py:691-706 | every accepted name stands for a non-empty relative path of safe components |
| `ZipRoster.ScanEntries` | tools/ppo_checkpoint_actions.py:715-741 | the first loop accepts exactly when every entry is acceptable, the sizes sum within the limit and the paths are distinct |
| `ZipRoster.CollisionFound` | tools/ppo_checkpoint_actions.py:742-757 | the three collision checks together find exactly the files that are a proper prefix of another entry |
| `ZipRoster.CheckedArchiveMembers` | tools/ppo_checkpoint_actions.py:709-758 | a roster is accepted exactly when it is within the limits, its paths are distinct and no file is a proper prefix of an entry |
| `ZipRoster.AcceptedRostersUnpack` | tools/ppo_checkpoint_actions.py:742-794 | with distinct paths, the roster's condition is exactly the one under which extraction never collides |
| `ZipRoster.CopyMember` | tools/ppo_checkpoint_actions.py:793-810 | the chunk loop succeeds exactly when the member delivers its declared size, and writes its content |
| `ZipRoster.ExtractMembers` | tools/ppo_checkpoint_actions.py:786-810 | the extraction loop succeeds exactly when nothing collides and every file delivers |
| `ZipRoster.Site.SafeExtractZip` | tools/ppo_checkpoint_actions.py:772-819 | succeeds exactly under the stated conditions, with exactly the declared tree; on any failure destination and stage are as before |
| `PortablePaths.ChangedPaths` | tools/agent_repo/source_packet.py:301-334 | accepts exactly complete status and path pairs whose paths are safe and distinct up to case, and returns them sorted |
| `PortablePaths.StreamFields` | tools/agent_repo/source_packet.py:313-315 | the fields of a NUL-terminated stream are read back, whether or not the last terminator is there |
| `PortablePaths.RepeatedFold` | tools/agent_repo/source_packet.py:327-331 | the repeated-path test never decides: a repeated path is also a repeated folded name |
| `PortablePaths.RejectPrefixCollisions` | tools/agent_repo/source_packet.py:337-350 | passes exactly when no file is, up to case, a proper component prefix of another |
| `PortablePaths.PortableExactlyWhenUnpacks` | tools/agent_repo/source_packet.py:327-350 | the folded uniqueness and prefix checks pass exactly when the files can be unpacked on a file system that ignores case |
| `PortablePaths.ReadMembers` | tools/agent_repo/source_packet.py:484-524 | accepts exactly inventories that agree with both commits, and gathers the head's changed files with their blobs |
| `PortablePaths.MakeTar` | tools/agent_repo/source_packet.py:364-377 | the archive lists the members in name order |
| `PortablePaths.VerifyTar` | tools/agent_repo/source_packet.py:380-393 | verification accepts exactly regular members with the expected names in order and the expected bytes |
| `PortablePaths.MadeTarVerifies` | tools/agent_repo/source_packet.py:364-393 | the archive that was made always passes its own verification |
| `PortablePaths.SourcePacket` | tools/agent_repo/source_packet.py:450-530 | a packet is made exactly when paths, inventory and prefixes are accepted, and holds the head's changed files in name order |
| `PortablePaths.PacketsUnpackAnywhere` | tools/agent_repo/source_packet.py:450-530 | every packet that is made unpacks on a file system that ignores case |
| `LedgerAudit.AuditIntervals` | report/independent_ppo_feature_g4_audit.py:144-180 | the interval loop accepts exactly the chained intervals and returns their equity returns and endpoints |
| `LedgerAudit.AuditCell` | report/independent_ppo_feature_g4_audit.py:144-214 | the audit of a cell accepts exactly the ledgers whose chain, return, drawdown and final account hold |
| `LedgerAudit.CloseExactly` | report/independent_ppo_feature_g4_audit.py:40-41 | two values are close exactly when they differ by at most the absolute tolerance or 1e-10 of either |
| `LedgerAudit.ColumnDrift` | report/independent_ppo_feature_g4_audit.py:159-172 | after n intervals a cumulative column is off the sum of its deltas by at most 2n tolerances |
| `LedgerAudit.FundingDrift` | report/independent_ppo_feature_g4_audit.py:162-172 | in an accepted cell the funding column is off the sum of the intervals' funding by at most 2n tolerances |
| `LedgerAudit.BorrowDrift` | report/independent_ppo_feature_g4_audit.py:162-172 | and the borrow column off the sum of the intervals' borrow costs |
| `LedgerAudit.TotalCostBound` | report/independent_ppo_feature_g4_audit.py:159-201 | the final total cost of an accepted cell is off the sum of interval costs by at most 2n + 1 tolerances |
| `LedgerLimits.TotalCostBoundIsReached` | report/independent_ppo_feature_g4_audit.py:159-201 | for every interval count, vector length and capital there is an accepted cell that is off by exactly that much |
| `LedgerAudit.Compound` | report/independent_ppo_feature_g4_audit.py:43-46 | fails exactly on an empty series or a total loss, and otherwise compounds the returns |
| `LedgerAudit.GrowthOfConcat` | report/independent_ppo_feature_g4_audit.py:43-46 | growth over two stretches is the product of their growths |
| `LedgerAudit.SlicesCompound` | report/independent_ppo_feature_g4_audit.py:181-183 | the compounded returns of contiguous slices compound to that of the whole stretch |
| `LedgerAudit.CompoundIdentity` | report/independent_ppo_feature_g4_audit.py:162-181 | the compounded return is final over initial equity times what the tolerated joints gain or lose |
| `LedgerAudit.ExactChainCompounds` | report/independent_ppo_feature_g4_audit.py:165-181 | on an exact equity chain it is final over initial equity, less one |
| `LedgerAudit.EndpointDrawdown` | report/independent_ppo_feature_g4_audit.py:187-191 | the running-peak loop computes the drawdown of its specification |
| `LedgerAudit.DrawdownIsWorstFall` | report/independent_ppo_feature_g4_audit.py:187-191 | that drawdown bounds every fall from an earlier to a later value, and one fall attains it |
| `LedgerLimits.TraceBoundIsExact` | report/independent_ppo_feature_g4_audit.py:192-198 | for every interval count, vector length and capital: the last traced drawdown plus b bounds every fall of every accepted ledger exactly when b is at least 1e-9 + 1e-11 |
| `Task18Receipts.EvaluateRunReceipt` | tools/tier_d_nonrl/task18_receipts.py:494-760 | the arm loop with its flags returns the evaluation stated without a loop |
| `Task18Receipts.JudgeArm` | tools/tier_d_nonrl/task18_receipts.py:524-678 | one turn of the loop: what an arm does to each flag, first occurrence or repeated, declared or not |
| `Task18Receipts.CheckAttempt` | tools/tier_d_nonrl/task18_receipts.py:561-626 | an arm that did not complete is well formed exactly when it claims no terminal fact and gives an allowed reason |
| `Task18Receipts.CheckCompletion` | tools/tier_d_nonrl/task18_receipts.py:627-678 | a completed arm is well formed, and reported, exactly under the stated field conditions |
| `Task18Receipts.RosterSize` | tools/tier_d_nonrl/task18_receipts.py:680-709 | a complete roster has as many entries as declared arms |
| `Task18Receipts.AvailableExactlyWhen` | tools/tier_d_nonrl/task18_receipts.py:685-744 | pair arithmetic is available exactly when run and source are bound, the arms are in bijection with the roster and each is completed, matched, flat and without pending orders |
| `ReceiptFacts.AvailableInFull` | tools/tier_d_nonrl/task18_receipts.py:412-744 | the same in the fields of the run, of each arm and of its report |
| `ReceiptFacts.MatchesExactly` | tools/tier_d_nonrl/task18_receipts.py:436-491 | a report matches exactly when it is of this arm and run, ran to the end, and agrees with the arm in every field and number |
| `ReceiptFacts.ExpectedArms` | tools/tier_d_nonrl/task18_recipe.py:323-345 | the arms expected are the two that each pair declares, under the pair's id and role |
| `Task18Order.OrderIsIrrelevant` | tools/tier_d_nonrl/task18_receipts.py:494-760 | reordering a list without repeated ids changes no verdict |
| `Task18Order.OtherVerdictsIgnoreOrder` | tools/tier_d_nonrl/task18_receipts.py:494-760 | for every list, repeated ids or not, every verdict but the well-formedness of the metrics is the same in every order |
| `Task18Order.OrderMattersWithRepeats` | tools/tier_d_nonrl/task18_receipts.py:531-536 | a list with a repeated id whose two orders are evaluated differently: the first entry decides |
| `Task18Order.OrderMattersExactly` | tools/tier_d_nonrl/task18_receipts.py:524-678 | the evaluation is the same in every order exactly when some arm is unnamed, or some declared id present has only ill-formed entries, or no entry with a declared id is ill-formed |
| `Task18Receipts.DiagnosticPairDelta` | tools/tier_d_nonrl/task18_receipts.py:773-796 | available exactly for declared pairs of an available run, as the equity difference per unit of capital |
| `ReceiptFacts.PairDeltaInFields` | tools/tier_d_nonrl/task18_receipts.py:773-796 | the delta is the terminal equity of the arm named for the pair's policy less that of the arm named for its cash book, for each unit of capital |
| `Task18Receipts.DiagnosticCombinedDelta` | tools/tier_d_nonrl/task18_receipts.py:799-818 | available exactly when there is one pair for each symbol, as the mean of their deltas |
| `ReceiptFacts.PairsCombined` | tools/tier_d_nonrl/task18_receipts.py:805-818 | the pairs combined are those of the configuration and scenario, each once and in order |
| `Task18Receipts.CombinedDeltaIsNet` | tools/tier_d_nonrl/task18_receipts.py:799-818 | that mean is the sum of non-RL equities less that of cash equities, over symbols times capital |
| `Pagination.ReadPages` | tools/github_workflow_artifacts.py:159-197 | against any server the loop ends within the page bound; it succeeds exactly on a complete listing and reports a drift exactly when the first bad page is one |
| `Pagination.CompleteMeaning` | tools/github_workflow_artifacts.py:159-197 | what is returned has exactly the claimed number of entries, with pairwise distinct ids |
| `Pagination.UnchangingListingIsRead` | tools/github_workflow_artifacts.py:159-197 | an unchanging listing of distinct entries is read successfully and exactly |
| `Pagination.ScanArtifacts` | tools/github_workflow_artifacts.py:159-197 | the complete listing, sorted by id |
| `Pagination.SortedById` | tools/github_workflow_artifacts.py:196 | sorting distinct ids gives the same entries strictly ascending |
| `Pagination.ScansAgreeExactlyOnContents` | tools/github_workflow_artifacts.py:219-222 | the two scans compare equal exactly when they saw the same entries, in whatever order |
| `Pagination.ObserveArtifacts` | tools/github_workflow_artifacts.py:200-226 | succeeds exactly when both scans are complete and equal and the run and repository did not change |
| `Pagination.ObserveWorkflowAttempt` | tools/github_workflow_attempts.py:141-210 | succeeds exactly on a complete non-empty job listing consistent with an unchanged run |
| `Pagination.ActiveBranchesOnce` | tools/branch_hygiene.py:275-336 | one pass returns exactly the branches that some row of some page of some status names, when every listing is complete, and asks for a retry exactly when the first unreadable one drifted |
| `Pagination.ActiveWorkflowBranches` | tools/branch_hygiene.py:262-273 | within three passes the first that did not drift decides; pages of two passes are never combined |
| `Pagination.RosterNames` | tools/branch_hygiene.py:275-336 | a complete roster holds exactly the branches that some row of some page of some status names |

## Left out

- `_canonical_payload`, JSON text and SHA digests: the codec is a parameter whose load undoes its dump and whose dump has no line breaks; digests are values or an uninterpreted function.
- `plan_registry_transition` and the registry parser are not part of this model; the transition planner is a parameter, and only what the shown code re-checks about its result is used.
- HTTP, subprocess, git and GitHub calls, tokens, clocks, argument parsing, symbolic links, disk errors other than those named, and all error texts: every refusal is one outcome except where the code's callers tell two apart.
- Floating-point rounding: ledgers and receipts are over exact reals, so NaN and infinities appear only as unusable fields, and exponentials of sums of logarithms are products.
- Letter case is folded, and blanks are recognised, for ASCII only; byte order and code-point order of paths coincide there.
- Regular-expression engines: each pattern is the predicate it denotes.
- `SourceIndex.Export`: an import statement with several names is listed as one statement for each name, and modules are identified by dotted name instead of path.
- `BranchRetirement.ApplyMergedRetirement`: other actors are functions of time that may do anything except rewind main; the planner's reasons and its order of decisions are not modelled.
- `BranchRetention.RepeatedCleanupConserves`: branches are not pushed to, and pull requests stay open, from one plan to the next; the script itself only prints these plans, its bulk deletion entry always refuses.
- `BranchRetention.ParseRetentionLog`: the conversion of a timestamp to an integer is a parameter.
- `ReviewProtocol.AtMostOneRunPasses`: it assumes what the workflow provides, that an attempt's packet is listed before its guard runs, that listings are complete and that attempts of one run are sequential.
- `GraphQlClient.AtMostOneMutation`: the lock's sections are atomic steps; threads inside the transport are not modelled.
- `ZipRoster.Site.SafeExtractZip`: creation of the destination's parent directories, flushing and archive parsing are left out; a member is its chunks followed by the end or by a read error.
- `ZipRoster.NamesOfAPath`: the Windows drive test of member names is that of Python 3.12, a colon in second place.
- `PortablePaths.SourcePacket`: the patch, the manifest and the TAR encoding are left out; an archive is its list of members.
- `LedgerAudit.AuditCell`: identity, digest, order-event and termination checks and the gates computed from the cells are left out; each is settled by one comparison.
- `LedgerLimits.TotalCostBoundIsReached`: the witness is stated while the total cost stays within 10, where the absolute tolerance is the larger one.
- `Task18Receipts.EvaluateRunReceipt`: the list of issue texts and the two constant status strings are not modelled.
- `Pagination.ReadPages`: it stands for the three paging loops, which differ only in bounds and row checks; a row is already judged valid or not, and the page is asked for once in a pass.
- The repository activation tag, the first-parent walk of verified pruning, validators that look at one field at a time, the user interface and the simulator, risk and PPO packages are outside this model.
