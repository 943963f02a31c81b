# TinySweeper, verified model

A Dafny 4.11 model of the parts of TinySweeper whose correctness depends on more than one function:
who may spend a model call, how a file is cut into chunks, what is left standing on a pull request,
how several reviewers' findings become one set, whose configuration wins, and whether untrusted text
stays inside the Markdown it is printed in. `dafny verify dfyconfig.toml` checks all of it.

## How it is laid out

| files | what they model |
|---|---|
| `Admission`, `AdmissionRuns`, `AdmissionAnswers`, `BoundedDispatch` | the shared call ledger, its permits and parked acquirers, as classes and as a transition system over every interleaving, and what each is answered |
| `Accounting`, `AccountingFields` | the running totals of what physical calls cost |
| `Text`, `WhiteSpace`, `Chunks`, `LineSplitter`, `LineBoundaries`, `LineIndex`, `TreeSplitter`, `CutPoints`, `NodeCuts`, `WholeNodes`, `CutSymbols`, `ChunkNames` | both chunkers over UTF-8 bytes, the fallback from one to the other, which nodes of the tree a cut or a chunk boundary can fall inside, and where and under which name a chunk has to end |
| `ReviewHistory`, `Publication`, `PublicationAnswers` | the bot's standing review on the forge, the durable receipt, and one publication of a proposal |
| `Agreement`, `Council`, `CouncilMerge`, `CouncilRounds` | when two findings are one, what a group of findings folds into, and which groups the merge forms |
| `ConfigLayers`, `ConfigPaths`, `ConfigShapes`, `ConfigOverlay`, `OverlayKeys` | the layered merge, its provenance ledger, and the allow-list for a repository's own file |
| `CodeFences` | code spans and code blocks, with a reader for the CommonMark 0.31.2 syntax they are printed in |

An operation the program performs by updating state is a method (on a class where the program has an
object), proved equal to a specification function of the old state. What is promised of the
operation is then proved of that function, in terms of its inputs and outputs alone: the answers over
a run, the fields of the terminals, the lanes of a proposal, the texts and boundaries of the chunks.
Where the rules leave no choice, that they leave none is proved too.

**Concurrency.** One step of the admission machine is one critical section of the program. The bump
of the wake-up generation happens after the lock is released, so a bump that is still owed is part
of the state and any other step may come before it. The clock only moves forward.

**Numbers.** Counters are 64-bit words with the program's saturating additions. Under a call ceiling
none of them can saturate, and the results hold for runs of any length. Without one a counter could
saturate after 2^64 - 1 steps, and the exactness of the counters is stated up to there; nothing else
is bounded. Confidences and costs are reals. The largest finite cost is a parameter.

## Where the code and its own words differ

- A blocked proposal can be approved. `src/app/apply.rs:681-684` says a failing lane must not be
  approved, but the clearing branch at line 710 does not ask whether a lane blocks.
  `Publication.WhenABlockedProposalIsApproved` gives the exact condition.
- Absorbing a finding is documented as never ending below either input (`src/council/merge.rs:93-95`).
  It does, exactly for a finding surer than the ceiling of 0.99: `Council.OnlyTheNearlyCertainLose`.
- The representative of a council group is documented as the surest finding
  (`src/council/merge.rs:28-30`). From the third member on it is measured against the confidence
  combined so far: `Council.WhenTheSurestSpeaks` gives the exact condition for the surest to be heard,
  and `Council.OfThreeTheSurestMayNotSpeak` a group in which it is not.
- The record of what stands on the forge can go stale. A call that withdraws an approval and submits
  nothing returns success and records nothing: `Publication.RecordStaysInStepExactly`,
  `Publication.RecordCanGoStale`.
- One decision can be published twice, in exactly one kind of run:
  `Publication.OneReviewPerUnchangedDecision`, with such a run in `Publication.TwoReviewsCanBeLeft`.
- A configuration entry recorded under a dotted name is the path's own only while no other key spells
  it: `ConfigPaths.CreditIsRightExactly`. The same reading lets a quoted key through the allow-list;
  `ConfigOverlay.KeptLeavesAreListedExactly` says exactly which kept leaves the list names.
- A chunk can hold half a function. `src/chunk/tree.rs:3-4`, `:21-22` and `:180-181` say a chunk never
  contains half a definition and a function is never opened up. An oversized export or decorated
  definition is opened, and `body_of` steps through it into the wrapped function's own body:
  `WholeNodes.ExportedFunctionIsCut`. `WholeNodes.TreeChunksAreSound` says exactly which nodes of the
  tree are kept in one segment, and `NodeCuts.AnyDefinitionCuts` when a wrapped one is not.
- An approval of an old head can outlive a review that found a lane failing:
  `Publication.WhenAnApprovalStands` gives the exact condition,
  `Publication.AnOldApprovalCanStandOverAFailingLane` a case.
- A chunk can exceed the embedder's ceiling, exactly when one character alone does:
  `LineSplitter.LineChunksAreSound`.
- A code span does not always show its text: `CodeFences.CodeSpanSurvivesExactly`.

## Model

| member | source | states |
|---|---|---|
| AdmissionRuns.ReachableStatesAreSound | src/app/review_execution.rs:643-826 | in every state any interleaving of acquirers, permits, cancellation, tightening and time can reach no parked acquirer has lost its wake-up, however long the run; and unless the job made more than 2^64 - 1 steps without a cap, reserved calls are the undropped permits not committed and committed calls are the sum over all permits ever committed of max(1, attempts) |
| AdmissionRuns.RunConserves | src/app/review_execution.rs:711-826 | from any conserved state both counters stay exact over every run: of any length under a cap, and otherwise until the steps taken without a cap could fill a word |
| AdmissionRuns.ParkedAcquirerCanFinish | src/app/review_execution.rs:647-686 | whenever a parked acquirer could be admitted or refused, paying the wake-ups already owed is enough for it to get that very answer, without any step of anyone else |
| AdmissionRuns.WaitingIsForSomebody | src/app/review_execution.rs:669-686 | whenever an acquirer would have to wait there is a live permit that is neither committed nor dropped |
| AdmissionRuns.NobodyWaitsForNothing | src/app/review_execution.rs:669-686 | once every permit is committed or dropped, every acquirer is admitted or refused |
| AdmissionRuns.CeilingHoldsOverRuns | src/app/review_execution.rs:576-590 | from any conserved state with a cap and for runs of any length, the cap never rises, and neither the committed calls nor the committed and reserved calls together pass the cap or what was already there |
| AdmissionRuns.CappedJobStaysUnderItsCap | src/app/review_execution.rs:753-805 | over every run, of any length, of a job that starts under a cap: physical sends <= committed <= committed + reserved <= cap |
| AdmissionRuns.TightenedJobStaysUnderItsCap | src/app/review_execution.rs:576-590 | a job that starts with no cap, or with another, and has a limit L put on it mid-way with C calls committed: for the rest of any run sends and committed calls stay within max(L, C), and with the reservations within max(L, what was held at that moment) |
| AdmissionRuns.SendsAreCommitted | src/app/review_execution.rs:771-811 | the physical sends of all permits together never exceed the committed calls |
| AdmissionRuns.NothingPassesTheFence | src/app/review_execution.rs:653-661 | after a cancellation or the soft deadline, no run of any length commits a call, admits a permit, commits an admitted one or lets one send again, and reservations only shrink |
| AdmissionRuns.SlotsOnlyMoveForward | src/app/review_execution.rs:711-751 | over any run a refused, fenced or over-limit permit keeps that state until it is dropped, a committed one stays committed, attempts never decrease and a drop is final |
| AdmissionRuns.UnlockedReadAgreesWithLockedRead | src/app/review_execution.rs:712-751 | whatever runs between the unlocked read of a permit's state and the lock, a refusal forced by the first read is the answer under the lock, which changes nothing |
| Admission.PreflightAgreesWithAcquire | src/app/review_execution.rs:531-550 | the preflight refuses exactly when an acquisition would, with the same reason, and stays silent exactly when it would admit or wait |
| Admission.ExecutionInner.TryAcquire | src/app/review_execution.rs:647-686 | one pass of the acquire loop: the whole new ledger, whether a fresh reserved permit or which refusal results, and that nobody is woken |
| Admission.ExecutionInner.RestrictToLarge | src/app/review_execution.rs:576-590 | the cap becomes the smaller of the two, and waiters are woken exactly when it changed |
| Admission.ExecutionInner.Cancel | src/app/review_execution.rs:612-621 | the scope is cancelled and waiters are woken the first time only |
| Admission.ExecutionInner.RefusalForNewWork | src/app/review_execution.rs:533-550 | the preflight's answer is the refusal an acquisition would get at that moment, and none when it would be admitted or would wait; nothing changes |
| Admission.ReviewDispatchPermit.MarkDispatched | src/app/review_execution.rs:711-768 | the exact ledger, permit, refusal and wake-up left by committing a permit, for every state of both, also when permits alias one scope |
| Admission.ReviewDispatchPermit.MarkPhysicalAttempt | src/app/review_execution.rs:771-811 | the exact ledger, permit, refusal and wake-up left by a physical send: the first is free, each further one needs uncommitted and unreserved capacity |
| Admission.ReviewDispatchPermit.Drop | src/app/review_execution.rs:814-826 | an uncommitted permit gives its reservation back and wakes the waiters; a committed one changes nothing |
| BoundedDispatch.BoundedRunIsALedgerRun | src/app/review_execution.rs:199-222 | every run through the semaphore wrapper is a run of the ledger beneath it, ending in the same state |
| BoundedDispatch.AtMostEightOutstanding | src/app/review_execution.rs:84-98 | over every run through the wrapper, of any length and with or without a call ceiling: at most eight permits are undropped, the reserved calls are exactly the uncommitted ones among them, nobody has lost a wake-up, and a ceiling the job started with bounds sends, committed and reserved calls |
| AdmissionAnswers.GrantedSendsAreRecorded | src/app/review_execution.rs:771-811 | from any conserved state and over any run, the sends answered without a refusal, counted from the answers, are exactly the ones put on record, permit by permit and in all |
| AdmissionAnswers.GrantedSendsArePaidFor | src/app/review_execution.rs:788-805 | over a whole job no more sends are answered without a refusal than calls are committed, and under a cap no more than the cap |
| AdmissionAnswers.TightenedJobIsGrantedNoMore | src/app/review_execution.rs:576-590 | once a limit L is put on a job that had committed C calls, all the sends it is ever granted are at most max(L, C) |
| AdmissionAnswers.SendIsGrantedExactly | src/app/review_execution.rs:771-811 | after any run a live permit is granted a send if and only if it is committed, the fence is open, and it is its first granted send in the run or committed and reserved calls leave room; a refused committed permit is told of the cancellation, then the deadline, then the cap |
| AdmissionAnswers.DispatchIsGrantedExactly | src/app/review_execution.rs:711-768 | before the fence a committed permit is granted its dispatch again for nothing and a reserved one if and only if the committed calls are below the cap, which moves one call from reserved to committed; the refusals otherwise |
| AdmissionAnswers.RefusalsStick | src/app/review_execution.rs:711-787 | a reserved permit refused once is given that same answer to every later dispatch and send |
| AdmissionAnswers.NothingIsGrantedBehindTheFence | src/app/review_execution.rs:653-661 | after a cancellation or the deadline no run contains a granted send or dispatch |
| AdmissionAnswers.EveryChangeIsAnnounced | src/app/review_execution.rs:576-826 | a step other than an admission owes the waiters one more wake-up if and only if it changed a counter, the cap or the flag |
| AdmissionAnswers.RunDecidesTheTerms | src/app/review_execution.rs:576-621 | after any run the job is cancelled if and only if it was or some step cancelled it, and its cap is the smallest limit it was ever given |
| AdmissionAnswers.AcquirerIsAnsweredExactly | src/app/review_execution.rs:647-686 | after any run from the start, which of the five answers an acquirer gets, from the cancellations, the clock and the limits in the run and the two counters, and what its pass changes |
| Accounting.PhysicalExecutionAccounting.Record | src/app/review_execution.rs:378-418 | one terminal changes the totals, the row of the model that answered, the terminal count and the completeness flag exactly as the specification enters it |
| Accounting.AddUsageSaturating | src/app/review_execution.rs:421-439 | the saturated sum of two usages and whether none of its eight counters nor the cost overflowed |
| Accounting.TotalsSaturateTheExactSum | src/app/review_execution.rs:377-453 | for every sequence of terminals each total is min(maximum, exact sum): saturating at every step is saturating once |
| Accounting.ModelTotalsSaturateTheirExactSum | src/app/review_execution.rs:408-416 | the same for every model's own row, which never exceeds the total |
| Accounting.CompleteIsExact | src/app/review_execution.rs:389-416 | the books are complete if and only if every terminal reported a usable cost and no exact total overflows |
| Accounting.ModelsPartitionTheTotal | src/app/review_execution.rs:408-416 | splitting the exact totals by billed model loses and double-counts nothing |
| Accounting.ModelsPartitionTheCost | src/app/review_execution.rs:408-416 | splitting the exact cost by billed model loses and double-counts nothing |
| Accounting.CompleteSnapshotBalances | src/app/review_execution.rs:593-608 | when a snapshot is complete every total is exact, the counters and the costs of the model rows add up to it, and attempted = succeeded + errored = committed = number of terminals |
| AccountingFields.TotalsAddUp | src/app/review_execution.rs:378-405 | after any terminals: succeeded counts the successful ones, errored the others, declined the refused ones, each token total sums its own report field, all capped at the word, and the cost sums the nonnegative charges up to the largest cost |
| AccountingFields.RowsAddUp | src/app/review_execution.rs:408-416 | the same for every row over exactly the terminals whose nonempty answered name is its model, or which came back without one and asked for it |
| AccountingFields.RowsAreForTheBilled | src/app/review_execution.rs:408-416 | a model has a row if and only if some terminal is billed to it so |
| AccountingFields.CompleteByFields | src/app/review_execution.rs:389-416 | the books are complete if and only if every terminal reported a nonnegative charge and no sum, of the totals or of any row, had to be capped |
| Text.CutKeepsUtf8 | src/chunk/lines.rs:100-134 | cutting valid UTF-8 (RFC 3629, section 3) on a char boundary leaves two valid halves |
| WhiteSpace.BlankExactly | src/chunk/lines.rs:70-74 | bytes count as blank if and only if they spell out white-space characters in UTF-8 and nothing else |
| LineSplitter.Pieces | src/chunk/lines.rs:106-134 | the loop that cuts one line equals its specification, for every ceiling including 0 |
| LineSplitter.PiecesSliceTheLine | src/chunk/lines.rs:106-134 | the pieces of any line are nonempty, end on char boundaries and concatenate to it |
| LineSplitter.PiecesFit | src/chunk/lines.rs:106-134 | every piece meets the ceiling when no single character is wider than it |
| LineSplitter.FeedPieces | src/chunk/lines.rs:65-93 | one line's pieces join the buffer, which is flushed first exactly when it is hard full, would exceed the lower ceiling, or meets a blank piece at a seam |
| LineSplitter.SplitPreservingWhitespace | src/chunk/lines.rs:45-98 | the nested loops produce exactly the specified chunks of any text from any first line |
| LineSplitter.LineChunksAreSound | src/chunk/lines.rs:45-147 | for all valid UTF-8 and all settings: nonempty chunks on char boundaries tile the text, their texts concatenate to it, start and end lines count the line feeds before the first and last byte, all meet the embed ceiling if and only if no character is wider (so always from 4 bytes on), and a chunk longer than min(target, embed ceiling) is blank in all but one piece of a line, which ends it |
| LineBoundaries.PiecesAreMaximal | src/chunk/lines.rs:106-134 | the pieces of a line put it together again, and each ends only because the next character would not have fitted |
| LineBoundaries.BoundariesAreForced | src/chunk/lines.rs:45-98 | the chunks are the pieces of the text dealt out in order, unnamed, and one ends if and only if the next piece would overrun the embedder ceiling, or overruns min(target, ceiling) after something not blank, or is blank after something not blank of half that length |
| LineBoundaries.DealingIsUnique | src/chunk/lines.rs:65-93 | no other way of dealing out the pieces keeps to those rules |
| LineBoundaries.ShortTextIsOneChunk | src/chunk/lines.rs:65-98 | a nonempty text within the target and the ceiling and without a blank line is one chunk |
| Chunks.CoveringReproducesTheText | src/chunk/lines.rs:45-98 | chunks that tile a stretch of a file concatenate to that stretch |
| Chunks.CoversInTheFile | src/chunk/tree.rs:355-367 | chunks of a fragment that was told its first line are correctly placed and numbered chunks of the file |
| Chunks.CoveringHoldsTheWidestChar | src/chunk/lines.rs:119-125 | no cut on char boundaries can make all chunks smaller than the widest character |
| LineIndex.BinarySearch | src/chunk/tree.rs:394-399 | finds the entry, or the one place that separates the smaller entries from the larger |
| LineIndex.LineOf | src/chunk/tree.rs:394-399 | the lookup counts the line starts at or before the byte |
| LineIndex.LineLookupIsExact | src/chunk/tree.rs:382-399 | looking a byte up in the table of line starts gives 1 plus the line feeds before it |
| CutPoints.BodyIsInside | src/chunk/tree.rs:229-243 | however many wrappers are looked through, the body found is a well-nested part of the node |
| CutPoints.WithLeadingComments | src/chunk/tree.rs:207-226 | the loop pulls a cut back to where the specified run of comments starts |
| CutPoints.CutStopsAtTheLastNonComment | src/chunk/tree.rs:207-226 | a cut passes attached comments only, and all of them: it never crosses another sibling or a blank line |
| CutPoints.CollectCuts | src/chunk/tree.rs:158-190 | the recursive walk that fills the cut table equals its specification |
| NodeCuts.CutsRespectTheTree | src/chunk/tree.rs:158-190 | a new cut strictly inside any node of the tree, visited or not, means that the walk opened a listed container longer than the target and above the depth limit, has that node on its way to the container's body, and cuts between the node's ends below that body |
| NodeCuts.CutThroughIsCut | src/chunk/tree.rs:158-190 | the converse: a node stepped through on the way to a body below which the walk cuts between the node's ends is cut |
| NodeCuts.WhereItLies | src/chunk/tree.rs:229-243 | a node below an opened one is on the way to its body, below that body, or apart from it, however many wrappers lie in between |
| NodeCuts.AnyDefinitionCuts | src/chunk/tree.rs:158-190 | a node on the way that starts before the body, such as a wrapped function, is cut if and only if a definition among the body's children, comments included, starts before the node ends; without empty nodes, if and only if there is any definition among them |
| CutSymbols.BodyIsBehindTheWrappers | src/chunk/tree.rs:229-243 | the walk goes on at the end of the chain of declarations or definitions: in its body field, or its first container child, or the last wrapped node itself |
| CutSymbols.CutsAreNamed | src/chunk/tree.rs:158-190 | the walk cuts exactly where some definition it meets wants a cut, gives a new cut the symbol of the outermost and then first such definition, and leaves recorded cuts as they were |
| CutSymbols.SegmentsAreNamed | src/chunk/tree.rs:282-297 | a segment starts at zero and wherever a definition of the file wants a cut, nowhere else, and carries that definition's symbol, or none at a head where no definition starts |
| WholeNodes.SplitTree | src/chunk/tree.rs:93-121 | from parse tree to chunks: walk, cut at the head of the file, segments, assembly |
| WholeNodes.TreeChunksAreSound | src/chunk/tree.rs:93-121 | for every nonblank file and every well-nested tree the chunks tile the file with exact lines and meet the embed ceiling if and only if no character is wider; every nonempty node below the root, visited by the walk or not, lies in one segment if and only if the walk does not step through it into an opened container and cut inside it, and then lies whole in one chunk when that segment is within the split ceiling and the target is too; a node the walk visits and does not open always does |
| WholeNodes.NodeIsCutExactly | src/chunk/tree.rs:158-190 | whether a cut of the file falls strictly inside a node is decided by the tree alone, in both directions |
| WholeNodes.LargeSegmentSplits | src/chunk/tree.rs:307-326 | a segment longer than a quarter of the target starts a chunk, so no chunk holds both what lies before and after its start |
| WholeNodes.ExportedFunctionIsCut | src/chunk/tree.rs:229-243 | an exported function longer than the target with a declaration in its body is no listed container, is cut in its body, and is whole in no chunk |
| TreeSplitter.SegmentsTileTheFile | src/chunk/tree.rs:282-297 | with a cut at 0 the segments tile the file and each starts at a cut and carries its symbol |
| TreeSplitter.Assemble | src/chunk/tree.rs:300-328 | the packing loop produces exactly the specified chunks |
| TreeSplitter.Emit | src/chunk/tree.rs:330-380 | one group appends one parsed chunk, the line splitter's chunks, or nothing |
| TreeSplitter.PackAllIsTidy | src/chunk/tree.rs:307-326 | packing keeps the segments in order, never packs a large one with another, and a group of several fits the target |
| TreeSplitter.NamedAfterTheDominant | src/chunk/tree.rs:364-371 | a chunk is named after the segment holding more than half of it, and after none if there is none |
| TreeSplitter.AssembledIsSound | src/chunk/tree.rs:300-380 | for any segments that tile a file on char boundaries: the chunks tile it with exact lines through the line fallback too, meet the embed ceiling if and only if no character is wider, and with the target within the split ceiling every segment within that ceiling is whole in one chunk |
| ChunkNames.SegmentsAreGrouped | src/chunk/tree.rs:307-326 | a group of two or more fits the target and has no segment over a quarter of it, and a new group starts only where one side is such a segment or both together pass the target |
| ChunkNames.GroupingIsUnique | src/chunk/tree.rs:307-326 | no other grouping of the segments keeps to those rules |
| ChunkNames.GroupsBecomeChunks | src/chunk/tree.rs:330-380 | each group within both ceilings becomes one parsed chunk with its text and the symbol of the segment that holds more than half of it, or none when none does; a longer one becomes the chunks of the line splitter, in place |
| ReviewHistory.OwnReviewState | src/forge/github.rs:1940-1971 | the loop over the review history returns the bot's standing review |
| ReviewHistory.OwnStandingApproval | src/forge/github.rs:1975-1990 | the loop that looks for an approval to dismiss returns the one in force |
| ReviewHistory.ApprovalInForce | src/forge/github.rs:1940-1990 | the two loops agree: there is an approval to dismiss if and only if an approval stands |
| ReviewHistory.SubmitMovesTheSlot | src/forge/github.rs:1957-1970 | as one slot: a verdict overwrites it, a comment fills it only where no verdict stands |
| ReviewHistory.DismissEmptiesTheApproval | src/forge/github.rs:1766-1783 | a dismissal removes a standing approval and changes nothing otherwise |
| ReviewHistory.OthersDoNotMoveTheSlot | src/forge/github.rs:1945-1949 | reviews by anybody else never move the bot's slot |
| Publication.BlockingFindingSet | src/app/apply.rs:719-727 | the union of the lanes' blocking findings, or none as soon as one lane carries none |
| Publication.PullRequest.RecordApplyState | src/app/apply.rs:729-772 | the receipt after a publication, which a failing or missing store leaves as it was |
| Publication.PullRequest.Decide | src/app/apply.rs:259-362 | which event, whether it is submitted and whether an approval is withdrawn, as specified from what the forge and the store answer |
| Publication.PullRequest.Apply | src/app/apply.rs:195-504 | for every state of forge and store and every choice of failing calls: the forge history, the receipt and the outcome afterwards |
| Publication.UnvouchedKeepsNoApproval | src/app/apply.rs:364-397 | when publishing an incomplete, non-skipped proposal succeeds no approval of the bot stands, whether or not its history could be read |
| Publication.CleanPushIsUnblocked | src/app/apply.rs:697-712 | when publishing a complete proposal that draws no changes request succeeds with a readable history, no changes request of the bot stands |
| Publication.VerdictStands | src/app/apply.rs:340-425 | after success a decided approval or changes request is what stands, at this head or the head on record |
| Publication.WhenAnApprovalStands | src/app/apply.rs:340-425 | after a successful publication over a readable history an approval of the bot stands if and only if one was decided, or a comment was decided over a standing one by a review that is complete or was skipped |
| Publication.AnOldApprovalCanStandOverAFailingLane | src/app/apply.rs:364-425 | a complete review of a new head with a failing lane succeeds and leaves the approval of the old head standing |
| Publication.ReceiptMatchesTheForge | src/app/apply.rs:777-800 | after a submission over a readable history the recorded standing review equals the forge's, also when the withdrawal failed |
| Publication.RecordStaysInStepExactly | src/app/apply.rs:377-463 | over a readable history, with a store that takes the write and known blocking findings: a record that was in step with the forge is so after the call if and only if the call submitted its review or withdrew nothing |
| Publication.RecordCanGoStale | src/app/apply.rs:377-463 | a withheld file over a standing approval: the call withdraws it, submits nothing, succeeds, and leaves a record that is out of step |
| Publication.WhenABlockedProposalIsApproved | src/app/apply.rs:663-715 | approving implies a complete proposal that draws no changes request; a blocked one is approved if and only if moreover the bot's changes request still stands |
| Publication.ABlockedProposalCanBeApproved | src/app/apply.rs:697-712 | with the merge gate off there is a failing proposal the bot approves |
| Publication.RecordedDecisionIsSilent | src/app/apply.rs:272-362 | a decision on record, with no approval standing over an incomplete review, submits nothing more on any head and stays on record |
| Publication.OneReviewPerUnchangedDecision | src/app/apply.rs:272-440 | any run of proposals that reach one decision, on whatever heads and with other people reviewing in between, leaves at most one review by the bot if and only if it is not this: comments on incomplete reviews over a standing approval and not on record, in which a skipped proposal speaks before any that is not skipped, and one speaks after the first that is not; it never leaves more than two |
| Publication.TwoReviewsCanBeLeft | src/app/apply.rs:364-440 | a run of three proposals with one decision that leaves two reviews: a skipped one of another schema version, then two unanswered ones |
| PublicationAnswers.DecidedEventExactly | src/app/apply.rs:653-715 | changes are requested if and only if the gate is on, some lane blocks and some finding reaches its severity; approval is decided if and only if they are not, the review saw everything, and either nothing blocks on a ready pull request where clean reviews are approved or a known changes request is to be lifted |
| PublicationAnswers.ObjectionsStand | src/app/apply.rs:653-712 | after success, where the gate is on, a lane blocks and a finding reaches it, the bot's changes request stands |
| PublicationAnswers.CleanReviewsAreApproved | src/app/apply.rs:697-712 | after success a ready, unblocked proposal whose review saw everything leaves an approval standing where clean reviews are approved |
| PublicationAnswers.NoOtherObjectionStands | src/app/apply.rs:697-712 | after success over a readable history, a review that saw everything leaves a changes request standing if and only if the gate objects to it |
| PublicationAnswers.UnansweredIsSaid | src/app/apply.rs:340-362 | with nothing on record and no objection, an unanswered lane or another schema version leaves one more review |
| PublicationAnswers.NothingToSayIsNotSaid | src/app/apply.rs:340-362 | a comment with no line to post and nothing unanswered leaves none |
| PublicationAnswers.ApprovalsAreNotRestated | src/app/apply.rs:300-362 | an approval of this very head with nothing to post changes neither forge nor record, with or without a store |
| PublicationAnswers.PostableIsPosted | src/app/apply.rs:300-440 | with nothing on record, findings with a line are posted, once |
| PublicationAnswers.ChangedDecisionsAreSaid | src/app/apply.rs:272-362 | with a record, findings with a line are posted if and only if the record differs in event, blocking findings, coverage of a comment or standing review, or the history cannot be read |
| PublicationAnswers.FairWeatherPublishes | src/app/apply.rs:195-504 | when every call answers, an open pull request at the reviewed head is published to |
| PublicationAnswers.StaleReviewsTouchNothing | src/app/apply.rs:195-254 | a closed, merged or moved pull request, and only such a one, is reported so, and nothing is touched |
| PublicationAnswers.BlockingIsTheUnion | src/app/apply.rs:719-727 | the identities are exactly those some lane carries, and none are given if and only if a lane carries none |
| PublicationAnswers.ReceiptSaysWhatWasDone | src/app/apply.rs:729-772 | the record names the event and head of the review just left last on the forge, whether the review saw everything, and the union of the lanes' blocking findings |
| PublicationAnswers.StandingIsTheLastVerdict | src/forge/github.rs:1940-1990 | what stands is the bot's last verdict unless that was dismissed, then its last remark or dismissal, and an approval to dismiss is found if and only if it is that last verdict |
| PublicationAnswers.OnlyTheApprovalIsDismissed | src/forge/github.rs:1766-1783 | a dismissal rewrites the bot's last verdict if that is an approval, where it stands, and touches no other review |
| PublicationAnswers.NothingElseIsTouched | src/app/apply.rs:364-440 | a publication leaves at most one review more, and changes no other than an approval in force that its review cannot vouch for |
| Agreement.CorroborationIsSymmetric | src/council/agree.rs:48-101 | which finding came first does not matter to whether two corroborate |
| Agreement.CorroborationIsNotTransitive | src/council/agree.rs:48-101 | two findings can both corroborate a third and not each other |
| Agreement.CorroborationExactly | src/council/agree.rs:48-101 | two findings corroborate only in one lane and file; there always with one identity, else when placed if and only if their lines come within three, else when both unplaced if and only if they name the same rule |
| Agreement.NearIsNear | src/council/agree.rs:61-66 | between well-ordered ranges that test means some line of one is within three of some line of the other |
| Agreement.SameRuleExactly | src/council/agree.rs:90-94 | two rules are the same if and only if, without the white space around them, both say something and match letter by letter up to ASCII case |
| Agreement.TrimTakesTheSpaceAround | src/council/agree.rs:90-94 | trimming takes white space off both ends, all of it, and nothing else |
| Council.FoldedConfidence | src/council/merge.rs:93-116 | clamping noisy-or at every step is clamping once: a group of two or more ends at min(0.99, 1 - product of (1 - c)) |
| Council.ConfidenceIgnoresOrder | src/council/merge.rs:93-116 | the order findings are absorbed in does not change the confidence |
| Council.FoldIsMonotone | src/council/merge.rs:93-118 | no member had a higher severity, nor a higher confidence up to the ceiling, and the severity is some member's |
| Council.OnlyTheNearlyCertainLose | src/council/merge.rs:93-116 | a member of a group of two or more keeps at least its confidence if and only if that was at most 0.99 |
| Council.FoldKeepsIdentityAndVotes | src/council/merge.rs:97-117 | a group keeps its lane, its path and its first-seen identity, and its corroboration is the sum of the votes capped at 255 |
| Council.RepresentativeIsTheSpeaker | src/council/merge.rs:103-114 | the words, rule and line kept are one member's, whole: the last to outrank the confidence and severity combined before it |
| Council.WhenTheSurestSpeaks | src/council/merge.rs:103-116 | for every group and its surest member (by confidence, then severity, then position): its words are kept if and only if it outranks what the members before it had come to together and, when it is surer than the ceiling, no later member outranks the ceiling it is clamped to |
| Council.OfTwoTheStrongerSpeaks | src/council/merge.rs:103-114 | of two findings the words kept are the surer one's, then the more severe one's, then the first |
| Council.OfThreeTheSurestMayNotSpeak | src/council/merge.rs:103-114 | in some group of three the surest member's words are not kept |
| CouncilMerge.MergeReview | src/council/merge.rs:53-86 | one reviewer's round, with its claimed flags, equals placing each finding in the first free corroborating group |
| CouncilMerge.Merge | src/council/merge.rs:50-89 | the merged findings are the folds of the specified groups, in order of first appearance |
| CouncilMerge.MergeIsAPartition | src/council/merge.rs:50-89 | the groups partition all findings of all reviewers, hold at most one of each reviewer, and each member corroborated what its group had come to |
| CouncilMerge.VotesAreConserved | src/council/merge.rs:97-117 | the votes of the groups add up to the votes that went in |
| CouncilMerge.OutputSizeIsBounded | src/council/merge.rs:53-86 | the output is at least as long as every single review and at most as long as all together |
| CouncilMerge.NobodyIsWorseOff | src/council/merge.rs:50-119 | each input finding is represented by an output with its lane and path, at least its severity, at least min(its confidence, 0.99), the identity first seen and the capped vote count |
| CouncilMerge.OneReviewerIsReturnedUnchanged | src/council/merge.rs:44-68 | a council of one changes nothing, even where its findings corroborate each other |
| CouncilRounds.NextReviewIsPlacedGreedily | src/council/merge.rs:53-86 | how one more review changes the groups: each finding joins the first group whose result corroborates it and which no earlier finding of that review had joined, every group grows by at most that one, and the others follow in order in groups of their own |
| CouncilRounds.PlacementIsUnique | src/council/merge.rs:65-84 | no other placement keeps to those rules |
| CouncilRounds.NobodyIsKeptApart | src/council/merge.rs:65-84 | where a finding starts a group of its own, every earlier group that corroborated it took another finding of the same review |
| CouncilRounds.TwoBecomeOneExactlyWhenTheyAgree | src/council/merge.rs:65-84 | two reviewers of one finding each come out as one finding if and only if the two corroborate |
| ConfigLayers.MergeTable | src/config/merge.rs:99-121 | the merge in place gives the specified table and credits exactly the leaves of the upper one |
| ConfigLayers.RecordValue | src/config/merge.rs:123-138 | recording a value credits each of its leaves and nothing else |
| ConfigLayers.Configuration.MergeLayer | src/config/merge.rs:87-89 | a configuration stays the stack of the layers merged so far, with one more on top |
| ConfigPaths.MergeLaw | src/config/merge.rs:99-121 | at every path: where the upper table has a leaf, a table or a leaf above it alone decides, and elsewhere the lower one is unchanged |
| ConfigPaths.MergeIsIdempotent | src/config/merge.rs:99-121 | merging a layer again changes nothing |
| ConfigPaths.EffectiveLeafHasAWriter | src/config/merge.rs:99-121 | for any keys, an effective leaf has the value of the last layer that wrote its path, and no later layer has a say there |
| ConfigPaths.ProvenanceIsLastWriterWins | src/config/merge.rs:87-146 | between keys without dots, over any stack of layers: a leaf is effective if and only if it has a last writer, it holds that layer's value and the ledger credits that layer |
| ConfigPaths.LedgerHoldsOnlyLeaves | src/config/merge.rs:123-138 | a path has a ledger entry if and only if some layer has a leaf there |
| ConfigPaths.LedgerEntryIsLiveExactly | src/config/merge.rs:112-118 | an entry still names an effective leaf if and only if no layer above its writer put a table there or a leaf above it |
| ConfigPaths.LedgerEntriesCanGoStale | src/config/merge.rs:112-118 | two layers whose ledger names a leaf that is gone |
| ConfigPaths.CreditIsRightExactly | src/config/merge.rs:129-146 | for any keys, a leaf is credited to its writer if and only if no layer above has a leaf whose dotted name reads the same |
| ConfigPaths.DottedKeysShareAName | src/config/merge.rs:140-146 | two layers in which a key with a dot takes another leaf's credit |
| ConfigPaths.DottedRoundTrip | src/config/merge.rs:140-146 | splitting the dotted name of a path of plain keys gives the path back |
| ConfigShapes.MergeIsDetermined | src/config/merge.rs:99-121 | the merge is the only value that has, at every path, the leaf or table of the upper one where that has a say and of the lower one elsewhere, empty tables included |
| ConfigOverlay.PatternMatches | src/config/remote.rs:153-163 | the loop over two segment iterators decides equality of length and segment by segment, with a star for one segment |
| ConfigOverlay.IsOverridable | src/config/remote.rs:142-146 | true exactly for a key some listed pattern matches |
| ConfigOverlay.KeysAreShaped | src/config/remote.rs:101-133 | each of the 27 listed strings splits into its segments, none of which holds a dot, and is a lane's setting of three segments or a two-segment setting elsewhere |
| ConfigOverlay.FilterInto | src/config/remote.rs:178-205 | the recursive filter keeps the specified part and reports exactly the dotted names off the list |
| ConfigOverlay.Filter | src/config/remote.rs:170-176 | the same for a whole document |
| ConfigOverlay.FilterKeepsExactlyTheAllowed | src/config/remote.rs:178-205 | a leaf of the document is kept, with its value, if and only if its dotted name is on the list |
| ConfigOverlay.SettablePathsDoNotNest | src/config/remote.rs:101-133 | no path the list admits lies above or below another, whatever the keys look like |
| ConfigOverlay.SettingsAreNeverReplacedByTables | src/config/remote.rs:186-197 | at a path on the list the merged value is the document's leaf if it has one and otherwise the operator's, never a table |
| ConfigOverlay.OverlayIsHarmlessExactly | src/config/remote.rs:214-236 | every document's overlay leaves every path off the list unchanged if and only if the operator's configuration has no leaf strictly above or below a path on the list |
| ConfigOverlay.DotlessPathsAreListed | src/config/remote.rs:148-163 | where no key holds a dot and the first is not empty, a path is on the list if and only if one pattern matches it segment for segment |
| ConfigOverlay.KeptLeavesAreListedExactly | src/config/remote.rs:178-205 | a leaf the filter keeps is at a path some pattern matches segment for segment if and only if no key on the path holds a dot and the first is not empty |
| ConfigOverlay.QuotedKeysAreAdmitted | src/config/remote.rs:178-205 | a quoted key that only reads like a listed one is kept, at a path no pattern matches |
| ConfigOverlay.EffectiveConfig.ClampTo | src/config/remote.rs:248-258 | the eight switches and caps are clamped in place to the specified ones |
| ConfigOverlay.ClampIsTheMostPermissive | src/config/remote.rs:248-258 | settings are within the clamped ones if and only if they are within both the operator's and the repository's, so the clamps allow no more than either and take no more than they must |
| ConfigShapes.FilterIsDetermined | src/config/remote.rs:178-205 | what is kept is the only table with no empty table below its top and with, at every path, the document's leaf if its dotted name is listed and no leaf otherwise |
| ConfigShapes.TheLostAreReported | src/config/remote.rs:178-205 | a name is reported if and only if some leaf of the document of that name was not kept |
| OverlayKeys.AnyLaneMayFail | src/config/remote.rs:148-163 | `lanes.` x `.fail_on` is admitted if and only if x holds no dot, so a star stands for one segment of any text and never for two |
| OverlayKeys.ListMeansItself | src/config/remote.rs:101-146 | a key is admitted if and only if it is on the list letter for letter or is a lane's `fail_on` |
| CodeFences.LongestBoundsRuns | src/markdown.rs:7-22 | no run of backticks in a text is as long as one more than the longest piece between other characters |
| CodeFences.CodeSpanSurvivesExactly | src/markdown.rs:4-13 | read by section 6.1 of CommonMark 0.31.2, a printed span gives back the control-free text and leaves what follows alone, if and only if that text is nonempty and either has a backtick or does not both start and end with a space around something else |
| CodeFences.EmptySpanSwallows | src/markdown.rs:4-13 | empty text prints a fence that takes in what follows it |
| CodeFences.TrimTakesOnlyNewlines | src/markdown.rs:27 | trimming removes newlines at both ends, all of them and nothing else |
| CodeFences.CodeBlockSurvives | src/markdown.rs:16-28 | read by section 4.5 of CommonMark 0.31.2, a printed block is one block without an info string, closed by its own fence, whose content is the cleaned text trimmed of newlines plus one newline, with nothing after it touched |
| CodeFences.CleaningDropsOnlyControls | src/markdown.rs:4-21 | cleaning goes character by character, keeps the order and drops the control characters alone, except line feeds and tabs in a block |
| CodeFences.SpanIsNoLonger | src/markdown.rs:7-12 | for nonempty clean text the fence is one longer than its longest run of backticks, and the span holds nothing but the two fences, the text and, where it has a backtick, one space on either side |
| CodeFences.BlockIsNoLonger | src/markdown.rs:16-28 | the fence is one longer than the longest run inside but at least three, and the block holds nothing but the two fences, the trimmed text and two line feeds |

## Left out

- AdmissionRuns.ReachableStatesAreSound: the counters are exact only up to 2^64 - 1 steps without a cap, because past that one could saturate.
- AdmissionRuns.TightenedJobStaysUnderItsCap: for the same reason the job makes at most 2^64 - 1 steps before its first cap.
- Admission.ExecutionInner.TryAcquire: the wait itself is a state of the transition system in `AdmissionRuns`; a real-time clock, the timer and the watch channel are a clock value and a version number there.
- Accounting.TotalsSaturateTheExactSum: costs are reals, so rounding of 64-bit floats is not modelled; overflow to a non-finite cost is a sum above the largest cost.
- WholeNodes.TreeChunksAreSound: the parser is abstract, so node offsets are assumed nested and on char boundaries, fields to be among the named children, and a node's symbol to be given; whether a parse is accepted at all (error bytes, no named child) is not modelled.
- LineSplitter.LineChunksAreSound: line numbers are unbounded, not 32 bits wide.
- Publication.PullRequest.Apply: the pull request does not change while one call runs; review threads, check-run text, fingerprints of posted comments, the hub and wireframe comments and triage labels are left out, except that a failing check or triage fails the call.
- Publication.ReceiptMatchesTheForge: speaks of a call that submits; `Publication.RecordStaysInStepExactly` covers the others, for a record that was in step before.
- Publication.OneReviewPerUnchangedDecision: the store and the forge answer in the runs it speaks of, every lane carries its blocking findings, and only other people's reviews come in between.
- Council.RepresentativeIsTheSpeaker: title, body and the other text of a finding are one field, its words.
- ConfigPaths.ProvenanceIsLastWriterWins: asks for keys without dots; the exact condition without that is `ConfigPaths.CreditIsRightExactly`.
- ConfigOverlay.FilterInto: the ignored keys are a set, so their sorting and repetition are not modelled.
- ConfigOverlay.OverlayIsHarmlessExactly: stops at the merged table; its conversion to the typed configuration and the validation of the result are left out.
- CodeFences.CodeSpanSurvivesExactly: the text after the span must not start with a backtick, and the span must not follow one.
- CodeFences.CodeBlockSurvives: the block starts at the margin and what follows starts a new line; blocks nested in lists or quotes are not modelled.
- `prose`, citations and table cells of `src/markdown.rs`: many small character cases.
- The logical-call bound for adapters without dispatch admission, retrieval usage and model bindings in `src/app/review_execution.rs`.
- Automerge, end-to-end settlement, MCP plans, configuration schema and presets, the server and the command line.
