# Verified model of the Oris control plane

This project models the algorithms and state machines at the core of the Oris
control plane and proves what they are for. Every table is a map or a sequence,
every public call is atomic except in the key-rotation model, time is a number,
and code that updates state in place is a class or a method with loops, proved
against specification functions. `dafny verify dfyconfig.toml` checks it all.

| component | modules |
|---|---|
| entity graph search (`entity.rs`) | EntityGraph, EntityBfs, EntityTraverse, EntityPath |
| token-budget packing (`context_assembler.rs`) | IndexOrder, PackAccount, PackSelect, PackRender, PackLayout, ContextAssembler |
| context package splitting and shrinking (`context_package.rs`) | TextLines, SectionSplit, SectionClean, SectionExact, SectionMelt, CarriageReturns, SectionPriority, ShrinkSelect, ContextPackage, ShrinkFit, ShrinkTwice, ShrinkExact |
| gene lifecycle and search paging (`control_plane.rs`) | GeneLog, GeneLifecycle, GeneTransitions, SearchPaging |
| circuit breaker (`engine.rs`) | CircuitBreaker |
| outbox retries (`outbox_worker.rs`) | OutboxEvents, OutboxWorker, OutboxBatch, OutboxWorkers |
| key rotation (`encryption.rs`) | KeyRotation, RotationOrder |
| conflict resolution (`conflict_resolver.rs`) | ConflictOrder, ConflictResolver |
| profile merge (`canonical_user.rs`) | ProfileFields, ProfileJson, ProfileMerge |
| word matching (`context_router.rs`) | WordMatch |
| shared | Wrappers, Sequences, Json, Authority, Sorting |

## What the proofs brought out

- The outbox row mapper reads three event types back as another one, so their
  invalidations are computed wrongly (`OutboxEvents.QueueKeepsMeaningIff`).
- A rotation can move the current key version backwards: exactly when the
  version advanced by two or more between its reading and its publishing
  (`RotationOrder.GoesBackIff`), so exactly a limit of one rotation in flight
  rules it out (`RotationOrder.MonotoneUnderLimitIff`). Nothing becomes
  unreadable (`KeyRotation.EveryCiphertextDecrypts`).
- Outbox rows that a stopped worker leaves in processing are never picked up
  again (`OutboxBatch.SettlesIff`).
- Shrinking promises a package within the budget and can overshoot it. Exactly
  when it keeps the promise is known per call (`ContextPackage.ShrinkFitsIff`)
  and by the number of segments (`ShrinkFit.PackageFitsIff`), and so is how far
  it can miss (`ContextPackage.ShrinkBound`, `ShrinkFit.ShrinkBoundIsTight`).
- Shrinking twice can differ from shrinking once, through carriage returns at
  the ends of lines and through nameless headers: exactly when is known for
  every measure, text and budget (`ShrinkTwice.SecondPassIff`), and
  `ShrinkExact.NamelessIsDropped` is a text on which the package itself does it.
- The documentation of the profile merge promises that every conflict is
  recorded and that higher authority wins; for JSON values that are neither
  objects nor null the code does neither (`ProfileMerge.RecordedIff`,
  `ProfileMerge.OtherValueFromBottom`).
- The recency flag of the resolver does not mean that recency decided
  (`ConflictResolver.RecencyDecidesIff`).
- Closed means "below the threshold" only for thresholds of at least one
  (`CircuitBreaker.ClosedMeansBelowThreshold`).
- The word matcher misses words for needles that overlap themselves after a
  separator; none of the keywords does (`WordMatch.SkippingIsExactIff`,
  `WordMatch.KeywordsSafe`).
- The comment on the low-confidence threshold says "at or below"; the code, and
  the model, use "below".

## Model

| member | source | states |
|---|---|---|
| `EntityGraph.HopsSymmetric` | crates/oris-control-plane/src/entity.rs:441-457 | the neighbour query reads both columns of the relation table, so distance is the same from either end |
| `EntityBfs.TraversalMeaning` | crates/oris-control-plane/src/entity.rs:556-584 | the bounded traversal lists exactly the entities at most `max_depth` hops away, each once, with its true distance, in non-decreasing depth |
| `EntityBfs.TraversalSymmetric` | crates/oris-control-plane/src/entity.rs:556-584 | b is listed at depth d from a exactly if a is listed at depth d from b |
| `EntityTraverse.BfsTraverse` | crates/oris-control-plane/src/entity.rs:556-584 | the loop over `visited`, `frontier` and `result` computes the traversal |
| `EntityTraverse.BuildAdjacency` | crates/oris-control-plane/src/entity.rs:464-491 | the loader's map holds the neighbour lists of exactly the entities fewer than `max_depth` hops away |
| `EntityTraverse.TruncationLosesNothing` | crates/oris-control-plane/src/entity.rs:459-491 | traversing the truncated map gives the same list, in the same order, as traversing the whole relation |
| `EntityTraverse.Traverse` | crates/oris-control-plane/src/entity.rs:416-423 | end to end: loading and traversing lists each entity within `max_depth` once with its true distance, nearest first |
| `EntityTraverse.TruncationConnects` | crates/oris-control-plane/src/entity.rs:464-491 | in the truncated map two entities are connected exactly if at most `depth` hops connect them in the whole relation |
| `EntityPath.ReconstructPath` | crates/oris-control-plane/src/entity.rs:535-544 | following parent pointers terminates because they go down in rank, and gives the descent from a root to `to` |
| `EntityPath.BfsShortestPath` | crates/oris-control-plane/src/entity.rs:590-619 | `None` exactly if no walk exists; otherwise a walk along edges, without repeated entity, no longer than any other |
| `EntityPath.ShortestPath` | crates/oris-control-plane/src/entity.rs:430-439 | the same for the whole relation, where the loader's `u32::MAX` rounds bound the hops considered; among at most 2^32 entities `None` exactly if no walk exists |
| `EntityPath.SmallGraph` | crates/oris-control-plane/src/entity.rs:430-439 | in a graph of at most 2^32 entities whatever is connected is connected within the loader's rounds |
| `EntityPath.TruncatedShortest` | crates/oris-control-plane/src/entity.rs:430-439 | a shortest walk of the truncated map is a shortest walk of the whole relation |
| `PackAccount.TotalAdd` | crates/oris-control-plane/src/context_assembler.rs:1061-1082 | the loop's running character count, in whatever order segments are taken, is the charge of the selected set |
| `PackAccount.TotalGrows` | crates/oris-control-plane/src/context_assembler.rs:1064-1079 | a subset of a selection is never charged more than the selection |
| `PackSelect.OrderMeaning` | crates/oris-control-plane/src/context_assembler.rs:1031-1048 | the sorted indices are a permutation, by priority, then authority, then confidence |
| `PackSelect.OrderSpelledOut` | crates/oris-control-plane/src/context_assembler.rs:1031-1048 | a later segment has no higher priority, at equal priority no more trusted level, and at equal level no higher confidence |
| `PackSelect.PickedIsMaximal` | crates/oris-control-plane/src/context_assembler.rs:1061-1082 | no dropped segment fits the final account, even where its section header is already paid for |
| `PackSelect.FittingPrefixIsKept` | crates/oris-control-plane/src/context_assembler.rs:1061-1082 | a segment is kept whenever everything up to and including it in the order fits |
| `PackSelect.PickedIsFirstInPriority` | crates/oris-control-plane/src/context_assembler.rs:1020-1082 | among all selections within the budget greedy is lexicographically first: where another first differs, greedy keeps the more important segment |
| `PackRender.RenderWithinAccount` | crates/oris-control-plane/src/context_assembler.rs:1084-1101 | with contiguous sections the rendered text, headers and separators included, never exceeds the account, although selection and rendering use different orders |
| `PackRender.RenderSlack` | crates/oris-control-plane/src/context_assembler.rs:1064-1101 | the exact size of the text for named sections in any order: the account, less one byte per section and one more, plus what headers printed again add |
| `PackRender.ContiguousNeverReprints` | crates/oris-control-plane/src/context_assembler.rs:1087-1101 | contiguous sections print no header again |
| `PackLayout.RenderedText` | crates/oris-control-plane/src/context_assembler.rs:1084-1101 | the text is, section by section in the order of first occurrence, a header line and the kept texts in assembly order, each on its line, with a blank line between sections |
| `ContextAssembler.AssembleWithinBudget` | crates/oris-control-plane/src/context_assembler.rs:1025-1105 | for contiguous named sections the text is the layout of the kept texts by section; tokens are a quarter of its size; `compressed` exactly if something was dropped |
| `ContextAssembler.KeptMeaning` | crates/oris-control-plane/src/context_assembler.rs:1050-1082 | the selection is charged at most four bytes a token, up to the machine word, and no dropped segment still fits |
| `ContextAssembler.BudgetIsKept` | crates/oris-control-plane/src/context_assembler.rs:1050-1105 | for contiguous sections the token count of the text is at most the budget, for every input |
| `ContextAssembler.BudgetIsKeptIff` | crates/oris-control-plane/src/context_assembler.rs:1050-1105 | for named sections in any order the budget is kept exactly if the headers printed again fit the slack that is left |
| `ContextAssembler.BuildContiguous` | crates/oris-control-plane/src/context_assembler.rs:376-496 | the segments as assembled, group after group, have contiguous sections |
| `ContextAssembler.BuildAt` | crates/oris-control-plane/src/context_assembler.rs:376-493 | piece k of group g stands under the group's label at its place, marked unverified exactly if its confidence is below 0.7 or it is a candidate, and otherwise unchanged |
| `ContextAssembler.Assemble` | crates/oris-control-plane/src/context_assembler.rs:376-496 | whatever the sources returned, the text is the layout of the kept pieces label by label and fits the plan's budget, or the default if that is zero; `compressed` exactly if something was dropped |
| `ContextAssembler.AlternatingSectionsOverflow` | crates/oris-control-plane/src/context_assembler.rs:1061-1101 | without contiguity the budget can be missed: six alternating segments fit five tokens in the account and render to more |
| `SectionSplit.SplitSegments` | crates/oris-control-plane/src/context_package.rs:580-605 | the line loop computes the parse; only the empty text has no segments |
| `SectionSplit.SplitMeaning` | crates/oris-control-plane/src/context_package.rs:580-605 | a text of lines without header followed by blocks of a header line and lines without header splits into one segment for the first lines, if any, and one for each block, with trimmed bodies |
| `SectionSplit.LinesHaveBlocks` | crates/oris-control-plane/src/context_package.rs:580-605 | the lines of every text are of that form |
| `SectionSplit.SplitOfJoin` | crates/oris-control-plane/src/context_package.rs:552-605 | splitting the joined full texts of printable segments gives the segments back |
| `SectionClean.SplitIsShaped` | crates/oris-control-plane/src/context_package.rs:552-605 | every segment of any text has a one-line header and a trimmed body without header lines |
| `SectionClean.CleanSplits` | crates/oris-control-plane/src/context_package.rs:580-605 | text without carriage returns and without nameless headers splits into printable segments |
| `SectionClean.KeptSegmentsReadBack` | crates/oris-control-plane/src/context_package.rs:580-651 | for such text every kept subsequence of segments, joined, splits into just those segments, apart from a lone blank preamble |
| `SectionExact.ReadsBackIffPrintable` | crates/oris-control-plane/src/context_package.rs:552-605 | for any text: every kept subsequence reads back exactly if the segments are printable |
| `SectionPriority.IdentityIsTop` | crates/oris-control-plane/src/context_package.rs:522-541 | only headers that mention identity reach priority 100, and all of them do |
| `SectionPriority.PriorityOrder` | crates/oris-control-plane/src/context_package.rs:522-541 | a section outranks another exactly if it comes first in: identity, user, task, enterprise, business, agent, unnamed, unknown, hot context |
| `ContextPackage.IdentityMeaning` | crates/oris-control-plane/src/context_package.rs:522-577 | what must be kept is exactly what mentions identity in its header, and a segment counts a quarter of its printed characters |
| `ShrinkSelect.OrderMeaning` | crates/oris-control-plane/src/context_package.rs:617-624 | the indices are sorted by priority descending, then by size ascending |
| `ShrinkSelect.KeptMeaning` | crates/oris-control-plane/src/context_package.rs:626-642 | all identity segments are kept; either the kept token counts sum to at most the budget or exactly the identity segments are kept; no dropped segment still fits |
| `ShrinkSelect.KeptIsFirstInPriority` | crates/oris-control-plane/src/context_package.rs:617-642 | among all selections within the budget greedy is first in the order: where another first differs, greedy keeps the segment and the other gave it up |
| `ShrinkSelect.KeptIsEverything` | crates/oris-control-plane/src/context_package.rs:626-642 | what fits together is kept altogether |
| `ContextPackage.ShrinkText` | crates/oris-control-plane/src/context_package.rs:611-654 | splitting, sorting, keeping, restoring document order and joining compute the shrunk text and the number of dropped segments |
| `ContextPackage.DroppedMeaning` | crates/oris-control-plane/src/context_package.rs:644-653 | the number reported is that of the segments not kept |
| `ContextPackage.ShrinkBound` | crates/oris-control-plane/src/context_package.rs:611-654 | with k segments kept the joined text estimates at most their token sum plus (5k-2)/4, and identity segments survive; `ContextPackage.ShrinkFitsIff` says exactly when the budget is met |
| `ContextPackage.ShrinkFitsIff` | crates/oris-control-plane/src/context_package.rs:611-654 | a shrunk text is within its budget exactly if what the kept token counts leave of it covers the characters beyond full tokens and the blank lines between segments |
| `ShrinkFit.ShrinkBoundIsTight` | crates/oris-control-plane/src/context_package.rs:611-654 | for every k >= 1 some text overshoots its budget by exactly (5k-2)/4 |
| `ShrinkFit.AlwaysFitsIff` | crates/oris-control-plane/src/context_package.rs:611-654 | before the call: all texts of n segments without identity shrink to within all budgets exactly if n is at most one |
| `ShrinkFit.PackageFitsIff` | crates/oris-control-plane/src/context_package.rs:168-182 | the same for the package's own priorities and token counts |
| `ContextPackage.ShrinkIdempotent` | crates/oris-control-plane/src/context_package.rs:611-654 | on printable segments shrinking again with the same budget changes nothing and drops nothing |
| `ContextPackage.CleanShrinkIdempotent` | crates/oris-control-plane/src/context_package.rs:611-654 | in particular on text without carriage returns and nameless headers |
| `ContextPackage.CarriageReturnsAreNotIdempotent` | crates/oris-control-plane/src/context_package.rs:580-654 | a header line that ends in carriage returns loses one more with every pass |
| `CarriageReturns.PassLosesCr` | crates/oris-control-plane/src/context_package.rs:580-651 | whatever is kept of a text with a carriage return at the end of a line is not that text |
| `ShrinkExact.ShrinkIdempotentIff` | crates/oris-control-plane/src/context_package.rs:611-654 | shrinking twice is shrinking once, under every measure and budget, exactly for texts with printable segments |
| `SectionSplit.SplitOfPlainJoin` | crates/oris-control-plane/src/context_package.rs:552-605 | the same round trip up to trailing white space of the bodies |
| `SectionMelt.SplitOfMeltedJoin` | crates/oris-control-plane/src/context_package.rs:552-605 | any segments without carriage returns at line ends, joined and split again, give the list in which each nameless segment is absorbed by the one before it |
| `ShrinkTwice.MeltedPrint` | crates/oris-control-plane/src/context_package.rs:552-651 | that list prints the same text exactly if no nameless blank segment ends a section |
| `ShrinkTwice.SecondPassIff` | crates/oris-control-plane/src/context_package.rs:611-654 | for every measure, text and budget: a second pass changes nothing exactly if the kept segments are printable, no nameless blank ends a section, and what melts together fits the budget or must be kept |
| `ShrinkExact.IdempotentUnderIff` | crates/oris-control-plane/src/context_package.rs:611-654 | under any one measure, the package's own included, shrinking is idempotent exactly if that holds at every budget |
| `ShrinkExact.NamedIdempotentIff` | crates/oris-control-plane/src/context_package.rs:611-654 | where every later section has a name this is printability, whatever the measure |
| `ShrinkExact.NamelessIsDropped` | crates/oris-control-plane/src/context_package.rs:611-654 | a text with a nameless header on which the package's own second pass drops everything the first kept |
| `ContextPackage.Package.ShrinkToBudget` | crates/oris-control-plane/src/context_package.rs:174-182 | within the budget nothing changes; beyond it the stored text is replaced by the shrunk one and the drop count returned; afterwards the package is within the budget exactly if it was before or the rests fit |
| `ContextPackage.StandardCounts` | crates/oris-control-plane/src/context_package.rs:514-577 | the package's own measure counts the tokens of the full text, so the bounds apply to it |
| `GeneLog.OutcomeStats` | crates/oris-control-plane/src/control_plane.rs:503-532 | the one-pass loop computes successes, failures, distinct contexts and the current failure streak of the log in `created_at` order |
| `GeneLog.StreakMeaning` | crates/oris-control-plane/src/control_plane.rs:515-530 | the streak is below two exactly if of any two failures the earlier has a success after it |
| `GeneLog.StatsGrow` | crates/oris-control-plane/src/control_plane.rs:437-441 | a new receipt, wherever its time puts it, loses nothing already earned |
| `GeneLifecycle.RunKeepsInv` | crates/oris-control-plane/src/control_plane.rs:175-194 | every run of propose, record_outcome, promote and revoke keeps the invariant between genes and log |
| `GeneLifecycle.StableIsEarned` | crates/oris-control-plane/src/control_plane.rs:437-474 | in every run a stable gene has three successes, two contexts, no safety failure and a recovered log; a Team or Network gene has earned its successes |
| `GeneLifecycle.FailureIsNotForgotten` | crates/oris-control-plane/src/control_plane.rs:437-450 | once a failure is on record, a gene that is not stable never becomes stable again, whatever operations follow |
| `GeneLifecycle.ExperienceControlPlane.RecordUse` | crates/oris-control-plane/src/control_plane.rs:409-452 | validation, lookup, append, refold and transition, with each error leaving the store as it was |
| `GeneLifecycle.ExperienceControlPlane.ProposeBundle` | crates/oris-control-plane/src/control_plane.rs:175-194 | stores the demoted gene, then records the receipts one by one until the first error |
| `GeneLifecycle.ExperienceControlPlane.PromoteGene` | crates/oris-control-plane/src/control_plane.rs:454-474 | changes the scope of a stable gene under governance and refuses everything else |
| `GeneLifecycle.ExperienceControlPlane.RevokeGene` | crates/oris-control-plane/src/control_plane.rs:476-495 | changes the lifecycle under governance |
| `GeneTransitions.LogMeaning` | crates/oris-control-plane/src/control_plane.rs:503-511 | the log of a gene version is exactly its receipts, in order of `created_at` |
| `GeneTransitions.RecordRefused` | crates/oris-control-plane/src/control_plane.rs:409-433 | when an outcome is refused, with which error, and that nothing changes then |
| `GeneTransitions.TransitionMeaning` | crates/oris-control-plane/src/control_plane.rs:437-451 | an accepted outcome quarantines on a safety failure, else sends back on two failures without a later success, else makes stable with three successes in two contexts and no failure, and else leaves the lifecycle; no other gene changes |
| `GeneTransitions.PromoteMeaning` | crates/oris-control-plane/src/control_plane.rs:454-474 | exactly governance on a stable gene sets the scope asked for, and nothing else changes |
| `GeneTransitions.RevokeMeaning` | crates/oris-control-plane/src/control_plane.rs:476-495 | exactly governance on a known gene revokes or quarantines it as asked |
| `GeneTransitions.ProposeMeaning` | crates/oris-control-plane/src/control_plane.rs:175-194 | a bad bundle changes nothing; otherwise the gene is stored and returned as an unshared candidate and the receipts are imported |
| `GeneTransitions.ImportMeaning` | crates/oris-control-plane/src/control_plane.rs:190-192 | receipts are recorded in order up to the first that is refused |
| `GeneTransitions.SomeGeneIsShared` | crates/oris-control-plane/src/control_plane.rs:437-474 | some run makes a gene stable and shares it with a team |
| `SearchPaging.CursorRoundTrip` | crates/oris-control-plane/src/control_plane.rs:298-302 | a printed offset is parsed back to the same offset |
| `SearchPaging.SearchPage` | crates/oris-control-plane/src/control_plane.rs:373-383 | sort, clamp, skip, take and next cursor; a cursor is only given with a non-empty page |
| `SearchPaging.PageMeaning` | crates/oris-control-plane/src/control_plane.rs:298-383 | a page is the hits from the offset on, one to a hundred of them; the cursor is given exactly if hits remain and reads as the next offset; no cursor or a bad one means the start |
| `SearchPaging.CrawlIsPages` | crates/oris-control-plane/src/control_plane.rs:298-383 | following `next_cursor` visits the same pages as counting offsets |
| `SearchPaging.CrawlCoversOnce` | crates/oris-control-plane/src/control_plane.rs:373-383 | scores never rise along the list; from the start the pages are consecutive, disjoint, full but for the last, cover each result once, and number total/limit rounded up |
| `CircuitBreaker.Breaker.Allow` | crates/oris-control-plane/src/engine.rs:61-79 | admits or refuses and moves to half-open or back to open as the step function says |
| `CircuitBreaker.Breaker.RecordSuccess` | crates/oris-control-plane/src/engine.rs:81-84 | closes the circuit and forgets failures, whatever the state, as the runs of the trace theorems assume |
| `CircuitBreaker.Breaker.RecordFailure` | crates/oris-control-plane/src/engine.rs:86-92 | counts the failure and its time, and opens the circuit at the threshold, as the runs of the trace theorems assume |
| `CircuitBreaker.ClosedMeansBelowThreshold` | crates/oris-control-plane/src/engine.rs:49-92 | in every run Closed means fewer failures than the threshold, exactly for thresholds of at least one |
| `CircuitBreaker.ClosedByEvents` | crates/oris-control-plane/src/engine.rs:81-92 | in a run from fresh the breaker is closed exactly while the failures since the last success, counted on the events, are below the threshold |
| `CircuitBreaker.ClosedAdmits` | crates/oris-control-plane/src/engine.rs:61-84 | after a success, and at the start, calls are admitted and leave the breaker closed |
| `CircuitBreaker.TrippedByEvents` | crates/oris-control-plane/src/engine.rs:61-92 | the failure that reaches the threshold keeps calls out for exactly a cooldown from its own time |
| `CircuitBreaker.ProbesComeInPairs` | crates/oris-control-plane/src/engine.rs:61-79 | after a cooldown two calls get through, the second at any time, and then none until a cooldown after the second |
| `CircuitBreaker.RejectedExactlyDuringCooldown` | crates/oris-control-plane/src/engine.rs:61-79 | Open always has a last failure, and a call is refused exactly while its cooldown runs |
| `CircuitBreaker.TwoCallsPerCooldown` | crates/oris-control-plane/src/engine.rs:61-92 | in any success-free stretch of a tripped breaker the first k admitted calls span at least (k-1)/2 cooldowns |
| `CircuitBreaker.TwoCallsPerCooldownIsTight` | crates/oris-control-plane/src/engine.rs:61-79 | for every k that bound is attained |
| `OutboxEvents.AugmentThenExtract` | crates/oris-control-plane/src/outbox_worker.rs:383-409 | the retry counter written into any payload is the one read back |
| `OutboxEvents.AugmentMeaning` | crates/oris-control-plane/src/outbox_worker.rs:395-409 | the counter goes in beside the fields of an object, and any other payload is wrapped beside it |
| `OutboxEvents.ExtractMeaning` | crates/oris-control-plane/src/outbox_worker.rs:383-388 | an unsigned 64-bit counter is read modulo 2^32, and anything else as zero |
| `OutboxEvents.UserEventMeaning` | crates/oris-control-plane/src/outbox_worker.rs:421-456 | which tenant and user the five user events invalidate, in terms of the payload's fields |
| `OutboxEvents.OtherEventMeaning` | crates/oris-control-plane/src/outbox_worker.rs:432-463 | what the task, memory and projection events invalidate |
| `OutboxEvents.MissingFieldMeaning` | crates/oris-control-plane/src/outbox_worker.rs:416-467 | which missing field is reported, and the fallback of the memory proposals |
| `OutboxEvents.DecodeMeaning` | crates/oris-memory-store/src/postgres/outbox.rs:102-112 | eight types are read back as they are, the other three as user context updates |
| `OutboxEvents.AugmentKeepsMeaning` | crates/oris-control-plane/src/outbox_worker.rs:395-467 | bumping the counter changes no invalidation action, for object payloads and wrapped ones |
| `OutboxEvents.RetryKeepsMeaning` | crates/oris-control-plane/src/outbox_worker.rs:270-300 | a retry stored under the decoded type means what the first attempt meant |
| `OutboxEvents.QueueKeepsMeaningIff` | crates/oris-memory-store/src/postgres/outbox.rs:99-112 | storing and reading back keeps the meaning for all payloads exactly for the eight event types the row mapper knows |
| `OutboxWorker.ProcessKeepsInv` | crates/oris-control-plane/src/outbox_worker.rs:215-300 | every processed event keeps each lineage ended or carried by exactly one live row with agreeing counter, meaning and history, one row for each attempt, and each row marked by how its attempt ended |
| `OutboxWorker.ProcessUsesWork` | crates/oris-control-plane/src/outbox_worker.rs:270-300 | every attempt decreases the attempts that remain |
| `OutboxBatch.BatchKeeps` | crates/oris-control-plane/src/outbox_worker.rs:215-265 | a batch keeps all lineages, leaves no row claimed that was not and uses up work for each row |
| `OutboxBatch.PollsConserve` | crates/oris-control-plane/src/outbox_worker.rs:215-300 | conservation over every number of polls and every pattern of cache failures, whatever was claimed at the start |
| `OutboxBatch.QuietMeansSettled` | crates/oris-control-plane/src/outbox_worker.rs:270-300 | with nothing pending every lineage ended exactly once, delivered or dead-lettered, after at most `max_retries + 1` attempts, all with the same actions; the table has one row for each attempt, failed for the last of a dead-lettered lineage and done otherwise |
| `OutboxBatch.EveryEventSettles` | crates/oris-control-plane/src/outbox_worker.rs:215-300 | termination: some poll leaves the table quiet and every lineage settled |
| `OutboxBatch.SettlesIff` | crates/oris-memory-store/src/postgres/outbox.rs:45-63 | from any consistent table polling settles every lineage exactly if no row was left in processing by a worker that is gone |
| `OutboxWorkers.MovesConserve` | crates/oris-memory-store/src/postgres/outbox.rs:45-63 | with any number of workers, under every interleaving of claims and handled rows, each lineage has ended or is carried by one live row, and exactly the rows in processing have an owner |
| `OutboxWorkers.PollStealsNothing` | crates/oris-memory-store/src/postgres/outbox.rs:45-63 | no claim takes a row from the worker that holds it |
| `OutboxWorkers.EveryInterleavingSettles` | crates/oris-control-plane/src/outbox_worker.rs:215-300 | every interleaved run of effective moves is bounded, and it cannot be continued exactly when every lineage is settled |
| `OutboxBatch.ClaimsOldest` | crates/oris-memory-store/src/postgres/outbox.rs:45-63 | a pending row is left only if fifty older ones were taken |
| `OutboxBatch.Worker.Dequeue` | crates/oris-memory-store/src/postgres/outbox.rs:45-63 | claims the oldest pending rows up to the batch size |
| `OutboxBatch.Worker.HandleFailure` | crates/oris-control-plane/src/outbox_worker.rs:270-300 | re-enqueues with the counter plus one and marks done, or marks failed at the limit |
| `OutboxBatch.Worker.ProcessEvent` | crates/oris-control-plane/src/outbox_worker.rs:215-265 | one event is delivered, retried or given up, its row marked accordingly (`OutboxWorker.ProcessKeepsInv`); success is reported exactly if actions were computed and the cache answered |
| `OutboxBatch.Worker.ProcessBatch` | crates/oris-control-plane/src/outbox_worker.rs:215-265 | every claimed event is tried once and its result reported in order |
| `OutboxBatch.Worker.Drain` | crates/oris-control-plane/src/outbox_worker.rs:307-360 | polling a table to which nothing is added ends with every lineage settled and the rows telling how |
| `KeyRotation.CipherRoundTrip` | crates/oris-control-plane/src/encryption.rs:86-108 | each byte is combined with the key byte at its position, decryption undoes encryption under the same key, and only an empty key is refused |
| `KeyRotation.RunKeepsInv` | crates/oris-control-plane/src/encryption.rs:187-260 | under every interleaving of the locked steps versions stay contiguous from 1, each maps to its derived key, and the current version is present |
| `KeyRotation.KeysAreForever` | crates/oris-control-plane/src/encryption.rs:187-260 | a version once stored keeps its key in every continuation of the run |
| `KeyRotation.EveryCiphertextDecrypts` | crates/oris-control-plane/src/encryption.rs:140-156 | no encryption fails, and every ciphertext ever issued decrypts to its plaintext under its recorded version at any later point |
| `RotationOrder.GoesBackIff` | crates/oris-control-plane/src/encryption.rs:236-260 | a step of any run moves the current version back exactly if it publishes a rotation since whose reading the version advanced by two or more |
| `RotationOrder.MonotoneIff` | crates/oris-control-plane/src/encryption.rs:236-260 | in a run the current version never goes back exactly if no such rotation publishes |
| `RotationOrder.MonotoneUnderLimitIff` | crates/oris-control-plane/src/encryption.rs:236-260 | a limit on how many rotations are between reading and publishing makes every run monotone exactly if it is at most one |
| `RotationOrder.SerialRotationsAreMonotone` | crates/oris-control-plane/src/encryption.rs:236-260 | if rotations do not overlap the current version never goes back and never skips |
| `RotationOrder.OverlappingRotationsGoBack` | crates/oris-control-plane/src/encryption.rs:236-260 | a run with two rotations in flight moves the current version from 3 back to 2 |
| `RotationOrder.IssuedUnderCurrent` | crates/oris-control-plane/src/encryption.rs:140-146 | every ciphertext was issued under a version that was current at a step between the start and the end of its encryption |
| `RotationOrder.IssuedIsMasked` | crates/oris-control-plane/src/encryption.rs:86-97 | and is its plaintext combined byte by byte with that version's key |
| `KeyRotation.RotateAloneMeaning` | crates/oris-control-plane/src/encryption.rs:236-260 | the three locked steps, uninterrupted, store and publish the successor |
| `KeyRotation.InMemoryKeyProvider.constructor` | crates/oris-control-plane/src/encryption.rs:187-196 | version 1 with its derived key |
| `KeyRotation.InMemoryKeyProvider.GetKeyByVersion` | crates/oris-control-plane/src/encryption.rs:226-234 | every version up to the top is found with its derived key; any other is reported missing |
| `KeyRotation.InMemoryKeyProvider.GetCurrentKey` | crates/oris-control-plane/src/encryption.rs:215-224 | the current key is always found |
| `KeyRotation.InMemoryKeyProvider.RotateKey` | crates/oris-control-plane/src/encryption.rs:236-260 | undisturbed, stores and publishes the successor |
| `ConflictOrder.CompareIsLexicographic` | crates/oris-control-plane/src/conflict_resolver.rs:173-195 | the comparator chain is the lexicographic order on six keys and ties exactly on equal keys |
| `Authority.RankOrder` | crates/oris-memory-contract/src/memory_types.rs:120-128 | the ranks order the levels L0, L1, L2, L3 from most to least trusted |
| `ConflictOrder.BeatsMeaning` | crates/oris-control-plane/src/conflict_resolver.rs:173-195 | the order spelled out: trust level, confirmation, verification, scope from Enterprise to Personal, recency, then the named sources in order |
| `ConflictOrder.BeforeIsTotalPreorder` | crates/oris-control-plane/src/conflict_resolver.rs:173-195 | so the sort has a consistent comparator |
| `ConflictResolver.AgreementTests` | crates/oris-control-plane/src/conflict_resolver.rs:157-170 | comparing neighbours, or everything with the first, is the same as comparing all pairs |
| `ConflictResolver.Resolve` | crates/oris-control-plane/src/conflict_resolver.rs:133-262 | empty input gives null; agreeing values report the first; otherwise the earliest entry maximal in the six keys wins, with severity and flags fixed by which metadata differ and all values retained |
| `ConflictResolver.WinnerIsUnbeaten` | crates/oris-control-plane/src/conflict_resolver.rs:183-207 | among disagreeing values none beats the winner, and the winner beats every earlier value |
| `ConflictResolver.FlagsMeaning` | crates/oris-control-plane/src/conflict_resolver.rs:209-245 | each flag text is there exactly for its reason, in order, and so is the severity |
| `ConflictResolver.ResolvesOneWay` | crates/oris-control-plane/src/conflict_resolver.rs:133-262 | that meaning determines the whole result |
| `ConflictResolver.SortHeadWins` | crates/oris-control-plane/src/conflict_resolver.rs:183-207 | the head of the stable sort is the earliest maximal entry |
| `ConflictResolver.OrderOnlyBreaksTies` | crates/oris-control-plane/src/conflict_resolver.rs:133-262 | conflict, severity, flags and the winner's keys are the same for every permutation |
| `ConflictResolver.OrderFreeIff` | crates/oris-control-plane/src/conflict_resolver.rs:173-207 | the winning value is the same for every permutation exactly if all entries that tie for best on six keys hold one value |
| `ConflictResolver.RecencyDecidesIff` | crates/oris-control-plane/src/conflict_resolver.rs:230-240 | at equal authority and scope the winner is a most recent entry exactly if some most recent entry is also best confirmed and verified |
| `ConflictResolver.RecencyFlagMisleads` | crates/oris-control-plane/src/conflict_resolver.rs:230-240 | the recency flag is raised although an older, confirmed entry won |
| `ProfileFields.HoldersMeaning` | crates/oris-control-plane/src/canonical_user.rs:343-353 | the positions the entries come from are exactly those with a value, ascending |
| `ProfileFields.EntriesListAll` | crates/oris-control-plane/src/canonical_user.rs:343-353 | the collected entries are the present values, one for each profile that has one, in authority order |
| `ProfileFields.ResolveOptString` | crates/oris-control-plane/src/canonical_user.rs:343-372 | the value of the first profile that has one; one conflict entry listing all present values exactly if two differ |
| `ProfileJson.ResolveJson` | crates/oris-control-plane/src/canonical_user.rs:375-401 | the first profile's value; a conflict entry exactly if two values differ |
| `ProfileJson.MergeJsonObject` | crates/oris-control-plane/src/canonical_user.rs:404-440 | each key has the value of its first holder, and the keys are the union, when all values are objects or null; otherwise the last other value is returned and no conflict recorded |
| `ProfileJson.JsonMergedOneWay` | crates/oris-control-plane/src/canonical_user.rs:404-440 | that meaning determines the merged value |
| `ProfileJson.UnionArrays` | crates/oris-control-plane/src/canonical_user.rs:443-458 | the union holds each element once, in the order of first occurrence |
| `ProfileJson.FirstOccurrencesOneWay` | crates/oris-control-plane/src/canonical_user.rs:443-458 | that meaning determines the order of the elements |
| `ProfileMerge.MergeProfiles` | crates/oris-control-plane/src/canonical_user.rs:198-308 | no profile gives the placeholder, one is returned as is; several are merged field by field in stable authority order, with the conflicts of eight fields in order and the newest version and time |
| `ProfileMerge.BaseFromTop` | crates/oris-control-plane/src/canonical_user.rs:222-227 | the base is the earliest profile that none outranks |
| `ProfileMerge.MergedTexts` | crates/oris-control-plane/src/canonical_user.rs:229-233 | role, position, language and timezone are each missing exactly if all lack it, and else that of the earliest profile having it which none having it outranks |
| `ProfileMerge.MergedRest` | crates/oris-control-plane/src/canonical_user.rs:262-303 | identity, consent, privacy, source and level are those of the base; version and time are the newest |
| `ProfileMerge.FewProfiles` | crates/oris-control-plane/src/canonical_user.rs:204-220 | merging nothing gives an empty profile of the lowest trust, merging one gives it back |
| `ProfileMerge.TextFromTop` | crates/oris-control-plane/src/canonical_user.rs:343-372 | in terms of the given profiles: the value of the earliest most authoritative profile that has one |
| `ProfileMerge.TextRecordedIff` | crates/oris-control-plane/src/canonical_user.rs:355-369 | a scalar conflict is recorded exactly if two present values differ, and lists every one |
| `ProfileMerge.KeyFromTop` | crates/oris-control-plane/src/canonical_user.rs:404-422 | in terms of the given profiles: the keys are the union, each with the value of the earliest most authoritative holder |
| `ProfileMerge.OtherValueFromBottom` | crates/oris-control-plane/src/canonical_user.rs:412-421 | a value that is neither object nor null wins, and the least authoritative such value at that |
| `ProfileMerge.RecordedIff` | crates/oris-control-plane/src/canonical_user.rs:412-437 | a disagreement on an object field is recorded exactly if all values are objects or null |
| `ProfileMerge.SilentOverride` | crates/oris-control-plane/src/canonical_user.rs:412-421 | a lone string replaces an object of whatever authority without any recorded conflict |
| `ProfileMerge.UnionMembers` | crates/oris-control-plane/src/canonical_user.rs:443-458 | the union contains the elements of all given profiles, each once, and nothing else |
| `ProfileMerge.InterleavingIsIrrelevant` | crates/oris-control-plane/src/canonical_user.rs:198-308 | the merged profile and the conflicts depend only on the order within each authority level |
| `WordMatch.MatchesWord` | crates/oris-control-plane/src/context_router.rs:331-354 | the loop that resumes after each rejected occurrence computes the skipping search |
| `WordMatch.MatchesSound` | crates/oris-control-plane/src/context_router.rs:331-354 | a match is an occurrence bounded on both sides, whatever the needle |
| `WordMatch.MatchesIsHasWord` | crates/oris-control-plane/src/context_router.rs:331-354 | for overlap-safe needles it matches exactly if some occurrence is bounded on both sides |
| `WordMatch.SkippingIsExactIff` | crates/oris-control-plane/src/context_router.rs:331-354 | the skipping search is exact on all texts exactly for overlap-safe needles |
| `WordMatch.KeywordsSafe` | crates/oris-control-plane/src/context_router.rs:190-206 | every keyword of the tables is overlap-safe |
| `WordMatch.DetectIntent` | crates/oris-control-plane/src/context_router.rs:187-211 | the first table of which the query contains a whole word decides the intent |
| `WordMatch.IntentMeaning` | crates/oris-control-plane/src/context_router.rs:187-211 | which words decide which intent, and in which order |
| `Sorting.SortIsTheStableSort` | crates/oris-control-plane/src/conflict_resolver.rs:183-205 | sorted and stable leaves one result, so `Sort` is what a stable library sort returns |
| `Sorting.SortHead` | crates/oris-control-plane/src/conflict_resolver.rs:183-207 | the head of a stable sort is the earliest entry that may precede all others |

## Left out

- SQL, Redis, HTTP, MCP and JSON-RPC plumbing, error texts, tool schemas: input and output around the modelled logic.
- Timeouts, scheduling and store failures in the middle of an operation, except for the steps of key rotation.
- The polling loop with several workers: `OutboxWorkers` interleaves their claims and handled rows in any order, while `OutboxBatch` runs one worker's batches; the cache's answers are a function of the number of the attempt in the latter and free in the former.
- The order in which the database lists neighbours, and the order of receipts or outbox rows with equal `created_at`: the first is arbitrary but fixed, the others are insertion order.
- Base64, SHA-256 and the UTF-8 check after decryption: ciphertexts are byte sequences and key derivation is any function with non-empty results.
- Overflow of the failure counter, the receipt counters and the key version: these are unbounded numbers. The truncation of the stored retry count to 32 bits, the saturating character budget, the parse limit of cursors and the loader's `u32::MAX` rounds are modelled.
- In the packer and the word matcher a string stands for its UTF-8 bytes, which are what the source measures there; in context packages it stands for its characters, which is what that source counts. Lower-casing is modelled as far as searching for ASCII words can tell, and `detect_intent` starts from the lower-cased query.
- Confidence values are reals without NaN, and search scores an opaque total order; scoring, embeddings and filters of `search` are not modelled.
- Capsules are reduced to whether they validate; use sessions, timestamps of updates and the remaining gene fields are not part of the model.
- How the groups given to `ContextAssembler.Assemble` are fetched and worded, and `detect_conflicts`.
- The builder, evidence, policy checks and expiry of context packages.
- Floating-point JSON numbers are kept by their printed form, so `0.0` and `-0.0`, which the resolver's comparison takes for equal, count as different values there.
- Serialized JSON in the profile merge is represented by the value it was printed from, so printing is taken to be injective; the wording of resolutions and of `conflict_reason` is left out, as is `resolve_batch`, which only maps `resolve` over sorted keys.
- ContextPackage.Package.ShrinkToBudget: does not promise the budget outright, because the code does not keep it; the contract says exactly when it does.
- Credential detection, masking, degradation levels, the routing table, digital twin, cost tracking, evaluation metrics, shared tasks and identity caches: finite tables, formulas over floating point, or caches over repositories that are not part of this model.
