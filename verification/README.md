# Verified model of the network compliance pipeline

The repository turns device configurations into compliance verdicts.  Its decision logic is deterministic, and
this project models that logic in Dafny and proves what it promises.  Each module names the source files it
follows.

**Structural parsing and effective state.**  `StructuralForest` says by indentation alone who encloses whom;
`IRBuilder` is the stack-based builder, proved to produce that forest under its depth and node caps, and
`DocumentOrder` proves what the forest means.  `CliReader` is the reader that offers lines to it, and `LineCoverage`
says which lines get a node.  `FactGraph` is the dependency check, `Scopes` the scope keys,
`VtyPartitions` the sweep over VTY ranges, `Replay` the choice of a winner, `Resolver` the resolution of all facts;
`Resolution` and `Drafts` prove that it is a replay of source lines, a line-by-line reading of ranges, and always
valid; `ResolvedFields` says the same of the facts given and the drafts returned; `Acceptance` proves that no accepted
fact leads to a refused draft.  `ArgumentPatterns` and `XmlQualifiers` are two matchers of the mapping language.

**Jobs.**  `JobLease` is the lease protocol of the job table: the service calls, and theorems over every
interleaving of any number of workers under a clock that never goes back.  `Worker` is one iteration of a worker,
proved to make the calls those theorems ask of a diligent one.

**Mappings and packs.**  `MappingLifecycle` takes mappings from draft to superseded, `MappingService` is the code
that does it, `ConcurrentPublication` lets publications overlap, `ApprovalEvidence` compares the moment a run was
executed with the moment it is relied on, `KnowledgePacks` proves the chain of pack versions and which packs a fresh
audit loads.

**Snapshots and audits.**  `Snapshots` and `SnapshotService` are the evidence store; `Audits` and `AuditService` are
creation, submission, re-evaluation and the pipeline as a program of separate transactions, one of which writes
back data it read without a lock; `AuditHistories` proves what every history keeps, `AuditRaces` what several runs of
one audit would lose, and `JobsAndAudits` when a job and its audit disagree.

**Interpretation to verdict.**  `Interpretation` runs mappings over the forest, `UnresolvedEvidence` records what
stays unexplained, `Compliance` evaluates rules, `Assessment` evaluates obligations.  `FailClosed` proves across the
three when unexplained configuration does not pass, `LineVerdicts` carries that to the lines of a document, and
`RuntimeProfiles` to audits of runtime profiles.  `EvidenceFacts` turns reports into the facts of the resolver,
`DraftSources` follows drafts back to facts, and `AuditVerdicts` puts the whole audit together, so that every pass is
traced to a node of the evidence.  `Witnesses` holds two audits in full.

`Common` holds shared values and `Facts` those of the resolver; `Ordering` holds the orders, the
stable sort and the grouping the resolver uses.

Stateful services are classes whose methods are proved to take the step a specification describes, and the
theorems speak of all histories of such steps.  Two calls act on rows they do not lock and are split: a publication
reads the version in force in one step and writes in another, and the assessment transaction of a run reads the pinned
versions in one and writes them in another.  Every other call is taken as one step.  Digests and name-based
identifiers are taken to be injective, and identifiers drawn at random to be fresh.

## What the proofs found

Where a promise does not hold of the code, the code is modelled as it is, the exact condition is proved, and a lemma
shows the case.

- The dependency check is described as failing closed on missing or cyclic references
  (`backend/app/effective_state/resolver.py:68`).  It also blocks a fact with two ways to one dependency
  (`DiamondIsBlocked`), and it does not pass missing evidence on to facts further up (`MissingEvidenceDoesNotSpread`).
- The greedy argument matcher misses matches exactly when an optional's value is also accepted by the next mandatory
  pattern (`GreedyIsCompleteIffUnambiguous`).
- The depth cap re-hangs statements silently unless the statement just before encloses them (`LimitReportedIff`), and
  makes the builder report dedents that are consistent (`DedentReportedIff`).
- A statement whose scope is read from the statement around it is placed at that one's line, so within one block no
  statement overrides an earlier one: two that differ conflict (`OneBlockNeverOverrides`, `LaterPlaceWinsIff`).
- A negated statement that should remove a value keeps its meaning exactly when its mapping has a version for removals
  (`NegationKeptIff`).  A trained mapping has none, and there the removed value is assigned (`UnmarkedRemovalAdds`).
- Interpretation records no dependencies, so the dependency check never blocks a fact of it
  (`InterpretedFactsAreNeverBlocked`).
- A field that mixes VTY facts with other scopes is not swept, so a line can have two drafts (`MixedFieldOverlapsIff`).
- At the very instant a lease expires neither its owner nor recovery may act (`OwnerOrRecovery`).
- The lease guards the job and not the audit: a run whose job recovery has failed can still complete its audit
  (`RecoveredRunStillFinalizes`), and an audit whose worker has gone stays in progress for ever (`AbandonedForEver`).
  `DisagreeIff` says exactly when an ended job and its audit disagree.
- The results shown on a published mapping change exactly when a pending run of it executes with another outcome
  (`ShownResultsChangeIff`), so a run executed late can show a failure there (`LateRunOverwritesResults`).
- Publishing locks the version and the pack of its profiles, not the mapping.  Two versions of one mapping for
  different profiles can both end up published (`OverlappingPublicationsBothStand`): exactly when one is committed after
  the other was published since it read the version in force (`OnePublishedIff`).
- Publishing a mapping for other profiles takes its old pack out of use (`MovingAMappingStrandsItsPack`); a second pack
  for a shared profile takes both out of use (`SecondPackSilencesBoth`).
- Pins of an audit survive an unlocked read and write back because each audit has one job and a job is claimed once
  (`PinsNeverChange`).  With several runs of one audit they survive exactly while no write back crosses a new pin
  (`PinsKeptIff`, `TwoRunsLosePins`).
- Runtime profiles are described as leaving unmapped evidence UNKNOWN
  (`backend/app/profile_resolution/runtime.py:141`).  They are judged under a pack made for another profile: every
  finding is NOT_APPLICABLE and an obligation passes exactly when its own condition holds, whatever is unresolved
  (`RuntimeVerdicts`, `RuntimeProfilePassesUnexplained`).  Their blocks reach a rule only under a pack made for that very
  profile when it declares no fields (`WithoutARulePackBlockedIff`).
- Unresolved configuration keeps an obligation from passing exactly when it unsettles a baseline rule with the
  identifier of the obligation's rule (`ObligationPassesIff`).  So an obligation with parameters of its own can pass over
  a blocked rule (`BlockedObligationPassesIff`), one over an administrator's rule always does
  (`ForeignRuleIsNeverStopped`), and so does any under a pack made for another profile (`OtherProfilesPackStopsNothing`).
- Unexplained lines keep findings from passing only while the reader's node cap is not reached
  (`UnexplainedLineNeverPasses`).  A line has a node exactly when at most as many statements start on or before it as the
  cap admits and no unterminated block came before it (`LineHasNodeIff`); an unterminated block stops every rule
  (`PartialBlockStopsAll`), while a line beyond the cap changes nothing (`LineBeyondTheCapChangesNothing`,
  `Witnesses.OneOverTheCapPasses`).  The reader marks such a document as truncated (`Parse`), and the interpreter of
  command lines does not look at the mark; only that of JSON does (`backend/app/interpretation/service.py:504`).
- Every pass rests on a fact: a node of the evidence that a mapping about the rule's field explains
  (`PassRestsOnANode`, `ObligationRestsOnANode`).

## Model

| member | source | states |
|---|---|---|
| StructuralBuilder.IRBuilder.constructor | backend/app/parsing/ir_builder.py:40-55 | a new builder holds the empty forest |
| StructuralBuilder.IRBuilder.CloseDeeper | backend/app/parsing/ir_builder.py:107-108 | pops exactly the open contexts that are not indented less than the statement, and nothing below them |
| StructuralBuilder.IRBuilder.CloseAtLimit | backend/app/parsing/ir_builder.py:127-130 | leaves exactly the open contexts above the depth limit |
| StructuralBuilder.IRBuilder.CloseContexts | backend/app/parsing/ir_builder.py:97-137 | after the pops the stack is the statement's ancestor path under the limit, as given by indentation alone, and the diagnostics are the ones due |
| StructuralBuilder.IRBuilder.Hang | backend/app/parsing/ir_builder.py:139-176 | appending the node and listing it under its parent, or among the roots, gives the forest of the longer document |
| StructuralBuilder.IRBuilder.AddNode | backend/app/parsing/ir_builder.py:97-179 | for every statement the nodes, children, depths, paths, roots and diagnostics are those of the declared forest of all statements so far; at the node cap nothing changes and no id is returned |
| StructuralBuilder.IRBuilder.ResetContext | backend/app/parsing/ir_builder.py:181-182 | closes all contexts: no earlier statement encloses a later one, and no node changes |
| StructuralBuilder.IRBuilder.Build | backend/app/parsing/ir_builder.py:184-212 | returns the declared forest of everything added |
| StructuralForest.EnclosersMembers | backend/app/parsing/ir_builder.py:107-109 | the enclosers of a statement are exactly the earlier statements that are indented less and not cut off by an equal or smaller indentation in between, outermost first |
| StructuralForest.OpenIsStrictlyIndented | backend/app/parsing/ir_builder.py:97-130 | whatever was added, the stack is strictly increasing in indentation and the context at position k has depth k and the k contexts before it as its path |
| StructuralForest.Arrival | backend/app/parsing/ir_builder.py:107-142 | popping by indentation and then by depth leaves the same path as cutting the unlimited chain of enclosers at the limit |
| StructuralBuilder.Grown | backend/app/parsing/ir_builder.py:171-176 | adding one node changes the child list of its parent, or the roots, and nothing else of the forest |
| DocumentOrder.WalkIsDocumentOrder | backend/app/parsing/ir_builder.py:139-212 | a depth-first walk of roots and children visits every node once, in document order |
| DocumentOrder.SubtreeIsAStretch | backend/app/parsing/ir_builder.py:139-212 | the nodes with a given node on their path are exactly one contiguous stretch starting at it, and walking below it gives that stretch |
| DocumentOrder.LimitRehangs | backend/app/parsing/ir_builder.py:127-142 | the limited forest is the unlimited nearest-smaller-indentation forest with each node deeper than the limit re-hung on its ancestor at the last allowed depth |
| DocumentOrder.AncestorOfStretch | backend/app/parsing/ir_builder.py:141-143 | whoever is an ancestor of a node is an ancestor, at the same depth, of every node between the two |
| DocumentOrder.LimitReportedIff | backend/app/parsing/ir_builder.py:127-137 | `maximum_depth_reached` is reported exactly when the preceding statement encloses this one and sits at the limit |
| DocumentOrder.SecondSiblingIsSilent | backend/app/parsing/ir_builder.py:127-137 | any four statements indented 0, 1, 2, 2 under a limit of one: both siblings below the limit are re-hung, and only the first is reported |
| DocumentOrder.DedentReportedIff | backend/app/parsing/ir_builder.py:102-117 | below a possible parent `inconsistent_dedent` is reported exactly when an unlimited builder reports it or the dedent returns to a level the limit has forgotten |
| CliReader.ScanBlock | backend/app/parsing/readers/indentation_cli.py:243-292 | a banner or certificate block ends at its first closing line within 4096 lines, or else at the last of them unfinished; its text is its lines, each cut at 16 384 characters, and it is cut exactly when a line was or the limit left lines over |
| CliReader.StatementAt | backend/app/parsing/readers/indentation_cli.py:68-201 | the branches on a line build exactly the declared statement: comment, banner, certificate chain or plain line, with its status and the lines it spans |
| CliReader.Parse | backend/app/parsing/readers/indentation_cli.py:51-206 | the forest returned is that of the first statements, up to the node cap, among those the lines offer; it is marked truncated whenever more are offered or one was cut |
| LineCoverage.OffersInOrder | backend/app/parsing/readers/indentation_cli.py:51-204 | statements follow each other without overlap, and only the last can be unfinished: then it is an opaque node with status partial |
| LineCoverage.EveryLineIsOffered | backend/app/parsing/readers/indentation_cli.py:51-204 | every line that is not blank is part of a statement, unless an unfinished block came before it |
| LineCoverage.LineHasNodeIff | backend/app/parsing/readers/indentation_cli.py:52-62 | a line that is not blank has a node exactly when at most as many statements start on or before it as the cap admits and no unfinished block came before it |
| LineCoverage.NodeForLine | backend/app/parsing/readers/indentation_cli.py:84-174 | below the cap, the last node starting on or before a line shows the line or is an opaque node with status partial |
| LineCoverage.StatementSays | backend/app/parsing/readers/indentation_cli.py:68-201 | a line of commands becomes a certain statement exactly when it was read in full, without mixed indentation and with a command; comments and blocks never become statements |
| LineCoverage.BlockSays | backend/app/parsing/readers/indentation_cli.py:243-292 | a block is whole exactly when it ends on its own line or at the first closing line less than 4096 lines on; it is opaque exactly when it is whole and no line of it is over 16 384 characters, and of uncertain end otherwise |
| LineCoverage.CertainNodeStands | backend/app/parsing/ir_builder.py:95-137 | a certain statement of the forest is a line read in full that stands at the margin or below another statement |
| LineCoverage.BeyondTheCapNothingIsRead | backend/app/parsing/readers/indentation_cli.py:53-62 | cutting a document at a line beyond the cap leaves the forest as it is |
| ArgumentPatterns.MatchArguments | backend/app/training/dsl.py:260-283 | the one-pass loop returns a result of the backtracking matcher whenever it matches, with the captures merged in pattern order; on unambiguous patterns a refusal means there is no result |
| ArgumentPatterns.GreedyIsSound | backend/app/training/dsl.py:265-283 | every match and its captures are among those of the backtracking matcher, which may take or skip each optional |
| ArgumentPatterns.SkippingLosesNothing | backend/app/training/dsl.py:266-269 | an argument the next mandatory pattern refuses can be consumed by the optional without losing a match |
| ArgumentPatterns.GreedyIsExact | backend/app/training/dsl.py:265-283 | when no optional's value is accepted by the next mandatory pattern, the walk finds the only result there is, captures included |
| ArgumentPatterns.GreedyIsCompleteIffUnambiguous | backend/app/training/dsl.py:265-283 | the walk misses no match on any argument list if and only if no optional's value is accepted by the next mandatory pattern |
| ArgumentPatterns.Trap | backend/app/training/dsl.py:266-271 | for every ambiguous optional there is an argument list that matches and that the walk refuses |
| ArgumentPatterns.GreedyMissesAMatch | backend/app/training/dsl.py:266-274 | optional `any` before literal `any`, given `any` once: a match exists and the walk refuses |
| XmlQualifiers.HasUnsupportedQualifier | backend/app/training/dsl.py:325-342 | the frontier search finds a declared qualifier path exactly when a chain of children with the named tags goes down from the element's parent |
| XmlQualifiers.LeadsFurther | backend/app/training/dsl.py:338-339 | one more segment reaches exactly the named children of what the segments before it reach |
| XmlQualifiers.OwnTagQualifies | backend/app/training/dsl.py:335-341 | a path that names the matched element itself always sets the element aside |
| FactGraph.Traverse | backend/app/effective_state/resolver.py:84-97 | the bounded depth-first walk of one fact ends on any graph and leaves it unblocked exactly when every fact is reached by one path only and at most 128 facts are reached |
| FactGraph.PushDependencies | backend/app/effective_state/resolver.py:93-97 | pushes every dependency that is present, whatever the order of the set, and notices the root among them |
| FactGraph.BlockedDependencyIds | backend/app/effective_state/resolver.py:67-98 | blocks exactly the facts with a malformed or absent direct dependency and those whose reachable graph is not such a tree |
| FactGraph.Finished | backend/app/effective_state/resolver.py:87-98 | when the stack is empty the paths recorded are all the paths there are |
| FactGraph.TooMany | backend/app/effective_state/resolver.py:89-91 | 128 facts seen and one more on the stack mean more than 128 reachable facts |
| FactGraph.Revisited | backend/app/effective_state/resolver.py:89-91 | meeting a fact again means two paths to it |
| FactGraph.CycleBlocks | backend/app/effective_state/resolver.py:84-97 | a cycle blocks every fact that leads to it |
| FactGraph.BlockedIsOrderFree | backend/app/effective_state/resolver.py:67-98 | the outcome does not depend on the order of the facts |
| FactGraph.DiamondIsBlocked | backend/app/effective_state/resolver.py:67-98 | two ways to one dependency block a fact although nothing is missing and nothing is cyclic |
| FactGraph.MissingEvidenceDoesNotSpread | backend/app/effective_state/resolver.py:74-82 | a fact that depends on a fact with missing evidence is itself not blocked |
| Scopes.VtyKeyReadsBack | backend/app/effective_state/resolver.py:215-221 | a line range written as a `vty:a-b` key reads back as the same range |
| Scopes.DigitsOfDecimal | backend/app/effective_state/resolver.py:252-256 | decimal text of a number reads back as the number and holds digits only |
| Scopes.KeyTellsKind | backend/app/effective_state/models.py:180-224 | two valid scopes with the same key are the same scope |
| VtyPartitions.SweepIsLineByLine | backend/app/effective_state/resolver.py:215-221 | the pieces are disjoint and ascending, cover exactly the lines some fact covers, carry on each of their lines exactly the facts of that line, never touch with equal facts, and lie within 0..999 |
| VtyPartitions.PiecesBetweenCover | backend/app/effective_state/resolver.py:217-221 | every covered line from the first boundary on lies in a piece |
| VtyPartitions.TouchingDiffer | backend/app/effective_state/resolver.py:216-219 | at every boundary some fact begins or has just ended |
| Replay.WinnerInArtifact | backend/app/effective_state/resolver.py:231-239 | within one artifact the winner stands on the last line, and there is a conflict exactly when two facts on that line say different things |
| Replay.WinnerAcrossArtifacts | backend/app/effective_state/resolver.py:225-230 | across artifacts there is a conflict exactly when the facts do not all say the same |
| Replay.WinnerIsReplay | backend/app/effective_state/resolver.py:224-239 | there is a conflict exactly when two replays in line order end differently; otherwise every replay ends with the winner |
| Replay.Promote | backend/app/effective_state/resolver.py:231-239 | any fact of the last line can be the last of a replay in line order |
| Resolver.ResolveRepeatableScope | backend/app/effective_state/resolver.py:182-211 | the loop over the values of one scope gives the declared members, trace and conflict flag |
| Resolver.ResolveRepeatableField | backend/app/effective_state/resolver.py:178-212 | the loop over the scopes gives the declared drafts; what these hold is `ResolvedCollections` |
| Resolver.ResolveSecurityFacts | backend/app/effective_state/resolver.py:37-64 | the loop over fields returns the declared resolution, or the error of the first field that cannot be resolved: malformed facts, an unknown field, a draft whose value the field refuses |
| Resolver.NoFaultIff | backend/app/effective_state/models.py:113-123 | a resolution goes through exactly when every field is known and every draft's value, item by item for a list, is accepted by its field in its scope |
| Acceptance.FittingFactsAreResolved | backend/app/effective_state/models.py:113-123 | facts of known fields whose assigned values their fields accept are always resolved: no draft, swept pieces of ranges included, is refused |
| Acceptance.ValidatedFactsAreResolved | backend/app/effective_state/service.py:68-80 | while no field takes lists, facts that pass the service's validation are always resolved |
| Resolver.ResolutionForgetsOrder | backend/app/effective_state/resolver.py:37-64 | any permutation of the facts gives the same drafts, traces and winners included |
| Resolution.ScalarIsReplay | backend/app/effective_state/resolver.py:152-175 | within one artifact a scalar draft shows what every replay of assign, reset and remove ends with, and is conflicting exactly when two replays differ |
| Resolution.ScalarAcrossArtifacts | backend/app/effective_state/resolver.py:156-163 | across artifacts a scalar draft is conflicting exactly when the facts disagree, and otherwise shows what they say |
| Resolution.RepeatableIsReplay | backend/app/effective_state/resolver.py:184-211 | within one artifact and without resets a collection holds exactly the values a replay of additions and removals leaves, and is conflicting exactly when two replays leave different sets |
| Resolution.ResetConflicts | backend/app/effective_state/resolver.py:190-205 | where only resets carry no value, a reset among the facts of a collection always makes it conflicting |
| Resolution.MemberAcrossArtifacts | backend/app/effective_state/resolver.py:190-199 | a value several artifacts speak of survives exactly when all of them add it |
| Resolution.VtyFieldIsLineByLine | backend/app/effective_state/resolver.py:146-149 | on a field of VTY facts every covered line has exactly one draft, and it is the draft of the facts on that line |
| Resolution.SweptScope | backend/app/effective_state/resolver.py:215-221 | a swept draft's scope is valid and its key reads back as the piece's range |
| Drafts.ResolutionIsSound | backend/app/effective_state/resolver.py:45-64 | every draft validates, its value accepted by its field, drafts are sorted, no two share field and scope, every fact of a field without blocked facts is cited, blocked facts are cited, and a field with a blocked fact has only unknown drafts |
| Drafts.VtyFirstMeansVtyOnly | backend/app/effective_state/resolver.py:130-149 | because of the sort a field that starts with a VTY fact holds nothing else, so the bounds of a range are only ever asked of VTY facts |
| Drafts.SweptFieldOk | backend/app/effective_state/resolver.py:146-149 | the drafts of a swept field have valid scopes, agree in status, value and reason, have different scopes and cite every fact; that their values are accepted is FittingFactsAreResolved |
| Drafts.MixedFieldOverlapsIff | backend/app/effective_state/resolver.py:133-145 | a field that mixes VTY facts with others is not swept: two of its drafts cover one line exactly when VTY facts with different scopes, as written, share that line |
| Drafts.MixedFieldExample | backend/app/effective_state/resolver.py:133-145 | a device-wide fact beside two overlapping ranges leaves a line with two drafts |
| ResolvedFields.ResolvedCollections | backend/app/effective_state/resolver.py:178-212 | on a collection without blocked facts there is a draft for every scope of its facts; it is conflicting exactly when the facts about some value there are disputed or reset it, and otherwise holds, each once, exactly the values the facts there add: across artifacts, those all of them add |
| ResolvedFields.ResolvedCollectionsReplay | backend/app/effective_state/resolver.py:178-212 | where those facts come from one artifact and reset nothing the draft is conflicting exactly when two replays of them leave different sets, and otherwise holds what every replay leaves |
| ResolvedFields.ResolvedScalars | backend/app/effective_state/resolver.py:133-175 | on a scalar field with a fact about another scope than VTY lines there is a draft for every scope; it is conflicting exactly when two replays end differently or artifacts disagree, and otherwise shows what the facts say |
| ResolvedFields.ResolvedLines | backend/app/effective_state/resolver.py:146-149 | on a scalar field of VTY facts every covered line has exactly one draft, which tells what the facts on that line say, and any other line has none |
| ResolvedFields.ResolvedBlocked | backend/app/effective_state/resolver.py:45-56 | a field with blocked facts has a draft for each scope of these and no other, unknown for missing evidence |
| ResolvedFields.MalformedIff | backend/app/effective_state/resolver.py:101-127 | a resolution is refused as malformed exactly when some fact has no valid scope, resets with a value or removes without one |
| JobLease.JobQueue.Enqueue | backend/app/jobs/service.py:25-53 | adds a queued job without attempts or lease and touches no other |
| JobLease.JobQueue.NextQueued | backend/app/jobs/repository.py:17-33 | finds the job of the types asked for that was queued first, by creation time and then identifier, among those no other transaction holds; when it finds none every queued job of these types is held |
| JobLease.JobQueue.ClaimNext | backend/app/jobs/service.py:56-82 | starts exactly that job under the caller's lease; when it claims none every queued job of these types is held by another transaction; with invalid arguments nothing changes |
| JobLease.JobQueue.HeartbeatJob | backend/app/jobs/service.py:85-95 | renews exactly when the caller holds a live lease, and otherwise refuses with the source's error and changes nothing |
| JobLease.JobQueue.CompleteJob | backend/app/jobs/service.py:98-109 | completes exactly when the caller holds a live lease |
| JobLease.JobQueue.FailJob | backend/app/jobs/service.py:112-140 | fails the job exactly when the caller holds a live lease and code and message are valid |
| JobLease.JobQueue.StaleBatch | backend/app/jobs/repository.py:40-54 | of the stale jobs no other transaction holds, as many as the limit admits, the stalest first, none twice |
| JobLease.JobQueue.RecoverStale | backend/app/jobs/service.py:143-156 | fails exactly that batch; a limit outside 1..1000 is refused |
| JobLease.Stalest | backend/app/jobs/repository.py:44-52 | the first stale job: no expiry before any expiry, then the earlier, then the smaller identifier |
| JobLease.EveryJobMoves | backend/app/jobs/service.py:56-156 | the only ways a call changes a job: started, acted on by the owner of a live lease, or failed as stale |
| JobLease.ClaimTakesTheOldest | backend/app/jobs/service.py:70-80 | the oldest job that is free to claim is unique, so a claim starts exactly it |
| JobLease.StartsIff | backend/app/jobs/repository.py:17-29 | a valid claim starts a job exactly when it is queued, of a type asked for, held by no other transaction, and no such job was created before it or has a smaller identifier at the same time |
| JobLease.ClaimedTypes | backend/app/jobs/repository.py:17-29 | over every history a job that leaves the queue by a claim for certain types is of one of them, then and ever after |
| JobLease.IdleClaims | backend/app/jobs/service.py:70-72 | a valid claim that changes nothing found every queued job of its types held by other transactions |
| JobLease.BatchIsStalest | backend/app/jobs/repository.py:40-54 | recovery takes processing jobs without an expiry or past it, and leaves none that is due before one it takes |
| JobLease.EndedJobTells | backend/app/jobs/service.py:98-156 | an ended job shows for ever when and how it ended: completed without an error, failed with the text its owner gave, or failed as expired |
| JobLease.RefusalSays | backend/app/jobs/service.py:159-176 | each refusal has its one cause, and none of them is given exactly to the owner of a live lease |
| JobLease.OwnerOrRecovery | backend/app/jobs/service.py:174-176 | owner and recovery are never both admitted, and at the instant of expiry neither is |
| JobLease.EveryTableIsOk | backend/app/jobs/service.py:56-156 | in every reachable table a queued job has no attempt, any other exactly one, leases sit on processing jobs only, and finished jobs carry their completion data |
| JobLease.JobsOnlyGoForward | backend/app/jobs/service.py:56-156 | jobs are never deleted or moved back, and a completed or failed job never changes again |
| JobLease.ClaimedAtMostOnce | backend/app/jobs/service.py:56-82 | over any interleaving no two claims take the same job |
| JobLease.OlderIsClaimedFirst | backend/app/jobs/repository.py:20-29 | an older queued job that a claim could have taken, because its type is allowed and no other transaction holds its row, was claimed before the younger one |
| JobLease.EndsAtMostOnce | backend/app/jobs/service.py:98-156 | no run both recovers a job and completes or fails it, nor ends it twice |
| JobLease.LeasesAreGranted | backend/app/jobs/service.py:56-95 | the owner of every lease is the worker that claimed the job, and its end is the end some claim or heartbeat of that worker gave it |
| JobLease.LeaseExclusion | backend/app/jobs/service.py:85-176 | only the claiming worker renews, completes or fails a job, strictly before the end of a lease granted to it; recovery takes it strictly after |
| JobLease.DiligentWorkerIsNeverRecovered | backend/app/jobs/runner.py:149-167 | a worker whose calls on its job come less than a lease apart keeps it, whatever everyone else does: no recovery takes it and each of its calls finds the lease live |
| Worker.WorkerRuntime.Create | backend/app/jobs/runner.py:57-74 | there is a worker exactly for settings whose poll interval is long enough, whose heartbeat is shorter than a valid lease and whose owner, given or drawn, is a valid name |
| Worker.WorkerRuntime.ClaimOne | backend/app/jobs/runner.py:92-107 | recovers, then holds a lease on the oldest queued job of a type it has a handler for, or every such job is held by another transaction |
| Worker.WorkerRuntime.HeartbeatLoop | backend/app/jobs/runner.py:149-167 | renews at every beat until a renewal is refused, which happens at the first beat that comes a lease or more after the last grant |
| Worker.WorkerRuntime.EndJob | backend/app/jobs/runner.py:128-140 | the end of the job is accepted exactly while the last grant holds, and is a failure exactly when the handler failed |
| Worker.WorkerRuntime.RunIteration | backend/app/jobs/runner.py:87-147 | one iteration makes a run of recovery, claim, heartbeats and end; it only runs jobs of types it has a handler for; when its calls come less than a lease apart it ends the job itself and is the program of a diligent worker |
| JobLease.HeldIsLive | backend/app/jobs/runner.py:149-167 | between two such calls the lease is live at every call of anyone |
| MappingService.TrainingService.CreateMapping | backend/app/training/service.py:121-136 | a new draft continues its predecessor's lineage with the next number, or starts a lineage; a missing predecessor, an invalid key and a taken number are refused in that order |
| MappingService.TrainingService.UpdateMapping | backend/app/training/service.py:143-152 | an editable version becomes a draft with the new definition and no results; any other is refused unchanged |
| MappingService.TrainingService.RequestValidation | backend/app/training/service.py:155-180 | a new pending run for a draft or a version under test, under the source's conditions on evidence |
| MappingService.TrainingService.ExecuteValidation | backend/app/training/service.py:183-198 | a pending run records what the definition the mapping has now comes to, failing it on a published twin; status and definition of the mapping stay |
| MappingService.TrainingService.LatestValidation | backend/app/training/repository.py:18-19 | the run with the latest creation time, then the greatest identifier |
| MappingService.TrainingService.ValidationIsCurrent | backend/app/training/service.py:385-399 | true exactly when the latest run passed and its results name this definition, the manifest each profile has or lacks now, and artifacts present under the same digests |
| MappingService.TrainingService.ApproveMapping | backend/app/training/service.py:239-248 | approves exactly a version under test whose latest run passed and is current |
| MappingService.TrainingService.RejectMapping | backend/app/training/service.py:251-258 | rejects exactly editable versions |
| MappingService.TrainingService.PreparePublication | backend/app/training/service.py:261-285 | locks and checks: exactly an approved, currently validated version with available profiles is taken up, and the version in force is read |
| MappingService.TrainingService.CommitPublication | backend/app/training/service.py:276-290 | writes the next version of the pack, supersedes the version read if it is still in force, and marks this one published |
| MappingService.TrainingService.PublishMapping | backend/app/training/service.py:261-290 | both steps with nothing in between publish exactly an approved, currently validated version with available profiles |
| MappingService.TrainingService.PreviousPack | backend/app/training/service.py:276-276 | the highest version of the pack |
| MappingService.TrainingService.PreviousMapping | backend/app/training/service.py:283-285 | a published version of the same mapping exactly when there is one |
| MappingLifecycle.EveryMappingEvolves | backend/app/training/service.py:143-258 | no call rewrites the definition of an approved, published, superseded or rejected version or takes it back |
| MappingLifecycle.FinishedRunsStay | backend/app/training/service.py:183-198 | a finished run never changes, and runs are only requested for drafts and versions under test |
| MappingLifecycle.StaysLatest | backend/app/training/service.py:155-198 | the run an approval rests on stays the latest run of its mapping |
| MappingLifecycle.EveryStoreIsOk | backend/app/training/service.py:121-290 | in every store reached by calls whose publications do not overlap, approvals rest on passed runs, packs are chained, each mapping has at most one published version and lineages are numbered without repetition |
| MappingLifecycle.ApprovedDefinitionsStand | backend/app/training/service.py:239-290 | whatever edits, re-validations and late runs come, an approved, published or superseded version has a definition a passed run evaluated, and keeps definition and run forever |
| MappingLifecycle.NewerRequestReopens | backend/app/training/service.py:239-245 | a request newer than every run of a mapping leaves it without a current validation until that run has passed |
| MappingLifecycle.ShownResultsChangeIff | backend/app/training/service.py:183-198 | the results shown on an approved, published or superseded version change exactly when a pending run of that version executes with another outcome |
| MappingLifecycle.LateRunOverwritesResults | backend/app/training/service.py:183-198 | a run requested before approval and executed after it overwrites the results shown on the version and nothing else: they fail exactly when its cases or a published twin do, and the approval still rests on the run that passed |
| MappingLifecycle.PublicationKeepsOne | backend/app/training/service.py:283-286 | a publication that supersedes the version in force at the moment of writing leaves each mapping at most one published version |
| MappingLifecycle.PublicationKeepsRows | backend/app/training/service.py:276-281 | after a publication every pack version still holds released versions for exactly its profiles, one per mapping, and replaces its predecessor as declared |
| MappingLifecycle.PublicationKeepsReleases | backend/app/training/service.py:276-286 | after such a publication every published version is in the newest version of its pack and every superseded one has a published successor |
| MappingLifecycle.PublicationOnMappings | backend/app/training/service.py:283-286 | a publication changes the status of the published version and of the one it replaces, and no definition |
| ConcurrentPublication.EveryDeskIsOk | backend/app/training/service.py:261-290 | however publications overlap, approvals rest on passed runs, lineages and pack versions are numbered without gaps, and every pack version replaces its predecessor as declared |
| ConcurrentPublication.OnePublishedIff | backend/app/training/service.py:283-286 | over every history of overlapping publications each mapping has at most one published version if and only if none is committed after another version of its mapping was published since it read the version in force |
| ConcurrentPublication.CommitKeepsOneIff | backend/app/training/service.py:283-286 | one commit keeps at most one published version per mapping exactly when it was not overtaken in that way |
| ConcurrentPublication.OvertakenForOtherProfiles | backend/app/training/service.py:271-276 | only a publication for another set of profiles can overtake, the pack of the same profiles being locked |
| ConcurrentPublication.UnovertakenStoresAreOk | backend/app/training/service.py:261-290 | histories without overtaken commits reach only stores that satisfy everything proved of publications one by one |
| ConcurrentPublication.OverlappingPublicationsBothStand | backend/app/training/service.py:261-290 | two approved versions of one mapping for different profiles, published at once, both end up published |
| ApprovalEvidence.FinishedRunWasExecuted | backend/app/training/service.py:183-236 | over every history a finished run was executed at one moment, and its results name the definition, the manifests and the artifact digests of that moment |
| ApprovalEvidence.ApprovedIff | backend/app/training/service.py:239-248 | over every history an approval goes through exactly for an administrator, on a version under test whose last run passed, while definition, manifests of its profiles and artifacts of the run are those of the moment the run was executed; otherwise nothing changes |
| ApprovalEvidence.PublishedIff | backend/app/training/service.py:261-290 | the same decides a publication, on an approved version whose profiles are all in force |
| ApprovalEvidence.PreparedIff | backend/app/training/service.py:261-285 | where publications overlap the same decides whether one is begun, when no other for the same profiles is under way |
| ApprovalEvidence.ChangedEvidenceRefuses | backend/app/training/service.py:385-399 | one manifest changed, gone or new, one artifact absent or changed, or another definition makes approval and publication refuse and change nothing |
| ApprovalEvidence.RequestedIff | backend/app/training/service.py:155-180 | a run is requested exactly for a draft or version under test, on distinct artifacts that are ready, two of them for a structured match |
| ApprovalEvidence.CreatedIff | backend/app/training/service.py:121-136 | a version comes to be exactly under a key that is neither blank nor over 255 characters, after a predecessor whose next number is free or as the first of its lineage; always as a draft nobody has approved |
| ApprovalEvidence.EditedIff | backend/app/training/service.py:143-152 | edits and rejections go through exactly on suggestions, drafts and versions under test |
| ApprovalEvidence.FinishedIff | backend/app/training/service.py:183-236 | a pending run on usable evidence passes exactly when its cases do and no other mapping has published the same match for the same field |
| KnowledgePacks.PackVersionsFormAChain | backend/app/training/service.py:276-281 | the versions of a pack are exactly 1..n; each but the first names the one numbered just below and holds what that one held, less other versions of one mapping, plus that mapping |
| KnowledgePacks.VersionIsRank | backend/app/training/service.py:276-281 | a pack version's number is its rank of publication within the pack |
| KnowledgePacks.EveryLowerVersionExists | backend/app/training/service.py:123-129 | version v+1 of a mapping has a version v before it |
| KnowledgePacks.PacksOnlyGrow | backend/app/training/service.py:281-282 | pack versions are never rewritten or withdrawn |
| KnowledgePacks.NewestIsLatestInTime | backend/app/interpretation/service.py:238-247 | the pack version taken as newest has the latest publication time and, among those, the highest number |
| KnowledgePacks.NewestIsHighest | backend/app/interpretation/service.py:238-247 | while the clock does not go back between publications of a pack the version taken as newest is the highest |
| KnowledgePacks.CandidateIff | backend/app/interpretation/service.py:238-268 | a pack may be loaded for a profile exactly when it is made for that profile and none of the mappings in its newest version has since been published for other profiles or replaced in a higher version |
| KnowledgePacks.MovingAMappingStrandsItsPack | backend/app/training/service.py:271-286 | publishing a mapping for other profiles takes its old pack, with every other mapping in it, out of use |
| KnowledgePacks.SecondPackSilencesBoth | backend/app/interpretation/service.py:269-272 | publishing a first mapping for a wider or narrower set of profiles leaves an audit of a shared profile with two candidates and so without either pack |
| Snapshots.HashIdentifiesContents | backend/app/snapshots/service.py:27-29 | the snapshot hash forgets the order of the digests and nothing else |
| Snapshots.EveryListingMatches | backend/app/snapshots/service.py:165-170 | count and hash are the same whichever way the members are listed |
| Snapshots.MembersStay | backend/app/snapshots/service.py:96-147 | no call touches the members, count or hash of another snapshot or of a sealed one |
| Snapshots.EveryShelfIsOk | backend/app/snapshots/service.py:96-170 | in every reachable store each snapshot's count and hash match its members and sealed snapshots have members |
| Snapshots.SealedSnapshotsStand | backend/app/snapshots/service.py:160-162 | from finalization on members, digests, count and hash of a snapshot never change |
| Snapshots.SealedEvidenceIsValidIff | backend/app/audit/service.py:336-354 | the evidence of a ready or locked snapshot is valid exactly while its artifacts are eligible |
| Snapshots.EqualHashesEqualEvidence | backend/app/snapshots/service.py:27-29 | two snapshots have equal hashes exactly when they hold the same digests |
| Snapshots.AddedIff | backend/app/snapshots/service.py:96-113 | an artifact joins a snapshot exactly when the snapshot is a draft and the artifact is eligible and in no other; nothing else changes hands |
| Snapshots.RemovedIff | backend/app/snapshots/service.py:116-129 | an artifact leaves exactly a draft it is in |
| Snapshots.FinalizedIff | backend/app/snapshots/service.py:132-147 | a snapshot is sealed exactly when it is a draft with members, all eligible |
| SnapshotService.Members | backend/app/snapshots/service.py:166-168 | lists exactly the members, each once |
| SnapshotService.ValidateSnapshotEvidence | backend/app/audit/service.py:336-354 | succeeds exactly on evidence that is present, eligible and unchanged, and tells invalid from incoherent evidence |
| SnapshotService.Service.CreateSnapshot | backend/app/snapshots/service.py:32-55 | a draft without members under the hash of nothing |
| SnapshotService.Service.AddArtifact | backend/app/snapshots/service.py:96-113 | adds exactly an eligible artifact of no other snapshot to a draft and reseals it; refuses in the source's order |
| SnapshotService.Service.RemoveArtifact | backend/app/snapshots/service.py:116-129 | removes a member of a draft and reseals it |
| SnapshotService.Service.FinalizeSnapshot | backend/app/snapshots/service.py:132-147 | makes a non-empty draft of eligible artifacts ready |
| SnapshotService.Service.RefreshMembership | backend/app/snapshots/service.py:165-170 | writes the count and hash of the members there are now |
| AuditService.AuditStore.CreateAudit | backend/app/audit/service.py:33-92 | a first revision, exactly for a ready snapshot with valid evidence, a published assessment pack if one is requested, and no first revision yet |
| AuditService.AuditStore.StartAudit | backend/app/audit/service.py:154-191 | locks the snapshot, queues the draft and gives it its one job |
| AuditService.AuditStore.LatestRevision | backend/app/reevaluation/service.py:121-121 | the highest revision of the snapshot |
| AuditService.AuditStore.StartReevaluation | backend/app/reevaluation/service.py:91-156 | a queued successor of a completed audit with the next revision, or the one of the same kind still under way; refused otherwise, as for an assessment pack that is not published |
| AuditService.AuditStore.BeginRun | backend/app/audit/pipeline.py:326-347 | a queued or processing audit is processed; any other ends the run |
| AuditService.AuditStore.ResolveAuditProfile | backend/app/audit/service.py:194-333 | a first audit stores the profile found on valid evidence unless pinned differently; a re-evaluation keeps its source's |
| AuditService.AuditStore.PinAssessment | backend/app/assessment_packs/service.py:152-202 | writes back the versions read earlier with the packs chosen |
| AuditService.AuditStore.LoadAuditPack | backend/app/audit/pipeline.py:272-302 | uses the pinned pack, or the active one when none is pinned |
| AuditService.AuditStore.PinVersionsAndSetStage | backend/app/audit/pipeline.py:349-394 | pins profile and pack, or refuses when either is pinned differently or the resolution changed |
| AuditService.AuditStore.PinComplianceVersionsAndSetStage | backend/app/audit/pipeline.py:171-211 | pins rule packs and policy, or refuses when pinned differently |
| AuditService.AuditStore.FinalizeRun | backend/app/audit/pipeline.py:213-239 | the terminal status follows from the verdicts: an error, else an open verdict, else completed |
| AuditService.AuditStore.FinalizeFailureOf | backend/app/audit/pipeline.py:241-261 | fails an audit that is still processing and leaves any other alone |
| Audits.TransactionOk | backend/app/audit/pipeline.py:171-394 | every transaction of a run, on a row that agrees with where the run stands, leaves such a row, keeps every pin, and never touches a terminal audit |
| Audits.RunKeepsJobs | backend/app/audit/pipeline.py:326-347 | a submitted audit keeps exactly one job, and its row agrees with that job's run |
| Audits.UserKeepsJobs | backend/app/audit/service.py:154-191 | no call of a user gives an audit a second job or disturbs a run |
| Audits.CreatedIff | backend/app/audit/service.py:33-92 | a first audit comes to be exactly on a ready snapshot with valid evidence, without a first revision, and with a published pack if one is asked for; its fields are given |
| Audits.StartedIff | backend/app/audit/service.py:154-191 | a draft is submitted exactly while its snapshot is ready, its evidence valid and its device the audit's |
| Audits.ReevaluatedIff | backend/app/reevaluation/service.py:91-156 | a re-evaluation comes to be exactly for an administrator, on a completed audit with valid sealed evidence and a profile, for another compatible pack, when none of the kind is under way; it inherits profile, rule packs and policy |
| Audits.IdentifySays | backend/app/audit/service.py:194-333 | a first audit settles on the profile found on valid evidence unless pinned to another, a re-evaluation on the settled one it inherited |
| Audits.LoadSays | backend/app/audit/pipeline.py:272-302 | the pack is the pinned one, or the active one where none is pinned |
| Audits.PinSays | backend/app/audit/pipeline.py:349-394 | a stage is passed exactly while the audit is processed and neither profile nor pack is resolved or pinned otherwise |
| Audits.ComplySays | backend/app/audit/pipeline.py:171-211 | compliance goes on exactly with a rule pack among the pinned ones and the pinned policy |
| Audits.FinalizeSays | backend/app/audit/pipeline.py:213-239 | an audit still processed finishes with errors exactly when some verdict is PROCESS_ERROR, else with unknowns exactly when some verdict is UNKNOWN or MANUAL_REVIEW, else completed |
| AuditHistories.EveryWorldIsOk | backend/app/audit/pipeline.py:171-394 | in every reachable state jobs, pins, revisions, sources and snapshots agree |
| AuditHistories.PinsNeverChange | backend/app/audit/pipeline.py:385-392 | over all runs of create, start, process and re-evaluate a pinned profile, knowledge pack, rule pack or policy never changes, and a completed or failed audit never changes at all |
| AuditHistories.RevisionsAreConsecutive | backend/app/reevaluation/service.py:120-131 | a snapshot's revisions are exactly 1..n, each taken once, and only the first has no predecessor |
| AuditHistories.RevisionsShareTheProfile | backend/app/reevaluation/service.py:134-140 | all revisions of a snapshot that are pinned to a device profile are pinned to the same one |
| AuditHistories.FirstOf | backend/app/reevaluation/service.py:129-142 | following predecessors leads from any revision to the first, under the same profile |
| AuditHistories.EvidenceStands | backend/app/audit/service.py:154-191 | from the moment an audit exists the evidence of its snapshot is the same, digest for digest |
| AuditHistories.CompletedAuditTells | backend/app/audit/pipeline.py:130-239 | over every history a completed audit was finalized by its run on verdicts that call for its status, after a step under a rule pack among those it is pinned to and the policy it is pinned to |
| JobsAndAudits.EverySystemIsOk | backend/app/jobs/runner.py:87-147 | over every history of users, workers, runs and recovery the audit of each job, its run and its worker agree as the handler leaves them, whatever has become of the lease |
| JobsAndAudits.DisagreeIff | backend/app/jobs/runner.py:128-140 | a job that has ended disagrees with its audit exactly when recovery failed it and the run finished all the same, when the profile stayed unsettled (a completed job, a failed audit), or when the run was left unfinished |
| JobsAndAudits.UnrecoveredJobsTell | backend/app/jobs/runner.py:128-140 | a job recovery has not touched is completed only with a terminal audit and failed only with one that is not completed |
| JobsAndAudits.RecoveredIff | backend/app/jobs/service.py:143-156 | the jobs counted as recovered are exactly those a recovery has failed |
| JobsAndAudits.RecoveredRunStillFinalizes | backend/app/audit/pipeline.py:213-239 | at its last step the run of a job that recovery has failed completes its audit |
| JobsAndAudits.AbandonedForEver | backend/app/audit/pipeline.py:326-347 | once its worker has gone no call of anyone changes an audit again: one left unfinished stays so |
| AuditRaces.PinsKeptIff | backend/app/assessment_packs/service.py:152-202 | with any number of runs of one audit at once, no pin is ever lost if and only if no run writes its versions back after another has pinned something new since it read them |
| AuditRaces.OnlyWritesLose | backend/app/assessment_packs/service.py:200-200 | no transaction but the assessment's write back can lose a pin, and it loses one exactly when it was not there to be read |
| AuditRaces.OnlyPinsAdd | backend/app/audit/pipeline.py:349-394 | outside the write back, a pin appears exactly with an accepted pinning transaction that found it missing |
| AuditRaces.CrossingLoses | backend/app/assessment_packs/service.py:200-200 | a write that crosses a pin loses it, or one was lost before |
| AuditRaces.TwoRunsLosePins | backend/app/assessment_packs/service.py:200-200 | two runs of one audit, one pinning between the other's read and write: the write crosses the pin and loses it |
| Interpretation.MatchesNode | backend/app/interpretation/service.py:850-881 | matches by command, argument prefixes without regard to case, parent and closest ancestor |
| Interpretation.ClosestFits | backend/app/interpretation/service.py:873-881 | the walk up decides by the closest ancestor with the command, even when one further up would fit |
| Interpretation.InterpretStructuralIR | backend/app/interpretation/service.py:304-435 | the report holds exactly: a fact for each mapping and certain statement it takes up with a value its field accepts in its scope, or negated with a bounded meaning; a diagnostic for each cause, once; as unresolved, the evidence no mapping makes a fact of and no fact takes its scope from; the first value its field refuses, and no earlier one, aborts |
| Interpretation.RecordedCovers | backend/app/interpretation/service.py:349-419 | one pair adds exactly its own fact, diagnostic and consumed context to the report |
| Interpretation.Branches | backend/app/interpretation/service.py:349-419 | the branches on one pair come to a fact exactly for a certain statement with a value its field accepts in its scope, or a certain negated one with a bounded meaning; to each diagnostic exactly by its cause; and to an abort exactly on a value its field refuses |
| Interpretation.UncertainIsReported | backend/app/interpretation/service.py:355-375 | an uncertain statement is never explained: every mapping that takes it up reports it, as an unsupported negation if it is negated and as `uncertain_structural_node` otherwise |
| UnresolvedEvidence.PersistUnresolvedBlocks | backend/app/interpretation/service.py:1080-1254 | every unresolved node that is not identity syntax and every unsupported artifact gets its block, narrowed to the diagnosed fields where that is allowed, and there are no other blocks |
| Compliance.EvaluateAuditCompliance | backend/app/compliance/service.py:72-177 | returns the findings of every rule in order, and exactly those the cases give: for every rule, by profile, states, policy parameter, condition and blocks |
| Compliance.IndexStates | backend/app/compliance/service.py:91-95 | the states of each field, in order |
| Compliance.BlockedRules | backend/app/compliance/service.py:115-133 | exactly the rules some block names, an empty block of the pack's own profile naming all |
| Compliance.EvaluateStates | backend/app/compliance/service.py:146-176 | one finding per state: unresolved, missing parameter, evaluation error, blocked pass, pass or failure |
| Compliance.PassesIff | backend/app/compliance/service.py:135-176 | a finding passes exactly for an applicable pack, a resolved state that meets the rule, and no block on the rule |
| Compliance.FailsIff | backend/app/compliance/service.py:157-174 | a finding fails exactly for an applicable pack and a resolved state of the rule's field that does not meet it, any parameter being set; blocks have no say |
| Compliance.ManualReviewIff | backend/app/compliance/service.py:153-156 | a finding awaits review exactly for an applicable pack and a resolved state, when the policy does not set the parameter the rule needs |
| Compliance.ProcessErrorIff | backend/app/compliance/service.py:157-176 | a finding is an error exactly for an applicable pack and a resolved state on which the condition cannot be evaluated, any parameter being set |
| Compliance.UnknownIff | backend/app/compliance/service.py:135-172 | a finding is UNKNOWN exactly for an unsettled profile, no state, conflicting states, a state without a value (with its own reason), or a state that meets a blocked rule; each with its reason |
| Compliance.NotApplicableIff | backend/app/compliance/service.py:136-138 | every finding is NOT_APPLICABLE exactly when the profile is settled and is not that of the pack |
| Compliance.UnknownIffReason | backend/app/compliance/service.py:135-176 | a finding is UNKNOWN exactly when it carries a reason |
| Compliance.MoreBlocksOnlyBlock | backend/app/compliance/service.py:158-174 | more blocks turn some passes into UNKNOWN and change no other finding |
| Compliance.FindingsHaveDistinctKeys | backend/app/compliance/service.py:57-69 | no two findings of an audit share rule and scope |
| FailClosed.DiagnosedFieldsAre | backend/app/interpretation/service.py:1141-1146 | a block is narrowed to the fields of exactly the mappings that took the node up and could not use it |
| FailClosed.BlockedIff | backend/app/interpretation/service.py:1147-1166 | a rule is blocked exactly when an artifact was unsupported or an unexplained node stops it |
| FailClosed.BlockedByNodesIff | backend/app/interpretation/service.py:1109-1166 | said of nodes and mappings: a rule is blocked exactly when an artifact was unsupported or a node left over concerns it, because the profile is generic, the node is a block of uncertain end, no mapping reported it, or one about a field of the rule did |
| FailClosed.BlockSays | backend/app/interpretation/service.py:1109-1166 | the block of a node names every rule and field when no mapping reported it, the profile is generic or it is of uncertain end, and otherwise the fields of the mappings that reported it and the rules over these |
| FailClosed.PassesIffNothingStopsIt | backend/app/compliance/service.py:157-174 | where rule and state alone pass, the audit passes exactly when every artifact was supported and every unexplained node was narrowed to fields the rule does not need |
| FailClosed.UnexplainedConfigurationNeverPasses | backend/app/interpretation/service.py:1151-1156 | a node of the forest no mapping explains and none took up leaves no finding PASS; one that mappings took up and could not use leaves no rule over their fields PASS |
| FailClosed.WithoutARulePackBlockedIff | backend/app/interpretation/service.py:1095-1105 | for a profile without a built-in rule pack a rule is blocked exactly when the pack in use is made for this very profile, the profile declares no fields, and an unexplained node is not narrowed down |
| FailClosed.PartlyExplainedLeavesNoBlock | backend/app/interpretation/service.py:431-434 | one mapping that explains a statement keeps it out of the blocks, whatever other mappings reported on it |
| LineVerdicts.InterpretAudit | backend/app/interpretation/service.py:703-813 | reads every artifact from its lines, interprets it completely and records exactly the blocks due, or aborts on a value its field refuses |
| LineVerdicts.UnexplainedLineNeverPasses | backend/app/interpretation/service.py:1151-1166 | below the node cap a node answers for every line that is not blank; while it is unexplained no finding passes, unless it shows the line itself and mappings took it up for fields the rule does not need |
| LineVerdicts.UncertainLineNeverPasses | backend/app/interpretation/service.py:370-375 | the same for every line of uncertain syntax from which no fact takes its scope: each mapping that takes it up reports it, and a finding passes only if its rule needs no field of these, and there is one |
| LineVerdicts.PartialBlockStopsAll | backend/app/interpretation/service.py:1160-1166 | an unresolved opaque block with status partial leaves no finding PASS |
| LineVerdicts.LineBeyondTheCapChangesNothing | backend/app/parsing/readers/indentation_cli.py:53-62 | a line beyond the cap has no node, and the nodes are the same without it and all that follow |
| RuntimeProfiles.RuntimeVerdicts | backend/app/audit/pipeline.py:180-187 | judged under a pack made for another profile every finding is NOT_APPLICABLE, and an obligation passes exactly when its own condition holds, whatever is unresolved |
| EvidenceFacts.FactsAreProduced | backend/app/interpretation/service.py:349-419 | the facts handed to the resolver are exactly those of nodes of the evidence that a mapping makes a fact of |
| EvidenceFacts.FactSays | backend/app/interpretation/service.py:923-975 | a fact of a statement holds the value extracted from it, in the scope found for it, at the smaller of its line and the one its scope was read from |
| EvidenceFacts.NegationKeptIff | backend/app/effective_state/service.py:168-200 | a negated statement's fact has the operation and value its mapping's behaviour declares exactly when, for a removal, the mapping has a version of its own for it and, for a reset, one of its own or a trained definition |
| EvidenceFacts.UnmarkedRemovalAdds | backend/app/effective_state/service.py:198-200 | otherwise the value a removal takes away, alone in its scope, is shown as the value of the field and as a member of the collection |
| EvidenceFacts.OneBlockNeverOverrides | backend/app/effective_state/resolver.py:101-127 | statements that take their scope from one enclosing statement all stand at its line: whatever their order, they conflict unless they say the same |
| EvidenceFacts.LaterPlaceWinsIff | backend/app/effective_state/resolver.py:224-239 | of two facts that say different things the second wins exactly when its place, the smaller line of its statement and of the one its scope was read from, is the greater; at equal places they conflict |
| EvidenceFacts.InterpretedFactsAreNeverBlocked | backend/app/interpretation/service.py:973-974 | interpretation gives its facts no dependencies, so of the facts of an audit the dependency check blocks none |
| EvidenceFacts.OneFactIsResolved | backend/app/effective_state/resolver.py:37-64 | an accepted assignment that stands alone is resolved to its own draft |
| DraftSources.ResolvedDraftsRestOnFacts | backend/app/effective_state/resolver.py:130-212 | every resolved draft cites a fact of its field in whose scope it lies, and on a scalar field shows what that fact assigns |
| AuditVerdicts.ResolvedStatesAreBacked | backend/app/effective_state/service.py:136-165 | every resolved state rests on a node of the evidence that a mapping about its field makes a fact of; on a scalar field with that very value |
| AuditVerdicts.BackedByALine | backend/app/parsing/readers/indentation_cli.py:176-201 | the node a state rests on is a line of its document that was read in full, at the margin or below another statement |
| AuditVerdicts.PassRestsOnANode | backend/app/audit/pipeline.py:130-165 | every finding that passes does so by a rule that holds of a state resting on such a node, of status parsed |
| AuditVerdicts.ObligationRestsOnANode | backend/app/assessment_packs/service.py:293-370 | every obligation that passes rests on such a node too, whatever findings it is judged with |
| AuditVerdicts.CollectFacts | backend/app/interpretation/service.py:722-735 | the facts of all artifacts, artifact by artifact |
| AuditVerdicts.Audit | backend/app/audit/pipeline.py:98-170 | from lines to findings: a finding passes only on a node of the evidence and only if nothing unexplained stops its rule; a refused value or an unresolvable fact ends the audit |
| Witnesses.OneOverTheCapPasses | backend/app/parsing/readers/indentation_cli.py:53-62 | for every cap: one line too many, which nobody explains, leaves no block, and the finding on the fact of another line passes |
| Witnesses.OneMoreNodeStopsAll | backend/app/parsing/readers/indentation_cli.py:53-62 | the same document under a cap higher by one: no finding passes |
| Witnesses.RuntimeProfilePassesUnexplained | backend/app/audit/pipeline.py:180-187 | a concrete runtime profile without fields, one explained line and one unresolved: the unresolved line has its block, every finding is NOT_APPLICABLE and the obligation passes on the state of the other |
| Assessment.AssessObligation | backend/app/assessment_packs/service.py:293-370 | the branch of every obligation: applicability, UNKNOWN finding, no state, several states, unresolved state, condition |
| Assessment.FirstUnknown | backend/app/assessment_packs/service.py:315-320 | finds an UNKNOWN finding of the rule exactly when there is one |
| Assessment.DecidedIff | backend/app/assessment_packs/service.py:312-359 | a pass or a failure exactly when one resolved state backs it, its condition can be evaluated and no finding of the rule is UNKNOWN |
| Assessment.ObligationVerdicts | backend/app/assessment_packs/service.py:304-359 | an obligation has a verdict exactly when it is implemented, automatic, applies and is supported; it passes or fails exactly when no finding of its rule is UNKNOWN and exactly one state is over the rule's fields, resolved, and meets the condition or does not; it is UNKNOWN otherwise |
| Assessment.UnknownByBlockIff | backend/app/assessment_packs/service.py:315-326 | for one resolved state the rule has an UNKNOWN finding exactly when it would pass but is blocked |
| Assessment.RuleUnsettledIff | backend/app/compliance/service.py:135-174 | a rule has an UNKNOWN finding exactly when the profile is not settled, or the pack applies and it has no state, an unresolved state, or a state that meets it under a block |
| Assessment.AnyUnknownIff | backend/app/assessment_packs/service.py:315-320 | an audit has an UNKNOWN finding under an identifier exactly when a baseline rule of that identifier is unsettled so |
| Assessment.ObligationPassesIff | backend/app/assessment_packs/service.py:293-359 | an obligation passes, for every pack and every rule it may name, exactly when it applies, its one state is resolved and meets it, and no baseline rule of its rule's identifier is unsettled |
| Assessment.OtherProfilesPackStopsNothing | backend/app/compliance/applicability.py:1-15 | under a pack made for another profile every finding is NOT_APPLICABLE and no block has a say in any obligation |
| Assessment.BlockedObligationPassesIff | backend/app/assessment_packs/service.py:350-356 | in the baseline case, an obligation that its own parameters satisfy passes over a blocked rule exactly when the rule itself, under the organization's policy, would not have passed |
| Assessment.ForeignRuleIsNeverStopped | backend/app/compliance/runtime_rules.py:123-128 | an obligation over a rule whose identifier is not in the baseline pack passes whatever is unresolved |

## Left out

- HTTP routes, authentication, settings, sessions, migrations, file storage, report rendering and the language-model client: plumbing.
- Organizations: every store holds the rows of one organization, so the checks that rows do not cross organizations are not modelled.
- Vendor extractors, scope resolvers, field validation, the condition evaluator, platform detection and static catalogs: functions given from outside.
- Tokens, indentation and the kind of a line are given; the reader works on lines from there. The limits on bytes, characters (2 MiB) and lines (50 000) cut a document before those lines, so what they drop is outside `LineVerdicts`, like what the node cap drops. Diagnostics the reader adds, and the readers of FortiOS, XML and JSON text, are not modelled.
- Interpretation and blocks of XML and JSON evidence: only the command-line interpreter is modelled; the other two collect their leaves in the same way.
- The guards of `matches` other than its argument patterns (command, negation, parent, ancestors, scope and argument counts): plain comparisons.
- Evidence parsing in `_classify`: facts come with their artifact and line; scope attributes are not modelled, a scope being its type and key.
- Identifiers are compared as text or numbers; their textual form is not modelled.
- Several readings of the clock within one call count as one.
- AuditService.AuditStore.PinAssessment: the rows of pinned assessment packs and the checks on them are not modelled, only the choice that comes of them.
- MappingService.TrainingService.ExecuteValidation: an unavailable profile and ineligible evidence are one condition, usable evidence, given from outside.
- Interpretation.InterpretStructuralIR: the checks that forest, profile and pack belong together come before it and are not modelled.
- Worker.WorkerRuntime.ClaimOne: recovery and claim follow each other with no other worker's call in between.
- Worker.WorkerRuntime.HeartbeatLoop: retries after database errors and calls of others in between are not modelled.
- Worker.WorkerRuntime.RunIteration: makes its calls with no other worker's call in between; what others can do in between is the subject of `DiligentWorkerIsNeverRecovered`. Threads, the handler itself, retries after database errors and the polling loop are not modelled.
- Progress: nothing is proved about when jobs, runs or audits finish, only about what they may do.
- MappingLifecycle: the review status of unresolved blocks, titles, descriptions and the AI suggestion that precedes adoption are not modelled; adoption creates a draft like any other.
- Pack keys are the multiset of profile identifiers: the join by commas is taken to be unambiguous.
- KnowledgePacks.CandidateIff: speaks of stores without overtaken publications, as `UnovertakenStoresAreOk` says when they are reached.
- Audits: assessment pins kept in rows of their own, frameworks and batches; `assessment_pack_version_ids` may change once on re-evaluation and is not among the pins that stay. Which assessment packs are published is given with each call.
- AuditService.AuditStore.ResolveAuditProfile: takes the two transactions of the source as one; sealed evidence cannot change in between (`EvidenceStands`).
- UnresolvedEvidence.PersistUnresolvedBlocks: models the one time an audit records its blocks, so the skipping of fingerprints already recorded is not exercised.
- Fact identifiers are given by a naming; that equal facts share one identifier and are stored once is not modelled.
- JobsAndAudits: database errors show only as handlers that fail with their audit left as it stood; jobs of other kinds are rows without a run.
- Evidence references, explanations, observed and expected values of findings, and details of assessment results: carried along without decisions.
- Compliance.MoreBlocksOnlyBlock: speaks of verdict, reason, rule and scope; the evidence references of a blocked finding grow with the blocks.
- Coverage sums, dashboards and summaries of counts: easy members.
