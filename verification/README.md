# Verification of the learning platform's core protocols

A Dafny model of the parts of the repository whose correctness depends on state, interleaving or
arithmetic, with proofs about every input, every run or every reachable state. `dafny verify
dfyconfig.toml` checks all of it.

Code that updates state is modelled twice: as a function from state to state that says what a call
does, and as a class or a loop in the source's own form whose contract ties it to that function.
The protocol theorems are about the functions; the methods' contracts carry them over. A stretch of
code between two `await`s is one atomic step, and runs are arbitrary sequences of such steps.

The functions in turn are held to statements that name none of them. For the four state machines these
are told from the history alone: what an input, a call or an event must lead to is defined over the
earlier ones and their answers, with no state, and every run is proved to be as told
(`AssessmentAnswers`, `ActivationVisible`, `IngestionTold`, `ActivationTold`). For the pure parts they are
told from the input: the first demand that was not met, the numbers as they were written, the texts that
differ, minima over the concepts given in (`ShortAnswerVerdicts`, `BridgeOutcomes`, `RedriveOutcomes`,
`ReadinessOutcomes`, `AdrChanges`, and the second half of `AdaptiveSelection`).

- **Short-answer grading** (`AssessmentContracts`, `AssessmentRepository`, `AssessmentProtocol`,
  `AssessmentStoredViews`, `AssessmentWitnesses`, `AssessmentAnswers`, `ShortAnswerGrading`,
  `ShortAnswerVerdicts`). Workers claim an answer under an idempotency key with a lease and a token,
  grade it, and finalize or release it; the repository reserves unseen fallback prompts and gives
  them back. Any number of workers may crash, expire, release and finalize in any order.
- **Adaptive selection** (`AdaptiveSelection`): five-level ranking followed by one question per prompt.
- **Decision record lifecycle** (`AdrModel`, `AdrLifecycle`, `AdrSuccession`, `AdrTransitions`,
  `AdrChanges`): the depth-first cycle search, the link checks, what a clean collection and a history of
  clean merges imply, and which diagnostic each change and each broken link is told with.
- **Activation progress in the browser** (`ActivationProgress`, `ActivationVisible`): the closure with its
  timers, source, generations and flags, proved to be a machine in one phase at a time.
- **Local ingestion** (`IngestionBroker`, `IngestionBrokerRuns`, `IngestionTold`, `IngestionCauses`,
  `BridgeWorker`, `BridgeOutcomes`, `IngestionEndToEnd`): the broker in the API process, the host bridge
  that polls it, and every run of the two together.
- **Exam readiness** (`FixedPoint`, `ExamReadiness`, `ReadinessOutcomes`): a rounded average of rounded
  averages.
- **Messages** (`JsonText`, `CanonicalJson`, `MessageRedrive`, `RedriveOutcomes`, `OutboxRelay`): the
  canonical JSON comparison, the dead-letter redrive that relies on it, and the concurrent accounting of
  the relay.
- **Retries and limits** (`ActivationOperations`, `ActivationRuns`, `ActivationTold`, `RetryEngines`,
  `ActivationDelivery`, `AuthAbuseLimiter`).

`Wrappers`, `Sequences` and `StableSort` (with `TextOrder`) are shared: options and results, elements and
repetitions of a list, and the stable sort that the source gets from its runtime.

## What the proofs found

- A claim that fails because a later rubric has no fallback keeps its earlier picks marked as
  presented in a session that already had a stored set; `AssessmentProtocol.FailedClaimLeaksPicks`
  says exactly when, and `AssessmentWitnesses.ALeakedPickIsReachable` gives a run. The invariant is
  therefore that the presented set includes all held prompts.
- Short answers and replacement results share one key space. If a replacement result is recorded under
  the key of an answer that is claimed but not finalized, that answer can never be finalized, because the
  two were requested with different digests (the service digests objects with different members, so they
  coincide only if the hash collides). Finalizing is possible exactly as long as no such record exists
  (`AssessmentStoredViews.CanStillBeFinalizedExactly`; a run: `AssessmentWitnesses.ABlockedAnswerIsReachable`),
  and a key that is finalized always returns the submitted view.
- The validator's message for a maintenance entry without a body change cannot occur: the check is
  reached only when the body changed (`AdrTransitions.IdleMaintenanceIsClean`). The model follows the code.
- `lease` may not overlap itself: granting overwrites the active lease, and the overwritten execution
  is in no place at all and its caller is never told. Executions are lost exactly in the histories in which
  a grant finds an active lease (`IngestionBrokerRuns.InOnePlaceExactlyWithoutOverlap`). A closed broker gets an
  active lease again exactly if a `lease` was still inspecting its input
  (`IngestionBrokerRuns.InspectionOutlivesClose`).
- The range of a readiness score depends on objective weights that sum to 1.00000.
  `evaluateExamReadiness` itself does not check the sum; the tables its production profile is read from
  (`packages/db/src/index.ts:796`) do, by deferred triggers
  (`packages/db/migrations/20260727000200_add_exam_readiness_profile.sql:41-104`).
- A profile refused for its coverage is shown a coverage of 0.80000 exactly if its exact coverage lies in
  the last half unit below that (`ExamReadiness.ARefusedProfileShownAsCovered` is one).
- `localeCompare` may hold two distinct keys for equal. On JSON in general `canonicalJson` is then not
  canonical: two orders of the same object can print differently, never the reverse. A received envelope
  cannot have such keys, because its keys are checked against a fixed list
  (`MessageRedrive.ReceivedEnvelopeIsSentExactlyWhenUnchanged`).
- The delivery loop of an operation is bounded only by the attempts that the service reports
  (`RetryEngines.WithoutCountingThereIsNoBound`); those of the in-memory repository always grow.
- The sign-in limiter forgets an entry when a later admission is at least a window ahead of it. Under a clock
  that falls back it admits, beyond what the full history admits, exactly the requests that slip through: those
  that meet a full side, with enough forgotten on both sides to make room (`AuthAbuseLimiter.PrunedDecidesAsFull`).
  A limit is exceeded in some window exactly if some slip falls into a window that is already full
  (`AuthAbuseLimiter.RunStaysWithinLimitsExactly`). `ClockSetBackAdmitsTooMany` is such a run, and
  `ASlipMayExceedNothing` is one whose slip exceeds nothing. A backward step as such loses nothing.

## Assumptions

- Hashes, `stableUuid` and identifiers derived from operations are functions without collisions where a
  theorem says so, and arbitrary functions elsewhere. Answers of collaborators (repository, publisher,
  scanner, worker, model, clock) are inputs.
- One polling bridge: `lease` calls do not overlap, and random lease identifiers do not repeat. This is
  `IngestionBrokerRuns.Disciplined`; the results about overlap and those of `IngestionTold` do not assume it.
- Callbacks passed to the progress controller do not call back into it synchronously.
- The collation behind `localeCompare` is total and transitive; where the redrive is concerned, it keeps the
  fifteen key names of an envelope and its payload apart.
- Where a time bound is stated, each run keeps its deadline.
- One clock reading per repository call.

## Model

| member | source | states |
|---|---|---|
| `AssessmentRepository.InMemoryAssessmentRepository.constructor` | packages/assessment/src/testing.ts:39-50 | a new repository holds nothing |
| `AssessmentRepository.InMemoryAssessmentRepository.SeedAuthorizedSession` | packages/assessment/src/testing.ts:52-66 | sets the session and changes nothing else |
| `AssessmentRepository.InMemoryAssessmentRepository.BindPolicyInPlace` | packages/assessment/src/testing.ts:292-299 | binds a policy version to its first text; a different text under the version is refused and changes nothing |
| `AssessmentRepository.InMemoryAssessmentRepository.NextClaimToken` | packages/assessment/src/testing.ts:301-304 | every token is one larger than any before it |
| `AssessmentRepository.InMemoryAssessmentRepository.ClaimShortAnswer` | packages/assessment/src/testing.ts:68-95 | a claim is exactly the specified transition, failures included: policy conflict, digest conflict, replay, pending lease, re-grant after expiry, first claim; which answer each claim of a run gets is `AssessmentAnswers.ClaimsAreAnsweredAsTold` |
| `AssessmentRepository.InMemoryAssessmentRepository.ClaimUnseen` | packages/assessment/src/testing.ts:97-147 | the first claim of a key: authorization, unseen question, one fallback per rubric, new operation |
| `AssessmentRepository.InMemoryAssessmentRepository.ReserveFallbacks` | packages/assessment/src/testing.ts:109-133 | reserves one candidate per rubric; a session that already had a stored set sees each pick at once, also when a later rubric fails |
| `AssessmentRepository.InMemoryAssessmentRepository.PutOnce` | packages/assessment/src/testing.ts:306-323 | write-once storage of a finalization and its view; what a failed call leaves behind is only the policy binding |
| `AssessmentRepository.InMemoryAssessmentRepository.Finalize` | packages/assessment/src/testing.ts:150-189 | a finalization is exactly the specified transition: token and digest check, write-once view, bundle kept or reservations given back |
| `AssessmentRepository.InMemoryAssessmentRepository.FinalizeKeyedReplacement` | packages/assessment/src/testing.ts:191-213 | a replacement result is stored write-once under its own key and touches no operation |
| `AssessmentRepository.InMemoryAssessmentRepository.ReleaseShortAnswerClaim` | packages/assessment/src/testing.ts:241-261 | only the holder of the current token, for its own session and before finalization, gives a claim back |
| `AssessmentRepository.FallbackIsLeastSuitingId` | packages/assessment/src/testing.ts:114-125 | the fallback for a rubric is the suiting unseen candidate with the least id, whatever the listing order; none exactly when none suits |
| `AssessmentProtocol.PickReservesUnseen` | packages/assessment/src/testing.ts:114-131 | picks are as many as rubrics, each suits its rubric, all their prompts are distinct and were unseen, and exactly they are added to the presented set |
| `AssessmentProtocol.FirstPickAdds` | packages/assessment/src/testing.ts:114-131 | a first pick marks a prompt that had not been presented, whatever becomes of the later ones |
| `AssessmentProtocol.ReservationsStayDisjoint` | packages/assessment/src/testing.ts:109-187 | in every reachable state the prompts held by the operations of a session are pairwise disjoint and all in its presented set |
| `AssessmentProtocol.SnapshotsStayMatched` | packages/assessment/src/testing.ts:114-134 | in every reachable state each frozen snapshot pairs its rubrics, in order, with candidates that answer them |
| `AssessmentProtocol.HistoryExplains` | packages/assessment/src/testing.ts:68-261 | the grants and finalizations so far determine which operations are finalized, with which view, and which token each holds |
| `AssessmentProtocol.FinalizedAtMostOnce` | packages/assessment/src/testing.ts:68-189 | over every interleaving a key is finalized at most once, only under the token of its latest grant, and any later call under it fails or returns the stored view |
| `AssessmentProtocol.ClaimAfterFinalizationReplays` | packages/assessment/src/testing.ts:72-84 | after a finalization a claim with the same digest returns that very view; the two other outcomes are characterised exactly |
| `AssessmentStoredViews.RecordsAlwaysAgree` | packages/assessment/src/testing.ts:306-323 | in every reachable state a stored short answer belongs to a finalized operation and is seen as submitted, and a stored replacement result is seen as one |
| `AssessmentStoredViews.StoredViewIsTheSubmittedOne` | packages/assessment/src/testing.ts:306-323 | the view a key is finalized with is the one its finalizer submitted if and only if no replacement result was recorded under the key before |
| `AssessmentStoredViews.HolderIsRefusedExactly` | packages/assessment/src/testing.ts:150-189 | the finalization of a current holder is refused if and only if its policy conflicts with the bound one or something is stored under its key that was requested with another digest |
| `AssessmentStoredViews.BlockedForever` | packages/assessment/src/testing.ts:306-323 | an unfinalized answer whose key is taken by a record with another digest stays unfinalized in every continuation of the run |
| `AssessmentStoredViews.CanStillBeFinalizedExactly` | packages/assessment/src/testing.ts:68-189 | an unfinalized answer is finalized by some continuation of the run if and only if its key is not so taken |
| `AssessmentStoredViews.RecordedReplacementBlocks` | packages/assessment/src/service.ts:615-653 | with claims and replacement answers digested apart, any record under an unfinalized key blocks that answer |
| `AssessmentStoredViews.ApartDigestsStoreSubmittedViews` | packages/assessment/src/service.ts:615-653 | ... and every finalized key returns the view its finalizer submitted, without exception |
| `AssessmentWitnesses.ABlockedAnswerIsReachable` | packages/assessment/src/testing.ts:150-213 | five calls, their digests apart, after which a held claim can never be finalized |
| `AssessmentWitnesses.ALeakedPickIsReachable` | packages/assessment/src/testing.ts:97-147 | three calls after which a prompt counts as presented that no operation holds, because its claim was refused after a first pick |
| `AssessmentProtocol.GradedFinalizationFreesOnlyItsOwn` | packages/assessment/src/testing.ts:180-187 | a graded finalization removes exactly its own reservations from the presented set and no prompt another operation holds |
| `AssessmentProtocol.NoPromptRepeats` | packages/assessment/src/testing.ts:109-147 | no prompt is the question of two operations of a session, nor a kept fallback of another one |
| `AssessmentProtocol.FailedClaimLeaksPicks` | packages/assessment/src/testing.ts:114-133 | a claim refused for a missing fallback leaves the presented set as it was if and only if the session had no stored set or the first rubric already found none |
| `AssessmentAnswers.EveryRunIsTold` | packages/assessment/src/testing.ts:39-323 | in every run the leases, stored views, presented prompts, bundles, sessions and policy bindings are what the earlier calls and their answers say they are |
| `AssessmentAnswers.PendingExactlyWhileLeased` | packages/assessment/src/testing.ts:85-94 | until a granted lease is superseded, finalized or given back, a claim with its digest is told to wait if and only if it asks before the lease runs out, and is otherwise handed the same work under the next token |
| `AssessmentAnswers.ClaimsAreAnsweredAsTold` | packages/assessment/src/testing.ts:68-148 | every claim in every run is answered as the calls before it call for: policy, digest, stored view, lease, or else session, question, unseen prompt and fallbacks |
| `AssessmentAnswers.FinalizationsAreAnsweredAsTold` | packages/assessment/src/testing.ts:150-189 | so is every finalization: for oneself, under the lease one holds, under an unconflicting policy, with the stored view of an earlier result of equal digest in place of the new one |
| `AssessmentAnswers.ReplacementsAreAnsweredAsTold` | packages/assessment/src/testing.ts:191-213 | so is every replacement result: for oneself and against a kept bundle, whose original attempt it names |
| `AssessmentAnswers.SubmittedViewShowsAllButKeys` | packages/assessment/src/testing.ts:163-176 | the view of a submission is everything in it except the keyed answers |
| `ShortAnswerGrading.AcquireShortAnswerClaim` | packages/assessment/src/service.ts:628-640 | returns the first reply that is not pending, asked for before the deadline; otherwise gives up after it, in bounded time |
| `ShortAnswerGrading.Pigeonhole` | packages/assessment/src/service.ts:408-443 | as many distinct elements taken from a list as it is long are the whole list, reordered |
| `ShortAnswerGrading.BundlePairsRubricsWithCandidates` | packages/assessment/src/service.ts:403-443 | the bundle of a valid snapshot is a bijection: each rubric gets a candidate of its concept and every candidate is used once |
| `ShortAnswerGrading.BundleExistsIffConceptsDistinct` | packages/assessment/src/service.ts:403-443 | a valid snapshot has a bundle if and only if no two of its candidates answer the same concept |
| `ShortAnswerGrading.AllConfidentIffAllEligible` | packages/assessment/src/service.ts:336-401 | judgments normalise to all-eligible evidence if and only if there is exactly one scored judgment at or above the threshold per rubric concept |
| `ShortAnswerGrading.FinalizationIsAllOrNothing` | packages/assessment/src/service.ts:78-180 | graded: one eligible rated item per rubric and no fallback; abstained: nothing eligible or rated and a fallback that uses every reserved candidate once; which band, confidence, score and rating each item has is `ShortAnswerVerdicts.DecidedExactlyAsJudged` |
| `ShortAnswerGrading.GradedExactlyWhenAllConfident` | packages/assessment/src/service.ts:135-180 | the attempt is graded if and only if the model answered under the frozen provenance and every concept is judged with confidence |
| `ShortAnswerGrading.ReservedCandidatesAlwaysSuffice` | packages/assessment/src/service.ts:78-82 | on a snapshot frozen by the repository the bundle always exists and is the reserved candidates in rubric order |
| `ShortAnswerGrading.StoredOutcomeDecidesReservations` | packages/assessment/src/testing.ts:177-187 | after a stored abstention each bundle prompt is kept for that operation alone; after a stored grade the reservations are given back |
| `ShortAnswerVerdicts.ValidExactlyWhenUsable` | packages/assessment/src/service.ts:459-511 | the checks of a snapshot, counting included, accept it if and only if each concept has one rubric with criteria and sources and as many sourced candidates of distinct prompts each answer one of them |
| `ShortAnswerVerdicts.JudgmentsNormalizeExactly` | packages/assessment/src/service.ts:336-401 | judgments are accepted if and only if there is exactly one for each rubric, with every confidence a unit fraction |
| `ShortAnswerVerdicts.DecidedExactlyAsJudged` | packages/assessment/src/service.ts:78-180 | what a worker does with every answer of the model: refuse, release, or submit evidence in which each item has the band and confidence of the one judgment of its concept, the score 1.00000, 0.50000 or 0.00000 of that band, and, if all are confident, the rating 3 exactly for a correct answer and 1 otherwise; in an abstention no rating and the reason that its own judgment calls for |
| `AdaptiveSelection.SelectAdaptiveQuestions` | packages/assessment/src/service.ts:260-334 | the selection is well chosen over the concept states that were given in: selectable questions, one for each prompt, as many as the limit allows, and neither a later one, nor one of the same prompt, nor one whose prompt is not asked is to be asked before; and each error is returned exactly for its cause in the input |
| `AdaptiveSelection.TakeBest` | packages/assessment/src/service.ts:323-333 | the accumulating loop takes the first question of each unseen prompt up to the limit |
| `AdaptiveSelection.AheadIsTotalPreorder` | packages/assessment/src/service.ts:314-321 | the five-level comparison is total and transitive, absent due times included |
| `AdaptiveSelection.GreedyIsBest` | packages/assessment/src/service.ts:323-333 | over a ranked list the chosen questions are best for their prompts, in rank order, and no omitted prompt ranks ahead of a chosen one |
| `AdaptiveSelection.GreedyCount` | packages/assessment/src/service.ts:323-333 | exactly the least of the limit and the number of distinct unseen prompts are chosen |
| `AdaptiveSelection.SelectionIsBest` | packages/assessment/src/service.ts:260-334 | the two results above for the function as called; what ranking ahead means for the input is `AdaptiveSelection.ChosenIsWellSelected` |
| `AdaptiveSelection.ChosenIsWellSelected` | packages/assessment/src/service.ts:297-334 | between any two of the chosen, the omitted of unasked prompts and those of one prompt: a due question before one that is not, then the strictly weaker weakest concept, then the strictly sooner due time, then the strictly nearer difficulty (1 below 0.40000, 3 below 0.70000, else 5), then the smaller id; all over minima of the tracked concepts given in |
| `AdaptiveSelection.RefusedExactly` | packages/assessment/src/service.ts:260-286 | the input is refused if and only if the limit or the clock says nothing, some concept state cannot be read, or a concept is stated twice; the first unreadable state names the error |
| `TextOrder.TextLeqIsByFirstDifference` | packages/assessment/src/service.ts:606-613 | identifiers are compared at the first character in which they differ, a proper beginning first |
| `AdaptiveSelection.SelectionIgnoresInputOrder` | packages/assessment/src/service.ts:287-334 | with distinct question ids a reordered question list gives the same selection |
| `AdrLifecycle.ValidateAdrSchema` | scripts/validate_adrs.py:1049-1093 | the status and link diagnostics of one record are exactly the faults it has |
| `AdrLifecycle.CheckLinks` | scripts/validate_adrs.py:1106-1128 | the link diagnostics of one record are exactly the missing targets, missing back links and wrong statuses |
| `AdrLifecycle.Walk.constructor` | scripts/validate_adrs.py:1130-1131 | the search starts with nothing visited and no cycle found |
| `AdrLifecycle.Walk.Visit` | scripts/validate_adrs.py:1133-1144 | terminates, keeps the search sensible (what is reported lies on a cycle, finished targets come first) and finishes the record unless a cycle was found |
| `AdrLifecycle.Walk.VisitTargets` | scripts/validate_adrs.py:1139-1142 | visits every existing target, under the same invariant |
| `AdrLifecycle.FinishedMeansAcyclic` | scripts/validate_adrs.py:1133-1144 | a finishing order with targets first leaves no room for a cycle |
| `AdrLifecycle.ValidateLifecycle` | scripts/validate_adrs.py:1104-1147 | a cycle is reported if and only if the graph restricted to existing records has one, only at members of cycles, and the link diagnostics are exactly the link faults |
| `AdrSuccession.CheckCollection` | scripts/validate_adrs.py:1504-1521 | no diagnostic if and only if the collection is clean; every diagnostic is true of it |
| `AdrSuccession.CleanMeansForest` | scripts/validate_adrs.py:1104-1147 | a clean collection has agreeing links in both directions, a successor exactly for superseded records, and no cycle |
| `AdrSuccession.EveryRecordHasAHead` | scripts/validate_adrs.py:1088-1147 | following successors from any record of n ends in fewer than n steps at a head that is not superseded |
| `AdrSuccession.HeadIsUnique` | scripts/validate_adrs.py:1104-1147 | every climb along successors ends at the same head, so the heads partition the collection |
| `AdrSuccession.SupersededByOne` | scripts/validate_adrs.py:1109-1117 | no record is superseded by two |
| `AdrTransitions.ValidateMaintenanceDelta` | scripts/validate_adrs.py:1197-1263 | each diagnostic exactly when it is due, and none if and only if the entry declares exactly the changed sections and its kind covers the change |
| `AdrTransitions.ValidateKind` | scripts/validate_adrs.py:1221-1263 | the entry kind covers the change exactly when formatting and navigation comparisons hold for every changed section, or the typo delta stays within its bound |
| `AdrTransitions.ValidateTransition` | scripts/validate_adrs.py:1306-1365 | each diagnostic is given exactly when it is due, and none if and only if the transition is clean; the complaint about an idle entry is never among them |
| `AdrTransitions.ValidateBody` | scripts/validate_adrs.py:1351-1365 | a changed body passes only with a marked correction, and an unchanged body always passes |
| `AdrChanges.CleanExactlyWhenAllowed` | scripts/validate_adrs.py:1163-1365 | a transition passes if and only if only what may change did: the status forward, the provenance by one recorded transfer of a staged mandate, the maintenance list by one entry, and the text by an entry that declares exactly the changed sections and whose kind fits (for typos two characters in a hundred, at least 4 and at most 120) |
| `AdrChanges.EachChangeIsToldWithItsOwn` | scripts/validate_adrs.py:1306-1365 | a record changed in one respect is told exactly the diagnostic of that respect |
| `AdrChanges.EachCorrectionIsToldWithItsOwn` | scripts/validate_adrs.py:1197-1263 | an appended entry is told exactly what is wrong with its declaration or its kind |
| `AdrChanges.CleanExactly` | scripts/validate_adrs.py:1063-1147 | a collection is clean if and only if its links agree in both directions, it has no cycle, every status is known and no link is repeated |
| `AdrChanges.EachBreakIsToldWithItsOwn` | scripts/validate_adrs.py:1063-1147 | a clean collection in which one link, status or record is broken is told exactly what was broken, on each side that can tell |
| `AdrTransitions.HistoryKeeps` | scripts/validate_adrs.py:1306-1365 | over any history of clean transitions: no way back from Deprecated or Superseded, fixed identity and links, maintenance only extended, body changes bounded by appended entries, at most one provenance change and that staged to transferred |
| `AdrTransitions.IdleMaintenanceIsClean` | scripts/validate_adrs.py:1212-1214 | an appended entry without a body change passes: the check that would object is only reached when the body changed |
| `AdrTransitions.MergeAdvancesHeads` | scripts/validate_adrs.py:2092-2098 | a clean merge keeps every record, and the new head of a record is the new head of its old head |
| `AdrTransitions.HeadsOnlyMoveForward` | scripts/validate_adrs.py:2092-2098 | the same over any run of clean merges |
| `ActivationProgress.Controller.constructor` | apps/web/src/activation-progress.ts:168-178 | starts with the reconnect timer alone pending |
| `ActivationProgress.Controller.SetConnection` | apps/web/src/activation-progress.ts:180-184 | reports a connection state only when it changes |
| `ActivationProgress.Controller.CloseSource` | apps/web/src/activation-progress.ts:207-213 | drops the source and its timeout and starts a new generation |
| `ActivationProgress.Controller.StopController` | apps/web/src/activation-progress.ts:215-222 | refines stopping, and keeps at most one thing pending |
| `ActivationProgress.Controller.AcceptMessage` | apps/web/src/activation-progress.ts:224-261 | refines the phase machine; messages of older generations, or after the end, change nothing |
| `ActivationProgress.Controller.Reschedule` | apps/web/src/activation-progress.ts:263-281 | schedules a poll exactly when nothing else is pending, the controller is not live or ended, and polls are left; that polling goes on to the limit is `ActivationVisible.OfflineSendsEveryPoll` |
| `ActivationProgress.Controller.GoOffline` | apps/web/src/activation-progress.ts:283-288 | refines going offline |
| `ActivationProgress.Controller.RetryConnection` | apps/web/src/activation-progress.ts:290-307 | refines a retry for the current generation and ignores any other |
| `ActivationProgress.Controller.FireReconnect` | apps/web/src/activation-progress.ts:309-344 | refines connecting, hidden page and failing source included |
| `ActivationProgress.Controller.FireConnectionTimeout` | apps/web/src/activation-progress.ts:327-330 | refines the connection timeout |
| `ActivationProgress.Controller.HandleOpen` | apps/web/src/activation-progress.ts:333-339 | refines the open event |
| `ActivationProgress.Controller.HandleFailure` | apps/web/src/activation-progress.ts:340-343 | refines the error and reconnect events |
| `ActivationProgress.Controller.FireFallback` | apps/web/src/activation-progress.ts:266-274 | refines the fallback timer |
| `ActivationProgress.Controller.SettlePoll` | apps/web/src/activation-progress.ts:275-279 | refines the end of a poll |
| `ActivationProgress.EveryRunFits` | apps/web/src/activation-progress.ts:207-344 | in every run what the outside sees follows one grammar and agrees with the phase, so streaming and polling exclude each other |
| `ActivationProgress.PollingAndTerminalAreFinal` | apps/web/src/activation-progress.ts:246-281 | after the offline notice or a poll only polls follow; after a terminal event only the closing of its source |
| `ActivationProgress.DeliveredOnlyFromOpenSource` | apps/web/src/activation-progress.ts:224-233 | every delivered event comes from the source open at that moment, never from an earlier generation |
| `ActivationProgress.ReconnectsAndPollsAreBounded` | apps/web/src/activation-progress.ts:263-307 | at most one source more than the reconnect limit is opened and at most the poll limit is polled |
| `ActivationProgress.StoppedIsSilent` | apps/web/src/activation-progress.ts:215-222 | once stopped, nothing that still arrives is visible |
| `ActivationVisible.EveryRunIsTold` | apps/web/src/activation-progress.ts:165-354 | in every run the state of the controller is what the inputs and the visible outputs so far say it is |
| `ActivationVisible.EachInputIsVisibleAsTold` | apps/web/src/activation-progress.ts:165-354 | each input makes visible exactly what the inputs and outputs before it call for: what is shown, opened, delivered, closed and polled |
| `ActivationVisible.ConclusiveIsTerminal` | apps/web/src/activation-progress.ts:233-258 | an event ends the controller if and only if no status that it reports on is still under way |
| `ActivationVisible.QuietOnlyWhenDone` | apps/web/src/activation-progress.ts:263-281 | the controller is quiet only when it has ended, or is offline with its polls spent |
| `ActivationVisible.OfflineSendsEveryPoll` | apps/web/src/activation-progress.ts:263-330 | from an idle offline controller n visible fallback firings, each poll answering that there is more to come, bring the polls sent to the limit or by n |
| `IngestionBroker.LocalIngestionBridgeBroker.constructor` | apps/api/src/local-ingestion-bridge.ts:105-150 | a new broker holds nothing |
| `IngestionBroker.LocalIngestionBridgeBroker.EnqueueExecution` | apps/api/src/local-ingestion-bridge.ts:161-194 | an execution is accepted at the end of the queue or refused with the reason; nothing else changes |
| `IngestionBroker.LocalIngestionBridgeBroker.ReceiveHeartbeat` | apps/api/src/local-ingestion-bridge.ts:196-216 | a valid heartbeat to an open broker renews its time; otherwise it throws and changes nothing |
| `IngestionBroker.LocalIngestionBridgeBroker.ShiftForLease` | apps/api/src/local-ingestion-bridge.ts:218-232 | refines the first half of `lease`: the head of the queue leaves it, if nothing is active |
| `IngestionBroker.LocalIngestionBridgeBroker.GrantLease` | apps/api/src/local-ingestion-bridge.ts:233-284 | refines the second half of `lease`: rejected with the reason, or granted and active |
| `IngestionBroker.LocalIngestionBridgeBroker.OpenOutput` | apps/api/src/local-ingestion-bridge.ts:299-318 | refines the checks before an output is received |
| `IngestionBroker.LocalIngestionBridgeBroker.StageOutput` | apps/api/src/local-ingestion-bridge.ts:319-353 | the chunk loop stages exactly an output of the declared length and hash, and otherwise nothing |
| `IngestionBroker.LocalIngestionBridgeBroker.CompleteLease` | apps/api/src/local-ingestion-bridge.ts:355-376 | refines `complete` up to its first await; what the caller is then told is `IngestionCauses.RejectedExactlyForItsCause` |
| `IngestionBroker.LocalIngestionBridgeBroker.SettleExecution` | apps/api/src/local-ingestion-bridge.ts:368-387 | the rest of a completion, an expiry or a close tells the caller once |
| `IngestionBroker.LocalIngestionBridgeBroker.LeaseTimerFires` | apps/api/src/local-ingestion-bridge.ts:423-434 | refines the expiry of the active lease |
| `IngestionBroker.LocalIngestionBridgeBroker.AdmissionTimerFires` | apps/api/src/local-ingestion-bridge.ts:436-447 | refines the expiry of a waiting execution |
| `IngestionBroker.LocalIngestionBridgeBroker.CloseBroker` | apps/api/src/local-ingestion-bridge.ts:389-410 | rejects everything that waits, takes the active execution out, and accepts nothing more |
| `IngestionBrokerRuns.InvariantAfterStep` | apps/api/src/local-ingestion-bridge.ts:161-447 | one step of any kind keeps the invariant of the broker |
| `IngestionBrokerRuns.EveryRunKeepsTheInvariant` | apps/api/src/local-ingestion-bridge.ts:161-447 | so does every run with one polling bridge |
| `IngestionBrokerRuns.EachExecutionIsInExactlyOnePlace` | apps/api/src/local-ingestion-bridge.ts:161-447 | every accepted execution is in exactly one of queue, inspection, active, completing and settled, and no other number is in any |
| `IngestionBrokerRuns.SettlesAtMostOnce` | apps/api/src/local-ingestion-bridge.ts:161-447 | what a settled execution was told is never replaced in any later state |
| `IngestionBrokerRuns.LeasedInOrderOfAcceptance` | apps/api/src/local-ingestion-bridge.ts:218-232 | executions are taken for a lease in the order in which they were accepted |
| `IngestionBrokerRuns.AnOvertakenExecutionIsSettled` | apps/api/src/local-ingestion-bridge.ts:218-232 | an execution overtaken by a later one had already been settled |
| `IngestionBrokerRuns.ResolvesOnlyWithItsOwnOutput` | apps/api/src/local-ingestion-bridge.ts:299-387 | a caller is resolved only with output staged under a lease granted for its own execution, of the declared length and hash |
| `IngestionTold.EveryRunIsTold` | apps/api/src/local-ingestion-bridge.ts:152-447 | in every run, whoever calls what and when, the queue, the leases, the staged output, the endings and the outcomes are what the earlier calls and replies say they are |
| `IngestionTold.EachCallIsRepliedAsTold` | apps/api/src/local-ingestion-bridge.ts:152-447 | each call is replied exactly as the calls and replies before it call for |
| `IngestionCauses.RejectedExactlyForItsCause` | apps/api/src/local-ingestion-bridge.ts:286-447 | over every run with one polling bridge a caller is told a reason if and only if its cause occurred: a reported code exactly for a failure completion taken in under the lease of its own execution and then settled, and likewise for an expired lease, an expired wait, an unreadable or missing output, an unreadable input, and a close |
| `IngestionCauses.ReportedIsTheBridgesVerdict` | apps/ingestion-bridge/src/bridge.ts:108-190 | bridge and broker together: a caller is told a reported code only if that is the code with which the bridge completed the processing of the lease granted for that caller |
| `IngestionBrokerRuns.GrantKeepsPlacesExactlyWhenIdle` | apps/api/src/local-ingestion-bridge.ts:223-282 | finishing an inspection keeps every execution in one place if and only if the input cannot be leased or no lease is active |
| `IngestionBrokerRuns.InOnePlaceExactlyWithoutOverlap` | apps/api/src/local-ingestion-bridge.ts:161-447 | over every history, whoever calls what and when, each accepted execution is in exactly one place, and none is lost, if and only if every grant found no active lease |
| `IngestionBrokerRuns.LostForGood` | apps/api/src/local-ingestion-bridge.ts:161-447 | an execution in no place stays in none, so its caller is never told anything |
| `IngestionBrokerRuns.OverlappingLeasesLoseAnExecution` | apps/api/src/local-ingestion-bridge.ts:218-284 | two overlapping `lease` calls leave an accepted execution in no place at all, and no continuation settles it |
| `IngestionBrokerRuns.InspectionOutlivesClose` | apps/api/src/local-ingestion-bridge.ts:218-284 | from a closed broker without an active lease a later state has one again if and only if a `lease` was still inspecting its input |
| `IngestionBrokerRuns.AClosedBrokerWithAnActiveLeaseIsReachable` | apps/api/src/local-ingestion-bridge.ts:233-284 | five calls reach a closed broker with an active lease |
| `IngestionBrokerRuns.AcceptedExactlyWithinTheLastHeartbeat` | apps/api/src/local-ingestion-bridge.ts:152-194 | in every run a valid request is accepted, and waits last, if and only if the broker was never closed and the last valid heartbeat is within its lifetime; otherwise nothing changes |
| `BridgeWorker.SuccessExactlyWhenEverythingHeld` | apps/ingestion-bridge/src/bridge.ts:108-177 | success is answered if and only if every gate held: bytes of the leased length and hash, verified snapshot, clean scan, valid document, accepted output, cleanup, and a lease current all three times |
| `BridgeWorker.StagingPassesExactlyOnTheLeasedBytes` | apps/ingestion-bridge/src/bridge.ts:197-250 | the input passes if and only if the received bytes have the leased length, within the limit, and the leased hash |
| `BridgeWorker.LocalIngestionBridge.constructor` | apps/ingestion-bridge/src/bridge.ts:63-69 | nothing has been sent yet |
| `BridgeWorker.LocalIngestionBridge.StageLeaseInput` | apps/ingestion-bridge/src/bridge.ts:197-250 | the chunk loop finds exactly the specified fault or none |
| `BridgeWorker.LocalIngestionBridge.Produce` | apps/ingestion-bridge/src/bridge.ts:116-156 | the first gate that fails names the fault; output metadata is handed over at most once, only past every earlier gate |
| `BridgeWorker.LocalIngestionBridge.Process` | apps/ingestion-bridge/src/bridge.ts:108-190 | exactly one completion is attempted for a processed lease, with cleanup once if a workspace exists |
| `BridgeWorker.LocalIngestionBridge.RunOnce` | apps/ingestion-bridge/src/bridge.ts:71-90 | a lease is answered only for the announced image and while current; availability is announced once |
| `BridgeWorker.LocalIngestionBridge.Run` | apps/ingestion-bridge/src/bridge.ts:92-106 | over any run the completions and the outputs put are those of the processed leases in order, and availability and failure notices alternate |
| `BridgeWorker.AcceptedOutputReachesTheCaller` | apps/api/src/local-ingestion-bridge.ts:299-387 | an uninterrupted put, complete and settle: the broker accepts exactly what the bridge measured, and success then resolves the caller with it |
| `BridgeOutcomes.CompletionNamesTheFirstUnmet` | apps/ingestion-bridge/src/bridge.ts:108-190 | of the eighteen demands of a lease the first that is not met names the code of the completion, except that a failed cleanup of an existing workspace comes before it; success if all are met |
| `BridgeOutcomes.PutExactlyWhenProduced` | apps/ingestion-bridge/src/bridge.ts:143-152 | output is put if and only if every demand before it was met, and is then the bytes produced, measured and hashed under their lease |
| `BridgeOutcomes.EachPollEndsAsTold` | apps/ingestion-bridge/src/bridge.ts:71-90 | a poll is idle exactly if it was offered no lease, and answers exactly a lease for the announced image that is current within five minutes of skew |
| `IngestionEndToEnd.EveryDrivenRunIsVouched` | apps/api/src/local-ingestion-bridge.ts:299-387 | in every run driven by the bridge, whatever the broker stages the bridge has put, and whatever it resolves the bridge has completed with success |
| `IngestionEndToEnd.ResolvedOnlyIfEverythingHeld` | apps/ingestion-bridge/src/bridge.ts:71-190 | bridge and broker over every run: a caller is resolved only under a lease granted for its execution in whose one processing every gate held, on bytes of the length inspected for that grant and of the hash this caller named, and gets the output of that processing, by length and hash |
| `IngestionEndToEnd.ADrivenRunResolvesItsCaller` | apps/api/src/local-ingestion-bridge.ts:161-387 | such a run of eight calls that resolves its caller |
| `FixedPoint.RoundsToNearest` | packages/accounts/src/readiness.ts:296-305 | the quotient is within half a unit of the fraction, ties up |
| `FixedPoint.RoundingIsMonotone` | packages/accounts/src/readiness.ts:296-305 | a larger numerator never rounds to less |
| `FixedPoint.FormattedReadsBack` | packages/accounts/src/readiness.ts:283-294 | below 2.00000 a printed number is accepted and reads back unchanged |
| `FixedPoint.AcceptedTextPrintsBack` | packages/accounts/src/readiness.ts:283-294 | accepted text prints back as written |
| `ExamReadiness.ScoreLiesBetweenMasteries` | packages/accounts/src/readiness.ts:179-193 | with objective weights that sum to 1.00000 the score lies between the least and the greatest mastery that counts |
| `ExamReadiness.ScoreOfFullMasteryIsTheWeightSum` | packages/accounts/src/readiness.ts:179-193 | with full masteries the score is the sum of the weights, so the range property needs exactly the sum that the tables enforce and the function does not check |
| `ExamReadiness.RaisingMasteriesNeverLowersTheScore` | packages/accounts/src/readiness.ts:179-193 | raising masteries never lowers the score |
| `ExamReadiness.ScoreIsWithinOneUnitOfTheExactAverage` | packages/accounts/src/readiness.ts:179-193 | both roundings together cost at most 0.00001 against the exact rational average |
| `ExamReadiness.ScoreIsDisclosedExactlyOnSufficientEvidence` | packages/accounts/src/readiness.ts:142-158 | a score is disclosed if and only if every objective is mapped and evidenced and the exact coverage is at least 0.80000; the only error past the gate is a malformed mastery |
| `ExamReadiness.DisclosedScoreIsFaithful` | packages/accounts/src/readiness.ts:179-214 | the printed score reads back in range and within one unit of the exact average, without ever dividing by zero |
| `ExamReadiness.RefusedCoverageReadsAsSufficientExactlyInTheLastHalfUnit` | packages/accounts/src/readiness.ts:129-157 | a profile is refused for its coverage and yet shown one of 0.80000 or more if and only if it can be read, gets as far as the gate, and its exact coverage lies in the last half unit below the minimum |
| `ExamReadiness.ARefusedProfileShownAsCovered` | packages/accounts/src/readiness.ts:129-157 | two objectives of equal weight, evidenced to 0.80000 and 0.79999, whose only reason for refusal is a coverage printed as 0.80000 |
| `FixedPoint.ReadsWhatIsWritten` | packages/accounts/src/readiness.ts:283-289 | exactly one 0 or 1, a point and five digits are read, each digit at its place value |
| `FixedPoint.PrintsEveryDigit` | packages/accounts/src/readiness.ts:291-294 | a number of any size is printed digit by digit, with a point before the last five |
| `ReadinessOutcomes.FailsExactlyForItsCause` | packages/accounts/src/readiness.ts:93-100 | the evaluation fails with each label if and only if that number is the first that cannot be read; masteries only matter once the evidence suffices |
| `ReadinessOutcomes.RefusedExactlyForItsReasons` | packages/accounts/src/readiness.ts:46-178 | each reason is given if and only if it holds of the numbers written in the profile, in one order and none twice |
| `ReadinessOutcomes.DisclosedExactly` | packages/accounts/src/readiness.ts:142-215 | a score is disclosed if and only if every number can be read, the active mappings of each objective weigh 1.00000, some that count have weight, and these cover 0.80000 of the blueprint |
| `ReadinessOutcomes.ExperimentalUnlessCalibrated` | packages/accounts/src/readiness.ts:258-281 | it is called experimental unless the calibration is representative, rests on a hundred samples and errs by 0.10000 at most |
| `ReadinessOutcomes.CoverageIsShown` | packages/accounts/src/readiness.ts:129-136 | the printed coverage is the covered part of the blueprint to the nearest 0.00001 |
| `ReadinessOutcomes.ScoreIsShown` | packages/accounts/src/readiness.ts:179-193 | the printed score is the average of the objectives' scores, each the average of the masteries that count, with both averages to the nearest 0.00001, upward from the middle |
| `JsonText.EscapedCharIsUnambiguous` | apps/api/src/dlq-redrive.ts:425-428 | no escaped character is the beginning of another |
| `JsonText.TextIsUnambiguous` | apps/api/src/dlq-redrive.ts:418-429 | no text of a value continues the text of another, whatever follows |
| `JsonText.TextDeterminesTheValue` | apps/api/src/dlq-redrive.ts:418-429 | two values print alike if and only if they are equal, key order included |
| `CanonicalJson.CanonKeepsMeaning` | apps/api/src/dlq-redrive.ts:418-429 | sorting keys everywhere keeps the value |
| `CanonicalJson.SameTextMeansSameValue` | apps/api/src/dlq-redrive.ts:411-416 | envelopes that compare equal have the same value, whatever the collation does |
| `CanonicalJson.SameEnvelopeIsStructuralEquality` | apps/api/src/dlq-redrive.ts:411-429 | without tied keys the comparison is structural equality, in both directions |
| `CanonicalJson.SortIsStable` | apps/api/src/dlq-redrive.ts:423-425 | keys that the collation ties keep their listed order |
| `CanonicalJson.EqualValuesPrintAlikeExactlyWithoutTiedKeys` | apps/api/src/dlq-redrive.ts:411-429 | the comparison recognises every reordering of a JSON value if and only if no object in it has two keys that the collation ties |
| `CanonicalJson.SeparatedKeysAreNotTied` | apps/api/src/dlq-redrive.ts:418-429 | a collation that keeps the keys of a set apart ties no keys in any value built from them |
| `MessageRedrive.RedriveRecord` | apps/api/src/dlq-redrive.ts:186-307 | the verdict and the calls for one record are exactly those it deserves, on every exit |
| `MessageRedrive.Run` | apps/api/src/dlq-redrive.ts:159-320 | the report counts the records by verdict, the calls are those of each record, and the oldest age is the greatest clamped age |
| `MessageRedrive.ReportAddsUp` | apps/api/src/dlq-redrive.ts:309-320 | received = published + rejected + blocked; ambiguous and guarded records are blocked ones, invalid wrappers rejected ones |
| `MessageRedrive.AcknowledgedExactlyWhenDone` | apps/api/src/dlq-redrive.ts:186-307 | exactly the published and rejected records are acknowledged, once and last |
| `MessageRedrive.SendsOnlyTheInspectedAndClaimedEnvelope` | apps/api/src/dlq-redrive.ts:195-278 | an envelope leaves at most once and only with the same value as its inspected and its claimed form |
| `MessageRedrive.SendsEveryUnchangedClaimedEnvelope` | apps/api/src/dlq-redrive.ts:236-278 | with keys that the collation keeps apart, an unchanged claimed envelope is sent |
| `MessageRedrive.ReceivedEnvelopeIsSentExactlyWhenUnchanged` | packages/audio/src/envelope.ts:8-52 | the envelope of a valid wrapper has a fixed set of keys; with a collation that keeps these apart it is sent if and only if it is a first delivery, accepted, claimed, and has the same value as both the inspected and the claimed one |
| `RedriveOutcomes.TheFirstFailureDecidesTheCalls` | apps/api/src/dlq-redrive.ts:186-307 | of the twelve questions asked about a record the first that is answered with no decides every call made for it; with none it is sent, recorded and acknowledged |
| `RedriveOutcomes.ReportTellsTheFirstFailures` | apps/api/src/dlq-redrive.ts:160-320 | each counter of the report is the number of records whose first failure is among its own |
| `RedriveOutcomes.OldestAgeIsReported` | apps/api/src/dlq-redrive.ts:168-185 | the oldest age is that of a record, in whole seconds from none to a day, and no record is older; none is reported exactly if no record has one |
| `RedriveOutcomes.EachShapeIsSent` | packages/audio/src/envelope.ts:8-52 | envelopes of both shapes exist, with and without a cause, and a record of either is sent when nothing speaks against it |
| `OutboxRelay.Batch.constructor` | apps/api/src/outbox-relay.ts:71-76 | all deliveries start publishing and all counters at zero |
| `OutboxRelay.Batch.PublishReturned` | apps/api/src/outbox-relay.ts:78-93 | the counters keep agreeing with the deliveries when a publication returns or fails |
| `OutboxRelay.Batch.ReleaseReturned` | apps/api/src/outbox-relay.ts:94-102 | ... when a release returns |
| `OutboxRelay.Batch.MarkReturned` | apps/api/src/outbox-relay.ts:104-113 | ... when a mark returns |
| `OutboxRelay.Batch.Resume` | apps/api/src/outbox-relay.ts:75-115 | ... over every schedule of the deliveries, each of which advances with each of its turns |
| `OutboxRelay.Batch.CountersDependOnFatesOnly` | apps/api/src/outbox-relay.ts:116-122 | once all deliveries ended the counters depend on the answers alone, not on the interleaving |
| `OutboxRelay.ClaimedMessagesAreAccountedFor` | apps/api/src/outbox-relay.ts:71-122 | claimed = published + lost marks + failures, and the ambiguous ones are the lost marks and the doubtful failures |
| `OutboxRelay.TwoTurnsEndADelivery` | apps/api/src/outbox-relay.ts:76-114 | two turns end a delivery: published and marked, published and unmarked, or failed under its class and given back |
| `OutboxRelay.CountersTellTheAnswers` | apps/api/src/outbox-relay.ts:71-122 | once all deliveries have ended each counter is the number of messages that were answered in its way, whatever the interleaving |
| `AuthAbuseLimiter.FixedWindowAuthAbuseLimiter.constructor` | packages/accounts/src/service.ts:270-278 | nothing has been admitted |
| `AuthAbuseLimiter.FixedWindowAuthAbuseLimiter.Allow` | packages/accounts/src/service.ts:280-302 | decides on the pruned lists, and a refused request changes nothing |
| `AuthAbuseLimiter.ActiveTwice` | packages/accounts/src/service.ts:391-398 | pruning at an earlier threshold loses nothing at a later one |
| `AuthAbuseLimiter.KeptCountsAllButForgotten` | packages/accounts/src/service.ts:280-302 | the pruned count above any threshold is the full count less the entries forgotten above it, whatever the clock did |
| `AuthAbuseLimiter.CountsAgreeExactly` | packages/accounts/src/service.ts:280-302 | the two counts agree if and only if no entry above the threshold was followed by an admission at least a window later |
| `AuthAbuseLimiter.EveryRunKeeps` | packages/accounts/src/service.ts:280-302 | in every run, under any clock, the stored lists are exactly what pruning leaves of the admissions |
| `AuthAbuseLimiter.PrunedDecidesAsFull` | packages/accounts/src/service.ts:280-302 | under any clock the pruned maps admit what the full history admits and, beyond that, exactly the requests that slip through: a side is full, and on both sides enough was forgotten to make room |
| `AuthAbuseLimiter.NothingForgottenDecidesAlike` | packages/accounts/src/service.ts:280-302 | with nothing forgotten above the threshold on either side the decision is that of the full history |
| `AuthAbuseLimiter.NoMissWithoutGoingBack` | packages/accounts/src/service.ts:391-398 | only a reading before an already admitted one can miss an entry |
| `AuthAbuseLimiter.RunsAgreeExactlyWithoutSlips` | packages/accounts/src/service.ts:270-303 | after each request of a run both limiters have admitted the same if and only if no request of it slips through |
| `AuthAbuseLimiter.AdmittingStaysWithinLimits` | packages/accounts/src/service.ts:291-301 | an admission fits into every window it falls into |
| `AuthAbuseLimiter.RunStaysWithinLimitsExactly` | packages/accounts/src/service.ts:270-303 | whatever the clock does, the admissions of a run stay within the limits in every window if and only if each request that slips through finds room in all the windows it falls into |
| `AuthAbuseLimiter.Serve` | packages/accounts/src/service.ts:270-303 | a run under any clock: no key exceeds its limit in any window if and only if every slip finds room; without slips, and so with a clock that never goes back, it admits exactly what the full-history limiter admits |
| `AuthAbuseLimiter.ClockSetBackAdmitsTooMany` | packages/accounts/src/service.ts:391-398 | a run of four requests, one of which slips through and lets a destination exceed its limit |
| `AuthAbuseLimiter.ASlipMayExceedNothing` | packages/accounts/src/service.ts:391-398 | a run of four requests, one of which slips through while every window stays within its limit |
| `ActivationOperations.InMemoryActivationRepository.constructor` | packages/activation/src/testing.ts:25-30 | nothing is registered |
| `ActivationOperations.InMemoryActivationRepository.RegisterOperations` | packages/activation/src/testing.ts:42-64 | adds missing operations fresh, leaves known ones alone, and returns the stored views |
| `ActivationOperations.InMemoryActivationRepository.ClaimOperation` | packages/activation/src/testing.ts:117-147 | grants a claim exactly when the operation is neither final nor processing, counting the attempt; otherwise changes nothing |
| `ActivationOperations.InMemoryActivationRepository.Complete` | packages/activation/src/testing.ts:193-208 | succeeds with its artifact, unless it had succeeded |
| `ActivationOperations.InMemoryActivationRepository.CompleteTextLesson` | packages/activation/src/testing.ts:149-155 | stores the lesson and completes |
| `ActivationOperations.InMemoryActivationRepository.CompleteQuizBank` | packages/activation/src/testing.ts:157-163 | stores the quiz bank and completes |
| `ActivationOperations.InMemoryActivationRepository.RecordFailure` | packages/activation/src/testing.ts:165-179 | schedules a retry or fails for good |
| `ActivationRuns.EveryHistoryKeepsTheInvariant` | packages/activation/src/service.ts:46-103 | every interleaving of plan and run keeps the invariant |
| `ActivationRuns.PlanKeepsOperations` | packages/activation/src/service.ts:46-58 | planning again never resets a known operation |
| `ActivationRuns.ProcessingHasExactlyOneHolder` | packages/activation/src/service.ts:60-103 | an operation is processing if and only if one run holds it, and never two |
| `ActivationRuns.AttemptCountIsClaimsGranted` | packages/activation/src/service.ts:64-74 | the attempt count is the number of claims granted |
| `ActivationRuns.AttemptsAfterStep` | packages/activation/src/service.ts:46-103 | it grows by one exactly when a claim is granted |
| `ActivationRuns.SucceededHasExactlyOneArtifact` | packages/activation/src/service.ts:76-96 | a succeeded operation has its own artifact, no other operation has one, and every stored artifact has one owner |
| `ActivationRuns.FinalIsForever` | packages/activation/src/testing.ts:127-133 | a final operation never changes again |
| `ActivationTold.EveryHistoryIsTold` | packages/activation/src/testing.ts:25-208 | in every history the operations, claims and stored content are what its events say they are |
| `ActivationTold.OperationsAreAsTold` | packages/activation/src/testing.ts:42-208 | what is known of an operation is nothing until it is planned, and from then on what its last grant or the end of that says, with as many attempts as grants |
| `ActivationTold.ClaimableExactlyWhenWaiting` | packages/activation/src/testing.ts:117-147 | a claim is granted if and only if it is authorized and the operation is known and queued or waiting for a retry |
| `RetryEngines.RunOperation` | apps/api/src/activation-package-processing.ts:189-252 | ends at the first answer that is not to be retried, whatever the service answers; if the reported attempts grow, after at most five runs of a fresh operation and, with every deadline kept, within the budget, each delay once and 5 ms |
| `RetryEngines.WithoutCountingThereIsNoBound` | apps/api/src/activation-package-processing.ts:202-250 | with a count that does not grow some service keeps the loop going for any number of runs |
| `ActivationDelivery.EarlierRunHasEnded` | packages/activation/src/service.ts:60-103 | a run is granted its claim only after every run granted before it has ended |
| `ActivationDelivery.LaterRunReportsMoreAttempts` | packages/activation/src/service.ts:60-103 | of two runs of one operation the later granted one reports strictly more attempts, over every history |
| `ActivationDelivery.ServedAnswersCountAttempts` | packages/activation/src/service.ts:60-103 | so the answers of the repository always grow as the delivery loop needs |
| `ActivationDelivery.RunServedOperation` | apps/api/src/activation-package-processing.ts:189-252 | served by the repository, the loop is done after at most five runs of a fresh operation, whatever else happens meanwhile |
| `RetryEngines.RunStaysWithinBudget` | apps/api/src/activation-package-processing.ts:202-250 | one run and its delay keep the time bound |
| `RetryEngines.DeadlineIsWhatRemains` | apps/api/src/activation-package-processing.ts:203-211 | a run may take as long as its kind of artifact allows and as the budget leaves, yet one millisecond |
| `RetryEngines.TimeIsRunsAndWaits` | apps/api/src/activation-package-processing.ts:202-250 | at any moment the loop has spent what its runs took and, after each that was left for a retry, the delay of the attempt that was counted |
| `ActivationDelivery.RunnableExactlyWhenClaimable` | apps/api/src/activation-package-processing.ts:189-202 | the loop runs an operation if and only if an authorized claim of it would be granted |
| `RetryEngines.RunIngestion` | apps/api/src/demo-upload-processing.ts:202-233 | at most the poll limit plus six executions, always a result, and exactly the four ways to stop, each at the first moment that calls for it |

## Left out

- PostgreSQL repositories, object storage, the message broker client, HTTP, containers, file streams,
  cryptography and environment parsing: input and output, or wiring.
- React components, copy, and status text: presentation.
- Model calls: the routed result is an input. Model confidence is an integer number of hundred-thousandths.
- Replaying reads of the assessment repository (`loadFinalization`, `loadReplacementBundle`,
  `resolveReplacementAnswer`) and `gradeReplacement`: lookups, except that the recording of a replacement
  result is modelled.
- Learner-facing messages inside stored views.
- Claim tokens are numbers, not their printed form.
- Parsing of Markdown, YAML and dates in the validator, malformed metadata types, and every check outside
  status, links and transitions; text comparisons of maintenance entries (whitespace, link destinations,
  differ counts) are parameters of the transition rules.
- The validator prints at most fifty messages; the model has the whole list.
- Lengths of timers and reconnect delays in the progress controller, and the parsing of its events.
- The bearer token and profile checks of the broker; the request and heartbeat contents are one validity flag.
- Short writes to the staged file, and failing removals of staged files.
- IngestionBrokerRuns.LeasedInOrderOfAcceptance: does not state that a waiting execution is leased eventually,
  because that needs a bridge that goes on polling.
- The counts in a readiness disclosure (mapped, unmapped and invalidated concepts): set sizes.
- Lone surrogates, the order in which a runtime lists integer-like keys, negative zero, and `undefined` members
  in the JSON comparison; numbers are carried as the text printed for them.
- The CloudEvents wrapper checks: whether a wrapper is valid, and the envelope in it, is part of the record.
- Exceptions from the repository or the broker during a redrive or relay batch, which abandon the batch.
- `runOutboxRelayLoop` and the other outer polling loops of the API process.
- Regeneration of artifacts: its fake identifiers depend only on an ordinal and can coincide across kinds.
- A holder that crashes leaves its operation in processing for good in the in-memory repository; there is no
  such step.
- `schedule` and `#process` of the two processing queues: first come, first served over the loops modelled here.
- RetryEngines.RunOperation: time passes only in runs and delays, because logging between them takes none here;
  a refused claim ends the source's loop with an error, and here leaves it not done.
- The document kind, lane, operation and image digest that a lease also carries from the broker to the bridge.
- Upload generation retries after ingestion: bounded by the repository's attempt budget, which is not part of
  this model.
