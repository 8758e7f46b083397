# Verification of the DeepResearch evaluation and release gates

This project models, in Dafny, the parts of DeepResearch that decide whether money may be spent and whether an artifact may
be shipped, and proves what those decisions mean. `dafny verify dfyconfig.toml` checks all of it.

| Component | Modules | Sources |
|---|---|---|
| Provider-request ledger shared by several processes | `Ledger`, `BudgetStore`, `LedgerSafety` | `scripts/bounded_evaluation.py` |
| Sealed CI attempts, their merge, and every run of attempts | `CiLedger`, `Merge`, `Chain`, `ChainRuns` | `scripts/ci_budget_ledger.py`, `scripts/reconcile_ci_budget.py` |
| OCI layers, member filter, descriptor walk, bounded reader | `Overlay`, `OverlayProjection`, `OverlayVerdict`, `Descriptors`, `BoundedReader` | `scripts/oci_artifact.py` |
| Dispositions of scanner findings | `Findings`, `Dispositions`, `DispositionRoutes`, `DispositionReports` | the four source-applicability scripts |
| Grading, quality gates, budget floors, ranking | `Grading`, `Gates`, `Floors`, `Ranking` | `scripts/evaluate_research.py`, `scripts/check_ci_evaluation_budget.py`, `scripts/evaluate_retrieval.py` |
| Archive parts and Git frames | `Parts`, `Frames` | the delivery, fetch and source-reuse scripts |

## How the programs are represented

Code that changes state is a class or a method with loops (`Database`, `Budget`, `FileState`, `Walker`, `Reader`, `Release`,
the merge and partition loops). Each such method is proved equal to a function of the old state, and the properties are proved
of those functions, over every input, every interleaving or every run.

- A digest is an injective function, represented by the value that was digested; equal digests mean equal contents.
- A `BEGIN IMMEDIATE` transaction is one atomic step; an exception inside it leaves the tables as they were.
- A canonical path is its sequence of components; `[]` is the root, which the code writes `.`.
- The expanded id `id#n` is the pair `(id, n)`; 0.85 and 0.95 are exact reals, and the ceiling of `n * 0.85` is that of `17n/20`.
- A CI attempt is identified by run id, attempt and head commit; repository and workflow are constants of the series.
- The external grader, the frame-header reader and the ranking discount are arbitrary functions; the clock, HTTP, GitHub, Docker
  and evidence files enter as parameters (booleans, multisets of reviewed rows, the bytes a server holds).

## Where the code does less than it promises

Five promises do not hold of the code as it stands. Each comes with a counterexample and the exact condition under which it holds.

1. Token limits. Charged tokens may pass the limit by more than requests overran their reservations when a request is settled
   again with larger usage (`RepeatedAnswerPassesTheLimit`). A settlement meets the limit exactly when what the other requests
   cover of their reservations, and what it will cover of its own, fit under it (`SettlementMeetsLimitIff`); the limit holds
   at every moment of a run exactly when each settlement met that guard, on one ledger (`LimitHoldsIff`) and over the lifetime of
   all attempts (`LifetimeTokensIff`). The first usage recorded for a request always meets it.
2. Stage caps. A client opened before a stage transfer still spends its old allocation (`StaleClientOverspendsItsStage`). A
   reservation respects the stored caps exactly when its stage had room (`ReserveKeepsStagesIff`); the stored caps hold at every
   moment of a run exactly when every admitted reservation had that room (`StagesHoldIff`), which current clients ensure.
3. Sealing. A request with a negative output limit is admitted and sealed, and its package is then rejected
   (`NegativeBoundIsSealedButRejected`, `NegativeBoundIsAdmitted`). A sealed attempt validates exactly when no reservation is negative (`SealRoundTrip`).
4. Amendment. `contract` never compares the root cap with the amended cap 1565, so the amendment raises the caps exactly when the
   root cap is at most 1565 (`ContractIsSound`, `AmendmentCanLowerTheCap`); only the lifetime request caps depend on it. The repository's own root cap is 1358.
5. Required budget. `required_lower` is a lower bound for a suite exactly when it does not exceed a closed formula in the suite's
   case counts, the cost of its cheapest run that passes all gates, or some research stage has no case to answer and so never
   passes (`LowerHoldsIff`, `CheapestRun`). The research cases alone guarantee it exactly when none of them is a noncritical
   refusal, or the critical ones alone reach the required number of passes, or none has to be answered
   (`RequiredLowerIsBoundIff`, `CheaperOutcome`); the repository's own cases meet the first condition.

## Model

| member | source | states |
|---|---|---|
| BudgetStore.Budget.Open | scripts/bounded_evaluation.py:23-44 | Connecting either fixes the policy for good and changes nothing else, or refuses with the tables unchanged: exactly when the ledger of a series is missing, another policy is stored, or another series owns it. |
| BudgetStore.Budget.Reserve | scripts/bounded_evaluation.py:49-84 | One reservation appends exactly the new row, with the next number and no usage, and inside a CI run its origin; every refusal leaves all tables unchanged and names its reason. |
| BudgetStore.Budget.Settle | scripts/bounded_evaluation.py:86-97 | Each row of that id records a nonnegative integer usage, the fallback field counting only where the primary is missing; otherwise nothing is recorded and the row stays charged at its reservation. Other rows stay, and the halt becomes the status exactly for 401, 402, 403, 429, 500, 502, 503 and 504. |
| BudgetStore.Database.AmendStages | scripts/bounded_evaluation.py:117-139 | A stage transfer is recorded and applied, or refused with the ledger unchanged. |
| BudgetStore.SumStages | scripts/bounded_evaluation.py:128-130 | The stage caps are summed to the same total in whatever order they are taken. |
| LedgerSafety.AdmittedIffFits | scripts/bounded_evaluation.py:60-71 | A request is admitted if and only if its row still fits under every cap it counts towards: total, own kind, models, stage, reserved tokens, input and output tokens. |
| LedgerSafety.AdmissionMeans | scripts/bounded_evaluation.py:54-71 | In counts and sums of rows: a request is admitted exactly when one more request fits the total, its kind, the models and its stage, and its bounds fit the reserved, input and output tokens. |
| LedgerSafety.CountsMean | scripts/bounded_evaluation.py:58-66 | Every request meter is the number of rows of its kind, of model kind, or of model kind and stage. |
| LedgerSafety.SumsMean | scripts/bounded_evaluation.py:56-71 | The reserved meter adds both bounds of every row; the token meters add recorded usage, or the bound where none is recorded. |
| LedgerSafety.CountsStayCapped | scripts/bounded_evaluation.py:49-84 | Over every interleaving of clients that open, reserve, settle and transfer stages, no aggregate count passes its cap. |
| LedgerSafety.RemainingBoundsEveryContinuation | scripts/ci_budget_ledger.py:330-343 | The reported remaining requests bound what every continuation can add, by any clients in any order; with one recorded usage per request the reported remaining tokens do too, up to the overruns of single requests. |
| LedgerSafety.AdmissionStaysInsideRemaining | scripts/ci_budget_ledger.py:330-343 | Corollary of the admission test: a request is admitted only inside the reported remaining requests and tokens. |
| LedgerSafety.AllowanceIsExact | scripts/ci_budget_ledger.py:330-343 | For positive bounds the reported allowance, with the caps it does not report, decides admission in both directions: it is neither too large nor too small. |
| LedgerSafety.ChargesStayLimited | scripts/bounded_evaluation.py:49-97 | From any ledger, charged tokens stay within the limit, or what the ledger already covered, plus the overruns of single requests, plus what repeated settlements put back; with one recorded usage per request that last term is gone. |
| LedgerSafety.SettlementMeetsLimitIff | scripts/bounded_evaluation.py:86-95 | After a settlement the charges are within a limit plus the overruns if and only if, before it, what the others cover and what it will cover of its own reservation fit under the limit. |
| LedgerSafety.LimitHoldsIff | scripts/bounded_evaluation.py:49-97 | Over every interleaving, the token limit holds at every moment, up to overruns, if and only if every settlement of the run met its guard. |
| LedgerSafety.RepeatedAnswerPassesTheLimit | scripts/bounded_evaluation.py:86-95 | A concrete run settles a request twice and doubles the token limit although no request overran its reservation. |
| LedgerSafety.TransferKeepsTotal | scripts/bounded_evaluation.py:117-139 | Corollary of the refusals: a transfer keeps the stage total, the names, the aggregates and all rows, and the usage recorded so far fits the new stages. |
| LedgerSafety.ReserveKeepsStagesIff | scripts/bounded_evaluation.py:60-71 | A reservation by any client, current or stale, keeps the stored stage caps exactly when the stored cap of its stage had room. |
| LedgerSafety.StagesHoldIff | scripts/bounded_evaluation.py:60-71 | Over every interleaving, the stored stage caps hold at every moment if and only if every admitted reservation found room under the stored cap of its stage. |
| LedgerSafety.StagesStayCapped | scripts/bounded_evaluation.py:60-71 | When every reservation comes from a client opened under the stored policy, the stage caps hold through every run, transfers included. |
| LedgerSafety.StaleClientOverspendsItsStage | scripts/bounded_evaluation.py:60-71 | A client opened before a transfer passes the transferred stage cap. |
| LedgerSafety.NumberedAndHaltIsFinal | scripts/bounded_evaluation.py:49-97 | Through every run requests are numbered 1..n without gaps, and after a halting status no request is ever added. |
| CiLedger.BaselineIsNumbered | scripts/ci_budget_ledger.py:37-43 | The baseline runs laid end to end give gapless request numbers with one origin for each. |
| CiLedger.BaselineKeepsRuns | scripts/ci_budget_ledger.py:37-43 | Request i of past run k stands at its place in the baseline unchanged but for its number, with an origin that names that run and its number there. |
| CiLedger.ContractIsSound | scripts/ci_budget_ledger.py:33-90 | Every accepted agreement has a numbered, aligned baseline, the authorized caps and remainder, no room for other kinds than model calls, and the given current policy, amended to 1565 or not; the baseline is inside the root caps exactly when the remainder is not negative (an empty baseline aside), and caps are only raised exactly when the root cap does not exceed the amended one. |
| CiLedger.ContractDemands | scripts/ci_budget_ledger.py:33-90 | The arithmetic that an accepted contract has checked, usage known for every baseline request, and each field of the amendment that its file had to match. |
| CiLedger.ContractTokens | scripts/ci_budget_ledger.py:44-50 | The root token limits leave exactly the authorized remainders above what the baseline was charged. |
| CiLedger.OpenAttempt | scripts/ci_budget_ledger.py:283-327 | Opening never touches an existing ledger, copies the snapshot with the amendment applied when it is newer, claims it for the new run from its current length on, and creates no file for a history that cannot carry the agreement. |
| CiLedger.OpenFreshStartsAttempt | scripts/ci_budget_ledger.py:125-150 | A first attempt starts exactly when there is no amendment, and then at the baseline, not halted. |
| CiLedger.OpenRestoredStartsAttempt | scripts/ci_budget_ledger.py:283-327 | An attempt restored from a genuine snapshot starts where the snapshot ends, with the same rows, origins and halt, amended or not. |
| CiLedger.OpenSucceedsIff | scripts/ci_budget_ledger.py:283-327 | A genuine snapshot opens for a run if and only if an amendment still to be applied finds its verified prefix in it, and the snapshot, when it names a source, has not inherited for this run before. |
| CiLedger.OpenRestoredInherits | scripts/ci_budget_ledger.py:318-327 | The restored ledger starts without a source, keeps the stage changes, and records for the new run whose ledger and source it inherits, when there is one. |
| CiLedger.ReserveKeepsAttempt | scripts/bounded_evaluation.py:74-84 | A reservation keeps all that validation will demand of the attempt, the recorded amendment prefix included, and only appends. |
| CiLedger.SettleKeepsAttempt | scripts/bounded_evaluation.py:86-97 | Settling one of the attempt's own requests changes nothing that earlier attempts recorded. |
| CiLedger.Seal | scripts/ci_budget_ledger.py:346-372 | Sealing changes no request and packs the ledger, its report and a matching receipt, or refuses another run's ledger and missing provenance. |
| CiLedger.SealSucceedsIff | scripts/ci_budget_ledger.py:346-372 | A ledger seals if and only if it belongs to this run and series, has a start, an origin for every row, and no other policy; the package then carries its rows, origins and states and a report and receipt that state them truly. |
| CiLedger.SealRoundTrip | scripts/ci_budget_ledger.py:182-249 | Sealing an open attempt always succeeds; its package validates if and only if no reservation is negative, and gives back the same rows, origins, start, ledger and authorization. |
| CiLedger.ValidatesIff | scripts/ci_budget_ledger.py:182-249 | A package validates if and only if its authorization is known, the stored policy is that version's, report and receipt state the ledger truly, the source agrees, the ledger continues the baseline with gapless numbers and its own origins, and the transition is there exactly for the amended version. |
| CiLedger.NegativeBoundIsSealedButRejected | scripts/ci_budget_ledger.py:229-233 | An admitted request with a negative output limit seals into a package that validation rejects. |
| CiLedger.NegativeBoundIsAdmitted | scripts/bounded_evaluation.py:49-84 | A first attempt admits and seals a request with an output limit of -1, after which its package is rejected. |
| CiLedger.AmendmentCanLowerTheCap | scripts/ci_budget_ledger.py:62-90 | A concrete root authorization of 2000 requests and the amendment are accepted together, and the amendment lowers the cap. |
| CiLedger.OriginalJudgedAlike | scripts/ci_budget_ledger.py:93-102 | A package sealed under the original authorization is judged the same with and without the amendment. |
| Merge.KeepUnique | scripts/ci_budget_ledger.py:254-261 | One snapshot is kept for each attempt, the last one in the place of the first, and conflicting duplicates are refused. |
| Merge.Walk | scripts/ci_budget_ledger.py:264-279 | The loop over the sorted chain reports the first violation in the code's order, or none exactly when the whole chain is accepted; `AcceptedMergePreserves` and `RefusedMergeIsJustified` say what each answer means. |
| Merge.MergeSnapshots | scripts/ci_budget_ledger.py:252-280 | The two loops and the sort between them compute the merge that the results below describe. |
| Merge.AcceptedMergePreserves | scripts/ci_budget_ledger.py:252-280 | For any supplied snapshots, honest or not: an accepted result is one of them and keeps the rows, origins, halt and amendment of every one; every shorter one is kept by every longer one; repeats of an attempt agree; every authorization is known; and the last snapshot of each attempt starts within the baseline or another supplied attempt. |
| Merge.RefusedMergeIsJustified | scripts/ci_budget_ledger.py:252-280 | For any supplied snapshots every refusal has its witness among them: two that disagree, a missing attempt, a diverging log, a halt or an amendment that a longer snapshot lacks, or an unknown authorization. Only an empty collection merges to nothing. |
| Merge.NoOverlap | scripts/ci_budget_ledger.py:268-271 | Although the code tests only that a start is not beyond the previous length, an accepted next attempt starts exactly there. |
| Merge.ChainTiles | scripts/ci_budget_ledger.py:264-279 | In an accepted chain the attempts' new-request ranges partition the log past the baseline, each next to its predecessor. |
| Merge.GenuineIsOwned | scripts/ci_budget_ledger.py:182-249 | Whatever validation accepts preserves the baseline, names a known authorization, and carries the key of its own attempt on every new request. |
| Merge.MergeTiles | scripts/ci_budget_ledger.py:252-280 | In an accepted merge of owned snapshots every request past the baseline belongs to exactly the attempt its origin names, with the row and origin that attempt sealed. |
| Merge.RacingAttemptsNeverMerge | scripts/ci_budget_ledger.py:244-246 | Two attempts that both spend from the same opening length never appear together in an accepted merge. |
| Merge.CheckOrigins | scripts/reconcile_ci_budget.py:155-159 | The loop after the merge succeeds exactly when every new origin names a verified attempt and its head commit. |
| Merge.OriginVerifiedMeans | scripts/reconcile_ci_budget.py:155-159 | An origin passes exactly when one of the snapshots is of the run, attempt and head commit it names. |
| Merge.OriginCheckNeverFails | scripts/reconcile_ci_budget.py:154-159 | After an accepted merge of validated snapshots that check cannot fail. |
| Chain.LaterFollows | scripts/ci_budget_ledger.py:268-279 | In an honest history every later attempt extends every earlier one in rows, origins, halt and amendment, and starts at or after its end. |
| Chain.MergedOfHistory | scripts/ci_budget_ledger.py:252-280 | For seals of an honest history the merge depends only on whether the sorted collection has a gap. |
| Chain.MergeSucceedsIff | scripts/ci_budget_ledger.py:252-280 | Seals of an honest history, in any order and with repetitions, merge if and only if no spending attempt is missing before a present one; the only possible refusal is that missing attempt, and the result is the longest log. |
| ChainRuns.NextKeepsOrder | scripts/reconcile_ci_budget.py:110-165 | Every step of the protocol, opening, reserving, settling, sealing or ending unsealed, keeps the history honest. |
| ChainRuns.LogRefinement | scripts/ci_budget_ledger.py:283-372 | Every run of attempts from nothing is one append-only numbered log with an origin for each request: sealed attempts and their rows never change, every request keeps all it was reserved with, and a halted log gains no request in any later attempt. |
| ChainRuns.SealsOfAnyRunMerge | scripts/ci_budget_ledger.py:252-280 | Whatever a run of attempts sealed, a collection of those seals merges if and only if it is complete. |
| ChainRuns.SpendingRunMerges | scripts/ci_budget_ledger.py:252-372 | A concrete run opens, spends one request, seals, and merges to its own seal. |
| ChainRuns.LifetimeCapsHold | scripts/bounded_evaluation.py:60-71 | Counting the baseline and all attempts, request counts and reservations stay within the policy in force, and the sealed log within its own, through every run, across restores and an amendment that raises the caps. |
| ChainRuns.LifetimeTokensIff | scripts/bounded_evaluation.py:70-71 | Counting the baseline and all attempts, the token limit holds at every moment of a run, up to overruns, if and only if every recorded usage met its guard. |
| ChainRuns.LifetimeTokensHold | scripts/bounded_evaluation.py:70-71 | When usage is recorded once per request, tokens charged over the lifetime stay within the root limit, or what the baseline covered, plus the overruns of single requests. |
| ChainRuns.ContractLifetimeTokens | scripts/ci_budget_ledger.py:44-50 | Under an accepted contract with a nonnegative token remainder that bound is the authorized limit itself. |
| ChainRuns.AmendmentOnlyRaises | scripts/ci_budget_ledger.py:62-87 | Applying an amendment whose cap is not below the root cap lowers no cap, changes no token limit, and keeps usage inside the caps. |
| Overlay.FileState.RemoveTree | scripts/oci_artifact.py:64-67 | Exactly the paths below the given one, and itself unless only children are asked for, are removed. |
| Overlay.FileState.PlaceEntries | scripts/oci_artifact.py:78-88 | Placing entries one by one, shallowest first, reaches the closed form of all of them at once. |
| Overlay.FileState.ApplyLayer | scripts/oci_artifact.py:70-88 | Applying a layer in place gives the closed form of whiteouts, opaque directories and entries over the lower state. |
| Overlay.PutExtendsPlaced | scripts/oci_artifact.py:78-88 | One turn of the entry loop extends the closed form by one entry, provided no earlier entry is deeper. |
| Overlay.LayerClosedForm | scripts/oci_artifact.py:70-88 | Every entry ends with its own value; a lower path survives exactly when it is not whited out, not strictly below an opaque directory, and below no entry that is or replaces a non-directory; else only implied parent directories remain. |
| Overlay.LayersStayRooted | scripts/oci_artifact.py:79-83 | After any layer every present path has all its ancestors present. |
| OverlayProjection.ApplyAll | scripts/oci_artifact.py:215-269 | Applying the runtime layers in order gives their overlay. |
| OverlayProjection.TrackingIsEnough | scripts/oci_artifact.py:110-112 | For every list of layers, tracking only the target executables and their ancestors gives the same verdict and the same target contents as the overlay of all entries. |
| OverlayProjection.ReadLayer | scripts/oci_artifact.py:221-257 | The member loop refuses too many members, ambiguous duplicates, malformed whiteouts and special nodes, and otherwise collects entries, whiteouts and opaque directories; `VerdictFromMembers` says what these mean for the verdict. |
| OverlayProjection.ReadIgnoresOrder | scripts/oci_artifact.py:221-257 | A layer's member list is accepted if and only if its contents, taken without order, are admissible, and those contents determine what was read. |
| OverlayProjection.TarOrderIsIrrelevant | scripts/oci_artifact.py:70-77 | Reordering the members of a layer's tar changes neither its acceptance nor the state it leaves over any lower layers. |
| OverlayProjection.ReadFilters | scripts/oci_artifact.py:248-257 | Skipping untracked members while reading is the same as reading everything and filtering afterwards, failures included. |
| OverlayProjection.TrackedVerdictIsFullVerdict | scripts/oci_artifact.py:215-276 | From tar members to final verdict, keeping tracked paths verifies exactly the images that keeping every path verifies. |
| OverlayVerdict.VerdictFromMembers | scripts/oci_artifact.py:221-276 | In terms of the tar members alone: an image verifies if and only if every layer is well formed, every target is held as a regular file of the expected hash, and no ancestor of a target is left as anything but a directory. |
| OverlayVerdict.HeldFromOneLayer | scripts/oci_artifact.py:240-276 | A file is held if and only if one layer has it as a regular member of that hash and no later layer has another member there, a whiteout whose name is `.wh.` and the last name of the path or of an ancestor, an opaque marker in an ancestor, or a non-directory at an ancestor. |
| OverlayVerdict.VerifiedTargetStands | scripts/oci_artifact.py:271-276 | In a verified image every target comes from a layer that has it with the expected hash, and no later layer removes, hides or replaces it. |
| Descriptors.Walker.CheckBlob | scripts/oci_artifact.py:132-142 | A reference is accepted exactly when its digest is well formed and the stored file has its size and hashes to it. |
| Descriptors.AcceptedMeans | scripts/oci_artifact.py:132-158 | An accepted reference has a known media type and a digest of `sha256:` and 64 lower-case hexadecimal digits, and its stored file has the stated size and digest. |
| Descriptors.FaultMeans | scripts/oci_artifact.py:132-168 | A reference is at fault exactly for its digest's form, its media type, a missing or resized file, other content, or, as an index or manifest, more than 4 MiB or no readable document; the first of these is reported. |
| Descriptors.ExpandedHoldAll | scripts/oci_artifact.py:161-168 | Every expanded document is within 4 MiB, and each of its manifests, its config and each of its layers is accepted. |
| Descriptors.Walker.Visit | scripts/oci_artifact.py:148-172 | The walk terminates on every graph; whatever it newly reaches ends a chain of references from this one through newly expanded documents; on success it has accepted the reference and all references of each newly expanded document, and a failure is explained by a chain that is too deep or ends at a faulty reference. |
| Descriptors.Walker.Expand | scripts/oci_artifact.py:161-168 | An index or manifest is expanded only when it is within the metadata bound and parses, and then its document and everything newly expanded below it is within the bound and closed. |
| Descriptors.Walker.VisitAll | scripts/oci_artifact.py:164-169 | The child loops settle every reference of their document, or stop with the explained failure of one of them. |
| Descriptors.Walk | scripts/oci_artifact.py:148-172 | From the root: every visited digest, on failure too, ends a chain of references from the root; on success the visited digests are intact, and, unless a digest is referred to both as container and as leaf, every reference that any chain from the root reaches has been accepted; on failure a concrete chain of references explains the error. |
| Descriptors.VisitedContainersAreExpanded | scripts/oci_artifact.py:159-164 | When every visited digest is reached from the root and no digest is referred to both as container and as leaf, the visited containers are exactly the expanded digests. |
| Descriptors.ChainsAreAccepted | scripts/oci_artifact.py:148-172 | When the visited containers are expanded and closed, every reference that any chain from the root reaches has been accepted; `Walk` establishes both premises. |
| BoundedReader.Reader.Read | scripts/oci_artifact.py:52-61 | A read delivers and hashes the next bytes of the stream, at most one block, and fails only when the shared bound would be passed. |
| BoundedReader.Reader.Drain | scripts/oci_artifact.py:258-260 | However much each underlying read delivers, reading to the end succeeds if and only if the rest of the layer fits the bound shared by all layers, and then every byte was hashed and counted. |
| Findings.Summarize | scripts/check_fs_source_applicability.py:79-109 | A scan is summarized exactly when every result is usable, into its findings in scan order, and the secret count is zero exactly when the scan holds no secret. |
| DispositionReports.UsableMeans | scripts/check_fs_source_applicability.py:79-109 | A scan is usable exactly when it is not empty and every result, vulnerability and secret has its identity fields and a known severity. |
| DispositionReports.BlockingMeans | scripts/check_fs_source_applicability.py:274-276 | In a secretless scan the blocking rows hold each reported tuple of severity Critical or High as often as it is reported, and nothing else. |
| Dispositions.PartitionOnce | scripts/check_fs_source_applicability.py:287-299 | The loop that refuses a repeated row succeeds exactly when each reviewed tuple occurs once, and then splits the rows without loss. |
| Dispositions.FsEvaluate | scripts/check_fs_source_applicability.py:264-307 | The first stage's verdict, with its unusable, unproved and mismatched outcomes. |
| Dispositions.FsConserves | scripts/check_fs_source_applicability.py:274-303 | On every usable scan, failing ones included, dispositioned and unresolved rows are together the raw blocking rows as multisets. |
| Dispositions.PartitionCounted | scripts/check_grafana_candidate_source_exact2.py:236-244 | The loop that counts first selects the reviewed rows and keeps all others, and its counter is that of the selected rows. |
| Dispositions.ApplyExactTwo | scripts/check_grafana_candidate_source_exact2.py:223-253 | The second stage needs a completed first stage with two dispositions and exactly its own two rows. |
| Dispositions.ExactTwoConserves | scripts/check_grafana_candidate_source_exact2.py:223-253 | A completed second stage keeps the conservation of blocking rows. |
| DispositionReports.SourcePassesIff | scripts/check_grafana_candidate_source_exact2.py:223-253 | A secretless scan passes the first stage exactly when its Critical and High reports are the two bound tuples, and the second stage exactly when they are the bound and the candidate tuples, once each. |
| Dispositions.Assign | scripts/grafana_source_candidate4.py:197-210 | The loop gives each remaining row one disposition in order, and fails exactly when some row's branch has no recorded fact. |
| DispositionRoutes.PassedGateConserves | scripts/check_grafana_active_source_retirement.py:529-586 | When the gate passes, the dispositioned rows are exactly the raw blocking rows, one disposition each, nothing is unresolved, and the scan holds no secret. |
| DispositionRoutes.FiveRowsIff | scripts/check_grafana_active_source_retirement.py:384-405 | The five-row route passes exactly the secretless scans whose blocking tuples are the five legacy ones, once each. |
| DispositionRoutes.FourteenRowsIff | scripts/check_grafana_active_source_retirement.py:480-526 | The fourteen-row route passes exactly when the blocking tuples are the legacy five and the nine reviewed ones, the companions match, and each reviewed row has its source fact. |
| DispositionRoutes.EighteenRowsIff | scripts/grafana_source_candidate4.py:166-221 | The eighteen-row route passes exactly when the blocking tuples are the legacy five, the nine and the four reviewed ones, with companions, visible unknowns, targets and facts as reviewed. |
| DispositionRoutes.GatePassesIff | scripts/check_grafana_active_source_retirement.py:529-586 | The whole gate passes exactly the scans that one of the three routes describes by its raw rows, the later two only under the maintenance profile and their own reviews. |
| DispositionReports.GatePassesIffReported | scripts/check_grafana_active_source_retirement.py:529-586 | The same in the raw reports: the gate passes exactly the usable secretless scans whose Critical and High reports are, with multiplicity, the reviewed tuples of one of the three routes. |
| DispositionReports.PassedGateDisposesReports | scripts/check_grafana_active_source_retirement.py:529-586 | When the gate passes, each tuple of severity Critical or High is disposed of exactly as often as the raw scan reports it, and no other severity and no secret is. |
| DispositionReports.PassedGateGivesDue | scripts/grafana_source_candidate4.py:197-210 | When the gate passes, every row has the disposition that its tuple calls for. |
| DispositionRoutes.RoutesAreDisjoint | scripts/grafana_source_candidate4.py:174-177 | Whatever the reviews say, no scan passes two routes: they need 5, 14 and 18 blocking rows. |
| DispositionRoutes.NeverUnexpectedlyPasses | scripts/grafana_source_candidate4.py:191-196 | Corollary of the row counts: the branch for a five-row route that unexpectedly passed an eighteen-row report cannot be reached. |
| DispositionRoutes.RepositoryScopeIsDistinct | scripts/grafana_source_candidate4.py:12-22 | The pinned tuples and identifiers of the code are distinct as the results above require. |
| DispositionRoutes.LegacyScanPasses | scripts/check_grafana_active_source_retirement.py:384-405 | With the pinned tuples, the scan that reports just the five legacy rows passes the gate. |
| Grading.EveryClaimOnce | scripts/evaluate_research.py:33-53 | For any pattern of context overflows, if each answered group of the run names its own claims once, the rebased result of a grading that returns names every claim of the report exactly once; `GradeReturnsIff` says when it returns. |
| Grading.GradeReturnsIff | scripts/evaluate_research.py:39-53 | A grading returns if and only if no group that it asked for failed and none of a single claim was too large. |
| Grading.GradeReturns | scripts/evaluate_research.py:46-51 | Context overflows alone never lose a report: when no group inside it fails and single claims fit, the grading returns. |
| Grading.SplitsInHalves | scripts/evaluate_research.py:46-51 | The group itself is asked for first; only one that is too large and has at least two claims is split, in halves, left before right. |
| Grading.VerdictsComeFromLeaves | scripts/evaluate_research.py:45 | The result holds exactly the verdicts that answered groups gave, each on its own claim. |
| Grading.LeavesTile | scripts/evaluate_research.py:46-51 | The answered groups tile the report, and k answers cost 2k - 1 group calls. |
| Grading.LeafNamesAreDistinct | scripts/evaluate_research.py:41-44 | No two answered groups of a report share a start or an accounting name. |
| Grading.GroupsAreDistinct | scripts/evaluate_research.py:39-53 | Every grading of n claims, returning or raising, asks for at most 2n - 1 groups, all different and inside the report. |
| Grading.EnvelopeCoversGrading | scripts/check_ci_evaluation_budget.py:165-172 | The envelope of 2 * 96 - 1 group nodes covers the group calls of every report within the claim bound. |
| Gates.PooledGateIsRedundant | scripts/evaluate_research.py:56-82 | When every repetition passes its own gate, the pooled gate over expanded ids passes too. |
| Gates.PassesMeans | scripts/evaluate_research.py:56-66 | The gate passes exactly when 17 of 20 cases and every critical case pass, and support per claim and coverage per answered case are at least 19/20. |
| Gates.SummarizeRepetitions | scripts/evaluate_research.py:69-82 | The combined verdict is the pooled gate, every cohort, and every single result when all are required; for results of at least one repetition, all in range, the pooled gate decides nothing and can be left out. |
| Floors.CriticalPathIsBound | scripts/check_ci_evaluation_budget.py:94-105 | Every outcome of a stage that meets the 85% and all-critical gates costs at least the stage's critical path. |
| Floors.GateClears | scripts/evaluate_research.py:56-66 | A report that passes the whole research gate clears the 85% and all-critical tests, and some case of its stage has to be answered. |
| Floors.ClearsGate | scripts/evaluate_research.py:56-66 | Conversely, in a stage with a case to answer, all pass flags that clear those tests belong to a possible report that also passes the support and coverage tests. |
| Floors.RateFloorIsBoundIff | scripts/check_ci_evaluation_budget.py:140-142 | The research pass-rate floor bounds all reports that pass the gate if and only if no noncritical case must be refused, or the critical cases alone reach the required passes, or no case has to be answered. |
| Floors.CheaperOutcome | scripts/check_ci_evaluation_budget.py:140-142 | Otherwise some report passes rate, critical, support and coverage tests for less than the floor. |
| Floors.AnswerFloorsAreBounds | scripts/check_ci_evaluation_budget.py:126-139 | Both answer floors are lower bounds on the calls of every answer stage that meets its gates. |
| Floors.AnswerFloorsAreTight | scripts/check_ci_evaluation_budget.py:126-139 | The larger of the two answer floors is exactly the cost of the cheapest answer stage that meets its gates. |
| Floors.StageFloorsAreTight | scripts/check_ci_evaluation_budget.py:140-142 | Without noncritical refusals the larger of a research stage's two floors is exactly the cost of its cheapest passing report. |
| Floors.RequiredLowerIsBound | scripts/check_ci_evaluation_budget.py:163 | Every full run that meets all gates costs at least `required_lower`, when the research floor applies. |
| Floors.CheapestRun | scripts/check_ci_evaluation_budget.py:123-143 | Every suite whose research stages each have a case to answer has a run that passes all gates at exactly the closed-form minimum cost. |
| Floors.LowerHoldsIff | scripts/check_ci_evaluation_budget.py:163 | `required_lower` bounds every run of a suite that passes all gates if and only if it does not exceed that closed-form minimum of the suite's case counts, or some research stage has no case to answer. |
| Floors.RequiredLowerIsBoundIff | scripts/check_ci_evaluation_budget.py:163 | Given research cases make `required_lower` a bound in every suite around them if and only if the research floor applies to them or none of them has to be answered. |
| Floors.RepositoryNeeds296 | scripts/check_ci_evaluation_budget.py:123-163 | For the case counts of the repository's suite, the required bound and the cheapest passing run are both 296 requests: 14 + 178 + 72 + 32, above the critical paths 11 + 130 + 72 + 32. |
| Ranking.DocumentTitles | scripts/evaluate_retrieval.py:24-31 | Repeated titles are removed and first occurrences keep their order. |
| Ranking.TitlesAreDistinct | scripts/evaluate_retrieval.py:24-31 | The resulting titles are distinct and are exactly the titles that were hit. |
| Ranking.TitlesKeepFirstHits | scripts/evaluate_retrieval.py:24-31 | Of two titles the earlier one was hit before the later one was hit at all. |
| Ranking.FoundAmongFirst | scripts/evaluate_retrieval.py:38-42 | The titles found at k are the expected ones among the first k titles, and there is one gain for each of these, set exactly for an expected title. |
| Ranking.FoundIsBounded | scripts/evaluate_retrieval.py:38-44 | Among distinct titles the gains count each relevant document once, so no more than min(expected, k). |
| Ranking.RecallGrows | scripts/evaluate_retrieval.py:38-41 | Recall lies in 0..1 and never falls as the cutoff grows, and k times precision equals the number expected times recall. |
| Ranking.NdcgIsAtMostOne | scripts/evaluate_retrieval.py:42-45 | For any hits, expectations and positive strictly decreasing weights, the gain is at most the ideal one, with equality exactly when the first min(expected, k) distinct titles are all relevant. |
| Ranking.OneGain | scripts/evaluate_retrieval.py:43-44 | A single relevant document at rank r gains the weight of rank r, against an ideal of the first weight. |
| Ranking.GainsAdd | scripts/evaluate_retrieval.py:43-44 | Each further rank adds its weight to the gain exactly when it is relevant, and always to the ideal gain. |
| Ranking.RepeatedHitsBeatTheIdeal | scripts/evaluate_retrieval.py:24-31 | Without removing repeated titles that bound is lost. |
| Parts.PartPlan | scripts/grafana_release_20261107_delivery.py:24-35 | Splitting succeeds exactly on the reviewed archive of 1 byte to 2 GiB, and gives its 64 MiB blocks in order. |
| Parts.PlanHasValidSizes | scripts/fetch_grafana_candidate.py:109-126 | A plan's sizes are exactly those the transport inventory requires: at most 32 parts of 1 byte to 64 MiB, together the whole archive. |
| Parts.FetchPart | scripts/fetch_grafana_candidate.py:200-219 | A part is used exactly when its cached file or its successful response of consistent declared length has the planned size and digest, however the response is cut into blocks. |
| Parts.Assemble | scripts/fetch_grafana_candidate.py:221-233 | Joining with the running size bound succeeds exactly when the concatenation is the reviewed archive, and returns it. |
| Parts.DownloadParts | scripts/fetch_grafana_candidate.py:185-236 | An archive already at the destination is returned exactly when it is the reviewed one; otherwise reassembly from any mix of cached and fresh parts succeeds exactly when every part is accepted and their concatenation is the reviewed archive. |
| Parts.PartsRoundTrip | scripts/fetch_grafana_candidate.py:198-234 | The parts of a split archive pass their checks and join to the same bytes. |
| Parts.UploadMissing | scripts/grafana_release_20261107_delivery.py:91-103 | The upload loop succeeds exactly when the archive is unchanged, what was listed is verified and what is missing can be uploaded to a draft and verified; then every part is present once. |
| Parts.Publish | scripts/grafana_release_20261107_delivery.py:57-119 | Resumed from any listing, publication drops no asset, never uploads to a published release, and makes a draft public exactly when both authority checks, the release binding, the tag or draft target, the archive, the uploads and the second listing agree, leaving exactly one verified asset for each part; it reports success exactly when the published tag is the source commit too. |
| Frames.NextAt | scripts/check_artifact_source_reuse.py:38-47 | A frame at the cursor is read back whatever newlines its body holds and whatever follows it. |
| Frames.VerifyFrames | scripts/check_artifact_source_reuse.py:35-51 | The nested loops accept exactly the printed concatenations of three frames for each expected file, with that file's bytes and no trailing bytes, whose working files hold the same bytes. |
| Frames.PrintingIsInjective | scripts/check_artifact_source_reuse.py:35-51 | Two lists of well-formed frames that print alike are the same list. |

## Left out

- Overlay.FileState.PlaceEntries: does not model the tie-break by name among entries of equal depth; any of the shallowest may be next, and the result is the same.
- Parts.Publish: the release metadata, the request text in its body and its publication time are one boolean; upload states and identifiers of assets are not modelled, nor the files it writes afterwards.
- Parts.DownloadParts: does not model temporary files, symbolic links or the live publication check, which is one boolean.
- Grading.EveryClaimOnce: takes the external grader as a function of the group; groups of one report are all different, so answers that vary between calls are covered.
- Frames.VerifyFrames: does not model the split of a header line into three fields and its integer; that reader is arbitrary.
- Floors.CheapestRun: charges a failing case nothing, as the floors do, although it may be supported and covered; what such a case really costs is not modelled.
- ChainRuns.LogRefinement: after an attempt whose paid part ended without a sealed ledger the model allows no further step, which is an assumption taken from the refusal in `reconcile`.
- ChainRuns.NextKeepsOrder: an attempt settles only requests it reserved itself, as every caller of `settle` does; whether the paid part of an unsealed attempt had started is a parameter, true whenever it spent.
- SHA-256, canonical JSON, SQLite pages, zip, tar and gzip decoding.
- GitHub artifact metadata (name, expiry, digest, repository), HTTP, Docker, wall-clock freshness and environment variables.
- Execution contexts, parent-artifact lists and the text of receipts beyond the fields that validation compares; the source binding is an opaque value.
- Pinned hashes, selector and workflow parsing, Go inventories and native graph facts: booleans or arbitrary reviewed rows.
- Floating-point rounding in the gates, the ceilings and the rounded metrics.
- The mean-reciprocal-rank figure, metric deltas and aggregates of the retrieval evaluation.
- The MinIO, Tempo, exact28, maintenance and release gates, which repeat the multiset comparison with other constants.
- The transport inventory's identifiers, names, URLs and upload states; only its part count and sizes are modelled.
- Load generation, drills, migrations, recovery scripts, the worker loop and the user interface.
