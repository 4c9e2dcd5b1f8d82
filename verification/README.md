# Evidence Braid: verified model

This project models the parts of Evidence Braid whose correctness is hardest to see from
the code, and proves what its documentation and tests promise about them. Everything is
in Dafny; `dafny verify dfyconfig.toml` checks the whole project.

Three conventions run through all modules.

* SHA-256 is a parameter `h: Bytes -> Digest` about which nothing is assumed. A binding
  result says "the two inputs agree, or here are two different byte strings with one
  digest". The pair is computed by an executable function (`...Clash`) from the data at
  hand, so "no collision was found" is never an assumption about all inputs.
* Canonical JSON is a lossless encoding, given as functions in a codec record; its
  byte sizes enter wherever the code bounds them.
* Where the code loops over mutable state there is a method with that loop, tied by its
  `ensures` to a function; the theorems are about the function. For each main operation one
  theorem (`...Exact`, or its equal) says what that function answers without using it, in
  both directions.

| file | subject |
|---|---|
| Hashing, Wrappers, Ordering | bytes and collisions, result types, sorting and permutations |
| TreeShape, ReceiptTree, Commitment | the unpadded receipt tree of section 2.1 of RFC 6962 with the repository's own tags |
| Ledger | hash-chained receipts |
| Consistency, IterativeConsistency, Membership | detached proofs between retained commitments, and the second verifier in JavaScript |
| Query | posting lists, selections, continuation tokens, byte-budgeted pages |
| Workflow, WorkflowSafety, WorkflowRecords, WorkflowChain | the authority workflow state machine, the same read off the records alone, and its receipt chain |
| WorkflowStore, WorkflowStoreSafety, WorkflowStoreExact, StoreFaults | the durable compare-and-append store, exactly what it reads and writes, and its fault outcomes |
| EpistemicCase, CaseStore, CaseStoreSafety, CaseStoreExact, CaseStoreWrites, CaseExecution, CaseFaults | the case journal, its store, exactly what it reads and writes, at-most-once execution and fault outcomes |
| Engine, EngineSafety, Outcomes, Reliability, Ranges, Replay | decisions and what they say of the events, reliability updates, numeric ranges, and historical replay |
| Archive | the closed ZIP32 profile of artifact bundles |
| RateLimit | the two-level token bucket of the local service |

Two promises do not hold for every input; each has a failing input and its exact condition.

* Reports do not depend on input order, except that `validate_event_set` names the first
  skewed event it meets. The report is the same for every order if and only if an
  identifier is repeated, a claim is not configured, or at most one event is skewed
  (`EngineSafety.ReportOrderFreeExact`, and `EngineSafety.EvaluateOrderFreeExact` for whole
  evaluations); with two skewed events, swapping them changes the report
  (`EngineSafety.SkewReportDependsOnOrder`). Complaints about adjudications never depend
  on order.
* `max_adjustment` is documented as the bound on how far an applied weight may sit from the
  declared one. The change is clamped first and rounded to twelve digits afterwards, so a
  declared weight 0.5 with a bound of 6 * 10^-13 can move by 10^-12: one admitted
  adjudication of a named source does it (`Reliability.BoundExceeded`). For one set of
  adjudications the bound holds if and only if the posterior is already within it, so that
  nothing is clamped, or it does not round past itself (`Reliability.AdjustmentBoundExact`).
  In every evaluation that succeeds under a policy, the weight of a source it names stays
  within the bound if and only if the bound does not round past itself or is too wide ever
  to bind (`Reliability.AdjustmentBoundForPolicy`). "Rounds past itself" means that the bound lies
  more than half a step above a multiple of 10^-12, or exactly half a step with the tie
  going away from the declared weight.

## Model

| member | source | states |
|---|---|---|
| `TreeShape.SplitUnique` | src/evidence_braid/membership.py:430-436 | the split point is the only power of two in [n/2, n), which is what makes the tree shape canonical |
| `TreeShape.CeilLog2Exact` | src/evidence_braid/consistency.py:115-125 | the height used in the bounds is exactly the least e with n <= 2^e |
| `TreeShape.ComputeRoute` | src/evidence_braid/membership.py:91-104 | the loop over (position, count), reversed at the end, is the recursive route from leaf to root |
| `TreeShape.RouteBound` | src/evidence_braid/membership.py:91-104 | a route is never longer than ceil(log2 n) |
| `TreeShape.RouteInjective` | src/evidence_braid/membership.py:91-104 | within one tree a route names its leaf |
| `TreeShape.PathSizeBound` | src/evidence_braid/consistency.py:115-125 | for every 0 < m <= n a consistency path has at most ceil(log2 n) + 1 hashes |
| `TreeShape.PublishedLimitsSuffice` | src/evidence_braid/consistency.py:115-146 | 17 siblings and 18 path hashes suffice for every admitted ledger of 100,000 entries |
| `Ledger.Verify` | src/evidence_braid/ledger.py:114-142 | the loop accepts exactly the chains whose every link, sequence number and identifier is right, with the expected head when one is given |
| `Ledger.PrefixVerified` | src/evidence_braid/ledger.py:114-142 | every prefix of a verified chain is verified |
| `Ledger.HexInjective` | src/evidence_braid/ledger.py:25-38 | hexadecimal text of a digest loses nothing |
| `Ledger.PayloadInjective` | src/evidence_braid/ledger.py:25-38 | a link payload determines predecessor and event, and in version 2 the position |
| `Ledger.VersionsSeparate` | src/evidence_braid/ledger.py:25-38 | what the head of a version 1 chain digests is never what that of a version 2 chain digests |
| `Ledger.HeadsDetermineHistories` | src/evidence_braid/ledger.py:114-146 | two verified ledgers with one head are equal entry for entry, with no assumption on their lengths or versions, or a digest collision is computed |
| `ReceiptTree.TaggedInjective` | src/evidence_braid/membership.py:65-74 | domain tags separate leaf, node, empty and commitment preimages |
| `ReceiptTree.BuildCorrect` | src/evidence_braid/membership.py:430-436 | the tree built by offsets caches the independently defined root of every slice |
| `ReceiptTree.JoinTrees` | src/evidence_braid/membership.py:430-436 | joining two correct halves gives a correct tree |
| `ReceiptTree.RootBindsLeaves` | src/evidence_braid/membership.py:430-436 | equal roots of equally many leaves mean equal leaves, or a node collision is computed |
| `Commitment.DigestBindsHeader` | src/evidence_braid/membership.py:231-233 | a retained commitment digest pins every header field |
| `Commitment.LeavesInjective` | src/evidence_braid/membership.py:73-88 | a prefix relation between leaf bytes is one between receipts |
| `Consistency.Subproof` | src/evidence_braid/consistency.py:210-221 | the recursion over the shared list appends exactly the specified path |
| `Consistency.PrefixRootCorrect` | src/evidence_braid/consistency.py:201-207 | the prefix root extracted from the n-leaf tree is the root of the first m leaves built alone, for every 1 <= m <= n |
| `Consistency.SubproofCorrect` | src/evidence_braid/consistency.py:210-221 | the generated path is the path of section 2.1.2 of RFC 6962 over the leaves, of exactly the length the size function predicts |
| `Consistency.HashCursor.Next` | src/evidence_braid/consistency.py:245-257 | the iterator hands out the path in order and reports its end |
| `Consistency.RecoverRoots` | src/evidence_braid/consistency.py:245-257 | the recursion over the shared iterator returns the specified pair of roots and leaves the specified remainder |
| `Consistency.RecoverConsumes` | src/evidence_braid/consistency.py:245-283 | the verifier runs out exactly when the path is shorter than the predicted size, and otherwise takes exactly that many hashes |
| `Consistency.RecoverComplete` | src/evidence_braid/consistency.py:245-257 | on the honest path the verifier rebuilds both real roots and uses the path up |
| `Consistency.PathBinds` | src/evidence_braid/consistency.py:245-257 | any path that rebuilds the roots of a and b proves a is a prefix of b and is the honest path, or a node collision is computed |
| `Consistency.PrefixCommitment` | src/evidence_braid/consistency.py:224-242 | the commitment of a prefix, field by field, and its agreement with that of the whole ledger |
| `Consistency.Prove` | src/evidence_braid/consistency.py:224-242 | a proof is produced exactly when the retained header is the commitment of a prefix, and it holds the honest path |
| `Consistency.VerifyConsistency` | src/evidence_braid/consistency.py:260-283 | the verifier accepts exactly by header agreement, equal digests, and a path that rebuilds both roots and is used up |
| `Consistency.ConsistencySound` | src/evidence_braid/consistency.py:245-283 | acceptance under the digests of two real ledgers means the old entries are a prefix of the new ones and versions agree, or a collision is computed |
| `Consistency.ConsistencyComplete` | src/evidence_braid/consistency.py:224-283 | every prefix of every admitted ledger has a proof that the verifier accepts |
| `Consistency.AcceptedProofIsHonest` | src/evidence_braid/consistency.py:245-283 | no second proof: an accepted path from a real nonempty ledger to a longer real one is the generated path, whenever the collision search finds nothing |
| `Membership.Siblings` | src/evidence_braid/membership.py:466-482 | the prover's walk collects exactly the siblings of the leaf, leaf first |
| `Membership.FoldMember` | src/evidence_braid/membership.py:386-419 | the inner loop is the fold along the route |
| `Membership.HonestFold` | src/evidence_braid/membership.py:386-419 | for every tree and position the real siblings fold the real leaf to the root |
| `Membership.FoldBinds` | src/evidence_braid/membership.py:386-419 | a fold that reaches the root started from the real leaf and used the real siblings, or a collision is computed |
| `Membership.VerifyMembership` | src/evidence_braid/membership.py:386-419 | the verifier returns the listed entries exactly when every check holds |
| `Membership.MembershipSound` | src/evidence_braid/membership.py:386-419 | under the digest of a real ledger every accepted member is the receipt the ledger holds there, with its generated siblings, or a collision is computed |
| `Membership.MembershipComplete` | src/evidence_braid/membership.py:466-491 | an ascending page of a verified ledger has a bundle exactly when each receipt passes JSON admission and together they fit 16 MiB, and that bundle is accepted |
| `IterativeConsistency.VerifyIterative` | verification/ledger-consistency.mjs:174-199 | the two loops over index bits compute the specified iteration |
| `IterativeConsistency.RecursiveTop` | src/evidence_braid/consistency.py:245-257 | the last hash of a path belongs to the topmost split, in the recursive verifier |
| `IterativeConsistency.IterativeTop` | verification/ledger-consistency.mjs:174-199 | the bit loop, which never computes a split, obeys the same equation |
| `IterativeConsistency.VerifiersAgree` | verification/ledger-consistency.mjs:174-199 | for all counts and all paths, well formed or not, loop and recursion return the same roots or both refuse |
| `IterativeConsistency.SamePaths` | verification/ledger-consistency.mjs:174-199 | between a nonempty ledger and a longer one both programs accept the same paths |
| `IterativeConsistency.SameDecisions` | verification/ledger-consistency.mjs:155-202 | both programs decide every admitted proof alike, equal counts and empty prefixes included |
| `Query.PositionsExact` | src/evidence_braid/query.py:155-184 | scanning for a value lists, in order, exactly the positions that have it |
| `Query.AddEventExact` | src/evidence_braid/query.py:163-171 | adding an event extends exactly the posting lists of its own values |
| `Query.AddEventKeepsPostings` | src/evidence_braid/query.py:163-171 | after each event every posting list still equals the scan for its value |
| `Query.OpenIndex` | src/evidence_braid/query.py:137-184 | an index opens exactly when the whole chain verifies within its limits and the requested prefix has the expected head, and then its posting lists are exact |
| `Query.Select` | src/evidence_braid/query.py:251-286 | selection by unions and intersections of posting lists equals the naive AND-of-ORs scan with half-open times, in sequence order |
| `Query.SortedKeep` | src/evidence_braid/query.py:272-283 | sorting candidates and then filtering times is the naive scan |
| `Query.FillPage` | src/evidence_braid/query.py:326-339 | the page loop holds exactly the selected receipts from its first place on, in order, and stops where the limit or the byte budget says |
| `Query.ReadPage` | src/evidence_braid/query.py:317-351 | a page holds exactly the selected receipts of its range, in order, with the byte count and continuation of the specified page, or is refused |
| `Query.TokenResumes` | src/evidence_braid/query.py:288-327 | a page's own token leads exactly to where the page ended |
| `Query.PageRefused` | src/evidence_braid/query.py:324-336 | a page is refused exactly for unlawful limits or when the next receipt alone exceeds the budget |
| `Query.PageEndMaximal` | src/evidence_braid/query.py:330-339 | a page respects limit and budget and stops only because one more receipt would break them |
| `Query.PagesReassemble` | src/evidence_braid/query.py:300-351 | following tokens with any limits and budgets, as long as no page is refused, yields at each place the receipt at the selected position of that place, and within one page per receipt finishes with as many receipts as positions |
| `Query.PageExact` | src/evidence_braid/query.py:317-351 | a page starts at the first selected receipt not before the position its token was minted for, holds the receipts at the selected positions one by one, counts exactly their encoded bytes, keeps limit and budget, is never empty before the end, stops early only at a bound, and carries the token of the next receipt unless none is left |
| `Query.SelectionExact` | src/evidence_braid/query.py:251-286 | the selected positions are, ascending, exactly those of events meeting each wanted field, written out field by field, and each half-open time range |
| `Query.TokenBindsSelection` | src/evidence_braid/query.py:288-315 | a token accepted by another selection means the same ledger, query and positions, or a collision is computed |
| `Query.ReopenedPrefix` | src/evidence_braid/query.py:137-162 | a retained prefix can be reopened from any longer verified chain and is the same snapshot |
| `Query.ReopenedPages` | src/evidence_braid/query.py:300-351 | two indexes at one head accept the same tokens and give the same pages, or a collision is computed |
| `Workflow.ReplayWorkflow` | src/evidence_braid/workflow.py:337-449 | the replay loop over the claims dictionary is the transition fold, with the policy and head checks first |
| `Workflow.ReplayPrefix` | src/evidence_braid/workflow.py:356-449 | every prefix of an accepted history is accepted |
| `Workflow.FirstRefusal` | src/evidence_braid/workflow.py:356-449 | the first refused transition decides the answer whatever follows |
| `Workflow.AppendTransitions` | src/evidence_braid/workflow.py:227-244 | the append loop over the record list returns the specified bundle or nothing |
| `Workflow.IntactPrefix` | src/evidence_braid/workflow.py:112-149 | chain, reference and byte-limit integrity is prefix-closed |
| `Workflow.AuthorizedPrefix` | src/evidence_braid/workflow.py:337-449 | authorization is prefix-closed |
| `Workflow.AppendAdmits` | src/evidence_braid/workflow.py:227-244 | an append succeeds exactly when the extended bundle is intact and authorized as a whole |
| `Workflow.BatchInvariance` | src/evidence_braid/workflow.py:227-244 | appending a ++ b equals appending a and then b, in success, receipts and state |
| `Workflow.RefusedBatch` | src/evidence_braid/workflow.py:227-244 | one refused transition anywhere in a batch appends nothing |
| `WorkflowRecords.ReplayExact` | src/evidence_braid/workflow.py:356-449 | replay accepts a history exactly when every record is admissible given only the earlier records of its claim, and then each claim is the one those records describe: status, authors, references in order, approvals, revision |
| `WorkflowRecords.StatusFromRecords` | src/evidence_braid/workflow.py:424-448 | in every accepted run a claim is rejected exactly when some record rejects it, revoked exactly when some record revokes it, draft exactly when none submits it, and approved exactly when its approving records number the quorum and none revokes it |
| `WorkflowRecords.RevisionsExact` | src/evidence_braid/workflow.py:381-396 | every accepted record names as expected revision the number of earlier records of its claim, and a claim's revision is the number of its records |
| `WorkflowRecords.AuthorizeExact` | src/evidence_braid/workflow.py:337-449 | an intact bundle is authorized exactly when the policy and the expected head match and every record is admissible |
| `WorkflowChain.IntactIsBuilt` | src/evidence_braid/workflow.py:112-149 | a bundle is intact exactly when its evidence, artifacts and sizes are, its transitions are well shaped and distinct, and its receipts are those transitions chained in order from nothing |
| `WorkflowChain.HeadsDetermineBundles` | src/evidence_braid/workflow.py:152-167 | two intact bundles with one head are the same bundle, whatever their lengths, or a collision is computed |
| `WorkflowSafety.ApprovalSafety` | src/evidence_braid/workflow.py:255-449 | in every accepted run a claim is approved or revoked exactly with a quorum of distinct human approvers holding the scoped grant and disjoint from its authors, and every claim past draft has bound evidence and artifacts of its own claim and scope |
| `WorkflowSafety.ProvenanceExact` | src/evidence_braid/workflow.py:356-449 | a claim's approvers and authors are exactly the actors of its approving and authoring records |
| `WorkflowSafety.RevisionsAccountForRecords` | src/evidence_braid/workflow.py:311-326 | claim revisions sum to the record count |
| `WorkflowSafety.ConstructorsNeverFail` | src/evidence_braid/workflow.py:255-288 | no accepted history can trip the state constructors |
| `WorkflowSafety.SettledStaysSettled` | src/evidence_braid/workflow.py:356-449 | over whole runs status never goes back, approvals are never lost, and rejected or revoked claims never change again |
| `WorkflowStore.ReadDatabase` | src/evidence_braid/workflow_storage.py:571-746 | the read loop over the journal is the verification fold from genesis |
| `WorkflowStoreExact.ReadExact` | src/evidence_braid/workflow_storage.py:571-746 | a verified read succeeds exactly on databases within the limits, over an authorized workflow, whose every journal row is the one its receipts and its predecessor force, field by field, and returns exactly what the rows tell |
| `WorkflowStoreExact.RowsExact` | src/evidence_braid/workflow_storage.py:692-724 | row i of a readable store carries sequence i, its request and request digest, the previous checkpoint, the result count and head of its range, the previous row's digest, and the digest of that content |
| `WorkflowStoreExact.ReadInjective` | src/evidence_braid/workflow_storage.py:571-746 | two readable databases that read the same are the same in every stored field |
| `WorkflowStoreSafety.JournalPartitions` | src/evidence_braid/workflow_storage.py:571-746 | a readable database holds a journal that partitions the receipts after the initial ones into contiguous nonempty ranges ending at the stored checkpoint |
| `WorkflowStoreSafety.WriteReads` | src/evidence_braid/workflow_storage.py:842-885 | what append writes, read accepts under the same limits, with exactly one more entry |
| `WorkflowStoreSafety.AppendCallEffect` | src/evidence_braid/workflow_storage.py:830-889 | one call either changes nothing or takes the current checkpoint with exactly its commit |
| `WorkflowStoreExact.FreshWriteExact` | src/evidence_braid/workflow_storage.py:792-889 | a fresh request is written if and only if it is well formed, names the current checkpoint, extends the workflow to an intact and authorized bundle, and the database after it keeps every limit; the database then is that one, and it conflicts exactly on a stale or foreign checkpoint |
| `WorkflowStoreExact.CreateExact` | src/evidence_braid/workflow_storage.py:892-956 | a store is created exactly when the database of the initial bundle with an empty journal would be readable and the expected head matches |
| `WorkflowStoreSafety.StoreClosure` | src/evidence_braid/workflow_storage.py:892-956 | every database reached from creation by any calls is read back under the same limits and still starts with the initial bundle |
| `WorkflowStoreSafety.HistoricalNeverFails` | src/evidence_braid/workflow_storage.py:761-769 | rebuilding a past commit never fails: its bundle is intact, authorized and passes the commit constructor |
| `WorkflowStoreSafety.NewCommitValid` | src/evidence_braid/workflow_storage.py:163-197 | every returned commit passes the commit constructor |
| `WorkflowStoreSafety.CommittedStays` | src/evidence_braid/workflow_storage.py:761-790 | a committed request is found in every later database and rebuilt unchanged |
| `WorkflowStoreSafety.ExactlyOnce` | src/evidence_braid/workflow_storage.py:771-889 | after any later calls, re-issuing a committed request returns the original commit and changes nothing, and lookup agrees |
| `WorkflowStoreSafety.ReuseConflicts` | src/evidence_braid/workflow_storage.py:842-889 | a request ID with other input never executes in any later state, and conflicts when it is admissible, or a collision is computed |
| `WorkflowStoreSafety.RaceHasOneWinner` | src/evidence_braid/workflow_storage.py:842-885 | once a request committed from a checkpoint no other request ever writes from it |
| `WorkflowStoreSafety.CheckpointsUsedOnce` | src/evidence_braid/workflow_storage.py:571-746 | no two journal entries were written from one checkpoint |
| `StoreFaults.Run` | src/evidence_braid/workflow_storage.py:518-569 | for every placement of failures in connect, begin, action, commit, rollback and close: the durable state, the outcome ("unknown" exactly after a disturbed commit, "complete" exactly after an acknowledged one or a find, "none" otherwise), the class of exception raised, and a value exactly when nothing failed |
| `StoreFaults.AppendUnderFaults` | src/evidence_braid/workflow_storage.py:830-889 | an append leaves exactly the undisturbed result when its transaction survives and the old database otherwise, returns exactly when the undisturbed call succeeds and nothing failed, reports truthfully about the journal, and a returned commit is looked up from the durable state |
| `StoreFaults.LookupUnderFaults` | src/evidence_braid/workflow_storage.py:771-790 | a lookup never changes the store, returns exactly when the lookup itself succeeds and nothing failed, and then answers the durability question exactly |
| `StoreFaults.LookupIsTruthful` | src/evidence_braid/workflow_storage.py:771-790 | a successful lookup returns a commit exactly when the request is in the journal |
| `StoreFaults.LookupAfterUncertainAppend` | src/evidence_braid/workflow_storage.py:771-790 | after an append that may or may not be durable, lookup completes and finds it exactly when it is |
| `StoreFaults.RetryIsIdempotent` | src/evidence_braid/workflow_storage.py:830-889 | a retry from either possible state returns the same commit and leaves the same database |
| `StoreFaults.AppendOutcomes` | src/evidence_braid/workflow_storage.py:842-889 | every state an append transaction can leave is readable and has the request in its journal |
| `StoreFaults.FaultyHistory` | src/evidence_braid/workflow_storage.py:830-889 | a history of calls, each disturbed in its own way, leaves the database that exactly the calls whose transactions survived would have left undisturbed; each call returns exactly when it would have succeeded there and nothing failed; and every commit returned is still looked up at the end |
| `StoreFaults.CreateFile` | src/evidence_braid/workflow_storage.py:892-984 | creation never touches a foreign file; for every placement of failures the file is exactly absent, reserved or fully populated as stated, and it succeeds exactly when nothing failed |
| `EpistemicCase.ReplayCase` | src/evidence_braid/epistemic_case.py:743-850 | the replay loop over phase, plan, observation and verdict is the specified fold |
| `EpistemicCase.ReplayBacked` | src/evidence_braid/epistemic_case.py:743-850 | what a replayed phase carries is exactly what its records say |
| `EpistemicCase.CaseSafety` | src/evidence_braid/epistemic_case.py:743-850 | in every accepted case, wherever it stops, the parties so far are pairwise different, hold their scoped roles and are of the kinds that may (observers tools, evaluators no models, deciders humans or policies), every record carries the digests of those it answers, a verdict is the one the observation forces, and only a supported case can be approved |
| `EpistemicCase.CaseExact` | src/evidence_braid/epistemic_case.py:743-850 | and nothing else is refused: replay reaches a phase exactly when the records are those of that phase, with parties, links and judgement as above |
| `EpistemicCase.IntactIsBuilt` | src/evidence_braid/epistemic_case.py:569-648 | a journal is intact exactly when its records are well shaped, sizes fit, and its receipts are those records chained in order from the seed |
| `EpistemicCase.ExtendIntact` | src/evidence_braid/epistemic_case.py:709-740 | chaining a valid record keeps the journal intact within the byte limit |
| `EpistemicCase.JournalHeadsDetermine` | src/evidence_braid/epistemic_case.py:569-648 | two intact journals of one authority with one head are equal, whatever their lengths, or a collision is computed |
| `CaseStore.ReadDatabase` | src/evidence_braid/case_storage.py:557-840 | the scan loop over operations, pending claim and checkpoint is the verification fold |
| `CaseStoreExact.ReadExact` | src/evidence_braid/case_storage.py:557-840 | a verified read succeeds exactly on databases within the limits, over an accepted case of the expected plan, whose retained bytes hash to what the records commit to and whose every row is forced by its place, and returns exactly what they say |
| `CaseStoreExact.ReadInjective` | src/evidence_braid/case_storage.py:557-840 | two readable case databases that read the same are the same in every stored field |
| `CaseStore.SelectExact` | src/evidence_braid/case_observation.py:139-160 | an adapter is selected exactly when it is the one registered entry, and the only one, with the plan's identity and its observer holds the scoped authority |
| `CaseStoreSafety.ReadShape` | src/evidence_braid/case_storage.py:557-840 | a readable store has one plan, at most three operations, and retained bytes exactly as its records say |
| `CaseStoreSafety.ClaimReads` | src/evidence_braid/case_storage.py:869-1027 | a written claim is accepted by read, with exactly its commit added |
| `CaseStoreSafety.FinishReads` | src/evidence_braid/case_storage.py:869-1148 | a written completion is accepted by read, with exactly its commit added; what it stores is stated by `CaseStoreWrites.FinishExact` |
| `CaseStoreSafety.VerdictReads` | src/evidence_braid/case_storage.py:869-1181 | a written verdict is accepted by read, with exactly its commit added |
| `CaseStoreWrites.ClaimExact` | src/evidence_braid/case_storage.py:869-1027 | a claim is stored if and only if nothing has been stored, the snapshot is current, the registry selects an adapter and the result is readable; it names that adapter and adds nothing else; and when it conflicts |
| `CaseStoreWrites.FinishExact` | src/evidence_braid/case_storage.py:1029-1148 | a finish is stored if and only if its claim waits, the snapshot is current, the report is admissible, its ID is unused and the result is readable; the database then holds the claimed observer's observation with the reported status, error and output hash, over exactly the output kept; and when it conflicts |
| `CaseStoreWrites.VerdictExact` | src/evidence_braid/case_storage.py:1150-1181 | a verdict is stored if and only if the observation is, the snapshot is current, its ID is unused and the result is readable; it is the evaluator's, on the retained output; and when it conflicts |
| `CaseStoreWrites.FinishRecords` | src/evidence_braid/case_storage.py:1029-1148 | the commit of a finish keeps exactly the measured output, and its second receipt is an observation with the measured status and error, the hash of exactly that output, the call's request ID and the claimed key's observer |
| `CaseStoreWrites.CaseEndToEnd` | src/evidence_braid/case_storage.py:1011-1181 | over claim, finish and verdict: the selected tool observes, what is recorded is what was measured, and the verdict is Supported exactly when the measured output hashes to the prediction and Inconclusive exactly when there was none |
| `CaseStoreWrites.ObserverIsClaimed` | src/evidence_braid/case_storage.py:1066-1082 | in every database reached from creation the observation names the observer of the stored claim, although reading does not compare the two |
| `CaseStoreWrites.CreateExact` | src/evidence_braid/case_storage.py:1257-1310 | a case store is created exactly when the database of the plan and its two inputs with an empty journal would be readable |
| `CaseStoreSafety.PerformEffect` | src/evidence_braid/case_storage.py:869-975 | every call leaves a readable store and either changes nothing or adds exactly the commit it returns |
| `CaseStoreSafety.CaseClosure` | src/evidence_braid/case_storage.py:1257-1310 | every database reached from creation by any calls reads back |
| `CaseStoreSafety.CommitReadBack` | src/evidence_braid/case_storage.py:854-867 | a returned commit is looked up unchanged in every later state |
| `CaseStoreSafety.StalePreparationWritesNothing` | src/evidence_braid/case_storage.py:900-975 | a write prepared from a snapshot that has moved on writes nothing |
| `CaseStoreSafety.VerdictMatchesBytes` | src/evidence_braid/case_storage.py:1150-1181 | a stored verdict is SUPPORTED exactly when retained output hashes to the prediction, and INCONCLUSIVE exactly when no output is retained |
| `CaseFaults.RunCase` | src/evidence_braid/case_storage.py:501-548 | for every placement of failures: "none" exactly when nothing was handed to a commit, "complete" exactly when a commit was acknowledged, "unknown" exactly when one was disturbed, the durable state in each case, the class of exception by the first failure, and a value returned exactly when nothing failed |
| `CaseFaults.PerformUnderFaults` | src/evidence_braid/case_storage.py:869-975 | a claim, finish or verdict split into snapshot and write, with other clients between and faults in both, leaves exactly the undisturbed result when it was not overtaken and its write survived, returns exactly when nothing failed, and reports a truthful outcome; after "unknown" a lookup finds it exactly when it is durable, and a returned commit is always found |
| `CaseFaults.LookupUnderFaults` | src/evidence_braid/case_storage.py:854-867 | a lookup changes nothing, returns exactly when the lookup itself succeeds and nothing failed, and then answers the durability question exactly |
| `CaseExecution.WritesAppend` | src/evidence_braid/case_storage.py:900-975 | writes only append operations, and a claim only ever goes into an empty journal |
| `CaseExecution.AtMostOnce` | src/evidence_braid/case_storage.py:1199-1254 | over every interleaving of workers, crashes, restarts, uncertain commits and other clients a callback is entered at most once, only under a durable claim, and it is the adapter that claim names |
| `CaseExecution.EntryAfterDurableClaim` | src/evidence_braid/case_storage.py:1199-1254 | at the very step that enters a callback its claim is already durable, and the adapter the worker selected from its own registry is the one the claim names |
| `CaseExecution.ClaimedCanEnter` | src/evidence_braid/case_storage.py:1213-1222 | after an acknowledged claim the worker's second selection cannot fail |
| `CaseExecution.StrandedClaimIsFinal` | src/evidence_braid/case_storage.py:1199-1254 | once a claim is durable and nobody holds its acknowledgement, no future enters the callback |
| `CaseExecution.StoredIsReturned` | src/evidence_braid/case_storage.py:1199-1254 | over every interleaving from a fresh store, while no other client finishes the claim by hand, an observation is stored only after the one callback entry returned, by the claimed tool, and records exactly that result: the very bytes when they fit the output profile, else the kind of failure |
| `CaseExecution.RecordedReportable` | src/evidence_braid/case_storage.py:1219-1243 | every result a callback can have is one a finish admits |
| `Ordering.SameSort` | src/evidence_braid/engine.py:563-567 | sorting by a strict order on distinct keys forgets arrival order |
| `Ordering.TextLessExact` | src/evidence_braid/engine.py:563-567 | the order of identifiers: the first difference decides, and a proper prefix comes first |
| `Engine.CheckAdjudications` | src/evidence_braid/reliability.py:88-143 | the validation loops report the first failing rule over sorted identities |
| `Engine.TallyVerdicts` | src/evidence_braid/reliability.py:158-161 | the dictionary of verdict lists holds each source's identifiers in arrival order |
| `Engine.AdjustReliabilities` | src/evidence_braid/reliability.py:146-182 | one adjustment by the closed form per adjudicated source, in source order |
| `Engine.FillBuckets` | src/evidence_braid/grouping.py:61-64 | the buckets hold exactly the observations of each group and signal |
| `Engine.CollapseCorrelated` | src/evidence_braid/grouping.py:55-83 | the buckets, ranked and sorted, are the specified collapse |
| `Engine.GroupByClaim` | src/evidence_braid/engine.py:640-642 | the dictionary by claim holds exactly the considered events of each claim |
| `Engine.EvaluateStream` | src/evidence_braid/engine.py:611-667 | the evaluation procedure with its dictionaries is the specified evaluation, whose answers `Outcomes` states |
| `Outcomes.EvaluateConcludes` | src/evidence_braid/engine.py:483-583 | every decision of a successful evaluation, from the considered events of its claim: each group is voiced by its strongest event, a score is one minus the product of the voices' complements, a gate passes exactly by counted groups, sources, modalities and required ones, and the outcome is Escalate exactly when support alone passes gate, threshold and margin, Reject exactly when contradiction alone does, Review otherwise, with the reason; traces and correlation lines list exactly those events |
| `Outcomes.EvaluateAccepts` | src/evidence_braid/engine.py:586-608 | evaluation succeeds exactly on streams that meet the rules for events and adjudications, written out rule by rule |
| `Outcomes.EvaluateReports` | src/evidence_braid/engine.py:644-667 | the pending list is exactly the identifiers ingested later, in order, and there is exactly one adjustment per judged source, in order |
| `Outcomes.EventReportExact` | src/evidence_braid/engine.py:596-607 | a refusal names exactly the repeated identifiers, else exactly the claims that are not configured, else the first event observed too far ahead |
| `Outcomes.WeightExact` | src/evidence_braid/decay.py:33-56 | an event weighs confidence times reliability times decay over its nonnegative age, and the reliability is the applied adjustment exactly when updates are configured and its source was judged |
| `Outcomes.AdjustmentExact` | src/evidence_braid/reliability.py:162-182 | the posterior is the share of right judgements with the declared weight counted as prior ones, and the applied weight moves from the declared one to it by no more than the bound before rounding |
| `Outcomes.AdjustmentLists` | src/evidence_braid/reliability.py:158-175 | an adjustment lists exactly the known judgements of its source, by verdict |
| `EngineSafety.EventFailureExact` | src/evidence_braid/engine.py:586-608 | no complaint means exactly distinct identifiers, configured claims and no excess skew |
| `EngineSafety.ItemFailureExact` | src/evidence_braid/reliability.py:88-143 | no complaint means exactly configured updates, distinct identifiers, named sources, and no mismatched or premature judgement |
| `EngineSafety.AdjudicationFailureOrderFree` | src/evidence_braid/reliability.py:88-143 | complaints about adjudications never depend on arrival order |
| `EngineSafety.SkewReportDependsOnOrder` | src/evidence_braid/engine.py:601-607 | a failing input for order independence: with two skewed events, swapping them changes which one is reported |
| `EngineSafety.ReportOrderFreeExact` | src/evidence_braid/engine.py:586-608 | every order of an event stream gets the same report if and only if an earlier rule fails or at most one event is skewed |
| `EngineSafety.EvaluateOrderFree` | src/evidence_braid/engine.py:611-667 | under that condition permuting events and adjudications gives the same result or complaint; otherwise each order gets the skew complaint about its own first offender |
| `EngineSafety.EvaluateOrderFreeExact` | src/evidence_braid/engine.py:611-667 | evaluation is the same for every order of its inputs if and only if that condition holds |
| `EngineSafety.SameKnowledge` | src/evidence_braid/engine.py:611-667 | evaluation of valid streams succeeds and depends only on which events and adjudications are present |
| `EngineSafety.EvaluateTotal` | src/evidence_braid/decay.py:49-54 | evaluation succeeds exactly on valid streams, so the skew check while weighting can never fire |
| `EngineSafety.CollapseExact` | src/evidence_braid/grouping.py:55-83 | each group and signal appears once, in order, with its maximum by rounded confidence and then smallest identifier, and exactly the others suppressed |
| `EngineSafety.OutrankedChangesNothing` | src/evidence_braid/engine.py:483-583 | an observation outranked inside its group and signal changes neither summaries, margin, outcome nor reason of its claim |
| `EngineSafety.OutrankedEvent` | src/evidence_braid/engine.py:611-667 | the same for whole evaluations and every claim |
| `EngineSafety.EvaluateCounts` | src/evidence_braid/engine.py:423-432 | considered plus pending is the input count and every considered event is traced under exactly one claim |
| `EngineSafety.AdjustmentsOrderFree` | src/evidence_braid/reliability.py:146-182 | only which adjudications are known enters a weight |
| `Reliability.StableIsRounding` | src/evidence_braid/models.py:165-168 | the shared rounding is monotone, idempotent, odd and fixes 0 and 1 |
| `Reliability.TiesFollowParity` | src/evidence_braid/models.py:165-168 | rounding does not commute with moving by one step, because ties go to the even multiple |
| `Reliability.AdjustmentStaysBetween` | src/evidence_braid/reliability.py:162-182 | declared, posterior and applied weight stay in [0, 1], and the applied one between declared and posterior |
| `Reliability.AdjustmentBoundExact` | src/evidence_braid/reliability.py:166-177 | the applied weight is within max_adjustment if and only if the posterior is, or max_adjustment does not round past itself |
| `Reliability.AdjustmentBoundForPolicy` | src/evidence_braid/models.py:609-633 | in every successful evaluation a named source's weight stays within max_adjustment, if and only if max_adjustment does not round past itself or is too wide ever to bind |
| `Reliability.BoundExceeded` | src/evidence_braid/reliability.py:166-177 | a failing input, admitted and evaluated: one adjudication of a named source exceeds a bound of 6 * 10^-13 |
| `Ranges.DecideInRange` | src/evidence_braid/engine.py:483-583 | with weights in [0, 1] every score is in [0, 1], every margin in [-1, 1] and every traced number in its range |
| `Ranges.EvaluateInRange` | src/evidence_braid/engine.py:611-667 | evaluation succeeds exactly on valid streams, the numeric range checks of its result records included |
| `Replay.ReplayTotal` | src/evidence_braid/replay.py:12-44 | replay succeeds exactly on valid streams and gives one snapshot per boundary |
| `Replay.SnapshotIsEvaluation` | src/evidence_braid/replay.py:33-44 | every snapshot is the evaluation, at its own boundary, of exactly the events ingested and the adjudications made by then, in any order |
| `Replay.BoundariesExact` | src/evidence_braid/replay.py:33-35 | boundaries are exactly the ingestion and adjudication times, strictly ascending |
| `Replay.ReplayPrefixStable` | src/evidence_braid/replay.py:25-44 | two valid streams that agree up to t give the same snapshots up to t, whatever they add later |
| `Replay.LaterEvidenceChangesNothing` | src/evidence_braid/replay.py:25-44 | adding evidence dated after t leaves every earlier snapshot exactly as it was |
| `Archive.PackOfFields` | src/evidence_braid/artifacts.py:38-40 | packing unpacked record fields restores the bytes |
| `Archive.FieldsOfPack` | src/evidence_braid/artifacts.py:38-40 | unpacking packed fields restores the values within their widths |
| `Archive.AcceptedIsRendered` | src/evidence_braid/artifacts.py:309-418 | an accepted archive is byte for byte the rendering of its contents |
| `Archive.RenderedIsAccepted` | src/evidence_braid/artifacts.py:309-418 | every canonical rendering within the limits is accepted with exactly its members |
| `Archive.PreflightExact` | src/evidence_braid/artifacts.py:309-418 | acceptance with given members holds if and only if the archive is their canonical rendering |
| `Archive.SameMembersSameBytes` | src/evidence_braid/artifacts.py:309-418 | accepted archives with the same members, as names, payloads and CRC fields in any order, are byte-identical |
| `Archive.FootprintExact` | src/evidence_braid/artifacts.py:236-239 | the size formula counts exactly the member records and directory entries |
| `Archive.AcceptedTiles` | src/evidence_braid/artifacts.py:387-416 | members tile the archive from zero to the directory with no gap or overlap, and its length is the formula's |
| `Archive.Preflight` | src/evidence_braid/artifacts.py:309-418 | the procedure accepts exactly those archives and returns offset, frozen footer and inventory |
| `Archive.ScanDirectory` | src/evidence_braid/artifacts.py:331-409 | the loop over entries, next offset and object total computes the specified scan |
| `Archive.ArchiveView.Seek` | src/evidence_braid/artifacts.py:273-286 | seeks as in a file made of body and frozen footer, refusing negative targets |
| `Archive.ArchiveView.Read` | src/evidence_braid/artifacts.py:294-306 | reads exactly the bytes a file made of body and frozen footer would give, for every size and position |
| `Archive.Serve` | src/evidence_braid/artifacts.py:262-306 | every sequence of seeks and reads is answered as an in-memory file would answer it |
| `Archive.ServeArchive` | src/evidence_braid/artifacts.py:309-418 | after a successful preflight the view answers every sequence of seeks and reads as a file over the archive itself would |
| `RateLimit.RefillExact` | src/evidence_braid/workflow_service.py:83-86 | the refill capped at one second equals min(capacity, credit + elapsed * rate) |
| `RateLimit.Bucket.Refill` | src/evidence_braid/workflow_service.py:77-86 | the object's fields change as the value function says |
| `RateLimit.Service.constructor` | src/evidence_braid/workflow_service.py:165-167 | one full bucket of rate 4 per actor and one shared of rate 16 |
| `RateLimit.Service.Rate` | src/evidence_braid/workflow_service.py:355-364 | a request is admitted exactly when both refilled buckets hold a unit, and then takes one from each |
| `RateLimit.StepExact` | src/evidence_braid/workflow_service.py:355-364 | a request is admitted exactly when both refilled buckets hold a unit, takes that unit from both, takes nothing when refused, and never touches another actor's bucket |
| `RateLimit.AlwaysSane` | src/evidence_braid/workflow_service.py:77-86 | credits stay within [0, capacity] over every run, whatever the clock does |
| `RateLimit.SharedPotential` | src/evidence_braid/workflow_service.py:355-364 | units spent since any request plus the credit left are at most one capacity plus income |
| `RateLimit.ActorPotential` | src/evidence_braid/workflow_service.py:355-364 | the same for one actor while others interleave |
| `RateLimit.DualRateBound` | src/evidence_braid/workflow_service.py:355-364 | in every window of every run admissions are at most 4 + 4d/10^9 per actor and 16 + 16d/10^9 overall |
| `RateLimit.BurstOfFour` | src/evidence_braid/workflow_service.py:355-364 | the actor bound is attained: four admissions at one instant, then a refusal |

## Left out

- SQLite itself: tables are sequences and maps of rows and a transaction is one step, so out-of-order or missing primary keys, file identity, sidecar files, schema admission queries and pragmas are not part of this model.
- Canonical JSON text, base64 and duplicate-key parsing: encodings are lossless functions, and a stored blob that is not canonical cannot be represented.
- Digests are 32-byte values; their hexadecimal text is modelled only in the ledger's version 1 payload.
- Field-by-field validation of models, policies and authorities: carried as preconditions and validity predicates.
- Wire admission of proof documents, including the 20 MiB limit on a serialized membership bundle and the JavaScript programs' own parsing: only the shape, count, length and receipt-size rules of the parsed proof are modelled, and a receipt's own JSON admission (nodes, depth, integers, text) is one yes-or-no function.
- Normalization of query values (sorting and removing repetitions): queries arrive normalized.
- `build_ledger`, which sorts events by ingestion time and identifier, chains them from the genesis digest and returns the ledger, is not modelled; ledgers arrive built.
- `verify_artifacts` and the bundle loaders and writers of the workflow: single comparisons and file handling.
- The in-process lock held across the observation callback: at-most-once execution is proved without it.
- Cancellation and evidence publication around the observation callback (`run_observation`): in the execution model a callback returns bytes, is unavailable or fails.
- Which rule a refused transition is reported under: replay names it in the text of one exception, and only acceptance and the state after it are characterised.
- Case decisions beyond the journal: the case store keeps no decision record.
- Cleanup of a failed creation: identity checks before unlinking are one flag that may fail.
- Binary floating point: weights are real numbers, so the error of a float sum or product before the shared rounding is not modelled. The rounding is an arbitrary function except in Reliability, where it is written out; the decay factor is an arbitrary function throughout.
- Result documents, their digests, provenance graphs and reports built from evaluation results.
- CRC values and member decompression in archives: the CRC is an opaque field and the standard archive reader behind the view is not part of this model.
- Manifest, workflow and state cross-checks after the preflight of an artifact bundle: they reuse replay, which is modelled on its own.
- Sockets, HTTP framing, threads and shutdown of the local service.
