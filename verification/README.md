# A verified model of the review service

The service runs security reviews: authors fill in a checklist and attach encrypted evidence, a reviewer
passes verdicts, an approver decides. This project models the parts of it whose guarantees no finite number
of examples settles, and proves those guarantees for every input, every run or every reachable state. Code
that changes rows, tables or streams in place is modelled by classes whose methods are proved against
specification functions; what the service promises is then proved about those functions.

| file | part of the service |
|---|---|
| `Stream.dfy`, `StreamIO.dfy` | the chunked encrypted stream, its loops over readers and writers, the copy between two keys, the context an evidence file is bound to |
| `Workflow.dfy`, `WorkflowSafety.dfy`, `WorkflowMeaning.dfy`, `ReviewDesk.dfy` | the handlers that move one review, what every run of them keeps, what they mean to the people they serve, and the handlers as methods on the rows |
| `Completion.dfy` | the completion guard's counts and the list that explains them |
| `AuditChain.dfy` | the hash-chained audit log with its moving anchor |
| `JobQueue.dfy`, `JobTables.dfy`, `RetryBound.dfy` | the job queue with the malware-scan gate, its tables, and the life of one job in it |
| `ScanGate.dfy`, `GuardLink.dfy` | what the parts assume of one another: the review and the scanner running together; the completion guard of the workflow and that over joined rows |
| `MailRouting.dfy` | immediate mail, digests and the bell |
| `RateLimit.dfy`, `Lockout.dfy`, `Violations.dfy` | the fixed-window limiter, the account lockout, the bounded recorder |
| `Rules.dfy`, `RuleLaws.dfy` | the applicability rules: evaluation, validation, explanation, and the laws of their operators and groups |
| `Nonce.dfy` | the nonce on script tags |
| `Common.dfy` | options, minima, decimal digits |

`dafny verify dfyconfig.toml` checks all of it.

## What the proofs found

- **The bulk retry can strand a file.** It sets every file in error back to waiting but gives at most 500
  of them a new scan job. With more whose failed jobs were cleared away, one waits for ever
  (`JobQueue.BulkRetryLosesOne`), and any number of them can come about from an empty installation
  (`JobQueue.BulkRetryLosesOneInARun`); the gate survives a bulk retry exactly when at most 500 files have no
  scan job that is queued, running or failed (`JobQueue.BulkRetryExact`).
- **The hourly repair does not rescan files in error.** They get a job, but the worker sees a file that does
  not wait, completes the job, and the file is as lost as before: what an examination leaves lost is exactly
  a file in error without another active scan (`JobQueue.ErrorIsNotRescanned`). However many repairs follow,
  it stays in error until a retry, a new version, its deletion, or the end of a scan begun before
  (`JobQueue.ErrorStays`, exact, and `JobQueue.RepairsNeverRescan`), and such a file comes about from an
  empty installation (`JobQueue.RepairedAndStillLost`). The comment on the repair promises more than the code
  does; the model follows the code.
- **Verdicts depend on the clock only through answers.** A verdict is stamped no earlier than what it was
  passed on, and the guard sees that an answer overtook it only if the answer is stamped later. If the clock steps back
  between the two, or does not move, a review can be decided on a verdict nobody passed on its answer;
  `WorkflowSafety.SteppingClockSlipsThrough` is such a run from a new draft. The condition is exact,
  for a step and over runs (`WorkflowSafety.CapturedExactly`, `WorkflowSafety.CapturedThroughout`).
- **A handover can seat one person twice, and only a copied draft lets it.** With self-review off, no run
  ever brings requester and reviewer together (`WorkflowSafety.AlwaysApart`). But a copy takes over the
  reviewer of its source unchecked, so the reviewer who copies a review holds both seats of the copy, and
  only then (`WorkflowSafety.CopyIsApart`). Each seat of a handover is decided on the seats as they were, so
  that person passes both on (`WorkflowSafety.HandoverAndTwoSeats` says exactly when,
  `WorkflowSafety.CopiedDraftSeatsTwice` is such a draft), which the comment on the handler says cannot
  happen. The handlers that judge and decide still refuse that person.
- **A pending approval can have nobody who may decide it.** An administrator may hand it to its requester,
  the one step that brings these two together (`WorkflowSafety.StepOnApprover`); and an approver who once
  judged an item still counts as able. It can be decided exactly when the able approver is not the requester
  and wrote no verdict (`WorkflowSafety.PendingIsDecidable`), and both cases arise in runs from a new draft
  (`WorkflowSafety.ApprovalsGetStuck`); another reassignment frees it.
- **An approved review can say rejected.** With the approval step on, an approver who approves what the
  reviewer completed as rejected leaves an APPROVED review whose result is REJECTED; that is the only way
  (`WorkflowMeaning.ApprovedSaysRejected`), and it happens in a run from a new draft
  (`WorkflowMeaning.ApprovedThoughRejected`).
- **Required evidence can vanish from a review in progress**, in exactly one way: the scanner quarantines the
  last file of an item (`ScanGate.AttachedExactly`). It happens when a slow worker finishes after another
  has passed the file (`ScanGate.LateQuarantine`).
- **The completion list names two kinds of item the guard does not count**, and no others
  (`Completion.ListExplainsGuard`).
- **The rate limiter's burst is one less than twice the limit**, and reaches it
  (`RateLimit.BurstBound`, `RateLimit.BurstReached`).
- **The forty-condition cap can hide the condition that failed** (`Rules.CapHidesTheFailure`).

## Assumptions

- One handler, one transaction, one turn of a worker is one atomic step. Tables are maps; identifiers drawn
  at random are never drawn twice; there is one clock.
- AES-256-GCM (section 5.2 of RFC 5116) is a pair of functions. The round trip assumes only that what was
  sealed opens. Tamper rejection assumes the ideal behaviour of an authenticated cipher: exactly the logged
  frames open. `CryptoStream.IdealExists` shows that this assumption can be met for any files.
- SHA-256 is any function; only AuditChain.HeadCommits and AuditChain.HeadCommitsToEvents assume that no two texts share a hash.
- The state row of the audit chain starts at sequence 0 with an empty hash. The time evidence last moved is
  an arbitrary optional time stamp. The migrations that define them are not part of this model.

## Model

| member | source | states |
|---|---|---|
| CryptoStream.ChunkAADInjective | internal/cryptox/stream.go:148-159 | two chunks share their additional data only if file context, position (below 2^64) and finality agree |
| CryptoStream.RoundTrip | internal/cryptox/stream.go:41-135 | opening a sealed file gives back the plaintext without error, for every length including 0 and exact multiples of the chunk size, and every supported chunk size |
| CryptoStream.TamperRejected | internal/cryptox/stream.go:87-158 | for files sealed under one key with distinct contexts, any byte string offered for file j is accepted if and only if it is that file's own frames behind a header whose chunk size is the original one (or, for a single-frame file, any supported size above its length); accepted or not, what is released is a prefix of the plaintext |
| CryptoStream.IdealExists | internal/cryptox/stream.go:160-166 | the cipher assumption of tamper rejection can be met for any set of files and any sealing function that adds a tag |
| CryptoStream.Layout | internal/cryptox/stream.go:148-159 | byte for byte: the magic, the chunk size in four bytes and the chunk number in eight, most significant first, and the final marker |
| CryptoStream.TruncationIsNamed | internal/cryptox/stream.go:87-135 | a sealed file cut short at any byte is refused, the error says whether the cut fell between two frames, inside a nonce, inside a chunk or inside the header, and exactly the whole chunks before it are released |
| StreamIO.SealStream | internal/cryptox/stream.go:41-82 | the sealing loop succeeds exactly when the key has 32 bytes, the source does not fail and everything fits; it then has written the sealed file of all the source held, and returns its length and digest |
| StreamIO.SealNext | internal/cryptox/stream.go:56-80 | one pass reads a chunk and writes its frame, keeping "written so far plus frames still owed" constant; the empty last frame of an exact multiple is written |
| StreamIO.OpenStream | internal/cryptox/stream.go:85-135 | the opening loop releases exactly what the specification releases and fails with the same error, or a prefix of it when the destination runs out of room |
| StreamIO.CopyEvidence | internal/web/evidence.go:676-689 | a copy completes only if the source opened to its end, and then the destination holds the sealed file of the source's plaintext; with room it completes exactly then |
| StreamIO.CopyPreserves | internal/web/evidence.go:676-689 | the copy of a sealed file opens, under its own key and context, to the original plaintext |
| StreamIO.EvidenceContextInjective | internal/vault/vault.go:37-39 | no two (evidence, version) pairs share a context, whatever characters an identifier contains |
| StreamIO.ContextReads | internal/vault/vault.go:37-39 | the context is "evidence:", the identifier, a colon, and digits that read as the version |
| StreamIO.VaultContextsDistinct | internal/vault/vault.go:37-39 | distinct (evidence, version) pairs meet the condition on contexts that tamper rejection needs |
| WorkflowSafety.DecisionsRestOnCurrentAnswers | internal/web/reviews.go:1154-1164 | over every run whose answers are stamped later than the verdicts they overtake: in APPROVAL_PENDING, APPROVED, REJECTED and CLOSED every item has a non-empty verdict, and the answer it captured equals the answer that stands |
| WorkflowSafety.CapturedExactly | internal/web/reviews.go:1791-1803 | a step keeps "a verdict no older than the answer captured this answer" if and only if every answer it stamps with other contents is stamped later than its verdict |
| WorkflowSafety.CapturedThroughout | internal/web/reviews.go:1791-1803 | over runs: verdicts are honest at every point of a run if and only if every answer in it is stamped later than the verdict it overtakes |
| WorkflowSafety.ForwardClockSuffices | internal/web/reviews.go:1791-1803 | a clock that moves strictly forward with every event, with no evidence touched in the future, meets that condition over every run |
| WorkflowSafety.SteppingClockSlipsThrough | internal/web/reviews.go:1309-1329 | under any settings, a concrete run from a new draft, through submission, verdict, correction, resubmission and completion, with a clock that steps back once, in which the review is decided on a verdict passed on another answer |
| WorkflowSafety.JudgingClearsStaleness | internal/web/reviews.go:1791-1803 | judging an item again always makes its verdict current, whatever the clock says |
| WorkflowSafety.JudgedAllCanComplete | internal/web/reviews.go:2276-2288 | a reviewer who judges every item over again, all corrections verified, passes the completion guard |
| WorkflowSafety.ApprovalIsASecondLook | internal/web/reviews.go:2691-2778 | approval on and self-review off: over every run, in APPROVED, REJECTED and CLOSED the named approver is the latest decider and is neither requester nor reviewer nor author of any verdict, even after later transfers |
| WorkflowSafety.StepOnSeats | internal/web/reviews.go:820-879 | how a settled review can change hands: only its requester, and never to its reviewer or approver; and how it got there |
| WorkflowSafety.NobodyJudgesTheirOwn | internal/web/reviews.go:3126-3138 | with self-review off every verdict is written during the review, by the review's reviewer, who holds the role and is not its requester |
| WorkflowSafety.HandoverAndTwoSeats | internal/web/admin.go:1180-1227 | a handover keeps requester and reviewer, and requester and approver, apart when they were apart; who held both seats of a pair passes both on exactly when the new owner holds both roles and is not in the third seat |
| WorkflowSafety.AlwaysApart | internal/web/reviews.go:820-879 | with self-review off, over every run: a requester and a reviewer who are two people stay two people |
| WorkflowSafety.CopyIsApart | internal/web/reviews.go:3028-3052 | a copied draft has two people in the two seats, over every run that follows, unless the reviewer of the source made the copy; then it has one from the start |
| WorkflowSafety.CopiedDraftSeatsTwice | internal/web/admin.go:1180-1227 | a concrete copied draft, from a source whose seats were apart, after whose handover the new owner is requester and reviewer |
| WorkflowSafety.StepOnApprover | internal/web/reviews.go:884-895 | with self-review off, a step brings requester and approver together if and only if an administrator hands a pending approval to its requester |
| WorkflowSafety.AlwaysApproverApart | internal/web/reviews.go:884-895 | over every run without that step a requester and an approver who are two people stay two people |
| WorkflowSafety.PendingIsDecidable | internal/web/reviews.go:2731-2778 | with self-review off, a pending approval whose named approver is able can be decided by somebody, either way, if and only if that approver is not the requester and wrote none of the verdicts |
| WorkflowSafety.ApprovalsGetStuck | internal/web/reviews.go:884-895 | two concrete runs from a new draft into a pending approval with an able approver that nobody may decide: handed to the requester, and handed to a former reviewer who judged |
| WorkflowSafety.CorrectionsCloseFirst | internal/web/reviews.go:2276-2288 | over every run OPEN change requests exist only in CHANGE_REQUESTED and CANCELLED, and in APPROVAL_PENDING, APPROVED, REJECTED and CLOSED all are VERIFIED |
| WorkflowSafety.StepOnChange | internal/web/reviews.go:2244-2261 | no step makes a change request disappear or changes its item; it moves only OPEN to DONE to VERIFIED or OPEN to VERIFIED; a new one is OPEN and takes the review from REVIEWING to CHANGE_REQUESTED |
| WorkflowSafety.ReviewersSeeCompleteReviews | internal/web/reviews.go:1498-1571 | over every run, from submission until the review is handed back or cancelled, every answer is complete and no undeleted file is unscanned, if files become unscanned only while the author may edit (which ScanGate.NothingUnscannedInReview proves of the scanner) |
| WorkflowSafety.StepIntoDecision | internal/web/reviews.go:2418-2480 | the only way into a decision is past the completion guard |
| WorkflowSafety.StepIntoReview | internal/web/reviews.go:1406-1470 | the only way into the review is past the submission guard |
| WorkflowSafety.StepOnStatus | internal/web/reviews.go:2562-2612 | CLOSED and CANCELLED are final, and no step changes the status and an item together |
| WorkflowSafety.NoLostUpdate | internal/web/reviews.go:1351-1372 | of two editors who loaded the same version of an answer only the first to save is accepted |
| WorkflowSafety.StepKeeps | internal/web/reviews.go:1406-1470 | every event, whoever sends it, keeps the three promises together: complete and scanned while in review, corrections closed before a decision, and, with approval on and self-review off, a second look at every settled review |
| WorkflowMeaning.StatusMachine | internal/web/reviews.go:1406-1717 | a review changes its status along the listed edges only: which event of whom, in which seat and role, leads from which status to which |
| WorkflowMeaning.EdgesAreOpen | internal/web/reviews.go:1698-1717 | every edge of beginning, withdrawing, reopening, closing, deciding and cancelling can be gone by whoever it belongs to |
| WorkflowMeaning.GuardedEdgesAreOpen | internal/web/reviews.go:2418-2480 | submission and completion are refused for nothing but their guards and inputs |
| WorkflowMeaning.LastVerdictStands | internal/web/reviews.go:1950-2002 | over every run the verdict that stands on an item is the one last chosen for it by an accepted event, and its author is who chose it |
| WorkflowMeaning.LastAnswerStands | internal/web/reviews.go:1273-1345 | over every run the answer that stands on an item is the one last given to it, whatever was assigned, handed over, judged or released in between; a bulk answer leaves the typed part |
| WorkflowMeaning.WhoMayWrite | internal/web/reviews.go:1273-1345 | answers and assignments are accepted exactly from authors in an editable review, to rows that are still as loaded, for people who can open the review; verdicts exactly from its reviewer during the review |
| WorkflowMeaning.WhoMovesCorrections | internal/web/reviews.go:2210-2261 | only the reviewer adds or verifies a correction, only its assignee or an author has it done, only a handover changes its assignee |
| WorkflowMeaning.BulkCorrections | internal/web/reviews.go:2009-2098 | a bulk request puts every listed item of the review under correction and asks nothing twice |
| WorkflowMeaning.WhoMovesSeats | internal/web/reviews.go:703-895 | whoever newly sits in a seat holds its role and was put there by the owner, an author, an administrator, or took a free seat |
| WorkflowMeaning.WhoMayBeNamed | internal/web/reviews.go:703-793 | an author may name exactly those who are able and, with self-review off, no requester and no one person twice |
| WorkflowMeaning.HandoverPassesOn | internal/web/admin.go:1119-1262 | a handover passes every seat it can and no other; then, if the new owner can open the review, no answer and no unverified correction stays with the one who leaves, and everybody else keeps theirs |
| WorkflowMeaning.ClosingReleases | internal/web/admin.go:255-275 | an account closed by an administrator keeps no answer of an open review |
| WorkflowMeaning.LockOnlyCloses | internal/auth/auth.go:781-815 | the lock after long absence closes a privileged account and takes no work from it |
| WorkflowMeaning.OnlyUnusedLeave | internal/web/reviews.go:2953-3026 | what leaves the item list of a draft was never answered and has no file |
| WorkflowMeaning.AddedBlank | internal/web/reviews.go:2953-3026 | what joins it is blank and required as asked for |
| WorkflowMeaning.ActorsCanSee | internal/web/reviews.go:3094-3138 | whoever acts on a review by part or role may open it |
| WorkflowMeaning.ResultAlwaysFits | internal/web/reviews.go:2418-2480 | over every run a decided review has a final result, a rejected one says rejected, and without the approval step an approved one does not |
| WorkflowMeaning.ApprovedSaysRejected | internal/web/reviews.go:2771-2771 | a review that becomes approved says rejected if and only if it was completed as rejected and the approver approved it |
| WorkflowMeaning.ApprovedThoughRejected | internal/web/reviews.go:2771-2771 | a concrete run from a new draft into such a review |
| WorkflowMeaning.AnswersThatCount | internal/web/reviews.go:1295-1306 | yes and no count as they are, not applicable exactly with a reason that trimming leaves something of |
| ScanGate.NothingUnscannedInReview | internal/scanner/worker.go:80-178 | the review and the scanner interleaved in any order, with stale workers, repairs and retries, from a new draft: from submission until the review is handed back or cancelled, every answer is complete and every undeleted file on it has passed the scanner |
| ScanGate.QueueIsEvidenceEvent | internal/scanner/worker.go:216-238 | every step of the queue but an upload or a new version changes the counts of an item in a way the workflow accepts in every status: it never adds a file that has not passed |
| ScanGate.QuarantineOnlyRemoves | internal/scanner/worker.go:150-178 | every step of the queue but an upload, a new version or a deletion leaves exactly the undeleted files of an item that were there, less the one it quarantines |
| ScanGate.AttachedExactly | internal/scanner/worker.go:150-178 | a move leaves a review in progress or decided, all of whose items had the evidence they need, without some of it if and only if it is a quarantine of the last file of such an item |
| ScanGate.EvidenceStaysAttached | internal/web/reviews.go:1498-1571 | over every interleaving from a new draft without such a quarantine, from submission until the review is handed back or cancelled, every item has the evidence it needs |
| ScanGate.LateQuarantine | internal/scanner/worker.go:150-178 | a concrete run from a new draft and an empty queue in which a slow worker quarantines the only file after another has passed it and the review was handed in |
| GuardLink.GuardsAgree | internal/web/reviews.go:2276-2288 | the guard of the workflow lets a review through exactly when the three counts over the joined rows of that review, listed in any order, are all zero |
| ReviewDesk.Desk.SubmitReview | internal/web/reviews.go:1406-1470 | keeps the three promises of StepKeeps and steps as the event machine does; accepted, every item is answered, reasoned, typed as its question wants and evidenced, no file is unscanned, no correction open, and the seats the settings ask for are filled; refused, nothing changed |
| ReviewDesk.Desk.SaveResponse | internal/web/reviews.go:1273-1345 | keeps the three promises of StepKeeps and steps as the event machine does; accepted, the item has the answer, the assignee and its old verdict and nothing else moved; an editor whose version is no longer the stored one is refused; verdicts that were honest stay so exactly when the answer is stamped later than the verdict it overtakes |
| ReviewDesk.Desk.BulkSaveResponses | internal/web/account.go:202-283 | keeps the three promises of StepKeeps and steps as the event machine does; accepted, the bulk answer and its assignee stand on every listed item that had none or may be overwritten, typed answers stand in any case, and no verdict and no other item changed; honesty of verdicts as for a single answer |
| ReviewDesk.Desk.BulkAssign | internal/web/account.go:288-314 | keeps the three promises of StepKeeps and steps as the event machine does; accepted, the listed items have the assignee, and no answer and no verdict changed; since the stamps move, verdicts that were honest stay so exactly when the condition on stamps holds |
| ReviewDesk.Desk.UpdateItems | internal/web/account.go:267-276 | the loop over the listed rows ends with exactly those changed, each once, by the given function |
| ReviewDesk.Desk.BeginReview | internal/web/reviews.go:1698-1717 | keeps the three promises of StepKeeps and steps as the event machine does; accepted, the caller is the reviewer, also in place of one who can no longer act, may go on to judge, and no item changed |
| ReviewDesk.Desk.SaveReviewResult | internal/web/reviews.go:1950-2002 | keeps the three promises of StepKeeps and steps as the event machine does; accepted, the verdict chosen, by the caller, on the answer that stands, is on the item, current whatever the clock says, and nothing else moved; with self-review off the caller is not the requester |
| ReviewDesk.Desk.BulkSaveReviewResults | internal/web/reviews.go:1727-1789 | keeps the three promises of StepKeeps and steps as the event machine does; accepted, the verdict chosen, by the caller, on the answer that stands, is on every listed item that had none or may be overwritten, and not stale; nothing else moved |
| ReviewDesk.Desk.CreateChangeRequest | internal/web/reviews.go:2141-2208 | keeps the three promises of StepKeeps and steps as the event machine does; accepted, the item has an open correction for the named assignee and the requester may edit again; no other correction disappears or moves back |
| ReviewDesk.Desk.UpdateChangeRequest | internal/web/reviews.go:2210-2261 | keeps the three promises of StepKeeps and steps as the event machine does; accepted, the correction moved forward to the status asked for, verified by the reviewer only, done by its assignee or an author only; none disappears or moves back |
| ReviewDesk.Desk.CompleteReview | internal/web/reviews.go:2418-2480 | keeps the three promises of StepKeeps and steps as the event machine does; accepted, the final result is on record, every correction is verified and, if verdicts were honest before, every item is judged on the answer that stands; the approval step follows exactly when it is on, and without it the review is rejected exactly when the result says so |
| ReviewDesk.Desk.WithdrawApproval | internal/web/reviews.go:2511-2553 | keeps the three promises of StepKeeps and steps as the event machine does; accepted, the review is in progress again and the caller may go on with it, at once or by beginning it; items, corrections and earlier decisions stand |
| ReviewDesk.Desk.ReopenRejectedReview | internal/web/reviews.go:2627-2670 | keeps the three promises of StepKeeps and steps as the event machine does; accepted, the review was rejected and its requester may edit it; items, corrections and the decision on record stand |
| ReviewDesk.Desk.CloseReview | internal/web/reviews.go:2672-2681 | keeps the three promises of StepKeeps and steps as the event machine does; accepted, the review was decided, its reviewer closed it, and no event at all takes it out of CLOSED |
| ReviewDesk.Desk.DecideApproval | internal/web/reviews.go:2731-2801 | keeps the three promises of StepKeeps and steps as the event machine does; accepted, the caller is the approver on record and the decision is the last of the history; with self-review off the caller is neither requester nor reviewer nor author of any verdict |
| ReviewDesk.Desk.CancelReview | internal/web/reviews.go:2562-2618 | keeps the three promises of StepKeeps and steps as the event machine does; accepted, the review was undecided, its requester cancelled it, and no event at all takes it out of CANCELLED |
| ReviewDesk.Desk.TransferRequester | internal/web/reviews.go:820-879 | keeps the three promises of StepKeeps and steps as the event machine does; accepted, the requester is somebody else and nothing else changed; with self-review off the new one holds neither other seat |
| ReviewDesk.Desk.UpdateReviewRequest | internal/web/reviews.go:703-793 | keeps the three promises of StepKeeps and steps as the event machine does; accepted, who was named holds the role, and while the author edits a named reviewer can act and, with self-review off, neither is the requester and both are not one person; outside editing only a pending approval can be reassigned, and the reviewer stays |
| ReviewDesk.Desk.HandoverUserWork | internal/web/admin.go:1119-1262 | keeps the three promises of StepKeeps and steps as the event machine does; no answer and no verdict changes, and with self-review off requester and reviewer, and requester and approver, stay apart if they were |
| Completion.ListExplainsGuard | internal/web/reviews.go:2276-2345 | for any rows on any revision: an empty list means all three counts are zero; and the list is non-empty exactly when the guard refuses, or an item without an answer has a verdict older than its evidence, or a current item has an unverified change request filed under another review |
| Completion.ChangesExplained | internal/web/reviews.go:2335-2343 | an open change request of the review is orphaned or hangs off a current item |
| Completion.ListIsExact | internal/web/reviews.go:2294-2345 | a line for every current item that has something to say and no other, saying exactly whether it lacks a verdict, how many open corrections it has and whether its verdict is stale; and one for the open corrections that belong to no current item |
| Completion.CurrentIsNewest | internal/web/reviews.go:2276-2288 | the current items are those of the newest revision |
| Completion.CountIsSize | internal/web/reviews.go:2276-2288 | a count counts every row that is meant exactly once |
| Completion.ReviewBlockers | internal/web/reviews.go:2276-2288 | whenever a count is positive the list is not empty |
| Completion.CompletionBlockingItems | internal/web/reviews.go:2294-2345 | the loop builds the list of the specification, and an empty result means the guard does not refuse |
| AuditChain.WalkExact | internal/store/audit_verify.go:50-72 | the walk ends clean exactly on a gapless, linked and hashed chain; otherwise it names the first offending row, says whether its place or its hash is wrong, and has counted the rows up to it |
| AuditChain.AcceptsExactly | internal/store/audit_verify.go:43-81 | a full verification accepts exactly the tables whose sequence numbers run 1, 2, ... without a gap, linked and hashed, up to the recorded head |
| AuditChain.RejectionIsNamed | internal/store/audit_verify.go:43-81 | a full verification of rows numbered from a positive number that does not accept names the first row out of place or wrongly hashed, with its reason and count, or, all rows being in order, the head |
| AuditChain.IncrementalEqualsFull | internal/store/audit_verify.go:29-88 | on any table whose rows up to the anchor walk clean and end in its hash, the check from the anchor and the full check agree on verdict, head and first offending row, and their counts differ by exactly the anchor's sequence |
| AuditChain.AlwaysInvariant | internal/store/store.go:515-551 | over every interleaving of appends, verifications and anchor moves the log is gapless from 1, linked and hashed, the head is its last row, and the anchor is empty or the true (sequence, hash) of a row |
| AuditChain.RejectsOnlyOnRace | internal/store/audit_verify.go:43-81 | over every run, on a log nobody edited: a verification accepts if and only if no event was appended between the step in which it read the rows and the step in which it read the head |
| AuditChain.UntouchedLogVerifies | internal/maintenance/worker.go:153-186 | in any reachable state a check that reads rows and head together accepts, from the anchor and from the beginning |
| AuditChain.PayloadHoldsTheEvent | internal/store/store.go:515-541 | split at its bars, the payload of an event without bars is its number, its ten fields in order, no result read as success, and the hash of its predecessor |
| AuditChain.PayloadIsLinked | internal/store/store.go:540-541 | any payload begins with its number and ends in the hash of its predecessor |
| AuditChain.HeadCommits | internal/store/store.go:540-551 | if no two texts share a hash, logs with the same head were written with the same payloads, row by row |
| AuditChain.HeadCommitsToEvents | internal/store/store.go:540-551 | and, of events without bars, with the same events |
| AuditChain.AuditStore.AppendAudit | internal/store/store.go:515-551 | the transaction appends one row and moves the head to it; the row's payload begins with its number, ends in the old head and holds the event field by field; on a true log the result is a true log that verifies from the beginning and from every earlier true (sequence, hash) point |
| AuditChain.AuditStore.VerifyAuditChain | internal/store/audit_verify.go:43-81 | the verification loop returns what the specification says |
| AuditChain.AuditStore.RoutineCheck | internal/maintenance/worker.go:153-186 | the anchor moves only over rows that were read and proved, and stays on a break |
| JobQueue.GateAlwaysHolds | internal/scanner/worker.go:42-178 | over every interleaving of uploads, new versions, claims, scans, failures, crashes, requeues, retries and deletions, with stale workers acting late, every undeleted file that waits for a scan has a PENDING or RUNNING job, if each bulk retry meets its condition |
| JobQueue.GateHoldsFromStart | internal/scanner/worker.go:42-178 | so over every such run from an empty installation |
| JobQueue.StepKeepsGate | internal/scanner/worker.go:216-238 | every step but the bulk retry keeps that, unconditionally |
| JobQueue.BulkRetryExact | internal/web/admin.go:1095-1109 | the bulk retry ends with the gate intact if and only if at most 500 files have no scan job that is queued, running or failed |
| JobQueue.BulkRetryLosesOne | internal/web/admin.go:1095-1109 | with any number above 500 of files in error and no jobs left the gate is intact, and every outcome of the bulk retry breaks it |
| JobQueue.BulkRetryLosesOneInARun | internal/web/admin.go:1095-1109 | for every number above 500 a run from an empty installation into that state, by uploads, failures and the clean-up of old jobs |
| JobQueue.RequeueRepairs | internal/maintenance/worker.go:916-933 | from any state one pass over at most 500 lost files gives each of them a job; over more it leaves exactly the overhang |
| JobQueue.RequeuePossible | internal/maintenance/worker.go:916-933 | the insert can be made in every state |
| JobQueue.ErrorIsNotRescanned | internal/scanner/worker.go:91-100 | a worker's examination leaves a file lost if and only if the file is in error and has no other active scan job; so a file in error that was given a job is not scanned |
| JobQueue.ErrorStays | internal/maintenance/worker.go:916-933 | a step leaves a file in error if and only if it is none of: the bulk retry, a retry of its job, a new version, its deletion, the end of a scan of it begun before |
| JobQueue.RepairsNeverRescan | internal/maintenance/worker.go:916-933 | over every run without such a step, whatever repairs, claims and examinations it holds, the file stays in error |
| JobQueue.RepairedAndStillLost | internal/maintenance/worker.go:916-933 | a concrete run from an empty installation: five failed scans, clean-up of the failed job, the hourly repair, a claim and an examination, after which the file is in error and lost |
| JobQueue.PassedStaysPassed | internal/scanner/worker.go:130-178 | a file that passed the scanner, or is deleted, stays so through every step but a new version of it |
| JobQueue.OnlyOldJobsGo | internal/maintenance/worker.go:102-102 | cleaning up takes only jobs that are over and have not been touched for as many days as their kind is kept |
| JobTables.Tables.Claim | internal/scanner/worker.go:70-78 | claims the oldest due job and nothing else, or finds none due |
| JobTables.Tables.ScanNext | internal/scanner/worker.go:42-130 | one turn is a claim, an examination and a verdict or failure of the queue's machine: the claimed job's file becomes clean, infected and deleted, skipped, or after the fifth failure in error, as the scanner said, if it was waiting; its job is completed, given up or due later; every other job and file is as before |
| JobTables.Tables.StoreFile | internal/web/evidence.go:99-110 | a stored file that has to be scanned has a job that is due at once |
| JobTables.Tables.Fail | internal/scanner/worker.go:216-238 | keeps the gate; at the fifth attempt the job is given up and leaves no file waiting, before that it is due again after exactly its backoff, which is at least two minutes |
| JobTables.Tables.RequeueLostScans | internal/web/admin.go:1078-1091 | inserts one job for each of up to 500 lost files, and leaves exactly the overhang |
| JobTables.Tables.RetryFailedJobs | internal/web/admin.go:1095-1109 | the three statements do what the specification says, and the gate holds afterwards exactly under the condition |
| JobTables.Tables.RequeueAbandoned | internal/maintenance/worker.go:279-291 | exactly the jobs of the given kinds whose lock is older than the window are due again at once, with the attempts they had |
| JobTables.Tables.RetryJob | internal/web/admin.go:1053-1072 | keeps the gate; found exactly when the job is neither completed nor running under a lock of fifteen minutes or less; then it is due at once with all its attempts, and a file in error it scans is neither in error nor lost; otherwise nothing changes |
| JobTables.Tables.Poll | internal/scanner/worker.go:42-68 | a tick keeps the gate and stops before five jobs only when none is due; a file that turns clean, skipped, infected, deleted or in error was waiting, and the scanner said so of some file in the tick |
| RetryBound.RetriesAreBounded | internal/notify/worker.go:300-313 | without an administrator's retry a job fails at most five times, FAILED implies at least five attempts, RUNNING holds exactly while a lock time is set, and whatever follows a failed attempt k follows it by its backoff |
| RetryBound.FifthAfterHalfAnHour | internal/notify/worker.go:305-313 | when attempts one to four fail, the fifth begins at least thirty minutes after the first failure |
| RetryBound.QueueFollowsLife | internal/scanner/worker.go:42-78 | along every run of the queue that leaves a job alone (no retry or deletion of it, its lock taken only from a worker that is gone), the job and the worker holding it are those of such a life, with the same claims and failures at the same times |
| RetryBound.QueuedJobIsBounded | internal/scanner/worker.go:216-238 | so in the queue itself, from its creation on: at most five failures, FAILED only after five attempts, RUNNING exactly while a lock time is set, and whatever follows a failed attempt k in the run follows it by its backoff |
| RetryBound.QueuedFifthAfterHalfAnHour | internal/scanner/worker.go:216-238 | in the queue itself, when attempts one to four of a job fail, its fifth claim comes at least thirty minutes after the first failure |
| MailRouting.RoutingIsExclusive | internal/notify/worker.go:128-198 | over every run no notification has both a send job and a place in a digest, none is in a digest after one that was marked, and while marking succeeds all digests are disjoint |
| MailRouting.MarksExactly | internal/notify/worker.go:184-193 | a sent digest stamps exactly the notifications it contained |
| MailRouting.StampedIsFinal | internal/notify/worker.go:154-154 | what is stamped stays stamped and is never selected |
| MailRouting.UnmarkedRepeats | internal/notify/worker.go:184-193 | a digest that could not be marked is selected once more, unchanged |
| MailRouting.NotifyFates | internal/store/notify.go:75-125 | exactly which notifications are left to a digest, and that a send job comes with the stamp |
| MailRouting.NotifyMeans | internal/store/notify.go:75-125 | the new notification says what was asked for, and has a send job exactly when nothing in the settings, the preferences or its origin holds it back |
| MailRouting.DigestTakes | internal/notify/worker.go:154-178 | a digest contains only the reader's own unmailed, unmuted and allowed notifications, and leaves one of these out only when it has two hundred that are no younger |
| MailRouting.DeliverMeans | internal/notify/worker.go:272-278 | a delivered mail stamps its own notification, once, and nothing else |
| MailRouting.Notifications.NotifyTx | internal/store/notify.go:75-98 | the transaction leaves the tables as specified, branch by branch |
| MailRouting.Notifications.Collect | internal/notify/worker.go:154-178 | the digest contains the 200 oldest candidates, oldest first, each once |
| MailRouting.Notifications.SendDigest | internal/notify/worker.go:128-198 | one recipient's digest is one selection and one send of the machine, or there was nothing to send |
| RateLimit.BurstBound | internal/web/server.go:702-717 | with a fixed limit and a clock that does not step back, at most 2 * limit - 1 requests of a key are allowed in any half-open minute while the cap does not reset the table |
| RateLimit.BurstReached | internal/web/server.go:702-717 | the limiter itself, sweeps included, allows exactly 2 * limit - 1 requests in some half-open minute, for every limit |
| RateLimit.SweepIsInvisible | internal/web/server.go:740-753 | until the cap resets the table every answer equals that of a limiter that never sweeps |
| RateLimit.NeverOverTheCap | internal/web/server.go:740-753 | the table never holds more than 50000 entries |
| RateLimit.BlockedIsRefusal | internal/web/server.go:719-726 | a key is blocked exactly when its next request would be refused, and asking counts nothing |
| RateLimit.RecordCounts | internal/web/server.go:728-738 | recording counts what a request counts, and no other key notices |
| RateLimit.BlockedAfterLimit | internal/web/server.go:719-738 | a key without a running window is blocked from the limit-th event on, until a minute after the first |
| RateLimit.SweptOnceAMinute | internal/web/server.go:740-753 | once a minute has gone by, the next operation leaves no window behind that has run out |
| RateLimit.RateLimiter.Sweep | internal/web/server.go:740-753 | the loop removes exactly the windows that have run out, and everything when that is not enough |
| RateLimit.RateLimiter.Allow | internal/web/server.go:702-717 | new table and answer are those of the specification |
| RateLimit.RateLimiter.Blocked | internal/web/server.go:719-726 | same, and asking consumes nothing |
| RateLimit.RateLimiter.Record | internal/web/server.go:728-738 | same, for counting an event |
| Lockout.LockoutBound | internal/auth/auth.go:198-237 | without a success or an unlock at most the threshold of wrong credentials is evaluated in any span of the lockout window, sweeps and waits included |
| Lockout.AlwaysCoherent | internal/auth/auth.go:321-333 | over every run a count at the threshold coincides with a recorded lock |
| Lockout.LockHolds | internal/auth/auth.go:304-316 | the failure that sets a lock blocks every attempt for exactly the window, after which the account starts afresh |
| Lockout.DisabledNeverLocks | internal/auth/auth.go:322-324 | a threshold of zero keeps no count and sets no lock |
| Lockout.ThresholdIsExact | internal/auth/auth.go:318-333 | after one failure less than the threshold the right credentials still get in and clear the count, and the next failure locks for exactly the window |
| Lockout.LoginAnswers | internal/auth/auth.go:198-237 | only the right credentials get in, and only at an account that is not locked; everybody else is told what was wrong, or the lock |
| Lockout.AskingForTheCodeIsFree | internal/auth/auth.go:217-223 | leaving the code out is no failure |
| Lockout.UserRow.PasswordLogin | internal/auth/auth.go:198-237 | welcomes exactly the right credentials at an account that is not locked, asks for the code exactly of those who left it out, and refuses by the reason; a welcome clears the account, a lock lets nothing change |
| Lockout.UserRow.RegisterLoginFailure | internal/auth/auth.go:321-333 | counts the failure and keeps count and lock coherent; on an unlocked account it answers with a lock exactly when the count has reached the threshold; a threshold of zero changes nothing |
| Lockout.UserRow.ClearExpired | internal/maintenance/worker.go:107-107 | keeps count and lock coherent, and no login from then on, under any policy, is answered differently because of the sweep |
| Violations.RecorderIsLru | internal/analytics/violations.go:47-122 | after any run since it was last emptied, with strictly increasing time stamps, the recorder holds exactly the keys with fewer than 100 other keys recorded since, min(100, distinct) of them, each counted from its last insertion with its first and last time and last page |
| Violations.Recorder.Record | internal/analytics/violations.go:47-76 | one record updates the entry or inserts it, evicting an oldest one from a full table; what is no origin changes nothing |
| Violations.Recorder.EvictOldest | internal/analytics/violations.go:78-87 | whatever order the table is walked in, one entry that was seen no later than any other is removed |
| Rules.PushPreserves | internal/web/reviews.go:536-562 | on every JSON value, moving negation to the leaves preserves the evaluation |
| Rules.LeavesAreNormal | internal/web/reviews.go:440-470 | a rule the validator accepts lists exactly the leaves of its negation normal form, in order |
| Rules.LeafAgrees | internal/web/reviews.go:474-513 | some leaf of an accepted rule agrees with the outcome of the rule |
| Rules.ExplanationIsFaithful | internal/web/reviews.go:427-513 | an accepted rule with at most 40 conditions is explained by exactly its leaves; a false rule lists an unmatched condition, a true one a matched one |
| Rules.CapHidesTheFailure | internal/web/reviews.go:440-444 | an accepted rule with 41 conditions that is false while all listed conditions match |
| Rules.CollectConditions | internal/web/reviews.go:440-470 | the walk appends the leaves in order and stops at forty |
| Rules.ExplainRule | internal/web/reviews.go:427-438 | the explanation is the first forty leaves, each with what the engine decided |
| RuleLaws.OrderOfNumbers | internal/web/reviews.go:591-610 | on numbers the four comparisons are those of arithmetic, the field on the left |
| RuleLaws.OrderOfAnything | internal/web/reviews.go:591-610 | exchanging field and value exchanges greater and less, at least is not less, and nothing is compared with what is no number |
| RuleLaws.EqualToItself | internal/web/reviews.go:578-581 | a value equals itself, and not what is printed differently |
| RuleLaws.NotEqualIsContrary | internal/web/reviews.go:578-581 | of a field that is there "not equal" is the contrary of "equal" |
| RuleLaws.InIsEqualToOne | internal/web/reviews.go:582-592 | being in a list is being equal to one of its values |
| RuleLaws.ContainsMeansPart | internal/web/reviews.go:593-594 | a text contains exactly what it can be cut around |
| RuleLaws.MissingIsFalse | internal/web/reviews.go:573-575 | no comparison holds of a field that is not there |
| RuleLaws.ExistsMeansPresent | internal/web/reviews.go:570-572 | "exists" asks for presence, or for absence when its value is not true |
| RuleLaws.Spellings | internal/web/reviews.go:577-581 | the spellings of an operator agree |
| RuleLaws.GroupsGrow | internal/web/reviews.go:536-562 | one more member can only break an "all" and only make an "any", whose empty forms hold and fail |
| RuleLaws.DeMorgan | internal/web/reviews.go:536-562 | the negation of a group is the other group of the negations |
| RuleLaws.AcceptedIsWellFormed | internal/web/reviews.go:474-513 | the validator accepts exactly the rules without empty groups, unknown fields or operators, and "in" without values |
| RuleLaws.ConditionSpeaksForItself | internal/web/reviews.go:440-470 | a listed condition, judged again by the field, operator and value it shows, comes out as it says, and shows the value of the field |
| Nonce.NonceEverywhereOnce | internal/analytics/analytics.go:187-210 | with a nonce every script tag of the result carries one, and doing it again, with any nonce, changes nothing |
| Nonce.OnlyInserts | internal/analytics/analytics.go:187-210 | the result is the snippet cut after some tag openings and joined by the attribute; joined by nothing it is the snippet |
| Nonce.NonceErases | internal/analytics/analytics.go:187-210 | erasing every occurrence of an attribute that is new to the snippet gives the snippet back |
| Nonce.TagCheck | internal/analytics/analytics.go:202-206 | cutting the tag at its end and searching it finds a nonce exactly when one stands before the first closing bracket |
| Nonce.AddNonce | internal/analytics/analytics.go:187-210 | the loop terminates with the result of the specification |
| Nonce.AttributeCarries | internal/analytics/analytics.go:187-210 | the attribute holds between quotes a text without quotes that reads as the nonce |

## Left out

- WorkflowSafety.ReviewersSeeCompleteReviews: covers answers and scans; that required evidence is still attached is not kept by the code, and ScanGate.AttachedExactly says by which step it is lost. That files become unscanned only while the author edits is the guard of its evidence event; ScanGate.NothingUnscannedInReview proves the same with the scanner's own steps.
- The settings are fixed over a run and for the life of a desk; a change of settings between two calls is not modelled.
- Nonce.NonceEverywhereOnce: ASCII text only, because lower-casing other text can change its length in the original.
- Nonce.NonceErases: asks that the attribute does not occur in the snippet, as removing text cannot tell an inserted attribute from an equal one; OnlyInserts covers all snippets.
- Lockout.LockoutBound: attempts come one after the other; attempts that overlap can each read the lock before any of them counts.
- Violations.RecorderIsLru: time stamps strictly increase; among equal ones the order a table is walked in decides who is evicted.
- RetryBound.RetriesAreBounded: a worker whose lock was taken away is assumed dead, as the service assumes.
- JobQueue.GateAlwaysHolds: a worker that finds its file not waiting completes the job in the same step; a bulk retry between the two could slip through, as could one between its own three statements.
- Handlers are atomic: a check and the write after it are one step, so races between them are not modelled, nor are database errors that a handler ignores.
- A field with a bar in it: the payload joins fields with bars and escapes none, so AuditChain.PayloadHoldsTheEvent speaks of fields without; AuditChain.PayloadIsLinked and AuditChain.HeadCommits speak of all.
- Texts are not bounded in length, and due dates, follow-ups, comments, opinions on a verdict and final applicability are not modelled.
- The check of a typed answer against its question is a parameter; so are number formatting, case folding and number parsing in the rules.
- Only one revision of a submission exists in the workflow model, because no code creates a second; the completion model allows any number.
- The bulk change request, the participants and the manual rule overrides are specification functions without a method of their own.
- Byte counts and chunk indices of a stream are unbounded numbers; the index is reduced modulo 2^64 where it is bound, the returned length is not reduced.
- Random numbers are parameters, and a repeated GCM nonce is not modelled as a weakness of the cipher.
- The legacy base64 form of stored files, file paths and the removal of partial files.
- HTTP, JSON decoding, SQL text, SMTP and clamd conversations, single sign-on, exports, reports, the front end.
- Normalising an origin or a directive before it is recorded, listing the recorder, and building a snippet from settings.
- The digest's choice of recipients and its hour, link building, and the delivery log.
