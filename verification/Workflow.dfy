// The life of one security review: the workflow handlers of internal/web/reviews.go, the bulk edits of
// internal/web/account.go, and the administrator's steps of internal/web/admin.go that touch it.
// Every handler is one atomic step; None is its refusal.
module Workflow {
  import opened Common

  type User = string
  type Id = string

  datatype Role = Requester | SecurityReviewer | Approver | Auditor | TemplateAdmin | SystemAdmin

  datatype Status = Draft | Submitted | Resubmitted | Reviewing | ChangeRequested | ApprovalPending
                  | Approved | Rejected | Closed | Cancelled

  /** What the author says about an item; the typed answer is the JSON text. */
  datatype Answer = Answer(applicability: string, selfAssessment: string, currentState: string,
                           naReason: string, actionPlan: string, typed: string)

  datatype Response = Response(answer: Answer, assignee: Option<User>, updatedAt: int)

  /** A reviewer's verdict, with the answer it was passed on. */
  datatype Verdict = Verdict(result: string, author: User, judged: Option<Answer>, at: int)

  /** A checklist item: what it asks for, its rows, its undeleted files, how many of them the scanner has not
      passed, and when they last moved. */
  datatype Item = Item(required: bool, evidenceRequired: bool, response: Option<Response>, verdict: Option<Verdict>,
                       evidence: nat, unscanned: nat, touched: Option<int>)

  datatype ChangeStatus = Open | Done | Verified
  datatype Change = Change(item: Id, assignee: Option<User>, status: ChangeStatus)

  datatype Decision = Decision(approver: User, approved: bool)

  datatype Review = Review(status: Status, requester: User, reviewer: Option<User>, approver: Option<User>,
                           items: map<Id, Item>, changes: map<Id, Change>, decisions: seq<Decision>, result: string)

  datatype Account = Account(active: bool, roles: set<Role>)

  /** The review with what its handlers look up: accounts, co-authors (builder, developer, operator and
      contributors), and viewers. */
  datatype World = World(review: Review, accounts: map<User, Account>, editors: set<User>, viewers: set<User>)

  /** Settings of the workflow, and the check of a typed answer against its question and number of files. */
  datatype Config = Config(approvalEnabled: bool, allowSelfReview: bool, requireReviewer: bool,
                           typedProblem: (Id, string, nat) -> bool)

  const UNANSWERED := Answer("", "", "", "", "", "{}")
  const RESULTS := {"COMPLIANT", "CONDITIONAL", "INSUFFICIENT", "NON_COMPLIANT", "NA_ACCEPTED", "RECHECK"}
  const FINAL_RESULTS := {"APPROVED", "CONDITIONAL", "REJECTED"}

  /** White space as Unicode has it. */
  predicate IsSpace(c: char) {
    || c in {' ', '\t', '\n', '\U{0B}', '\U{0C}', '\r', '\U{85}', '\U{A0}', '\U{1680}', '\U{2028}', '\U{2029}', '\U{202F}', '\U{205F}', '\U{3000}'}
    || '\U{2000}' <= c <= '\U{200A}'
  }

  /** Nothing is left of it once trimmed. */
  predicate Blank(s: string) {
    forall c :: c in s ==> IsSpace(c)
  }

  // -------------------------------------------------------------------- who may act

  predicate HasRole(w: World, u: User, role: Role) {
    u in w.accounts && role in w.accounts[u].roles
  }

  /** stillHolds: the named person has an open account and still holds the role. */
  predicate StillHolds(w: World, u: Option<User>, role: Role) {
    u.Some? && HasRole(w, u.value, role) && w.accounts[u.value].active
  }

  predicate Editable(s: Status) {
    s == Draft || s == ChangeRequested
  }

  predicate CanEdit(w: World, u: User) {
    Editable(w.review.status) && (u == w.review.requester || u in w.editors)
  }

  /** canAccessReviewAs */
  predicate Reaches(w: World, u: User) {
    var r := w.review;
    u == r.requester || u in w.editors || r.reviewer == Some(u) || r.approver == Some(u)
  }

  predicate SelfBlocked(cfg: Config, w: World, u: User) {
    !cfg.allowSelfReview && w.review.requester == u
  }

  predicate CanReview(cfg: Config, w: World, u: User) {
    HasRole(w, u, SecurityReviewer) && !SelfBlocked(cfg, w, u) && w.review.reviewer == Some(u)
  }

  predicate WroteVerdict(r: Review, u: User) {
    exists id :: id in r.items && r.items[id].verdict.Some? && r.items[id].verdict.value.author == u
  }

  predicate OwnVerdictBlocked(cfg: Config, w: World, u: User) {
    !cfg.allowSelfReview && (w.review.reviewer == Some(u) || WroteVerdict(w.review, u))
  }

  /** The named approver cannot decide: there is none, they lost the role or the account, or they judged it. */
  predicate ApproverUnable(cfg: Config, w: World) {
    var r := w.review;
    || r.approver.None? || !StillHolds(w, r.approver, Approver)
    || (!cfg.allowSelfReview && r.reviewer.Some? && r.reviewer == r.approver)
  }

  predicate ReviewerUnable(w: World) {
    !StillHolds(w, w.review.reviewer, SecurityReviewer)
  }

  predicate CanAccess(cfg: Config, w: World, u: User) {
    || HasRole(w, u, SecurityReviewer) || HasRole(w, u, Auditor)
    || Reaches(w, u) || u in w.viewers
    || (HasRole(w, u, Approver) && w.review.status == ApprovalPending && ApproverUnable(cfg, w))
  }

  // ------------------------------------------------------------------ one item at a time

  function CurrentAnswer(i: Item): Option<Answer> {
    if i.response.None? then None else Some(i.response.value.answer)
  }

  function AnswerOf(i: Item): Answer {
    if i.response.None? then UNANSWERED else i.response.value.answer
  }

  function AnsweredItem(i: Item, a: Answer, assignee: Option<User>, now: int): Item {
    i.(response := Some(Response(a, assignee, now)))
  }

  /** A bulk answer leaves the typed answer of an existing row alone, and the whole row without overwrite. */
  function BulkAnsweredItem(i: Item, a: Answer, assignee: Option<User>, overwrite: bool, now: int): Item {
    if i.response.None? then AnsweredItem(i, a.(typed := "{}"), assignee, now)
    else if overwrite then AnsweredItem(i, a.(typed := i.response.value.answer.typed), assignee, now)
    else i
  }

  function AssignedItem(i: Item, assignee: Option<User>, now: int): Item {
    AnsweredItem(i, AnswerOf(i), assignee, now)
  }

  /** An item assigned to `from` passes to `to`, or to nobody; the answer stays, the time stamp moves. */
  function HandedItem(i: Item, from: User, to: Option<User>, now: int): Item {
    if i.response.Some? && i.response.value.assignee == Some(from) then AssignedItem(i, to, now) else i
  }

  /** A verdict is stamped at least as late as the answer and the evidence it was formed on. */
  function JudgedAt(i: Item, now: int): int {
    Max(now, Max(if i.response.Some? then i.response.value.updatedAt else now, if i.touched.Some? then i.touched.value else now))
  }

  function JudgedItem(i: Item, u: User, result: string, now: int): Item {
    i.(verdict := Some(Verdict(result, u, CurrentAnswer(i), JudgedAt(i, now))))
  }

  function BulkJudgedItem(i: Item, u: User, result: string, overwrite: bool, now: int): Item {
    if i.verdict.None? || overwrite then JudgedItem(i, u, result, now) else i
  }

  predicate HasVerdict(i: Item) {
    i.verdict.Some? && i.verdict.value.result != ""
  }

  /** The verdict predates the answer or the evidence it judged. */
  predicate IsStale(i: Item) {
    && HasVerdict(i) && i.response.Some?
    && var answered := i.response.value.updatedAt;
       Max(answered, if i.touched.Some? then i.touched.value else answered) > i.verdict.value.at
  }

  /** The checks of a submission that look at one item's answer alone. */
  predicate AnswerComplete(i: Item) {
    var a := AnswerOf(i);
    && (i.required ==> a.applicability != "")
    && (i.required && a.applicability != "N/A" ==> a.selfAssessment != "")
    && (a.applicability == "N/A" ==> !Blank(a.naReason))
  }

  /** An item that asks for a file and is not answered as not applicable, or not at all. */
  predicate NeedsEvidence(i: Item) {
    var a := AnswerOf(i);
    i.evidenceRequired && a.applicability != "N/A" && (i.required || a.applicability != "")
  }

  predicate ItemReady(cfg: Config, id: Id, i: Item) {
    var a := AnswerOf(i);
    && AnswerComplete(i)
    && (i.required && a.applicability != "N/A" ==> !cfg.typedProblem(id, a.typed, i.evidence))
    && (NeedsEvidence(i) ==> i.evidence > 0)
    && i.unscanned == 0
  }

  function OnItems(items: map<Id, Item>, ids: set<Id>, f: Item -> Item): (after: map<Id, Item>)
    ensures after.Keys == items.Keys
    ensures forall id :: id in items ==> after[id] == if id in ids then f(items[id]) else items[id]
  {
    map id | id in items :: if id in ids then f(items[id]) else items[id]
  }

  // ------------------------------------------------------------------------ the author

  /** validateSubmission reports nothing. */
  predicate ReadyToSubmit(cfg: Config, r: Review) {
    && r.items != map[]
    && (forall id :: id in r.items ==> ItemReady(cfg, id, r.items[id]))
    && (forall c :: c in r.changes ==> r.changes[c].status != Open)
    && (cfg.requireReviewer ==> r.reviewer.Some?)
    && (cfg.approvalEnabled ==> r.approver.Some?)
  }

  function Submit(cfg: Config, w: World, u: User): Option<Review> {
    if !CanEdit(w, u) || !ReadyToSubmit(cfg, w.review) then None
    else Some(w.review.(status := if w.review.status == Draft then Submitted else Resubmitted))
  }

  predicate ValidAnswer(a: Answer) {
    && a.applicability in {"Y", "N", "N/A"}
    && a.selfAssessment in {"", "COMPLIANT", "INSUFFICIENT", "N/A"}
    && (a.applicability == "N/A" ==> !Blank(a.naReason))
  }

  /** saveResponse; an editor that says which version it loaded is refused when the row has moved on. */
  function SaveAnswer(w: World, u: User, id: Id, a: Answer, assignee: Option<User>, expected: Option<int>, now: int): Option<Review> {
    if !CanEdit(w, u) || !ValidAnswer(a) || id !in w.review.items then None
    else
      var i := w.review.items[id];
      var previous := if i.response.Some? then i.response.value.assignee else None;
      if expected.Some? && i.response.Some? && i.response.value.updatedAt != expected.value then None
      else if assignee.Some? && assignee != previous && !Reaches(w, assignee.value) then None
      else Some(w.review.(items := w.review.items[id := AnsweredItem(i, a, assignee, now)]))
  }

  function BulkAnswer(w: World, u: User, ids: set<Id>, a: Answer, assignee: Option<User>, overwrite: bool, now: int): Option<Review> {
    if !CanEdit(w, u) || ids == {} || |ids| > 1000 || !ValidAnswer(a) || (assignee.Some? && !Reaches(w, assignee.value)) then None
    else Some(w.review.(items := OnItems(w.review.items, ids, (i: Item) => BulkAnsweredItem(i, a, assignee, overwrite, now))))
  }

  function Assign(w: World, u: User, ids: set<Id>, assignee: Option<User>, now: int): Option<Review> {
    if !CanEdit(w, u) || ids == {} || |ids| > 1000 || (assignee.Some? && !Reaches(w, assignee.value)) then None
    else Some(w.review.(items := OnItems(w.review.items, ids, (i: Item) => AssignedItem(i, assignee, now))))
  }

  // ---------------------------------------------------------------------- the reviewer

  function Begin(cfg: Config, w: World, u: User): Option<Review> {
    var r := w.review;
    if !HasRole(w, u, SecurityReviewer) || SelfBlocked(cfg, w, u) then None
    else if || ((r.status == Submitted || r.status == Resubmitted) && (r.reviewer.None? || r.reviewer == Some(u) || ReviewerUnable(w)))
            || (r.status == Reviewing && ReviewerUnable(w))
    then Some(r.(status := Reviewing, reviewer := if ReviewerUnable(w) then Some(u) else r.reviewer))
    else None
  }

  function SaveVerdict(cfg: Config, w: World, u: User, id: Id, result: string, expected: Option<int>, now: int): Option<Review> {
    var r := w.review;
    if !CanReview(cfg, w, u) || result !in RESULTS || id !in r.items || r.status != Reviewing then None
    else if expected.Some? && r.items[id].verdict.Some? && r.items[id].verdict.value.at != expected.value then None
    else Some(r.(items := r.items[id := JudgedItem(r.items[id], u, result, now)]))
  }

  function BulkVerdict(cfg: Config, w: World, u: User, ids: set<Id>, result: string, overwrite: bool, now: int): Option<Review> {
    var r := w.review;
    if !CanReview(cfg, w, u) || ids == {} || |ids| > 1000 || result !in RESULTS || r.status != Reviewing then None
    else Some(r.(items := OnItems(r.items, ids, (i: Item) => BulkJudgedItem(i, u, result, overwrite, now))))
  }

  function RequestChange(cfg: Config, w: World, u: User, c: Id, item: Id, reason: string, assignee: Option<User>): Option<Review> {
    var r := w.review;
    if !CanReview(cfg, w, u) || Blank(reason) || (assignee.Some? && !Reaches(w, assignee.value)) then None
    else if item !in r.items || c in r.changes || r.status != Reviewing then None
    else Some(r.(status := ChangeRequested, changes := r.changes[c := Change(item, assignee, Open)]))
  }

  /** The items of a bulk request that have no unverified change request yet. */
  function Correctable(r: Review, ids: set<Id>): set<Id> {
    set id | id in ids && id in r.items && forall c :: c in r.changes && r.changes[c].item == id ==> r.changes[c].status == Verified
  }

  /** `added` gives each of them a request under a new identifier. */
  function BulkRequestChange(cfg: Config, w: World, u: User, ids: set<Id>, added: map<Id, Id>, reason: string,
                             assignee: Option<User>): Option<Review> {
    var r := w.review;
    if !CanReview(cfg, w, u) || ids == {} || Blank(reason) || (assignee.Some? && !Reaches(w, assignee.value)) || r.status != Reviewing then None
    else if added == map[] || !(added.Keys !! r.changes.Keys) || added.Values != Correctable(r, ids) || |added| != |added.Values| then None
    else Some(r.(status := ChangeRequested,
                 changes := map c | c in r.changes.Keys + added.Keys :: if c in added then Change(added[c], assignee, Open) else r.changes[c]))
  }

  /** updateChangeRequest: DONE by the assignee or an editor, VERIFIED by the reviewer. */
  function UpdateChange(cfg: Config, w: World, u: User, c: Id, to: ChangeStatus): Option<Review> {
    var r := w.review;
    if c !in r.changes || !CanAccess(cfg, w, u) then None
    else
      var from := r.changes[c].status;
      if to == Open then None
      else if to == Done && (from != Open || (r.changes[c].assignee != Some(u) && !CanEdit(w, u))) then None
      else if to == Verified && (from == Verified || !CanReview(cfg, w, u)) then None
      else Some(r.(changes := r.changes[c := r.changes[c].(status := to)]))
  }

  /** The three counts of the completion guard are zero. */
  predicate NothingBlocks(r: Review) {
    && (forall id :: id in r.items ==> HasVerdict(r.items[id]))
    && (forall c :: c in r.changes ==> r.changes[c].status == Verified)
    && (forall id :: id in r.items ==> !IsStale(r.items[id]))
  }

  function Complete(cfg: Config, w: World, u: User, result: string, opinion: string): Option<Review> {
    var r := w.review;
    if !CanReview(cfg, w, u) || !NothingBlocks(r) || result !in FINAL_RESULTS || Blank(opinion) || r.status != Reviewing then None
    else
      var next := if cfg.approvalEnabled then ApprovalPending else if result == "REJECTED" then Rejected else Approved;
      Some(r.(status := next, result := result))
  }

  predicate MayTakeBack(cfg: Config, w: World, u: User, reason: string) {
    !Blank(reason) && HasRole(w, u, SecurityReviewer) && !SelfBlocked(cfg, w, u) && (w.review.reviewer == Some(u) || ReviewerUnable(w))
  }

  function Withdraw(cfg: Config, w: World, u: User, reason: string): Option<Review> {
    if !MayTakeBack(cfg, w, u, reason) || w.review.status != ApprovalPending then None
    else Some(w.review.(status := Reviewing, result := ""))
  }

  function Reopen(cfg: Config, w: World, u: User, reason: string): Option<Review> {
    if !MayTakeBack(cfg, w, u, reason) || w.review.status != Rejected then None
    else Some(w.review.(status := ChangeRequested, result := ""))
  }

  function Close(w: World, u: User): Option<Review> {
    if !HasRole(w, u, SecurityReviewer) || w.review.reviewer != Some(u) || w.review.status !in {Approved, Rejected} then None
    else Some(w.review.(status := Closed))
  }

  // ---------------------------------------------------------------------- the approver

  function Decide(cfg: Config, w: World, u: User, approved: bool): Option<Review> {
    var r := w.review;
    if !HasRole(w, u, Approver) || SelfBlocked(cfg, w, u) || OwnVerdictBlocked(cfg, w, u) then None
    else if r.status != ApprovalPending || !(r.approver == Some(u) || ApproverUnable(cfg, w)) then None
    else Some(r.(status := if approved then Approved else Rejected,
                 approver := if ApproverUnable(cfg, w) then Some(u) else r.approver,
                 result := if approved then r.result else "REJECTED",
                 decisions := r.decisions + [Decision(u, approved)]))
  }

  // ------------------------------------------------------------------ owners and people

  function Cancel(w: World, u: User, reason: string): Option<Review> {
    var r := w.review;
    if !HasRole(w, u, Requester) || r.requester != u || r.status in {Approved, Rejected, Closed, Cancelled} then None
    else if r.status != Draft && Blank(reason) then None
    else Some(r.(status := Cancelled))
  }

  function Transfer(cfg: Config, w: World, u: User, to: User): Option<Review> {
    var r := w.review;
    if !(HasRole(w, u, SystemAdmin) || u == r.requester) || r.status == Cancelled || to == r.requester then None
    else if !StillHolds(w, Some(to), Requester) then None
    else if !cfg.allowSelfReview && (r.reviewer == Some(to) || r.approver == Some(to)) then None
    else Some(r.(requester := to))
  }

  /** namedAssigneeProblems finds nothing; None leaves a seat as it is. */
  predicate GoodAssignees(cfg: Config, w: World, reviewer: Option<User>, approver: Option<User>) {
    && (reviewer.Some? ==> StillHolds(w, reviewer, SecurityReviewer))
    && (approver.Some? ==> StillHolds(w, approver, Approver))
    && (!cfg.allowSelfReview ==>
          && (reviewer.Some? ==> reviewer != approver && reviewer.value != w.review.requester)
          && (approver.Some? ==> approver.value != w.review.requester))
  }

  /** updateReviewRequest, and the reassignment of a pending approval it falls back to. */
  function Reassign(cfg: Config, w: World, u: User, reviewer: Option<User>, approver: Option<User>): Option<Review> {
    var r := w.review;
    if CanEdit(w, u) then
      if !GoodAssignees(cfg, w, reviewer, approver) then None
      else Some(r.(reviewer := if reviewer.Some? then reviewer else r.reviewer, approver := if approver.Some? then approver else r.approver))
    else if approver.Some? && HasRole(w, u, SystemAdmin) && r.status == ApprovalPending && HasRole(w, approver.value, Approver) then
      Some(r.(approver := approver))
    else None
  }

  /** Each seat is decided on its own, and on the seats as they were. */
  function SeatsMoved(cfg: Config, w: World, from: User, to: User): Review {
    var r, strict := w.review, !cfg.allowSelfReview;
    r.(requester := if r.requester == from && HasRole(w, to, Requester) && !(strict && (r.reviewer == Some(to) || r.approver == Some(to)))
                    then to else r.requester,
       reviewer := if r.reviewer == Some(from) && HasRole(w, to, SecurityReviewer) && !(strict && to == r.requester) then Some(to) else r.reviewer,
       approver := if r.approver == Some(from) && HasRole(w, to, Approver) && !(strict && to == r.requester) then Some(to) else r.approver)
  }

  function WorkMoved(r: Review, from: User, to: User, now: int): Review {
    r.(items := OnItems(r.items, r.items.Keys, (i: Item) => HandedItem(i, from, Some(to), now)),
       changes := map c | c in r.changes ::
         if r.changes[c].assignee == Some(from) && r.changes[c].status != Verified then r.changes[c].(assignee := Some(to)) else r.changes[c])
  }

  /** The part of handoverUserWork that falls on this review: the seats, then the items and corrections if
      the new owner can open the review. */
  function Handover(cfg: Config, w: World, u: User, from: User, to: User, now: int): Option<Review> {
    if !HasRole(w, u, SystemAdmin) || from == to || to !in w.accounts || !w.accounts[to].active then None
    else if w.review.status in {Approved, Closed, Cancelled, Rejected} then Some(w.review)
    else
      var moved := SeatsMoved(cfg, w, from, to);
      Some(if Reaches(w.(review := moved), to) then WorkMoved(moved, from, to, now) else moved)
  }

  // ------------------------------------------------------------------- the item list

  function Include(w: World, u: User, id: Id, required: bool, evidenceRequired: bool): Option<Review> {
    var r := w.review;
    if !HasRole(w, u, TemplateAdmin) || r.status != Draft || id in r.items then None
    else Some(r.(items := r.items[id := Item(required, evidenceRequired, None, None, 0, 0, None)]))
  }

  /** Files that were deleted still count as use; `used` says whether there ever was one. */
  function Exclude(w: World, u: User, id: Id, used: bool): Option<Review> {
    var r := w.review;
    if !HasRole(w, u, TemplateAdmin) || r.status != Draft || id !in r.items then None
    else if r.items[id].response.Some? || r.items[id].evidence > 0 || used then None
    else Some(r.(items := r.items - {id}))
  }

  // ------------------------------------------------------------------------- copies

  /** copyReview: a draft of the copier's with the seats of the source as they are, unchecked; its items are
      assigned anew, with the answers of the source and no verdict. */
  function Copied(cfg: Config, w: World, u: User, items: map<Id, Item>): Option<Review> {
    if !HasRole(w, u, Requester) || !CanAccess(cfg, w, u) then None
    else Some(Review(Draft, u, w.review.reviewer, w.review.approver, items, map[], [], ""))
  }

  // --------------------------------------------------------------------- one event

  datatype Event =
    | SubmitEvent(u: User)
    | SaveAnswerEvent(u: User, item: Id, answer: Answer, assignee: Option<User>, expected: Option<int>)
    | BulkAnswerEvent(u: User, ids: set<Id>, answer: Answer, assignee: Option<User>, overwrite: bool)
    | AssignEvent(u: User, ids: set<Id>, assignee: Option<User>)
    | BeginEvent(u: User)
    | SaveVerdictEvent(u: User, item: Id, result: string, expected: Option<int>)
    | BulkVerdictEvent(u: User, ids: set<Id>, result: string, overwrite: bool)
    | RequestChangeEvent(u: User, change: Id, item: Id, reason: string, assignee: Option<User>)
    | BulkRequestChangeEvent(u: User, ids: set<Id>, added: map<Id, Id>, reason: string, assignee: Option<User>)
    | UpdateChangeEvent(u: User, change: Id, to: ChangeStatus)
    | CompleteEvent(u: User, result: string, opinion: string)
    | WithdrawEvent(u: User, reason: string)
    | ReopenEvent(u: User, reason: string)
    | CloseEvent(u: User)
    | DecideEvent(u: User, approved: bool)
    | CancelEvent(u: User, reason: string)
    | TransferEvent(u: User, owner: User)
    | ReassignEvent(u: User, reviewer: Option<User>, approver: Option<User>)
    | HandoverEvent(u: User, from: User, owner: User)
    | IncludeEvent(u: User, item: Id, required: bool, evidenceRequired: bool)
    | ExcludeEvent(u: User, item: Id, used: bool)
    | ParticipantsEvent(u: User, editors: set<User>, viewers: set<User>, released: set<User>)
    | AccountEvent(user: User, account: Account)
    | LockEvent(user: User)
    | EvidenceEvent(item: Id, evidence: nat, unscanned: nat, touched: Option<int>)

  /** The handlers; the environment's events are in Next. */
  function Handled(cfg: Config, w: World, e: Event, now: int): Option<Review> {
    match e
    case SubmitEvent(u) => Submit(cfg, w, u)
    case SaveAnswerEvent(u, item, answer, assignee, expected) => SaveAnswer(w, u, item, answer, assignee, expected, now)
    case BulkAnswerEvent(u, ids, answer, assignee, overwrite) => BulkAnswer(w, u, ids, answer, assignee, overwrite, now)
    case AssignEvent(u, ids, assignee) => Assign(w, u, ids, assignee, now)
    case BeginEvent(u) => Begin(cfg, w, u)
    case SaveVerdictEvent(u, item, result, expected) => SaveVerdict(cfg, w, u, item, result, expected, now)
    case BulkVerdictEvent(u, ids, result, overwrite) => BulkVerdict(cfg, w, u, ids, result, overwrite, now)
    case RequestChangeEvent(u, change, item, reason, assignee) => RequestChange(cfg, w, u, change, item, reason, assignee)
    case BulkRequestChangeEvent(u, ids, added, reason, assignee) => BulkRequestChange(cfg, w, u, ids, added, reason, assignee)
    case UpdateChangeEvent(u, change, to) => UpdateChange(cfg, w, u, change, to)
    case CompleteEvent(u, result, opinion) => Complete(cfg, w, u, result, opinion)
    case WithdrawEvent(u, reason) => Withdraw(cfg, w, u, reason)
    case ReopenEvent(u, reason) => Reopen(cfg, w, u, reason)
    case CloseEvent(u) => Close(w, u)
    case DecideEvent(u, approved) => Decide(cfg, w, u, approved)
    case CancelEvent(u, reason) => Cancel(w, u, reason)
    case TransferEvent(u, owner) => Transfer(cfg, w, u, owner)
    case ReassignEvent(u, reviewer, approver) => Reassign(cfg, w, u, reviewer, approver)
    case HandoverEvent(u, from, owner) => Handover(cfg, w, u, from, owner, now)
    case IncludeEvent(u, item, required, evidenceRequired) => Include(w, u, item, required, evidenceRequired)
    case ExcludeEvent(u, item, used) => Exclude(w, u, item, used)
    case ParticipantsEvent(u, _, _, released) => if CanEdit(w, u) then Some(Released(w.review, released, now)) else None
    case AccountEvent(user, account) =>
      Some(if account.active || w.review.status in {Approved, Closed, Cancelled, Rejected} then w.review else Released(w.review, {user}, now))
    case LockEvent(user) => if IsPrivileged(w, user) then Some(w.review) else None
    case EvidenceEvent(item, evidence, unscanned, touched) =>
      if item !in w.review.items || !(Editable(w.review.status) || unscanned <= w.review.items[item].unscanned) then None
      else Some(w.review.(items := w.review.items[item := w.review.items[item].(evidence := evidence, unscanned := unscanned, touched := touched)]))
  }

  /** Accounts that a login after long absence locks; unlike an administrator it releases no item. */
  predicate IsPrivileged(w: World, u: User) {
    u in w.accounts && w.accounts[u].roles * {SystemAdmin, TemplateAdmin, SecurityReviewer, Approver} != {}
  }

  /** releaseItemsOf, for everybody who can no longer work on the review. */
  function Released(r: Review, users: set<User>, now: int): Review {
    r.(items := OnItems(r.items, r.items.Keys, (i: Item) =>
         if i.response.Some? && i.response.value.assignee.Some? && i.response.value.assignee.value in users then AssignedItem(i, None, now) else i))
  }

  /** A refused event changes nothing. */
  function Next(cfg: Config, w: World, e: Event, now: int): World {
    var r := Handled(cfg, w, e, now);
    if r.None? then w
    else
      var v := w.(review := r.value);
      match e
      case ParticipantsEvent(_, editors, viewers, _) => v.(editors := editors, viewers := viewers)
      case AccountEvent(user, account) => v.(accounts := v.accounts[user := account])
      case LockEvent(user) => v.(accounts := v.accounts[user := v.accounts[user].(active := false)])
      case _ => v
  }
}
