// The rows of one review as the workflow handlers change them, statement by statement. Every handler keeps
// what every run keeps, and says what its caller may rely on when it is accepted.
module ReviewDesk {
  import opened Common
  import opened Workflow
  import opened WorkflowSafety
  import M = WorkflowMeaning

  /** The row changed since the version an editor loaded. */
  predicate HasMovedOn(i: Item, expected: Option<int>) {
    expected.Some? && i.response.Some? && i.response.value.updatedAt != expected.value
  }

  /** A bulk answer stands on what is listed, leaves existing answers alone without overwrite, and never
      touches a verdict or a typed answer. */
  predicate BulkAnswers(before: Item, after: Item, listed: bool, answer: Answer, assignee: Option<User>, overwrite: bool) {
    && after.verdict == before.verdict
    && (!listed || (!overwrite && before.response.Some?) ==> after == before)
    && (listed && (overwrite || before.response.None?) ==>
          after.response.Some? && AnswerOf(after) == answer.(typed := AnswerOf(before).typed) && M.AssigneeOf(after) == assignee)
  }

  lemma BulkAnswersItem(i: Item, answer: Answer, assignee: Option<User>, overwrite: bool, now: int)
    ensures BulkAnswers(i, BulkAnsweredItem(i, answer, assignee, overwrite, now), true, answer, assignee, overwrite)
    ensures BulkAnswers(i, i, false, answer, assignee, overwrite)
  {
  }

  /** The verdict chosen by this reviewer stands on the item, passed on the answer that stands, and not stale. */
  predicate JudgedBy(before: Item, after: Item, u: User, verdict: string) {
    && after.response == before.response && !IsStale(after)
    && after.verdict.Some? && after.verdict.value.result == verdict && after.verdict.value.author == u
    && after.verdict.value.judged == CurrentAnswer(after)
  }

  /** A bulk verdict judges what is listed, and leaves existing verdicts alone without overwrite. */
  predicate BulkJudges(before: Item, after: Item, listed: bool, u: User, verdict: string, overwrite: bool) {
    if listed && (overwrite || before.verdict.None?) then JudgedBy(before, after, u, verdict) else after == before
  }

  lemma BulkJudgesItem(i: Item, u: User, verdict: string, overwrite: bool, now: int)
    requires verdict in RESULTS
    ensures BulkJudges(i, BulkJudgedItem(i, u, verdict, overwrite, now), true, u, verdict, overwrite)
    ensures BulkJudges(i, i, false, u, verdict, overwrite)
  {
    JudgingClearsStaleness(i, u, verdict, now);
  }

  /** What a reviewer may expect of an item that is handed in. */
  predicate Whole(cfg: Config, id: Id, i: Item) {
    var a := AnswerOf(i);
    && i.unscanned == 0
    && (i.required ==> a.applicability != "")
    && (a.applicability == "N/A" ==> !Blank(a.naReason))
    && (i.required && a.applicability != "N/A" ==> a.selfAssessment != "" && !cfg.typedProblem(id, a.typed, i.evidence))
    && (i.evidenceRequired && i.required && a.applicability != "N/A" ==> i.evidence > 0)
    && (i.evidenceRequired && a.applicability !in {"", "N/A"} ==> i.evidence > 0)
  }

  /** Verdicts that were honest stay so exactly when the answers that move are stamped late enough. */
  lemma StampsDecide(cfg: Config, w: World, e: Event, now: int)
    ensures var r := Next(cfg, w, e, now).review; Captured(w.review) ==> (Captured(r) <==> StampedLater(w.review, r, now))
  {
    if Captured(w.review) { CapturedExactly(cfg, w, e, now); }
  }

  class Desk {
    const cfg: Config
    var status: Status
    var requester: User
    var reviewer: Option<User>
    var approver: Option<User>
    var items: map<Id, Item>
    var changes: map<Id, Change>
    var decisions: seq<Decision>
    var result: string
    var accounts: map<User, Account>
    var editors: set<User>
    var viewers: set<User>

    function Rows(): Review
      reads this
    {
      Review(status, requester, reviewer, approver, items, changes, decisions, result)
    }

    function State(): World
      reads this
    {
      World(Rows(), accounts, editors, viewers)
    }

    /** Complete and scanned while in review, corrections closed before decisions, a second look at approval. */
    ghost predicate Valid()
      reads this
    {
      Kept(cfg, Rows())
    }

    constructor (cfg: Config, w: World)
      requires Initial(w.review)
      ensures Valid() && State() == w && this.cfg == cfg
    {
      var r := w.review;
      this.cfg := cfg;
      status, requester, reviewer, approver := r.status, r.requester, r.reviewer, r.approver;
      items, changes, decisions, result := r.items, r.changes, r.decisions, r.result;
      accounts, editors, viewers := w.accounts, w.editors, w.viewers;
    }

    // ---------------------------------------------------------------- the author

    /** Accepted, the reviewer gets a review whose answers are complete, whose files are scanned and whose
        corrections have all been answered. */
    method SubmitReview(u: User) returns (ok: bool)
      requires Valid()
      modifies this
      ensures Valid() && State() == Next(cfg, old(State()), SubmitEvent(u), 0)
      ensures if ok then InReview(status) && items == old(items) else State() == old(State())
      ensures ok ==> items != map[] && forall id :: id in items ==> Whole(cfg, id, items[id])
      ensures ok ==> (cfg.requireReviewer ==> reviewer.Some?) && (cfg.approvalEnabled ==> approver.Some?)
      ensures ok ==> forall c :: c in changes ==> changes[c].status != Open
    {
      StepKeeps(cfg, State(), SubmitEvent(u), 0);
      if !CanEdit(State(), u) || !ReadyToSubmit(cfg, Rows()) { return false; }
      status := if status == Draft then Submitted else Resubmitted;
      return true;
    }

    /** Accepted, the answer stands and nothing else moved; a stale editor is refused; and verdicts stay honest
        exactly when the stamp is later than the verdict the answer overtakes. */
    method SaveResponse(u: User, item: Id, answer: Answer, assignee: Option<User>, expected: Option<int>, now: int) returns (ok: bool)
      requires Valid()
      modifies this
      ensures Valid() && State() == Next(cfg, old(State()), SaveAnswerEvent(u, item, answer, assignee, expected), now)
      ensures ok ==> item in items && CurrentAnswer(items[item]) == Some(answer) && items[item].verdict == old(items)[item].verdict
                     && M.AssigneeOf(items[item]) == assignee && M.SavedAt(items[item]) == Some(now)
      ensures if ok then items.Keys == old(items).Keys && forall id :: id in items && id != item ==> items[id] == old(items)[id]
              else State() == old(State())
      ensures item in old(items) && HasMovedOn(old(items)[item], expected) ==> !ok
      ensures old(Captured(Rows())) ==> (Captured(Rows()) <==> StampedLater(old(Rows()), Rows(), now))
    {
      ghost var e := SaveAnswerEvent(u, item, answer, assignee, expected);
      StepKeeps(cfg, State(), e, now);
      StampsDecide(cfg, State(), e, now);
      if !CanEdit(State(), u) || !ValidAnswer(answer) || item !in items { return false; }
      var row := items[item].response;
      if expected.Some? && row.Some? && row.value.updatedAt != expected.value { return false; }
      var previous := if row.Some? then row.value.assignee else None;
      if assignee.Some? && assignee != previous && !Reaches(State(), assignee.value) { return false; }
      items := items[item := items[item].(response := Some(Response(answer, assignee, now)))];
      return true;
    }

    /** Accepted, every listed item has an answer; without overwrite no existing answer changed, and with it
        no typed one did. */
    method BulkSaveResponses(u: User, ids: set<Id>, answer: Answer, assignee: Option<User>, overwrite: bool, now: int) returns (ok: bool)
      requires Valid()
      modifies this
      ensures Valid() && State() == Next(cfg, old(State()), BulkAnswerEvent(u, ids, answer, assignee, overwrite), now)
      ensures if ok then items.Keys == old(items).Keys else State() == old(State())
      ensures ok ==> forall id :: id in items ==> BulkAnswers(old(items)[id], items[id], id in ids, answer, assignee, overwrite)
      ensures old(Captured(Rows())) ==> (Captured(Rows()) <==> StampedLater(old(Rows()), Rows(), now))
    {
      ghost var e := BulkAnswerEvent(u, ids, answer, assignee, overwrite);
      StepKeeps(cfg, State(), e, now);
      StampsDecide(cfg, State(), e, now);
      if !CanEdit(State(), u) || ids == {} || |ids| > 1000 || !ValidAnswer(answer) { return false; }
      if assignee.Some? && !Reaches(State(), assignee.value) { return false; }
      UpdateItems(ids, (i: Item) => BulkAnsweredItem(i, answer, assignee, overwrite, now));
      forall id | id in items ensures BulkAnswers(old(items)[id], items[id], id in ids, answer, assignee, overwrite) {
        BulkAnswersItem(old(items)[id], answer, assignee, overwrite, now);
      }
      return true;
    }

    /** Accepted, the listed items have their new assignee and no answer changed -- but the stamps moved. */
    method BulkAssign(u: User, ids: set<Id>, assignee: Option<User>, now: int) returns (ok: bool)
      requires Valid()
      modifies this
      ensures Valid() && State() == Next(cfg, old(State()), AssignEvent(u, ids, assignee), now)
      ensures if ok then items.Keys == old(items).Keys else State() == old(State())
      ensures ok ==> forall id :: id in items ==>
                AnswerOf(items[id]) == AnswerOf(old(items)[id]) && items[id].verdict == old(items)[id].verdict
                && (id in ids ==> items[id].response.Some? && items[id].response.value.assignee == assignee)
                && (id !in ids ==> items[id] == old(items)[id])
      ensures old(Captured(Rows())) ==> (Captured(Rows()) <==> StampedLater(old(Rows()), Rows(), now))
    {
      StepKeeps(cfg, State(), AssignEvent(u, ids, assignee), now);
      StampsDecide(cfg, State(), AssignEvent(u, ids, assignee), now);
      if !CanEdit(State(), u) || ids == {} || |ids| > 1000 { return false; }
      if assignee.Some? && !Reaches(State(), assignee.value) { return false; }
      UpdateItems(ids, (i: Item) => AssignedItem(i, assignee, now));
      return true;
    }

    /** Changes every row whose identifier is listed, and no other. */
    method UpdateItems(ids: set<Id>, f: Item -> Item)
      modifies this`items
      ensures items == OnItems(old(items), ids, f)
    {
      var todo := ids * items.Keys;
      while todo != {}
        invariant todo <= ids * items.Keys && items.Keys == old(items).Keys
        invariant forall id :: id in items ==> items[id] == if id in ids && id !in todo then f(old(items)[id]) else old(items)[id]
        decreases todo
      {
        var id :| id in todo;
        items := items[id := f(items[id])];
        todo := todo - {id};
      }
      assert items == OnItems(old(items), ids, f);
    }

    // -------------------------------------------------------------- the reviewer

    /** Accepted, the caller is the reviewer and may carry the review on, whoever sat there before. */
    method BeginReview(u: User) returns (ok: bool)
      requires Valid()
      modifies this
      ensures Valid() && State() == Next(cfg, old(State()), BeginEvent(u), 0)
      ensures if ok then status == Reviewing && reviewer == Some(u) && CanReview(cfg, State(), u) && items == old(items)
              else State() == old(State())
    {
      StepKeeps(cfg, State(), BeginEvent(u), 0);
      if !HasRole(State(), u, SecurityReviewer) || SelfBlocked(cfg, State(), u) { return false; }
      var orphaned := ReviewerUnable(State());
      var waiting := (status == Submitted || status == Resubmitted) && (reviewer.None? || reviewer == Some(u) || orphaned);
      if !waiting && !(status == Reviewing && orphaned) { return false; }
      status := Reviewing;
      if reviewer.None? || orphaned { reviewer := Some(u); }
      return true;
    }

    /** Accepted, the item carries the caller's verdict on the answer that stands, and it is not stale
        whatever the clock says; nothing else moved. */
    method SaveReviewResult(u: User, item: Id, verdict: string, expected: Option<int>, now: int) returns (ok: bool)
      requires Valid()
      modifies this
      ensures Valid() && State() == Next(cfg, old(State()), SaveVerdictEvent(u, item, verdict, expected), now)
      ensures ok ==> item in items && JudgedBy(old(items)[item], items[item], u, verdict)
      ensures if ok then items.Keys == old(items).Keys && forall id :: id in items && id != item ==> items[id] == old(items)[id]
              else State() == old(State())
      ensures ok && !cfg.allowSelfReview ==> requester != u
    {
      StepKeeps(cfg, State(), SaveVerdictEvent(u, item, verdict, expected), now);
      if !CanReview(cfg, State(), u) || verdict !in RESULTS || item !in items { return false; }
      var row := items[item].verdict;
      if expected.Some? && row.Some? && row.value.at != expected.value { return false; }
      if status != Reviewing { return false; }
      JudgingClearsStaleness(items[item], u, verdict, now);
      items := items[item := items[item].(verdict := Some(Verdict(verdict, u, CurrentAnswer(items[item]), JudgedAt(items[item], now))))];
      return true;
    }

    /** Accepted with overwrite, no listed item is left unjudged or stale; without, no existing verdict changed. */
    method BulkSaveReviewResults(u: User, ids: set<Id>, verdict: string, overwrite: bool, now: int) returns (ok: bool)
      requires Valid()
      modifies this
      ensures Valid() && State() == Next(cfg, old(State()), BulkVerdictEvent(u, ids, verdict, overwrite), now)
      ensures if ok then items.Keys == old(items).Keys else State() == old(State())
      ensures ok ==> forall id :: id in items ==> BulkJudges(old(items)[id], items[id], id in ids, u, verdict, overwrite)
    {
      StepKeeps(cfg, State(), BulkVerdictEvent(u, ids, verdict, overwrite), now);
      if !CanReview(cfg, State(), u) || ids == {} || |ids| > 1000 || verdict !in RESULTS || status != Reviewing { return false; }
      UpdateItems(ids, (i: Item) => BulkJudgedItem(i, u, verdict, overwrite, now));
      forall id | id in items ensures BulkJudges(old(items)[id], items[id], id in ids, u, verdict, overwrite) {
        BulkJudgesItem(old(items)[id], u, verdict, overwrite, now);
      }
      return true;
    }

    /** Accepted, the item has an open correction, the others stand, and the author may work on it. */
    method CreateChangeRequest(u: User, change: Id, item: Id, reason: string, assignee: Option<User>) returns (ok: bool)
      requires Valid()
      modifies this
      ensures Valid() && State() == Next(cfg, old(State()), RequestChangeEvent(u, change, item, reason, assignee), 0)
      ensures forall c :: ChangeMoves(old(Rows()), Rows(), c)
      ensures if ok then change in changes && changes[change] == Change(item, assignee, Open) && CanEdit(State(), requester)
              else State() == old(State())
    {
      ghost var e := RequestChangeEvent(u, change, item, reason, assignee);
      StepKeeps(cfg, State(), e, 0);
      forall c ensures ChangeMoves(Rows(), Next(cfg, State(), e, 0).review, c) { StepOnChange(cfg, State(), e, 0, c); }
      if !CanReview(cfg, State(), u) || Blank(reason) || change in changes { return false; }
      if assignee.Some? && !Reaches(State(), assignee.value) { return false; }
      if item !in items || status != Reviewing { return false; }
      changes := changes[change := Change(item, assignee, Open)];
      status := ChangeRequested;
      return true;
    }

    /** No correction disappears or moves back, and an accepted call moves this one. */
    method UpdateChangeRequest(u: User, change: Id, to: ChangeStatus) returns (ok: bool)
      requires Valid()
      modifies this
      ensures Valid() && State() == Next(cfg, old(State()), UpdateChangeEvent(u, change, to), 0)
      ensures forall c :: ChangeMoves(old(Rows()), Rows(), c)
      ensures if ok then change in changes && changes[change].status == to != old(changes)[change].status else State() == old(State())
      ensures ok ==> match to
                     case Open => false
                     case Done => old(changes)[change].assignee == Some(u) || (Editable(status) && M.IsAuthor(State(), u))
                     case Verified => M.IsReviewer(cfg, State(), u)
    {
      ghost var e := UpdateChangeEvent(u, change, to);
      StepKeeps(cfg, State(), e, 0);
      forall c ensures ChangeMoves(Rows(), Next(cfg, State(), e, 0).review, c) { StepOnChange(cfg, State(), e, 0, c); }
      if change !in changes || !CanAccess(cfg, State(), u) { return false; }
      var c := changes[change];
      match to {
        case Open => return false;
        case Done =>
          if c.assignee != Some(u) && !CanEdit(State(), u) { return false; }
          if c.status != Open { return false; }
        case Verified =>
          if !CanReview(cfg, State(), u) { return false; }
          if c.status != Open && c.status != Done { return false; }
      }
      changes := changes[change := Change(c.item, c.assignee, to)];
      return true;
    }

    /** Accepted, every correction is verified and, if verdicts were honest, every item is judged on the
        answer that stands; with the approval step on, the decision is still to come. */
    method CompleteReview(u: User, final: string, opinion: string) returns (ok: bool)
      requires Valid()
      modifies this
      ensures Valid() && State() == Next(cfg, old(State()), CompleteEvent(u, final, opinion), 0)
      ensures if ok then Decided(status) && items == old(items) else State() == old(State())
      ensures ok && old(Captured(Rows())) ==> Judged(Rows())
      ensures ok ==> result == final && (status == Rejected <==> final == "REJECTED" && !cfg.approvalEnabled)
      ensures ok ==> (status == ApprovalPending <==> cfg.approvalEnabled) && forall c :: c in changes ==> changes[c].status == Verified
    {
      StepKeeps(cfg, State(), CompleteEvent(u, final, opinion), 0);
      if !CanReview(cfg, State(), u) || !NothingBlocks(Rows()) { return false; }
      if final !in FINAL_RESULTS || Blank(opinion) || status != Reviewing { return false; }
      if Captured(Rows()) { GuardMeansJudged(Rows()); }
      status := Approved;
      if final == "REJECTED" { status := Rejected; }
      if cfg.approvalEnabled { status := ApprovalPending; }
      result := final;
      return true;
    }

    /** Accepted, the review is in progress again, and who took it back can carry it on, at the latest after
        beginning it. */
    method WithdrawApproval(u: User, reason: string) returns (ok: bool)
      requires Valid()
      modifies this
      ensures Valid() && State() == Next(cfg, old(State()), WithdrawEvent(u, reason), 0)
      ensures if ok then status == Reviewing && (CanReview(cfg, State(), u) || Begin(cfg, State(), u).Some?) else State() == old(State())
      ensures items == old(items) && changes == old(changes) && decisions == old(decisions)
    {
      StepKeeps(cfg, State(), WithdrawEvent(u, reason), 0);
      if !MayTakeBack(cfg, State(), u, reason) || status != ApprovalPending { return false; }
      status, result := Reviewing, "";
      return true;
    }

    /** Accepted, the author may edit again; what was decided stays on record. */
    method ReopenRejectedReview(u: User, reason: string) returns (ok: bool)
      requires Valid()
      modifies this
      ensures Valid() && State() == Next(cfg, old(State()), ReopenEvent(u, reason), 0)
      ensures if ok then old(status) == Rejected && CanEdit(State(), requester) else State() == old(State())
      ensures items == old(items) && changes == old(changes) && decisions == old(decisions)
    {
      StepKeeps(cfg, State(), ReopenEvent(u, reason), 0);
      if !MayTakeBack(cfg, State(), u, reason) || status != Rejected { return false; }
      status, result := ChangeRequested, "";
      return true;
    }

    /** Accepted, the review is closed for good: no event whatever moves it again. */
    method CloseReview(u: User) returns (ok: bool)
      requires Valid()
      modifies this
      ensures Valid() && State() == Next(cfg, old(State()), CloseEvent(u), 0)
      ensures if ok then Settled(old(status)) && reviewer == Some(u) && forall e, t :: Next(cfg, State(), e, t).review.status == Closed
              else State() == old(State())
    {
      StepKeeps(cfg, State(), CloseEvent(u), 0);
      if !HasRole(State(), u, SecurityReviewer) || reviewer != Some(u) || (status != Approved && status != Rejected) { return false; }
      status := Closed;
      FinalForever(cfg, State());
      return true;
    }

    // ----------------------------------------------------- the approver and the owners

    /** Accepted, the caller is the approver on record and the decision is in the history; with self-review
        off the caller neither asked for the review nor judged any of it. */
    method DecideApproval(u: User, approved: bool) returns (ok: bool)
      requires Valid()
      modifies this
      ensures Valid() && State() == Next(cfg, old(State()), DecideEvent(u, approved), 0)
      ensures if ok then Settled(status) && approver == Some(u) && decisions == old(decisions) + [Decision(u, approved)] && items == old(items)
              else State() == old(State())
      ensures ok && !cfg.allowSelfReview ==> requester != u && reviewer != Some(u) && !WroteVerdict(Rows(), u)
    {
      StepKeeps(cfg, State(), DecideEvent(u, approved), 0);
      if Decide(cfg, State(), u, approved).Some? { DeciderIsRecorded(cfg, State(), u, approved); }
      if !HasRole(State(), u, Approver) || SelfBlocked(cfg, State(), u) || OwnVerdictBlocked(cfg, State(), u) { return false; }
      var unable := ApproverUnable(cfg, State());
      if status != ApprovalPending || (approver != Some(u) && !unable) { return false; }
      RecordDecision(u, approved, unable);
      return true;
    }

    /** The two statements of the decision's transaction. */
    method RecordDecision(u: User, approved: bool, unable: bool)
      modifies this
      ensures State() == old(State()).(review := old(Rows()).(
                status := if approved then Approved else Rejected, approver := if unable then Some(u) else old(approver),
                result := if approved then old(result) else "REJECTED", decisions := old(decisions) + [Decision(u, approved)]))
    {
      if unable { approver := Some(u); }
      status := if approved then Approved else Rejected;
      if !approved { result := "REJECTED"; }
      decisions := decisions + [Decision(u, approved)];
    }

    /** Accepted, the review was undecided and is cancelled for good. */
    method CancelReview(u: User, reason: string) returns (ok: bool)
      requires Valid()
      modifies this
      ensures Valid() && State() == Next(cfg, old(State()), CancelEvent(u, reason), 0)
      ensures if ok then !Settled(old(status)) && requester == u && forall e, t :: Next(cfg, State(), e, t).review.status == Cancelled
              else State() == old(State())
    {
      StepKeeps(cfg, State(), CancelEvent(u, reason), 0);
      if !HasRole(State(), u, Role.Requester) || requester != u { return false; }
      if status !in {Draft, ChangeRequested, Submitted, Resubmitted, Reviewing, ApprovalPending} { return false; }
      var handed := status != Draft;
      if handed && Blank(reason) { return false; }
      status := Cancelled;
      FinalForever(cfg, State());
      return true;
    }

    /** Accepted, only the owner changed; with self-review off the new owner sits in neither other seat. */
    method TransferRequester(u: User, to: User) returns (ok: bool)
      requires Valid()
      modifies this
      ensures Valid() && State() == Next(cfg, old(State()), TransferEvent(u, to), 0)
      ensures if ok then requester == to != old(requester) && Rows() == old(Rows()).(requester := to) else State() == old(State())
      ensures ok && !cfg.allowSelfReview ==> reviewer != Some(to) && approver != Some(to)
    {
      StepKeeps(cfg, State(), TransferEvent(u, to), 0);
      if !HasRole(State(), u, SystemAdmin) && u != requester { return false; }
      if status == Cancelled || to == requester || !StillHolds(State(), Some(to), Role.Requester) { return false; }
      if !cfg.allowSelfReview && (reviewer == Some(to) || approver == Some(to)) { return false; }
      requester := to;
      return true;
    }

    /** Accepted, whoever was named holds the role of the seat; while the review is with its author they also
        have an open account, and with self-review off are not its requester. */
    method UpdateReviewRequest(u: User, newReviewer: Option<User>, newApprover: Option<User>) returns (ok: bool)
      requires Valid()
      modifies this
      ensures Valid() && State() == Next(cfg, old(State()), ReassignEvent(u, newReviewer, newApprover), 0)
      ensures items == old(items) && status == old(status) && requester == old(requester) && (!ok ==> State() == old(State()))
      ensures ok && newApprover.Some? ==> approver == newApprover && HasRole(State(), newApprover.value, Approver)
      ensures ok && newReviewer.Some? && Editable(status) && CanEdit(State(), u) ==>
                reviewer == newReviewer && !ReviewerUnable(State()) && (!cfg.allowSelfReview ==> reviewer != Some(requester))
      ensures ok && Editable(status) && !cfg.allowSelfReview ==>
                (newApprover.Some? ==> approver != Some(requester)) && (newReviewer.Some? && newApprover.Some? ==> reviewer != approver)
      ensures ok && !Editable(status) ==> status == ApprovalPending && reviewer == old(reviewer)
    {
      StepKeeps(cfg, State(), ReassignEvent(u, newReviewer, newApprover), 0);
      if !CanEdit(State(), u) {
        if newApprover.None? || !HasRole(State(), u, SystemAdmin) { return false; }
        if status != ApprovalPending || !HasRole(State(), newApprover.value, Approver) { return false; }
        approver := newApprover;
        return true;
      }
      if !GoodAssignees(cfg, State(), newReviewer, newApprover) { return false; }
      if newReviewer.Some? { reviewer := newReviewer; }
      if newApprover.Some? { approver := newApprover; }
      return true;
    }

    /** Seats apart stay apart with self-review off; no answer and no verdict changes. */
    method HandoverUserWork(u: User, from: User, to: User, now: int) returns (ok: bool)
      requires Valid()
      modifies this
      ensures Valid() && State() == Next(cfg, old(State()), HandoverEvent(u, from, to), now)
      ensures !ok ==> State() == old(State())
      ensures items.Keys == old(items).Keys
      ensures forall id :: id in items ==> AnswerOf(items[id]) == AnswerOf(old(items)[id]) && items[id].verdict == old(items)[id].verdict
      ensures !cfg.allowSelfReview && old(reviewer != Some(requester)) ==> reviewer != Some(requester)
      ensures !cfg.allowSelfReview && old(approver != Some(requester)) ==> approver != Some(requester)
    {
      StepKeeps(cfg, State(), HandoverEvent(u, from, to), now);
      if !HasRole(State(), u, SystemAdmin) || from == to || to !in accounts || !accounts[to].active { return false; }
      if status in {Approved, Closed, Cancelled, Rejected} { return true; }
      if !cfg.allowSelfReview { HandoverAndTwoSeats(cfg, State(), from, to); }
      MoveSeats(from, to);
      if Reaches(State(), to) { MoveWork(from, to, now); }
      return true;
    }

    method MoveSeats(from: User, to: User)
      modifies this
      ensures State() == old(State()).(review := SeatsMoved(cfg, old(State()), from, to))
    {
      var strict := !cfg.allowSelfReview;
      var owner, judge, signer := requester, reviewer, approver;
      if owner == from && HasRole(State(), to, Role.Requester) && !(strict && (judge == Some(to) || signer == Some(to))) { requester := to; }
      if judge == Some(from) && HasRole(State(), to, SecurityReviewer) && !(strict && to == owner) { reviewer := Some(to); }
      if signer == Some(from) && HasRole(State(), to, Approver) && !(strict && to == owner) { approver := Some(to); }
    }

    method MoveWork(from: User, to: User, now: int)
      modifies this
      ensures State() == old(State()).(review := WorkMoved(old(Rows()), from, to, now))
    {
      UpdateItems(items.Keys, (i: Item) => HandedItem(i, from, Some(to), now));
      changes := map c | c in changes ::
        if changes[c].assignee == Some(from) && changes[c].status != Verified then changes[c].(assignee := Some(to)) else changes[c];
    }
  }
}
