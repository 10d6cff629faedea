// What every run of the review workflow keeps: verdicts describe the answers that were decided on, the
// approver is a second pair of eyes, corrections are closed before a decision, and nothing reaches a
// reviewer incomplete or unscanned.
module WorkflowSafety {
  import opened Common
  import opened Workflow

  predicate Decided(s: Status) {
    s in {ApprovalPending, Approved, Rejected, Closed}
  }

  /** Handed in, and not handed back or dropped since. */
  predicate InReview(s: Status) {
    s !in {Draft, ChangeRequested, Cancelled}
  }

  // ------------------------------------------------------------- what one step can do

  /** The three ways a step can treat an item that stays: leave its rows, stamp its answer -- with new
      contents only while the author may edit -- or judge it, only during the review. */
  ghost predicate ItemMoved(s: Status, a: Item, b: Item, now: int) {
    && b.required == a.required && b.evidenceRequired == a.evidenceRequired
    && (Editable(s) || b.unscanned <= a.unscanned)
    && (|| (b.response == a.response && b.verdict == a.verdict)
        || (b.verdict == a.verdict && b.response.Some? && b.response.value.updatedAt == now && (Editable(s) || CurrentAnswer(b) == CurrentAnswer(a)))
        || (s == Reviewing && b.response == a.response && b.verdict.Some? && b.verdict.value.result != ""
            && b.verdict.value.judged == CurrentAnswer(a) && b.verdict.value.at == JudgedAt(a, now)))
  }

  /** What an event does to an item that stays; only the evidence event moves the time of its files. */
  ghost predicate StepMoves(cfg: Config, w: World, e: Event, now: int, id: Id)
    requires id in w.review.items && id in Next(cfg, w, e, now).review.items
  {
    var a, b := w.review.items[id], Next(cfg, w, e, now).review.items[id];
    && ItemMoved(w.review.status, a, b, now)
    && (b.touched == a.touched || (e.EvidenceEvent? && b.touched == e.touched))
    && (!e.EvidenceEvent? ==> b.evidence == a.evidence && b.unscanned == a.unscanned)
    && (b.verdict != a.verdict ==> b.verdict.Some? && CanReview(cfg, w, b.verdict.value.author))
  }

  predicate AuthorEvent(e: Event) {
    e.SubmitEvent? || e.SaveAnswerEvent? || e.BulkAnswerEvent? || e.AssignEvent? || e.ParticipantsEvent? || e.IncludeEvent? || e.ExcludeEvent?
  }

  predicate ReviewerEvent(e: Event) {
    || e.BeginEvent? || e.SaveVerdictEvent? || e.BulkVerdictEvent? || e.RequestChangeEvent? || e.BulkRequestChangeEvent?
    || e.CompleteEvent? || e.WithdrawEvent? || e.ReopenEvent? || e.CloseEvent?
  }

  predicate ReleasingEvent(e: Event) {
    e.ParticipantsEvent? || e.AccountEvent? || e.HandoverEvent?
  }

  predicate AnswerEvent(e: Event) {
    e.SaveAnswerEvent? || e.BulkAnswerEvent? || e.AssignEvent?
  }

  ghost predicate Stamps(w: World, done: Option<Review>, now: int, id: Id)
    requires id in w.review.items && (done.Some? ==> id in done.value.items)
  {
    done.Some? ==>
      && ItemMoved(w.review.status, w.review.items[id], done.value.items[id], now)
      && done.value.items[id].touched == w.review.items[id].touched
      && done.value.items[id].verdict == w.review.items[id].verdict
      && done.value.items[id].evidence == w.review.items[id].evidence && done.value.items[id].unscanned == w.review.items[id].unscanned
  }

  lemma SavedOnItem(w: World, u: User, item: Id, answer: Answer, assignee: Option<User>, expected: Option<int>, now: int, id: Id)
    requires id in w.review.items
    ensures Stamps(w, SaveAnswer(w, u, item, answer, assignee, expected, now), now, id)
  {
  }

  lemma BulkOnItem(w: World, u: User, ids: set<Id>, answer: Answer, assignee: Option<User>, overwrite: bool, now: int, id: Id)
    requires id in w.review.items
    ensures Stamps(w, BulkAnswer(w, u, ids, answer, assignee, overwrite, now), now, id)
  {
  }

  lemma AssignOnItem(w: World, u: User, ids: set<Id>, assignee: Option<User>, now: int, id: Id)
    requires id in w.review.items
    ensures Stamps(w, Assign(w, u, ids, assignee, now), now, id)
  {
  }

  lemma AnswersOnItem(cfg: Config, w: World, e: Event, now: int, id: Id)
    requires AnswerEvent(e) && id in w.review.items && id in Next(cfg, w, e, now).review.items
    ensures StepMoves(cfg, w, e, now, id)
  {
    match e
    case SaveAnswerEvent(u, item, answer, assignee, expected) => SavedOnItem(w, u, item, answer, assignee, expected, now, id);
    case BulkAnswerEvent(u, ids, answer, assignee, overwrite) => BulkOnItem(w, u, ids, answer, assignee, overwrite, now, id);
    case AssignEvent(u, ids, assignee) => AssignOnItem(w, u, ids, assignee, now, id);
  }

  lemma AuthorOnItem(cfg: Config, w: World, e: Event, now: int, id: Id)
    requires AuthorEvent(e) && !AnswerEvent(e) && !ReleasingEvent(e)
    requires id in w.review.items && id in Next(cfg, w, e, now).review.items
    ensures StepMoves(cfg, w, e, now, id)
  {
  }

  lemma ReleasedOnItem(w: World, users: set<User>, now: int, id: Id)
    requires id in w.review.items
    ensures Stamps(w, Some(Released(w.review, users, now)), now, id)
  {
  }

  lemma HandoverOnItem(cfg: Config, w: World, u: User, from: User, to: User, now: int, id: Id)
    requires id in w.review.items
    ensures Stamps(w, Handover(cfg, w, u, from, to, now), now, id)
  {
  }

  lemma ParticipantsOnItem(cfg: Config, w: World, e: Event, now: int, id: Id)
    requires e.ParticipantsEvent? && id in w.review.items && id in Next(cfg, w, e, now).review.items
    ensures StepMoves(cfg, w, e, now, id)
  {
    ReleasedOnItem(w, e.released, now, id);
  }

  lemma AccountOnItem(cfg: Config, w: World, e: Event, now: int, id: Id)
    requires e.AccountEvent? && id in w.review.items && id in Next(cfg, w, e, now).review.items
    ensures StepMoves(cfg, w, e, now, id)
  {
    ReleasedOnItem(w, {e.user}, now, id);
  }

  lemma ReleasesOnItem(cfg: Config, w: World, e: Event, now: int, id: Id)
    requires ReleasingEvent(e) && id in w.review.items && id in Next(cfg, w, e, now).review.items
    ensures StepMoves(cfg, w, e, now, id)
  {
    if e.ParticipantsEvent? {
      ParticipantsOnItem(cfg, w, e, now, id);
    } else if e.AccountEvent? {
      AccountOnItem(cfg, w, e, now, id);
    } else {
      HandoverOnItem(cfg, w, e.u, e.from, e.owner, now, id);
    }
  }

  lemma ReviewerOnItem(cfg: Config, w: World, e: Event, now: int, id: Id)
    requires ReviewerEvent(e) && id in w.review.items && id in Next(cfg, w, e, now).review.items
    ensures StepMoves(cfg, w, e, now, id)
  {
  }

  lemma OthersOnItem(cfg: Config, w: World, e: Event, now: int, id: Id)
    requires !AuthorEvent(e) && !ReviewerEvent(e) && !ReleasingEvent(e) && id in w.review.items && id in Next(cfg, w, e, now).review.items
    ensures StepMoves(cfg, w, e, now, id)
  {
  }

  lemma StepOnItem(cfg: Config, w: World, e: Event, now: int, id: Id)
    requires id in w.review.items && id in Next(cfg, w, e, now).review.items
    ensures StepMoves(cfg, w, e, now, id)
  {
    if AnswerEvent(e) {
      AnswersOnItem(cfg, w, e, now, id);
    } else if ReleasingEvent(e) {
      ReleasesOnItem(cfg, w, e, now, id);
    } else if AuthorEvent(e) {
      AuthorOnItem(cfg, w, e, now, id);
    } else if ReviewerEvent(e) {
      ReviewerOnItem(cfg, w, e, now, id);
    } else {
      OthersOnItem(cfg, w, e, now, id);
    }
  }

  /** Items come and go only in a draft, and come without answer, verdict or files. */
  ghost predicate ListMoves(before: Review, after: Review) {
    && (after.items.Keys == before.items.Keys || before.status == after.status == Draft)
    && forall id :: id in after.items && id !in before.items ==>
         && after.items[id].verdict.None? && after.items[id].response.None? && after.items[id].touched.None?
         && after.items[id].evidence == 0 && after.items[id].unscanned == 0
  }

  lemma AuthorOnList(cfg: Config, w: World, e: Event, now: int)
    requires AuthorEvent(e)
    ensures ListMoves(w.review, Next(cfg, w, e, now).review)
  {
  }

  lemma StepOnList(cfg: Config, w: World, e: Event, now: int)
    ensures ListMoves(w.review, Next(cfg, w, e, now).review)
  {
    if AuthorEvent(e) { AuthorOnList(cfg, w, e, now); } else { assert Next(cfg, w, e, now).review.items.Keys == w.review.items.Keys; }
  }

  lemma AuthorMovesAlone(cfg: Config, w: World, e: Event, now: int)
    requires AuthorEvent(e)
    ensures var r := Next(cfg, w, e, now).review; r.status != w.review.status ==> r.items == w.review.items
  {
  }

  lemma OwnersMoveAlone(cfg: Config, w: World, e: Event, now: int)
    requires !AuthorEvent(e) && !ReviewerEvent(e)
    ensures var r := Next(cfg, w, e, now).review; r.status != w.review.status ==> r.items == w.review.items
  {
  }

  lemma StatusMovesAlone(cfg: Config, w: World, e: Event, now: int)
    ensures var r := Next(cfg, w, e, now).review; r.status != w.review.status ==> r.items == w.review.items
  {
    if AuthorEvent(e) { AuthorMovesAlone(cfg, w, e, now); } else if !ReviewerEvent(e) { OwnersMoveAlone(cfg, w, e, now); }
  }

  lemma FinalStays(cfg: Config, w: World, e: Event, now: int)
    ensures w.review.status in {Closed, Cancelled} ==> Next(cfg, w, e, now).review.status == w.review.status
  {
  }

  /** The status moves alone: the items stay as they are, and CLOSED and CANCELLED are for good. */
  lemma StepOnStatus(cfg: Config, w: World, e: Event, now: int)
    ensures var r := Next(cfg, w, e, now).review;
            && (r.status != w.review.status ==> r.items == w.review.items)
            && (w.review.status in {Closed, Cancelled} ==> r.status == w.review.status)
  {
    StatusMovesAlone(cfg, w, e, now);
    FinalStays(cfg, w, e, now);
  }

  lemma OnlyTheseEnter(cfg: Config, w: World, e: Event, now: int)
    ensures var r := Next(cfg, w, e, now).review;
            && (Decided(r.status) && !Decided(w.review.status) ==> e.CompleteEvent?)
            && (InReview(r.status) && !InReview(w.review.status) ==> e.SubmitEvent?)
  {
  }

  /** Into a decision only past the completion guard. */
  lemma StepIntoDecision(cfg: Config, w: World, e: Event, now: int)
    ensures var r := Next(cfg, w, e, now).review;
            Decided(r.status) && !Decided(w.review.status) ==> NothingBlocks(w.review) && r.changes == w.review.changes
  {
    OnlyTheseEnter(cfg, w, e, now);
    if e.CompleteEvent? {
      var done := Complete(cfg, w, e.u, e.result, e.opinion);
      assert done.Some? ==> NothingBlocks(w.review) && done.value.changes == w.review.changes;
    }
  }

  /** Into the review only past the submission guard. */
  lemma StepIntoReview(cfg: Config, w: World, e: Event, now: int)
    ensures var r := Next(cfg, w, e, now).review;
            InReview(r.status) && !InReview(w.review.status) ==> ReadyToSubmit(cfg, w.review) && r.changes == w.review.changes
  {
    OnlyTheseEnter(cfg, w, e, now);
    if e.SubmitEvent? {
      var done := Submit(cfg, w, e.u);
      assert done.Some? ==> ReadyToSubmit(cfg, w.review) && done.value.changes == w.review.changes;
    }
  }

  /** What a step can do to the change requests: none disappears, each keeps its item and moves only
      forward, and a new one is open and hands the review back. */
  ghost predicate ChangeMoves(before: Review, after: Review, c: Id) {
    if c in before.changes then
      && c in after.changes && after.changes[c].item == before.changes[c].item
      && var from, to := before.changes[c].status, after.changes[c].status;
         from == to || (from == Open && to == Done) || (from != Verified && to == Verified)
    else c in after.changes ==> before.status == Reviewing && after.status == ChangeRequested && after.changes[c].status == Open
  }

  lemma UpdatesOnChange(cfg: Config, w: World, u: User, change: Id, to: ChangeStatus, c: Id)
    ensures var r := UpdateChange(cfg, w, u, change, to); r.Some? ==> ChangeMoves(w.review, r.value, c)
  {
  }

  lemma RequestsOnChange(cfg: Config, w: World, u: User, ids: set<Id>, added: map<Id, Id>, reason: string, assignee: Option<User>, c: Id)
    ensures var r := BulkRequestChange(cfg, w, u, ids, added, reason, assignee); r.Some? ==> ChangeMoves(w.review, r.value, c)
  {
  }

  lemma HandoverOnChange(cfg: Config, w: World, u: User, from: User, to: User, now: int, c: Id)
    ensures var r := Handover(cfg, w, u, from, to, now); r.Some? ==> ChangeMoves(w.review, r.value, c)
  {
  }

  lemma RequestOnChange(cfg: Config, w: World, u: User, change: Id, item: Id, reason: string, assignee: Option<User>, c: Id)
    ensures var r := RequestChange(cfg, w, u, change, item, reason, assignee); r.Some? ==> ChangeMoves(w.review, r.value, c)
  {
  }

  predicate ChangeEvent(e: Event) {
    e.RequestChangeEvent? || e.BulkRequestChangeEvent? || e.UpdateChangeEvent? || e.HandoverEvent?
  }

  lemma OthersLeaveChanges(cfg: Config, w: World, e: Event, now: int)
    requires !ChangeEvent(e)
    ensures Next(cfg, w, e, now).review.changes == w.review.changes
  {
  }

  lemma StepOnChange(cfg: Config, w: World, e: Event, now: int, c: Id)
    ensures ChangeMoves(w.review, Next(cfg, w, e, now).review, c)
  {
    if !ChangeEvent(e) {
      OthersLeaveChanges(cfg, w, e, now);
    } else {
      match e
      case RequestChangeEvent(u, change, item, reason, assignee) => RequestOnChange(cfg, w, u, change, item, reason, assignee, c);
      case BulkRequestChangeEvent(u, ids, added, reason, assignee) => RequestsOnChange(cfg, w, u, ids, added, reason, assignee, c);
      case UpdateChangeEvent(u, change, to) => UpdatesOnChange(cfg, w, u, change, to, c);
      case HandoverEvent(u, from, owner) => HandoverOnChange(cfg, w, u, from, owner, now, c);
    }
  }

  // -------------------------------------------------- verdicts describe the answers decided on

  /** A verdict no older than the answer is a verdict on this answer. */
  ghost predicate CapturedItem(i: Item) {
    i.verdict.Some? ==>
      && (i.response.None? ==> i.verdict.value.judged.None?)
      && (i.response.Some? && i.response.value.updatedAt <= i.verdict.value.at ==> i.verdict.value.judged == CurrentAnswer(i))
  }

  ghost predicate Captured(r: Review) {
    forall id :: id in r.items ==> CapturedItem(r.items[id])
  }

  ghost predicate Judged(r: Review) {
    forall id :: id in r.items ==> HasVerdict(r.items[id]) && r.items[id].verdict.value.judged == CurrentAnswer(r.items[id])
  }

  /** An answer that a step stamps, and that differs from the one its verdict was passed on, is stamped
      later than that verdict. */
  ghost predicate StampedLater(before: Review, after: Review, now: int) {
    forall id :: id in before.items && id in after.items && after.items[id].response != before.items[id].response ==>
      Overtakes(before.items[id].verdict, CurrentAnswer(after.items[id]), now)
  }

  predicate Overtakes(v: Option<Verdict>, answer: Option<Answer>, now: int) {
    v.Some? && v.value.judged != answer ==> now > v.value.at
  }

  lemma CapturedMoves(s: Status, a: Item, b: Item, now: int)
    requires CapturedItem(a) && ItemMoved(s, a, b, now)
    ensures CapturedItem(b) <==> (b.response != a.response ==> Overtakes(a.verdict, CurrentAnswer(b), now))
  {
  }

  /** The condition on time stamps is exact: a step keeps every verdict honest if and only if it stamps the
      answers it changes later than the verdicts they overtake. */
  lemma CapturedExactly(cfg: Config, w: World, e: Event, now: int)
    requires Captured(w.review)
    ensures Captured(Next(cfg, w, e, now).review) <==> StampedLater(w.review, Next(cfg, w, e, now).review, now)
  {
    var r, q := w.review, Next(cfg, w, e, now).review;
    StepOnList(cfg, w, e, now);
    forall id | id in r.items && id in q.items
      ensures CapturedItem(q.items[id]) <==> (q.items[id].response != r.items[id].response ==> Overtakes(r.items[id].verdict, CurrentAnswer(q.items[id]), now))
    {
      StepOnItem(cfg, w, e, now, id);
      CapturedMoves(r.status, r.items[id], q.items[id], now);
    }
  }

  /** Past the completion guard every verdict was passed on the answer that stands. */
  lemma GuardMeansJudged(r: Review)
    requires Captured(r) && NothingBlocks(r)
    ensures Judged(r)
  {
    forall id | id in r.items ensures HasVerdict(r.items[id]) && r.items[id].verdict.value.judged == CurrentAnswer(r.items[id]) {
      assert CapturedItem(r.items[id]) && HasVerdict(r.items[id]) && !IsStale(r.items[id]);
    }
  }

  lemma StepKeepsJudged(cfg: Config, w: World, e: Event, now: int)
    requires Captured(w.review) && (Decided(w.review.status) ==> Judged(w.review))
    ensures var r := Next(cfg, w, e, now).review; Decided(r.status) ==> Judged(r)
  {
    var r := Next(cfg, w, e, now).review;
    StepOnStatus(cfg, w, e, now);
    StepIntoDecision(cfg, w, e, now);
    StepOnList(cfg, w, e, now);
    if Decided(r.status) && !Decided(w.review.status) {
      GuardMeansJudged(w.review);
    } else if Decided(r.status) {
      forall id | id in r.items ensures HasVerdict(r.items[id]) && r.items[id].verdict.value.judged == CurrentAnswer(r.items[id]) {
        StepOnItem(cfg, w, e, now, id);
        assert HasVerdict(w.review.items[id]);
      }
    }
  }

  // ----------------------------------------------------- what is handed in stays complete

  /** Under review or decided, every answer is complete and every file has passed the scanner. */
  ghost predicate CompleteInReview(r: Review) {
    InReview(r.status) ==> forall id :: id in r.items ==> AnswerComplete(r.items[id]) && r.items[id].unscanned == 0
  }

  lemma StepKeepsComplete(cfg: Config, w: World, e: Event, now: int)
    requires CompleteInReview(w.review)
    ensures CompleteInReview(Next(cfg, w, e, now).review)
  {
    var r := Next(cfg, w, e, now).review;
    StepOnStatus(cfg, w, e, now);
    StepIntoReview(cfg, w, e, now);
    StepOnList(cfg, w, e, now);
    if InReview(r.status) {
      forall id | id in r.items ensures AnswerComplete(r.items[id]) && r.items[id].unscanned == 0 {
        if InReview(w.review.status) {
          StepOnItem(cfg, w, e, now, id);
          assert AnswerComplete(w.review.items[id]);
        } else {
          assert ItemReady(cfg, id, w.review.items[id]);
        }
      }
    }
  }

  // ----------------------------------------------------- corrections close before decisions

  ghost predicate ChangesInOrder(r: Review) {
    && (forall c :: c in r.changes && r.changes[c].status == Open ==> r.status == ChangeRequested || r.status == Cancelled)
    && (Decided(r.status) ==> forall c :: c in r.changes ==> r.changes[c].status == Verified)
  }

  lemma StepKeepsChanges(cfg: Config, w: World, e: Event, now: int)
    requires ChangesInOrder(w.review)
    ensures ChangesInOrder(Next(cfg, w, e, now).review)
  {
    var r := Next(cfg, w, e, now).review;
    StepOnStatus(cfg, w, e, now);
    StepIntoDecision(cfg, w, e, now);
    StepIntoReview(cfg, w, e, now);
    if w.review.status == ChangeRequested { ChangeRequestedLeaves(cfg, w, e, now); }
    forall c | c in r.changes
      ensures r.changes[c].status == Open ==> r.status == ChangeRequested || r.status == Cancelled
      ensures Decided(r.status) ==> r.changes[c].status == Verified
    {
      StepOnChange(cfg, w, e, now, c);
    }
  }

  lemma ChangeRequestedLeaves(cfg: Config, w: World, e: Event, now: int)
    requires w.review.status == ChangeRequested
    ensures var r := Next(cfg, w, e, now).review;
            r.status in {ChangeRequested, Cancelled} || (r.changes == w.review.changes && ReadyToSubmit(cfg, w.review))
  {
  }

  // ------------------------------------------------------------- a second pair of eyes

  predicate Settled(s: Status) {
    s in {Approved, Rejected, Closed}
  }

  /** The latest decision is the named approver's, who neither asked for the review, nor holds its
      reviewer's seat, nor wrote any verdict on it. */
  ghost predicate SecondLook(r: Review) {
    && r.decisions != []
    && var d := r.decisions[|r.decisions| - 1].approver;
       r.approver == Some(d) && r.requester != d && r.reviewer != Some(d) && !WroteVerdict(r, d)
  }

  lemma VerdictsStay(cfg: Config, w: World, e: Event, now: int, u: User)
    requires w.review.status != Reviewing && w.review.status != Draft && WroteVerdict(Next(cfg, w, e, now).review, u)
    ensures WroteVerdict(w.review, u)
  {
    var r := Next(cfg, w, e, now).review;
    var id :| id in r.items && r.items[id].verdict.Some? && r.items[id].verdict.value.author == u;
    StepOnList(cfg, w, e, now);
    StepOnItem(cfg, w, e, now, id);
    assert w.review.items[id].verdict == r.items[id].verdict;
  }

  /** Who sits where in a settled review, and how it got there. */
  lemma StepOnSeats(cfg: Config, w: World, e: Event, now: int)
    requires cfg.approvalEnabled && !cfg.allowSelfReview && Settled(Next(cfg, w, e, now).review.status)
    ensures var q, r := w.review, Next(cfg, w, e, now).review;
            if Settled(q.status) then
              && r.reviewer == q.reviewer && r.approver == q.approver && r.decisions == q.decisions
              && (r.requester == q.requester || (r.reviewer != Some(r.requester) && r.approver != Some(r.requester)))
            else
              && q.status == ApprovalPending && e.DecideEvent? && r.items == q.items && r.reviewer == q.reviewer && r.requester == q.requester
              && r.decisions == q.decisions + [Decision(e.u, e.approved)] && r.approver == Some(e.u)
              && q.requester != e.u && q.reviewer != Some(e.u) && !WroteVerdict(q, e.u)
  {
    if Settled(w.review.status) { SettledSeats(cfg, w, e, now); }
  }

  lemma SettledSeats(cfg: Config, w: World, e: Event, now: int)
    requires !cfg.allowSelfReview && Settled(w.review.status) && Settled(Next(cfg, w, e, now).review.status)
    ensures var q, r := w.review, Next(cfg, w, e, now).review;
            && r.reviewer == q.reviewer && r.approver == q.approver && r.decisions == q.decisions
            && (r.requester == q.requester || (r.reviewer != Some(r.requester) && r.approver != Some(r.requester)))
  {
  }

  lemma StepKeepsSecondLook(cfg: Config, w: World, e: Event, now: int)
    requires cfg.approvalEnabled && !cfg.allowSelfReview && (Settled(w.review.status) ==> SecondLook(w.review))
    ensures var r := Next(cfg, w, e, now).review; Settled(r.status) ==> SecondLook(r)
  {
    var r := Next(cfg, w, e, now).review;
    if Settled(r.status) {
      StepOnSeats(cfg, w, e, now);
      var d := r.decisions[|r.decisions| - 1].approver;
      if WroteVerdict(r, d) { VerdictsStay(cfg, w, e, now, d); }
    }
  }

  // ------------------------------------------------------------- two seats, two people

  predicate Apart(r: Review) {
    r.reviewer != Some(r.requester)
  }

  predicate ApproverApart(r: Review) {
    r.approver != Some(r.requester)
  }

  /** A handover never seats one person on both sides of a review that had two -- but because every seat is
      decided on the seats as they were, one who held both passes both on, whenever the new owner holds
      both roles and not the third seat. */
  lemma HandoverAndTwoSeats(cfg: Config, w: World, from: User, to: User)
    requires !cfg.allowSelfReview && from != to
    ensures var r, q := w.review, SeatsMoved(cfg, w, from, to);
            && (Apart(r) ==> Apart(q)) && (ApproverApart(r) ==> ApproverApart(q))
            && (r.requester == from && r.reviewer == Some(from) ==>
                  (q.requester == to && q.reviewer == Some(to) <==> HasRole(w, to, Requester) && HasRole(w, to, SecurityReviewer) && r.approver != Some(to)))
            && (r.requester == from && r.approver == Some(from) ==>
                  (q.requester == to && q.approver == Some(to) <==> HasRole(w, to, Requester) && HasRole(w, to, Approver) && r.reviewer != Some(to)))
  {
  }

  lemma StepKeepsApart(cfg: Config, w: World, e: Event, now: int)
    requires !cfg.allowSelfReview && Apart(w.review)
    ensures Apart(Next(cfg, w, e, now).review)
  {
    if e.HandoverEvent? && e.from != e.owner { HandoverAndTwoSeats(cfg, w, e.from, e.owner); }
  }

  /** An administrator hands a pending approval to the person who asked for the review. */
  predicate NamesRequester(w: World, e: Event) {
    && e.ReassignEvent? && w.review.status == ApprovalPending && e.approver == Some(w.review.requester)
    && HasRole(w, e.u, SystemAdmin) && HasRole(w, w.review.requester, Approver)
  }

  /** That is the one step by which the requester becomes the approver too. */
  lemma StepOnApprover(cfg: Config, w: World, e: Event, now: int)
    requires !cfg.allowSelfReview && ApproverApart(w.review)
    ensures ApproverApart(Next(cfg, w, e, now).review) <==> !NamesRequester(w, e)
  {
    if e.HandoverEvent? && e.from != e.owner { HandoverAndTwoSeats(cfg, w, e.from, e.owner); }
  }

  /** A pending approval whose named approver is able can be decided by somebody exactly when that approver
      did not ask for the review and wrote none of its verdicts. */
  lemma PendingIsDecidable(cfg: Config, w: World)
    requires !cfg.allowSelfReview && w.review.status == ApprovalPending && !ApproverUnable(cfg, w)
    ensures (exists u :: Decide(cfg, w, u, true).Some?) <==> ApproverApart(w.review) && !WroteVerdict(w.review, w.review.approver.value)
    ensures (exists u :: Decide(cfg, w, u, false).Some?) <==> (exists u :: Decide(cfg, w, u, true).Some?)
  {
    var a := w.review.approver.value;
    assert forall u, approved :: Decide(cfg, w, u, approved).Some? ==> u == a;
    if ApproverApart(w.review) && !WroteVerdict(w.review, a) {
      assert Decide(cfg, w, a, true).Some? && Decide(cfg, w, a, false).Some?;
    }
  }

  // ------------------------------------------------------- how handlers fit together

  /** Whoever decides is the approver on record, with self-review allowed or not. */
  lemma DeciderIsRecorded(cfg: Config, w: World, u: User, approved: bool)
    requires Decide(cfg, w, u, approved).Some?
    ensures var r := Decide(cfg, w, u, approved).value;
            && w.review.status == ApprovalPending && r.status == (if approved then Approved else Rejected)
            && r.approver == Some(u) && r.decisions == w.review.decisions + [Decision(u, approved)]
            && r.items == w.review.items
            && (!cfg.allowSelfReview ==> r.requester != u && r.reviewer != Some(u) && !WroteVerdict(r, u))
  {
  }

  /** With self-review off every verdict is written by the review's own reviewer, never by its requester. */
  lemma NobodyJudgesTheirOwn(cfg: Config, w: World, e: Event, now: int, id: Id)
    requires !cfg.allowSelfReview && id in w.review.items && id in Next(cfg, w, e, now).review.items
    requires Next(cfg, w, e, now).review.items[id].verdict != w.review.items[id].verdict
    ensures var v := Next(cfg, w, e, now).review.items[id].verdict;
            && v.Some? && w.review.status == Reviewing
            && w.review.reviewer == Some(v.value.author) && w.review.requester != v.value.author
            && HasRole(w, v.value.author, SecurityReviewer)
  {
    StepOnItem(cfg, w, e, now, id);
  }

  /** Judging an item again always makes its verdict current, even when the clock has stepped back. */
  lemma JudgingClearsStaleness(i: Item, u: User, result: string, now: int)
    ensures !IsStale(JudgedItem(i, u, result, now)) && CapturedItem(JudgedItem(i, u, result, now))
  {
  }

  /** A reviewer who judges every item over again, with every correction verified, can complete the review. */
  lemma JudgedAllCanComplete(cfg: Config, w: World, u: User, ids: set<Id>, result: string, now: int, final: string, opinion: string)
    requires BulkVerdict(cfg, w, u, ids, result, true, now).Some? && w.review.items.Keys <= ids
    requires forall c :: c in w.review.changes ==> w.review.changes[c].status == Verified
    requires final in FINAL_RESULTS && !Blank(opinion)
    ensures Complete(cfg, w.(review := BulkVerdict(cfg, w, u, ids, result, true, now).value), u, final, opinion).Some?
  {
    var r := BulkVerdict(cfg, w, u, ids, result, true, now).value;
    forall id | id in r.items ensures HasVerdict(r.items[id]) && !IsStale(r.items[id]) {
      JudgingClearsStaleness(w.review.items[id], u, result, now);
      assert r.items[id] == JudgedItem(w.review.items[id], u, result, now);
    }
  }

  /** Of two editors who loaded the same version of an answer, only the first to save is accepted. */
  lemma NoLostUpdate(w: World, id: Id, loaded: int, u: User, a: Answer, x: Option<User>, now: int,
                     v: User, b: Answer, y: Option<User>, later: int)
    requires SaveAnswer(w, u, id, a, x, Some(loaded), now).Some? && now != loaded
    ensures SaveAnswer(w.(review := SaveAnswer(w, u, id, a, x, Some(loaded), now).value), v, id, b, y, Some(loaded), later).None?
  {
  }

  // ----------------------------------------------------------- what every handler keeps

  /** The three promises every handler keeps, whatever came before. */
  ghost predicate Kept(cfg: Config, r: Review) {
    && CompleteInReview(r) && ChangesInOrder(r)
    && (cfg.approvalEnabled && !cfg.allowSelfReview && Settled(r.status) ==> SecondLook(r))
  }

  lemma StepKeeps(cfg: Config, w: World, e: Event, now: int)
    requires Kept(cfg, w.review)
    ensures Kept(cfg, Next(cfg, w, e, now).review)
  {
    StepKeepsComplete(cfg, w, e, now);
    StepKeepsChanges(cfg, w, e, now);
    if cfg.approvalEnabled && !cfg.allowSelfReview { StepKeepsSecondLook(cfg, w, e, now); }
  }

  /** A review that is closed or cancelled stays so, whatever happens next. */
  lemma FinalForever(cfg: Config, w: World)
    requires w.review.status == Closed || w.review.status == Cancelled
    ensures forall e, now :: Next(cfg, w, e, now).review.status == w.review.status
  {
    forall e, now ensures Next(cfg, w, e, now).review.status == w.review.status { StepOnStatus(cfg, w, e, now); }
  }

  // ---------------------------------------------------------------------------- runs

  datatype Moment = Moment(at: int, event: Event)

  /** A review just created, or copied from another with its answers: a draft nobody has judged. */
  ghost predicate Initial(r: Review) {
    && r.status == Draft && r.changes == map[] && r.decisions == []
    && forall id :: id in r.items ==> r.items[id].verdict.None?
  }

  function After(cfg: Config, w: World, run: seq<Moment>): World
    decreases |run|
  {
    if run == [] then w else After(cfg, Next(cfg, w, run[0].event, run[0].at), run[1..])
  }

  /** Every answer of the run is stamped later than the verdict it overtakes. */
  ghost predicate AlwaysLater(cfg: Config, w: World, run: seq<Moment>)
    decreases |run|
  {
    run == [] ||
    var v := Next(cfg, w, run[0].event, run[0].at);
    StampedLater(w.review, v.review, run[0].at) && AlwaysLater(cfg, v, run[1..])
  }

  lemma {:induction false} RunKeepsJudged(cfg: Config, w: World, run: seq<Moment>)
    requires Captured(w.review) && (Decided(w.review.status) ==> Judged(w.review)) && AlwaysLater(cfg, w, run)
    ensures var r := After(cfg, w, run).review; Captured(r) && (Decided(r.status) ==> Judged(r))
    decreases |run|
  {
    if run != [] {
      CapturedExactly(cfg, w, run[0].event, run[0].at);
      StepKeepsJudged(cfg, w, run[0].event, run[0].at);
      RunKeepsJudged(cfg, Next(cfg, w, run[0].event, run[0].at), run[1..]);
    }
  }

  /** So the condition is exact over runs: verdicts are honest at every point of a run if and only if every
      answer of it is stamped later than the verdict it overtakes. */
  lemma {:induction false} CapturedThroughout(cfg: Config, w: World, run: seq<Moment>)
    requires Captured(w.review)
    ensures AlwaysLater(cfg, w, run) <==> forall k :: 0 <= k <= |run| ==> CapturedAt(cfg, w, run, k)
    decreases |run|
  {
    if run != [] {
      var e, at, rest := run[0].event, run[0].at, run[1..];
      var v := Next(cfg, w, e, at);
      CapturedExactly(cfg, w, e, at);
      CapturedBehind(cfg, w, run, 0);
      if Captured(v.review) { CapturedThroughout(cfg, v, rest); }
      if AlwaysLater(cfg, w, run) {
        forall k | 0 <= k <= |run| ensures CapturedAt(cfg, w, run, k) {
          if k > 0 { CapturedBehind(cfg, w, run, k - 1); }
        }
      }
      if forall k :: 0 <= k <= |run| ==> CapturedAt(cfg, w, run, k) {
        assert CapturedAt(cfg, w, run, 1);
        forall k | 0 <= k <= |rest| ensures CapturedAt(cfg, v, rest, k) { CapturedBehind(cfg, w, run, k); }
      }
    }
  }

  lemma CapturedBehind(cfg: Config, w: World, run: seq<Moment>, k: nat)
    requires k < |run|
    ensures CapturedAt(cfg, w, run, k + 1) <==> CapturedAt(cfg, Next(cfg, w, run[0].event, run[0].at), run[1..], k)
    ensures CapturedAt(cfg, w, run, 0) <==> Captured(w.review)
    ensures CapturedAt(cfg, w, run, 1) <==> Captured(Next(cfg, w, run[0].event, run[0].at).review)
  {
    assert run[..k + 1][0] == run[0] && run[..k + 1][1..] == run[1..][..k];
    var one, v := run[..1], Next(cfg, w, run[0].event, run[0].at);
    assert one[0] == run[0] && one[1..] == [];
    assert After(cfg, w, one) == After(cfg, v, []) == v;
  }

  ghost predicate CapturedAt(cfg: Config, w: World, run: seq<Moment>, k: nat)
    requires k <= |run|
  {
    Captured(After(cfg, w, run[..k]).review)
  }

  /** Over every run: waiting for approval, approved, rejected or closed, each item carries a verdict, and
      the answer that verdict was passed on is the answer that stands. */
  lemma DecisionsRestOnCurrentAnswers(cfg: Config, w: World, run: seq<Moment>)
    requires Initial(w.review) && AlwaysLater(cfg, w, run)
    ensures var r := After(cfg, w, run).review; Decided(r.status) ==> Judged(r)
  {
    RunKeepsJudged(cfg, w, run);
  }

  lemma {:induction false} RunKeepsOrder(cfg: Config, w: World, run: seq<Moment>)
    requires CompleteInReview(w.review) && ChangesInOrder(w.review)
    ensures CompleteInReview(After(cfg, w, run).review) && ChangesInOrder(After(cfg, w, run).review)
    decreases |run|
  {
    if run != [] {
      StepKeepsComplete(cfg, w, run[0].event, run[0].at);
      StepKeepsChanges(cfg, w, run[0].event, run[0].at);
      RunKeepsOrder(cfg, Next(cfg, w, run[0].event, run[0].at), run[1..]);
    }
  }

  /** Over every run: open change requests exist only while the review is with its author or cancelled, and
      a decided review has verified every one of them. */
  lemma CorrectionsCloseFirst(cfg: Config, w: World, run: seq<Moment>)
    requires Initial(w.review)
    ensures ChangesInOrder(After(cfg, w, run).review)
  {
    RunKeepsOrder(cfg, w, run);
  }

  /** Over every run: from the submission until it is handed back, a review is complete and scanned. */
  lemma ReviewersSeeCompleteReviews(cfg: Config, w: World, run: seq<Moment>)
    requires Initial(w.review)
    ensures CompleteInReview(After(cfg, w, run).review)
  {
    RunKeepsOrder(cfg, w, run);
  }

  lemma {:induction false} RunKeepsSecondLook(cfg: Config, w: World, run: seq<Moment>)
    requires cfg.approvalEnabled && !cfg.allowSelfReview && (Settled(w.review.status) ==> SecondLook(w.review))
    ensures var r := After(cfg, w, run).review; Settled(r.status) ==> SecondLook(r)
    decreases |run|
  {
    if run != [] {
      StepKeepsSecondLook(cfg, w, run[0].event, run[0].at);
      RunKeepsSecondLook(cfg, Next(cfg, w, run[0].event, run[0].at), run[1..]);
    }
  }

  /** With the approval step on and self-review off, over every run and whatever ownership moves later: an
      approved, rejected or closed review was decided by its named approver, who is not its requester, not
      its reviewer and not the author of any of its verdicts. */
  lemma ApprovalIsASecondLook(cfg: Config, w: World, run: seq<Moment>)
    requires cfg.approvalEnabled && !cfg.allowSelfReview && Initial(w.review)
    ensures var r := After(cfg, w, run).review; Settled(r.status) ==> SecondLook(r)
  {
    RunKeepsSecondLook(cfg, w, run);
  }

  /** With self-review off, over every run: a requester and a reviewer who are two people stay two people. */
  lemma {:induction false} AlwaysApart(cfg: Config, w: World, run: seq<Moment>)
    requires !cfg.allowSelfReview && Apart(w.review)
    ensures Apart(After(cfg, w, run).review)
    decreases |run|
  {
    if run != [] {
      StepKeepsApart(cfg, w, run[0].event, run[0].at);
      AlwaysApart(cfg, Next(cfg, w, run[0].event, run[0].at), run[1..]);
    }
  }

  predicate NeverNamesRequester(cfg: Config, w: World, run: seq<Moment>)
    decreases |run|
  {
    run == [] || (!NamesRequester(w, run[0].event) && NeverNamesRequester(cfg, Next(cfg, w, run[0].event, run[0].at), run[1..]))
  }

  /** The same of requester and approver, unless an administrator hands the pending approval to the requester. */
  lemma {:induction false} AlwaysApproverApart(cfg: Config, w: World, run: seq<Moment>)
    requires !cfg.allowSelfReview && ApproverApart(w.review) && NeverNamesRequester(cfg, w, run)
    ensures ApproverApart(After(cfg, w, run).review)
    decreases |run|
  {
    if run != [] {
      StepOnApprover(cfg, w, run[0].event, run[0].at);
      AlwaysApproverApart(cfg, Next(cfg, w, run[0].event, run[0].at), run[1..]);
    }
  }

  /** A copy begins, and stays over every run, with two people in two seats unless the reviewer of the source
      made it: then one person holds both from the start. */
  lemma CopyIsApart(cfg: Config, w: World, u: User, items: map<Id, Item>, run: seq<Moment>)
    requires !cfg.allowSelfReview && Copied(cfg, w, u, items).Some?
    ensures var v := w.(review := Copied(cfg, w, u, items).value);
            if w.review.reviewer == Some(u) then !Apart(v.review) else Apart(After(cfg, v, run).review)
  {
    var v := w.(review := Copied(cfg, w, u, items).value);
    if w.review.reviewer != Some(u) { AlwaysApart(cfg, v, run); }
  }

  /** The case arises: "a", named as reviewer of a draft of "x", copies it, and when "a" leaves an
      administrator hands the work to "b" -- who then holds both seats of the copy. */
  lemma CopiedDraftSeatsTwice(cfg: Config)
    requires !cfg.allowSelfReview
    ensures var source := Review(Draft, "x", Some("a"), None, map[], map[], [], "");
            var both := Account(true, {Requester, SecurityReviewer});
            var w := World(source, map["a" := both, "b" := both, "s" := Account(true, {SystemAdmin})], {}, {});
            var copy := Copied(cfg, w, "a", map[]);
            && Initial(source) && Apart(source) && copy.Some? && Initial(copy.value)
            && var r := Next(cfg, w.(review := copy.value), HandoverEvent("s", "a", "b"), 0).review;
               r.requester == "b" && r.reviewer == Some("b")
  {
  }

  // --------------------------------------------------------------- when the clock behaves

  predicate NotAfter(t: Option<int>, now: int) {
    t.Some? ==> t.value <= now
  }

  predicate ItemClocked(i: Item, now: int) {
    && NotAfter(i.touched, now)
    && (i.response.Some? ==> i.response.value.updatedAt <= now)
    && (i.verdict.Some? ==> i.verdict.value.at <= now)
  }

  ghost predicate Clocked(r: Review, now: int) {
    forall id :: id in r.items ==> ItemClocked(r.items[id], now)
  }

  /** The clock moves strictly forward with every event, and no file was touched in the future. */
  predicate Ticking(now: int, run: seq<Moment>)
    decreases |run|
  {
    run == [] ||
    (now < run[0].at && (run[0].event.EvidenceEvent? ==> NotAfter(run[0].event.touched, run[0].at)) && Ticking(run[0].at, run[1..]))
  }

  lemma ItemStaysClocked(cfg: Config, w: World, e: Event, before: int, now: int, id: Id)
    requires id in w.review.items && id in Next(cfg, w, e, now).review.items && ItemClocked(w.review.items[id], before) && before < now
    requires e.EvidenceEvent? ==> NotAfter(e.touched, now)
    ensures ItemClocked(Next(cfg, w, e, now).review.items[id], now)
  {
    StepOnItem(cfg, w, e, now, id);
  }

  /** A clock that moves strictly forward meets the condition on stamps; an answer stamped at the very time
      of its verdict would not. */
  lemma {:induction false} ForwardClockSuffices(cfg: Config, w: World, run: seq<Moment>, now: int)
    requires Captured(w.review) && Clocked(w.review, now) && Ticking(now, run)
    ensures AlwaysLater(cfg, w, run)
    decreases |run|
  {
    if run != [] {
      var e, at := run[0].event, run[0].at;
      var v := Next(cfg, w, e, at);
      assert StampedLater(w.review, v.review, at);
      CapturedExactly(cfg, w, e, at);
      StepOnList(cfg, w, e, at);
      forall id | id in v.review.items ensures ItemClocked(v.review.items[id], at) {
        if id in w.review.items { ItemStaysClocked(cfg, w, e, now, at, id); }
      }
      ForwardClockSuffices(cfg, v, run[1..], at);
    }
  }

  // ----------------------------------------------------------- when the clock steps back

  const OLD_ANSWER := Answer("Y", "COMPLIANT", "encrypted", "", "", "{}")
  const NEW_ANSWER := Answer("Y", "COMPLIANT", "in the clear", "", "", "{}")
  const JUDGED_OLD := Verdict("COMPLIANT", "r", Some(OLD_ANSWER), 10)

  function Optional(answer: Answer, at: int, verdict: Option<Verdict>): Item {
    Item(false, false, Some(Response(answer, None, at)), verdict, 0, 0, None)
  }

  function Correction(status: ChangeStatus): map<Id, Change> {
    map["c" := Change("i", None, status)]
  }

  /** A review of one optional item that "a" asked for and "r" reviews. */
  function Stage(status: Status, i: Item, changes: map<Id, Change>, result: string): World {
    World(Review(status, "a", Some("r"), Some("p"), map["i" := i], changes, [], result),
          map["r" := Account(true, {SecurityReviewer})], {}, {})
  }

  lemma AnswersValid(answer: Answer)
    requires answer == OLD_ANSWER || answer == NEW_ANSWER
    ensures ValidAnswer(answer) && forall cfg, id, at, v :: ItemReady(cfg, id, Optional(answer, at, v))
  {
    assert |answer.applicability| == 1 && |"N/A"| == 3;
  }

  lemma Submits(cfg: Config, answer: Answer, at: int, v: Option<Verdict>, status: Status, changes: map<Id, Change>, now: int)
    requires answer == OLD_ANSWER || answer == NEW_ANSWER
    requires Editable(status) && forall c :: c in changes ==> changes[c].status != Open
    ensures Next(cfg, Stage(status, Optional(answer, at, v), changes, ""), SubmitEvent("a"), now)
            == Stage(if status == Draft then Submitted else Resubmitted, Optional(answer, at, v), changes, "")
  {
    AnswersValid(answer);
    assert "i" in Stage(status, Optional(answer, at, v), changes, "").review.items;
  }

  lemma Begins(cfg: Config, i: Item, status: Status, changes: map<Id, Change>, now: int)
    requires status == Submitted || status == Resubmitted
    ensures Next(cfg, Stage(status, i, changes, ""), BeginEvent("r"), now) == Stage(Reviewing, i, changes, "")
  {
  }

  lemma Judges(cfg: Config)
    ensures Next(cfg, Stage(Reviewing, Optional(OLD_ANSWER, 0, None), map[], ""), SaveVerdictEvent("r", "i", "COMPLIANT", None), 10)
            == Stage(Reviewing, Optional(OLD_ANSWER, 0, Some(JUDGED_OLD)), map[], "")
  {
    var i := Optional(OLD_ANSWER, 0, None);
    var judged := JudgedItem(i, "r", "COMPLIANT", 10);
    assert judged == Optional(OLD_ANSWER, 0, Some(JUDGED_OLD));
    assert map["i" := i]["i" := judged] == map["i" := judged];
  }

  lemma HandsBack(cfg: Config, i: Item, now: int)
    ensures Next(cfg, Stage(Reviewing, i, map[], ""), RequestChangeEvent("r", "c", "i", "fix", None), now)
            == Stage(ChangeRequested, i, Correction(Open), "")
  {
    var reason, none: map<Id, Change> := "fix", map[];
    assert reason[0] in reason && !IsSpace(reason[0]);
    assert none["c" := Change("i", None, Open)] == Correction(Open);
  }

  lemma SavesNew(cfg: Config, v: Option<Verdict>)
    ensures Next(cfg, Stage(ChangeRequested, Optional(OLD_ANSWER, 0, v), Correction(Open), ""), SaveAnswerEvent("a", "i", NEW_ANSWER, None, None), 7)
            == Stage(ChangeRequested, Optional(NEW_ANSWER, 7, v), Correction(Open), "")
  {
    AnswersValid(NEW_ANSWER);
    assert map["i" := Optional(OLD_ANSWER, 0, v)]["i" := Optional(NEW_ANSWER, 7, v)] == map["i" := Optional(NEW_ANSWER, 7, v)];
  }

  lemma Corrects(cfg: Config, i: Item, now: int)
    ensures Next(cfg, Stage(ChangeRequested, i, Correction(Open), ""), UpdateChangeEvent("a", "c", Done), now)
            == Stage(ChangeRequested, i, Correction(Done), "")
    ensures Next(cfg, Stage(Reviewing, i, Correction(Done), ""), UpdateChangeEvent("r", "c", Verified), now)
            == Stage(Reviewing, i, Correction(Verified), "")
  {
    assert Correction(Open)["c" := Change("i", None, Done)] == Correction(Done);
    assert Correction(Done)["c" := Change("i", None, Verified)] == Correction(Verified);
  }

  lemma Completes(cfg: Config, i: Item, changes: map<Id, Change>, final: string, now: int)
    requires HasVerdict(i) && !IsStale(i) && final in FINAL_RESULTS && forall c :: c in changes ==> changes[c].status == Verified
    ensures Next(cfg, Stage(Reviewing, i, changes, ""), CompleteEvent("r", final, "ok"), now)
            == Stage(if cfg.approvalEnabled then ApprovalPending else if final == "REJECTED" then Rejected else Approved, i, changes, final)
  {
    var opinion := "ok";
    assert opinion[0] in opinion && !IsSpace(opinion[0]);
    assert NothingBlocks(Stage(Reviewing, i, changes, "").review);
  }

  lemma {:induction false} AfterBoth(cfg: Config, w: World, a: seq<Moment>, b: seq<Moment>)
    ensures After(cfg, w, a + b) == After(cfg, After(cfg, w, a), b)
    decreases |a|
  {
    if a == [] {
      assert a + b == b;
    } else {
      assert (a + b)[0] == a[0] && (a + b)[1..] == a[1..] + b;
      AfterBoth(cfg, Next(cfg, w, a[0].event, a[0].at), a[1..], b);
    }
  }

  lemma FiveSteps(cfg: Config, w: World, a: Moment, b: Moment, c: Moment, d: Moment, e: Moment)
    ensures After(cfg, w, [a, b, c, d, e])
            == Next(cfg, Next(cfg, Next(cfg, Next(cfg, Next(cfg, w, a.event, a.at), b.event, b.at), c.event, c.at), d.event, d.at), e.event, e.at)
  {
    AfterBoth(cfg, w, [a, b, c, d], [e]);
    AfterBoth(cfg, w, [a, b, c], [d]);
    AfterBoth(cfg, w, [a, b], [c]);
    AfterBoth(cfg, w, [a], [b]);
    assert [a, b, c, d] + [e] == [a, b, c, d, e] && [a, b, c] + [d] == [a, b, c, d] && [a, b] + [c] == [a, b, c] && [a] + [b] == [a, b];
    forall m: Moment, x: World ensures After(cfg, x, [m]) == Next(cfg, x, m.event, m.at) { OneStep(cfg, x, m); }
  }

  lemma OneStep(cfg: Config, w: World, m: Moment)
    ensures After(cfg, w, [m]) == Next(cfg, w, m.event, m.at)
  {
    assert [m][1..] == [];
  }

  /** Submitted at 1, judged at 10 and handed back; then the clock steps back and the author answers at 7. */
  function JudgedThenAnswered(): seq<Moment> {
    [Moment(1, SubmitEvent("a")), Moment(2, BeginEvent("r")), Moment(10, SaveVerdictEvent("r", "i", "COMPLIANT", None)),
     Moment(11, RequestChangeEvent("r", "c", "i", "fix", None)), Moment(7, SaveAnswerEvent("a", "i", NEW_ANSWER, None, None))]
  }

  function CorrectedAndCompleted(): seq<Moment> {
    [Moment(8, UpdateChangeEvent("a", "c", Done)), Moment(8, SubmitEvent("a")), Moment(9, BeginEvent("r")),
     Moment(9, UpdateChangeEvent("r", "c", Verified)), Moment(10, CompleteEvent("r", "APPROVED", "ok"))]
  }

  lemma FirstHalf(cfg: Config)
    ensures After(cfg, Stage(Draft, Optional(OLD_ANSWER, 0, None), map[], ""), JudgedThenAnswered())
            == Stage(ChangeRequested, Optional(NEW_ANSWER, 7, Some(JUDGED_OLD)), Correction(Open), "")
  {
    var m, i := JudgedThenAnswered(), Optional(OLD_ANSWER, 0, None);
    Submits(cfg, OLD_ANSWER, 0, None, Draft, map[], 1);
    Begins(cfg, i, Submitted, map[], 2);
    Judges(cfg);
    HandsBack(cfg, Optional(OLD_ANSWER, 0, Some(JUDGED_OLD)), 11);
    SavesNew(cfg, Some(JUDGED_OLD));
    FiveSteps(cfg, Stage(Draft, i, map[], ""), m[0], m[1], m[2], m[3], m[4]);
  }

  lemma SecondHalf(cfg: Config, i: Item)
    requires i == Optional(NEW_ANSWER, 7, Some(JUDGED_OLD))
    ensures After(cfg, Stage(ChangeRequested, i, Correction(Open), ""), CorrectedAndCompleted())
            == Stage(if cfg.approvalEnabled then ApprovalPending else Approved, i, Correction(Verified), "APPROVED")
  {
    var m := CorrectedAndCompleted();
    Corrects(cfg, i, 8);
    Submits(cfg, NEW_ANSWER, 7, Some(JUDGED_OLD), ChangeRequested, Correction(Done), 8);
    Begins(cfg, i, Resubmitted, Correction(Done), 9);
    Corrects(cfg, i, 9);
    assert "APPROVED"[0] != "REJECTED"[0];
    Completes(cfg, i, Correction(Verified), "APPROVED", 10);
    FiveSteps(cfg, Stage(ChangeRequested, i, Correction(Open), ""), m[0], m[1], m[2], m[3], m[4]);
  }

  /** The condition is needed: from a new draft, under any settings, a reviewer judges the old answer at time
      10 and hands the review back; the clock steps back, the author replaces the answer at time 7; and the
      review is submitted again and decided on a verdict nobody passed on its answer. */
  lemma SteppingClockSlipsThrough(cfg: Config)
    ensures var w := Stage(Draft, Optional(OLD_ANSWER, 0, None), map[], "");
            var r := After(cfg, w, JudgedThenAnswered() + CorrectedAndCompleted()).review;
            Initial(w.review) && Decided(r.status) && !Judged(r)
  {
    var w, i := Stage(Draft, Optional(OLD_ANSWER, 0, None), map[], ""), Optional(NEW_ANSWER, 7, Some(JUDGED_OLD));
    FirstHalf(cfg);
    SecondHalf(cfg, i);
    AfterBoth(cfg, w, JudgedThenAnswered(), CorrectedAndCompleted());
    NotJudged(if cfg.approvalEnabled then ApprovalPending else Approved);
  }

  lemma NotJudged(status: Status)
    ensures !Judged(Stage(status, Optional(NEW_ANSWER, 7, Some(JUDGED_OLD)), Correction(Verified), "APPROVED").review)
  {
    var r := Stage(status, Optional(NEW_ANSWER, 7, Some(JUDGED_OLD)), Correction(Verified), "APPROVED").review;
    assert |OLD_ANSWER.currentState| != |NEW_ANSWER.currentState|;
    assert "i" in r.items && r.items["i"].verdict.value.judged != CurrentAnswer(r.items["i"]);
  }

  // ------------------------------------------------------ approvals nobody may give

  /** A review completed with a result, that waits for its approver "p". */
  function PendingWith(final: string): World {
    Stage(ApprovalPending, Optional(OLD_ANSWER, 0, Some(JUDGED_OLD)), map[], final)
  }

  function Pending(): World {
    PendingWith("APPROVED")
  }

  /** Submitted, begun, judged and completed; that it cannot be submitted once more changes nothing. */
  function JudgedAndCompleted(final: string): seq<Moment> {
    [Moment(1, SubmitEvent("a")), Moment(2, BeginEvent("r")), Moment(10, SaveVerdictEvent("r", "i", "COMPLIANT", None)),
     Moment(11, CompleteEvent("r", final, "ok")), Moment(12, SubmitEvent("a"))]
  }

  lemma ToPending(cfg: Config, final: string)
    requires cfg.approvalEnabled && final in FINAL_RESULTS
    ensures After(cfg, Stage(Draft, Optional(OLD_ANSWER, 0, None), map[], ""), JudgedAndCompleted(final)) == PendingWith(final)
  {
    var m, i := JudgedAndCompleted(final), Optional(OLD_ANSWER, 0, None);
    Submits(cfg, OLD_ANSWER, 0, None, Draft, map[], 1);
    Begins(cfg, i, Submitted, map[], 2);
    Judges(cfg);
    Completes(cfg, Optional(OLD_ANSWER, 0, Some(JUDGED_OLD)), map[], final, 11);
    FiveSteps(cfg, Stage(Draft, i, map[], ""), m[0], m[1], m[2], m[3], m[4]);
  }

  /** An administrator hands the approval to its requester, who cannot decide it. */
  function HandedToRequester(): seq<Moment> {
    [Moment(20, AccountEvent("s", Account(true, {SystemAdmin}))), Moment(21, AccountEvent("p", Account(true, {Approver}))),
     Moment(22, AccountEvent("a", Account(true, {Requester, Approver}))), Moment(23, ReassignEvent("s", None, Some("a"))),
     Moment(24, DecideEvent("a", true))]
  }

  /** The reviewer's seat goes to "q", and the approval to "r", who judged. */
  function HandedToJudge(): seq<Moment> {
    [Moment(20, AccountEvent("s", Account(true, {SystemAdmin}))), Moment(21, AccountEvent("q", Account(true, {SecurityReviewer}))),
     Moment(22, AccountEvent("r", Account(true, {SecurityReviewer, Approver}))), Moment(23, HandoverEvent("s", "r", "q")),
     Moment(24, ReassignEvent("s", None, Some("r")))]
  }

  /** The approver is able, and nobody may decide. */
  ghost predicate Stuck(cfg: Config, w: World) {
    w.review.status == ApprovalPending && !ApproverUnable(cfg, w) && forall u, approved :: Decide(cfg, w, u, approved).None?
  }

  lemma StuckWhen(cfg: Config, w: World)
    requires !cfg.allowSelfReview && w.review.status == ApprovalPending && !ApproverUnable(cfg, w)
    requires !ApproverApart(w.review) || WroteVerdict(w.review, w.review.approver.value)
    ensures Stuck(cfg, w)
  {
    PendingIsDecidable(cfg, w);
    forall u, approved ensures Decide(cfg, w, u, approved).None? {
      assert Decide(cfg, w, u, true).None? && Decide(cfg, w, u, false).None?;
    }
  }

  function Named(): World {
    Pending().(accounts := Pending().accounts["s" := Account(true, {SystemAdmin})]["p" := Account(true, {Approver})]
                                             ["a" := Account(true, {Requester, Approver})])
  }

  lemma RequesterNamed(cfg: Config)
    requires !cfg.allowSelfReview
    ensures var w := Next(cfg, Next(cfg, Named(), ReassignEvent("s", None, Some("a")), 23), DecideEvent("a", true), 24);
            w == Named().(review := Pending().review.(approver := Some("a")))
  {
  }

  lemma RequesterStuck(cfg: Config)
    requires cfg.approvalEnabled && !cfg.allowSelfReview
    ensures Stuck(cfg, After(cfg, Pending(), HandedToRequester()))
  {
    var m, w := HandedToRequester(), Pending();
    RequesterNamed(cfg);
    FiveSteps(cfg, w, m[0], m[1], m[2], m[3], m[4]);
    StuckWhen(cfg, After(cfg, w, m));
  }

  function Staffed(): map<User, Account> {
    map["r" := Account(true, {SecurityReviewer, Approver}), "s" := Account(true, {SystemAdmin}), "q" := Account(true, {SecurityReviewer})]
  }

  lemma Staffing(cfg: Config)
    ensures var m := HandedToJudge();
            Next(cfg, Next(cfg, Next(cfg, Pending(), m[0].event, m[0].at), m[1].event, m[1].at), m[2].event, m[2].at)
            == Pending().(accounts := Staffed())
  {
    assert Pending().accounts["s" := Account(true, {SystemAdmin})]["q" := Account(true, {SecurityReviewer})]
             ["r" := Account(true, {SecurityReviewer, Approver})] == Staffed();
  }

  lemma SeatPasses(cfg: Config)
    ensures var w := Next(cfg, Pending().(accounts := Staffed()), HandoverEvent("s", "r", "q"), 23);
            && w.review.status == ApprovalPending && w.review.requester == "a" && w.review.reviewer == Some("q")
            && w.accounts == Staffed() && w.editors == {} && WroteVerdict(w.review, "r")
  {
    var r := Next(cfg, Pending().(accounts := Staffed()), HandoverEvent("s", "r", "q"), 23).review;
    assert "i" in r.items && r.items["i"].verdict == Some(JUDGED_OLD);
  }

  lemma JudgeNamed(cfg: Config, w: World)
    requires w.review.status == ApprovalPending && w.review.requester == "a" && w.review.reviewer == Some("q") && w.accounts == Staffed()
    ensures Next(cfg, w, ReassignEvent("s", None, Some("r")), 24) == w.(review := w.review.(approver := Some("r")))
  {
  }

  lemma JudgeStuck(cfg: Config)
    requires cfg.approvalEnabled && !cfg.allowSelfReview
    ensures Stuck(cfg, After(cfg, Pending(), HandedToJudge()))
  {
    var m, w := HandedToJudge(), Pending();
    Staffing(cfg);
    SeatPasses(cfg);
    JudgeNamed(cfg, Next(cfg, w.(accounts := Staffed()), m[3].event, m[3].at));
    FiveSteps(cfg, w, m[0], m[1], m[2], m[3], m[4]);
    StuckWhen(cfg, After(cfg, w, m));
  }

  /** Both arise in runs from a new draft: until it is reassigned once more, nobody may decide the review. */
  lemma ApprovalsGetStuck(cfg: Config)
    requires cfg.approvalEnabled && !cfg.allowSelfReview
    ensures var w := Stage(Draft, Optional(OLD_ANSWER, 0, None), map[], "");
            && Initial(w.review) && Stuck(cfg, After(cfg, w, JudgedAndCompleted("APPROVED") + HandedToRequester()))
            && Stuck(cfg, After(cfg, w, JudgedAndCompleted("APPROVED") + HandedToJudge()))
  {
    var w := Stage(Draft, Optional(OLD_ANSWER, 0, None), map[], "");
    ToPending(cfg, "APPROVED");
    AfterBoth(cfg, w, JudgedAndCompleted("APPROVED"), HandedToRequester());
    AfterBoth(cfg, w, JudgedAndCompleted("APPROVED"), HandedToJudge());
    RequesterStuck(cfg);
    JudgeStuck(cfg);
  }
}
