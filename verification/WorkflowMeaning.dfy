// What the handlers of a review mean to the people they serve: who may move a review where, whose verdict
// and whose answer stands on an item, who comes to sit in a seat, and what a decided review was decided as.
module WorkflowMeaning {
  import opened Common
  import opened Workflow
  import opened WorkflowSafety

  // ------------------------------------------------------------- the status machine

  /** The author's step: the requester or a co-author, in an editable review. */
  predicate IsAuthor(w: World, u: User) {
    u == w.review.requester || u in w.editors
  }

  /** Somebody with a role who may not be told to look at their own work. */
  predicate Neutral(cfg: Config, w: World, u: User, role: Role) {
    u in w.accounts && role in w.accounts[u].roles && (cfg.allowSelfReview || w.review.requester != u)
  }

  predicate IsReviewer(cfg: Config, w: World, u: User) {
    Neutral(cfg, w, u, SecurityReviewer) && w.review.reviewer == Some(u)
  }

  /** The named person has lost the account or the role, or nobody is named. */
  predicate SeatIsFree(w: World, seat: Option<User>, role: Role) {
    seat.Some? ==> seat.value !in w.accounts || !w.accounts[seat.value].active || role !in w.accounts[seat.value].roles
  }

  predicate MayDecide(cfg: Config, w: World, u: User) {
    var r := w.review;
    && Neutral(cfg, w, u, Approver) && (cfg.allowSelfReview || (r.reviewer != Some(u) && !WroteVerdict(r, u)))
    && (r.approver == Some(u) || SeatIsFree(w, r.approver, Approver) || (!cfg.allowSelfReview && r.reviewer == r.approver))
  }

  predicate MayReclaim(cfg: Config, w: World, u: User, reason: string) {
    Neutral(cfg, w, u, SecurityReviewer) && (w.review.reviewer == Some(u) || SeatIsFree(w, w.review.reviewer, SecurityReviewer)) && !Blank(reason)
  }

  /** The edges of the status machine: which event of whom leads from where to where. */
  predicate Edge(cfg: Config, w: World, e: Event, to: Status) {
    var from := w.review.status;
    match to
    case Draft => false
    case Submitted => from == Draft && e.SubmitEvent? && IsAuthor(w, e.u)
    case Resubmitted => from == ChangeRequested && e.SubmitEvent? && IsAuthor(w, e.u)
    case Reviewing =>
      || (e.BeginEvent? && (from == Submitted || from == Resubmitted) && Neutral(cfg, w, e.u, SecurityReviewer)
          && (w.review.reviewer == Some(e.u) || SeatIsFree(w, w.review.reviewer, SecurityReviewer)))
      || (e.WithdrawEvent? && from == ApprovalPending && MayReclaim(cfg, w, e.u, e.reason))
    case ChangeRequested =>
      || (e.RequestChangeEvent? && from == Reviewing && IsReviewer(cfg, w, e.u) && !Blank(e.reason))
      || (e.BulkRequestChangeEvent? && from == Reviewing && IsReviewer(cfg, w, e.u) && !Blank(e.reason))
      || (e.ReopenEvent? && from == Rejected && MayReclaim(cfg, w, e.u, e.reason))
    case ApprovalPending => e.CompleteEvent? && from == Reviewing && IsReviewer(cfg, w, e.u) && !Blank(e.opinion) && cfg.approvalEnabled
    case Approved =>
      || (e.CompleteEvent? && from == Reviewing && IsReviewer(cfg, w, e.u) && !Blank(e.opinion) && !cfg.approvalEnabled && e.result in {"APPROVED", "CONDITIONAL"})
      || (e.DecideEvent? && from == ApprovalPending && e.approved && MayDecide(cfg, w, e.u))
    case Rejected =>
      || (e.CompleteEvent? && from == Reviewing && IsReviewer(cfg, w, e.u) && !Blank(e.opinion) && !cfg.approvalEnabled && e.result == "REJECTED")
      || (e.DecideEvent? && from == ApprovalPending && !e.approved && MayDecide(cfg, w, e.u))
    case Closed => e.CloseEvent? && from in {Approved, Rejected} && w.review.reviewer == Some(e.u) && HasRole(w, e.u, SecurityReviewer)
    case Cancelled =>
      && e.CancelEvent? && from in {Draft, Submitted, Resubmitted, Reviewing, ChangeRequested, ApprovalPending}
      && w.review.requester == e.u && HasRole(w, e.u, Requester) && (from == Draft || !Blank(e.reason))
  }

  /** A review changes its status along these edges only. */
  lemma StatusMachine(cfg: Config, w: World, e: Event, now: int)
    ensures var to := Next(cfg, w, e, now).review.status; to != w.review.status ==> Edge(cfg, w, e, to)
  {
    if ReviewerEvent(e) { ReviewerEdges(cfg, w, e, now); } else { OtherEdges(cfg, w, e, now); }
  }

  lemma ReviewerEdges(cfg: Config, w: World, e: Event, now: int)
    requires ReviewerEvent(e)
    ensures var to := Next(cfg, w, e, now).review.status; to != w.review.status ==> Edge(cfg, w, e, to)
  {
  }

  lemma OtherEdges(cfg: Config, w: World, e: Event, now: int)
    requires !ReviewerEvent(e)
    ensures var to := Next(cfg, w, e, now).review.status; to != w.review.status ==> Edge(cfg, w, e, to)
  {
  }

  /** And every edge that asks for nothing more can be gone: each of these events is accepted from the person
      and in the status it belongs to. */
  lemma EdgesAreOpen(cfg: Config, w: World, e: Event, to: Status, now: int)
    requires e.BeginEvent? || e.WithdrawEvent? || e.ReopenEvent? || e.CloseEvent? || e.DecideEvent? || e.CancelEvent?
    ensures Edge(cfg, w, e, to) ==> Next(cfg, w, e, now).review.status == to
  {
  }

  /** The submission and the completion ask for what they check, and for nothing else. */
  lemma GuardedEdgesAreOpen(cfg: Config, w: World, e: Event, to: Status, now: int)
    requires Edge(cfg, w, e, to)
    ensures e.SubmitEvent? && ReadyToSubmit(cfg, w.review) ==> Next(cfg, w, e, now).review.status == to
    ensures e.CompleteEvent? && NothingBlocks(w.review) && e.result in FINAL_RESULTS ==> Next(cfg, w, e, now).review.status == to
  {
    if e.SubmitEvent? { SubmitEdges(cfg, w, e, to, now); }
    if e.CompleteEvent? { CompleteEdges(cfg, w, e, to, now); }
  }

  lemma SubmitEdges(cfg: Config, w: World, e: Event, to: Status, now: int)
    requires Edge(cfg, w, e, to) && e.SubmitEvent?
    ensures ReadyToSubmit(cfg, w.review) ==> Next(cfg, w, e, now).review.status == to
  {
  }

  lemma CompleteEdges(cfg: Config, w: World, e: Event, to: Status, now: int)
    requires Edge(cfg, w, e, to) && e.CompleteEvent?
    ensures NothingBlocks(w.review) && e.result in FINAL_RESULTS ==> Next(cfg, w, e, now).review.status == to
  {
  }

  // ------------------------------------------------------------ whose verdict stands

  /** The verdict an accepted event passes on an item: what was chosen, and by whom. */
  function Judgement(cfg: Config, w: World, e: Event, now: int, id: Id): Option<(string, User)> {
    if id !in w.review.items || Handled(cfg, w, e, now).None? then None
    else
      match e
      case SaveVerdictEvent(u, item, result, _) => if item == id then Some((result, u)) else None
      case BulkVerdictEvent(u, ids, result, overwrite) =>
        if id in ids && (overwrite || w.review.items[id].verdict.None?) then Some((result, u)) else None
      case _ => None
  }

  function Standing(r: Review, id: Id): Option<(string, User)> {
    if id in r.items && r.items[id].verdict.Some? then Some((r.items[id].verdict.value.result, r.items[id].verdict.value.author)) else None
  }

  /** Nobody has judged a draft. */
  ghost predicate DraftUnjudged(r: Review) {
    r.status == Draft ==> forall id :: id in r.items ==> r.items[id].verdict.None?
  }

  predicate JudgingEvent(e: Event) {
    e.SaveVerdictEvent? || e.BulkVerdictEvent?
  }

  lemma JudgedNow(cfg: Config, w: World, e: Event, now: int, id: Id)
    requires JudgingEvent(e)
    ensures var j := Judgement(cfg, w, e, now, id);
            Standing(Next(cfg, w, e, now).review, id) == if j.Some? then j else Standing(w.review, id)
    ensures Judgement(cfg, w, e, now, id).Some? ==>
              var r := Next(cfg, w, e, now).review; r.items[id].verdict.value.judged == CurrentAnswer(w.review.items[id])
  {
  }

  lemma NotJudgedNow(cfg: Config, w: World, e: Event, now: int, id: Id)
    requires !JudgingEvent(e) && DraftUnjudged(w.review)
    ensures Judgement(cfg, w, e, now, id).None? && Standing(Next(cfg, w, e, now).review, id) == Standing(w.review, id)
  {
    var r, q := w.review, Next(cfg, w, e, now).review;
    StepOnList(cfg, w, e, now);
    if id in r.items && id in q.items { VerdictUntouched(cfg, w, e, now, id); }
  }

  lemma VerdictUntouched(cfg: Config, w: World, e: Event, now: int, id: Id)
    requires !JudgingEvent(e) && id in w.review.items && id in Next(cfg, w, e, now).review.items
    ensures Next(cfg, w, e, now).review.items[id].verdict == w.review.items[id].verdict
  {
    if AuthorEvent(e) || ReleasingEvent(e) || e.EvidenceEvent? {
      StepOnItem(cfg, w, e, now, id);
      if w.review.status == Reviewing { OnlyReviewersJudge(cfg, w, e, now, id); }
    }
  }

  lemma OnlyReviewersJudge(cfg: Config, w: World, e: Event, now: int, id: Id)
    requires (AuthorEvent(e) || ReleasingEvent(e) || e.EvidenceEvent?) && w.review.status == Reviewing
    requires id in w.review.items && id in Next(cfg, w, e, now).review.items
    ensures Next(cfg, w, e, now).review.items[id].verdict == w.review.items[id].verdict
  {
    if AuthorEvent(e) {
      assert Next(cfg, w, e, now).review.items[id].verdict == w.review.items[id].verdict;
    } else if ReleasingEvent(e) {
      ReleasingKeepsVerdict(cfg, w, e, now, id);
    }
  }

  lemma ReleasingKeepsVerdict(cfg: Config, w: World, e: Event, now: int, id: Id)
    requires ReleasingEvent(e) && id in w.review.items && id in Next(cfg, w, e, now).review.items
    ensures Next(cfg, w, e, now).review.items[id].verdict == w.review.items[id].verdict
  {
    if e.HandoverEvent? {
      HandoverKeeps(cfg, w, e, now, id);
    } else if e.AccountEvent? {
      AccountKeeps(cfg, w, e, now, id);
    } else {
      ParticipantsKeep(cfg, w, e, now, id);
    }
  }

  /** The answer and the verdict of an item stand; only its assignee and its stamp may move. */
  predicate Keeps(a: Item, b: Item) {
    b.verdict == a.verdict && AnswerOf(b) == AnswerOf(a)
  }

  lemma ReleasedKeeps(r: Review, users: set<User>, now: int, id: Id)
    requires id in r.items
    ensures id in Released(r, users, now).items && Keeps(r.items[id], Released(r, users, now).items[id])
  {
  }

  lemma ParticipantsKeep(cfg: Config, w: World, e: Event, now: int, id: Id)
    requires e.ParticipantsEvent? && id in w.review.items
    ensures var q := Next(cfg, w, e, now).review; id in q.items && Keeps(w.review.items[id], q.items[id])
  {
    ReleasedKeeps(w.review, e.released, now, id);
  }

  lemma AccountKeeps(cfg: Config, w: World, e: Event, now: int, id: Id)
    requires e.AccountEvent? && id in w.review.items
    ensures var q := Next(cfg, w, e, now).review; id in q.items && Keeps(w.review.items[id], q.items[id])
  {
    ReleasedKeeps(w.review, {e.user}, now, id);
  }

  lemma HandoverKeeps(cfg: Config, w: World, e: Event, now: int, id: Id)
    requires e.HandoverEvent? && id in w.review.items
    ensures var q := Next(cfg, w, e, now).review; id in q.items && Keeps(w.review.items[id], q.items[id])
  {
    HandedKeeps(w.review.items[id], e.from, Some(e.owner), now);
  }

  lemma HandedKeeps(i: Item, from: User, to: Option<User>, now: int)
    ensures Keeps(i, HandedItem(i, from, to, now))
  {
  }

  lemma StaysUnjudged(cfg: Config, w: World, e: Event, now: int)
    requires DraftUnjudged(w.review)
    ensures DraftUnjudged(Next(cfg, w, e, now).review)
  {
    var q := Next(cfg, w, e, now).review;
    StatusMachine(cfg, w, e, now);
    StepOnList(cfg, w, e, now);
    if q.status == Draft {
      forall id | id in q.items ensures q.items[id].verdict.None? {
        if id in w.review.items { StepOnItem(cfg, w, e, now, id); }
      }
    }
  }

  /** The last judgement of an item along a run, if there was one after what stood before. */
  function LastJudgement(cfg: Config, w: World, run: seq<Moment>, id: Id, before: Option<(string, User)>): Option<(string, User)>
    decreases |run|
  {
    if run == [] then before
    else
      var j := Judgement(cfg, w, run[0].event, run[0].at, id);
      LastJudgement(cfg, Next(cfg, w, run[0].event, run[0].at), run[1..], id, if j.Some? then j else before)
  }

  /** Over every run: the verdict that stands on an item is the one last chosen for it, by whoever chose it. */
  lemma {:induction false} LastVerdictStands(cfg: Config, w: World, run: seq<Moment>, id: Id)
    requires DraftUnjudged(w.review)
    ensures Standing(After(cfg, w, run).review, id) == LastJudgement(cfg, w, run, id, Standing(w.review, id))
    decreases |run|
  {
    if run != [] {
      var e, at := run[0].event, run[0].at;
      if JudgingEvent(e) { JudgedNow(cfg, w, e, at, id); } else { NotJudgedNow(cfg, w, e, at, id); }
      StaysUnjudged(cfg, w, e, at);
      LastVerdictStands(cfg, Next(cfg, w, e, at), run[1..], id);
    }
  }

  // ------------------------------------------------------------- whose answer stands

  function AnswerNow(r: Review, id: Id): Answer {
    if id in r.items then AnswerOf(r.items[id]) else UNANSWERED
  }

  /** The answer an accepted event gives to an item; a bulk answer says nothing about the typed part. */
  function Answered(cfg: Config, w: World, e: Event, now: int, id: Id): Option<Answer> {
    if id !in w.review.items || Handled(cfg, w, e, now).None? then None
    else
      match e
      case SaveAnswerEvent(_, item, answer, _, _) => if item == id then Some(answer) else None
      case BulkAnswerEvent(_, ids, answer, _, overwrite) =>
        if id in ids && (overwrite || w.review.items[id].response.None?) then Some(answer.(typed := AnswerNow(w.review, id).typed)) else None
      case _ => None
  }

  lemma AnsweredNow(cfg: Config, w: World, e: Event, now: int, id: Id)
    requires e.SaveAnswerEvent? || e.BulkAnswerEvent?
    ensures var a := Answered(cfg, w, e, now, id);
            AnswerNow(Next(cfg, w, e, now).review, id) == if a.Some? then a.value else AnswerNow(w.review, id)
  {
  }

  lemma NotAnsweredNow(cfg: Config, w: World, e: Event, now: int, id: Id)
    requires !e.SaveAnswerEvent? && !e.BulkAnswerEvent?
    ensures Answered(cfg, w, e, now, id).None? && AnswerNow(Next(cfg, w, e, now).review, id) == AnswerNow(w.review, id)
  {
    StepOnList(cfg, w, e, now);
    if id in w.review.items && id in Next(cfg, w, e, now).review.items {
      AnswerUntouched(cfg, w, e, now, id);
    } else if id in w.review.items {
      OnlyUnusedLeave(cfg, w, e, now, id);
    }
  }

  lemma AnswerUntouched(cfg: Config, w: World, e: Event, now: int, id: Id)
    requires !e.SaveAnswerEvent? && !e.BulkAnswerEvent? && id in w.review.items && id in Next(cfg, w, e, now).review.items
    ensures AnswerOf(Next(cfg, w, e, now).review.items[id]) == AnswerOf(w.review.items[id])
  {
    if e.HandoverEvent? {
      HandoverKeeps(cfg, w, e, now, id);
    } else if e.AccountEvent? {
      AccountKeeps(cfg, w, e, now, id);
    } else if e.ParticipantsEvent? {
      ParticipantsKeep(cfg, w, e, now, id);
    } else if ReviewerEvent(e) {
      ReviewerKeepsAnswer(cfg, w, e, now, id);
    }
  }

  lemma ReviewerKeepsAnswer(cfg: Config, w: World, e: Event, now: int, id: Id)
    requires ReviewerEvent(e) && id in w.review.items && id in Next(cfg, w, e, now).review.items
    ensures Next(cfg, w, e, now).review.items[id].response == w.review.items[id].response
  {
  }

  /** What leaves the list was never used. */
  lemma OnlyUnusedLeave(cfg: Config, w: World, e: Event, now: int, id: Id)
    requires id in w.review.items && id !in Next(cfg, w, e, now).review.items
    ensures e.ExcludeEvent? && e.item == id && !e.used && w.review.status == Draft && HasRole(w, e.u, TemplateAdmin)
    ensures w.review.items[id].response.None? && w.review.items[id].evidence == 0
  {
    StepOnList(cfg, w, e, now);
  }

  function LastAnswer(cfg: Config, w: World, run: seq<Moment>, id: Id, before: Answer): Answer
    decreases |run|
  {
    if run == [] then before
    else
      var a := Answered(cfg, w, run[0].event, run[0].at, id);
      LastAnswer(cfg, Next(cfg, w, run[0].event, run[0].at), run[1..], id, if a.Some? then a.value else before)
  }

  /** Over every run: the answer that stands on an item is the one last given to it, whatever was assigned,
      handed over, judged or released in between. */
  lemma {:induction false} LastAnswerStands(cfg: Config, w: World, run: seq<Moment>, id: Id)
    ensures AnswerNow(After(cfg, w, run).review, id) == LastAnswer(cfg, w, run, id, AnswerNow(w.review, id))
    decreases |run|
  {
    if run != [] {
      var e, at := run[0].event, run[0].at;
      if e.SaveAnswerEvent? || e.BulkAnswerEvent? { AnsweredNow(cfg, w, e, at, id); } else { NotAnsweredNow(cfg, w, e, at, id); }
      LastAnswerStands(cfg, Next(cfg, w, e, at), run[1..], id);
    }
  }

  // ---------------------------------------------------------------- who may write what

  /** The row an editor loaded is still the one that is stored. */
  predicate UpToDate(at: Option<int>, expected: Option<int>) {
    expected.Some? && at.Some? ==> at == expected
  }

  function SavedAt(i: Item): Option<int> {
    if i.response.Some? then Some(i.response.value.updatedAt) else None
  }

  function AssigneeOf(i: Item): Option<User> {
    if i.response.Some? then i.response.value.assignee else None
  }

  /** Authors write answers while the review is theirs to edit, to rows nobody has changed meanwhile, and assign
      them to people who can open the review; reviewers write verdicts during the review. */
  lemma WhoMayWrite(cfg: Config, w: World, e: Event, now: int)
    ensures e.SaveAnswerEvent? ==>
              (Handled(cfg, w, e, now).Some? <==>
                 && Editable(w.review.status) && IsAuthor(w, e.u) && ValidAnswer(e.answer) && e.item in w.review.items
                 && UpToDate(SavedAt(w.review.items[e.item]), e.expected)
                 && (e.assignee.Some? && e.assignee != AssigneeOf(w.review.items[e.item]) ==> Reaches(w, e.assignee.value)))
    ensures e.SaveVerdictEvent? ==>
              (Handled(cfg, w, e, now).Some? <==>
                 && w.review.status == Reviewing && IsReviewer(cfg, w, e.u) && e.result in RESULTS && e.item in w.review.items
                 && UpToDate(if w.review.items[e.item].verdict.Some? then Some(w.review.items[e.item].verdict.value.at) else None, e.expected))
    ensures e.BulkAnswerEvent? ==>
              (Handled(cfg, w, e, now).Some? <==>
                 && Editable(w.review.status) && IsAuthor(w, e.u) && ValidAnswer(e.answer) && 1 <= |e.ids| <= 1000
                 && (e.assignee.Some? ==> Reaches(w, e.assignee.value)))
    ensures e.AssignEvent? ==>
              (Handled(cfg, w, e, now).Some? <==>
                 Editable(w.review.status) && IsAuthor(w, e.u) && 1 <= |e.ids| <= 1000 && (e.assignee.Some? ==> Reaches(w, e.assignee.value)))
    ensures e.BulkVerdictEvent? ==>
              (Handled(cfg, w, e, now).Some? <==> w.review.status == Reviewing && IsReviewer(cfg, w, e.u) && e.result in RESULTS && 1 <= |e.ids| <= 1000)
  {
  }

  // ---------------------------------------------------------------- corrections

  /** Who moves a correction, and how: its assignee or an author has it done, only the reviewer has it verified,
      only the reviewer adds one, and only a handover changes its assignee. */
  ghost predicate CorrectionMoves(cfg: Config, w: World, e: Event, after: Review, c: Id) {
    if c in w.review.changes then
      && c in after.changes
      && var x, y := w.review.changes[c], after.changes[c];
         && (y.status != x.status ==>
               && e.UpdateChangeEvent? && e.change == c && e.to == y.status
               && (y.status == Done ==> x.status == Open && (x.assignee == Some(e.u) || (Editable(w.review.status) && IsAuthor(w, e.u))))
               && (y.status == Verified ==> IsReviewer(cfg, w, e.u)))
         && (y.assignee != x.assignee ==> e.HandoverEvent? && x.assignee == Some(e.from) && y.assignee == Some(e.owner) && x.status != Verified)
    else c in after.changes ==>
      && w.review.status == Reviewing && after.changes[c].status == Open
      && ((e.RequestChangeEvent? && e.change == c && IsReviewer(cfg, w, e.u) && after.changes[c] == Change(e.item, e.assignee, Open))
          || (e.BulkRequestChangeEvent? && c in e.added && IsReviewer(cfg, w, e.u) && after.changes[c] == Change(e.added[c], e.assignee, Open)))
  }

  lemma WhoMovesCorrections(cfg: Config, w: World, e: Event, now: int, c: Id)
    ensures CorrectionMoves(cfg, w, e, Next(cfg, w, e, now).review, c)
  {
    if !ChangeEvent(e) { OthersLeaveChanges(cfg, w, e, now); } else { ChangeEventMoves(cfg, w, e, now, c); }
  }

  lemma ChangeEventMoves(cfg: Config, w: World, e: Event, now: int, c: Id)
    requires ChangeEvent(e)
    ensures CorrectionMoves(cfg, w, e, Next(cfg, w, e, now).review, c)
  {
  }

  /** Nobody who may move a correction is turned away. */
  lemma CorrectionsCanBeMoved(cfg: Config, w: World, u: User, c: Id)
    requires c in w.review.changes
    ensures w.review.changes[c].status != Verified && IsReviewer(cfg, w, u) ==>
              UpdateChange(cfg, w, u, c, Verified) == Some(w.review.(changes := w.review.changes[c := w.review.changes[c].(status := Verified)]))
    ensures w.review.changes[c].status == Open && Editable(w.review.status) && IsAuthor(w, u) ==>
              UpdateChange(cfg, w, u, c, Done) == Some(w.review.(changes := w.review.changes[c := w.review.changes[c].(status := Done)]))
  {
  }

  // ---------------------------------------------------------------------- seats

  /** Whoever newly sits somewhere holds the role of the seat, and was put there by somebody who may: the owner
      or an administrator, an author naming people, a reviewer or approver who takes a free seat. */
  ghost predicate SeatsMove(cfg: Config, w: World, e: Event, after: Review) {
    var r := w.review;
    && (after.requester != r.requester ==>
          HasRole(w, after.requester, Requester)
          && ((e.TransferEvent? && e.owner == after.requester && (e.u == r.requester || HasRole(w, e.u, SystemAdmin)))
              || (e.HandoverEvent? && e.from == r.requester && e.owner == after.requester && HasRole(w, e.u, SystemAdmin))))
    && (after.reviewer != r.reviewer ==>
          after.reviewer.Some? && HasRole(w, after.reviewer.value, SecurityReviewer)
          && ((e.BeginEvent? && after.reviewer == Some(e.u) && SeatIsFree(w, r.reviewer, SecurityReviewer))
              || (e.ReassignEvent? && after.reviewer == e.reviewer && Editable(r.status) && IsAuthor(w, e.u))
              || (e.HandoverEvent? && r.reviewer == Some(e.from) && after.reviewer == Some(e.owner) && HasRole(w, e.u, SystemAdmin))))
    && (after.approver != r.approver ==>
          after.approver.Some? && HasRole(w, after.approver.value, Approver)
          && ((e.DecideEvent? && after.approver == Some(e.u) && MayDecide(cfg, w, e.u))
              || (e.ReassignEvent? && after.approver == e.approver
                  && ((Editable(r.status) && IsAuthor(w, e.u)) || (r.status == ApprovalPending && HasRole(w, e.u, SystemAdmin))))
              || (e.HandoverEvent? && r.approver == Some(e.from) && after.approver == Some(e.owner) && HasRole(w, e.u, SystemAdmin))))
  }

  lemma WhoMovesSeats(cfg: Config, w: World, e: Event, now: int)
    ensures SeatsMove(cfg, w, e, Next(cfg, w, e, now).review)
  {
    if ReviewerEvent(e) { ReviewersSeats(cfg, w, e, now); } else { OthersSeats(cfg, w, e, now); }
  }

  lemma ReviewersSeats(cfg: Config, w: World, e: Event, now: int)
    requires ReviewerEvent(e)
    ensures SeatsMove(cfg, w, e, Next(cfg, w, e, now).review)
  {
  }

  lemma OthersSeats(cfg: Config, w: World, e: Event, now: int)
    requires !ReviewerEvent(e)
    ensures SeatsMove(cfg, w, e, Next(cfg, w, e, now).review)
  {
  }

  /** A seat stays with the one who leaves only for a reason: the new owner lacks the role, or with self-review
      off sits on the other side already. */
  predicate SeatPasses(cfg: Config, w: World, held: bool, to: User, role: Role, taken: bool) {
    held && HasRole(w, to, role) && (cfg.allowSelfReview || !taken)
  }

  /** In an open review a handover passes every seat it can, and leaves all others; then, if the new owner can
      open the review, no answer and no unverified correction is left with the one who leaves, and everybody
      else keeps theirs. */
  lemma HandoverPassesOn(cfg: Config, w: World, u: User, from: User, to: User, now: int)
    requires w.review.status !in {Approved, Rejected, Closed, Cancelled} && Handover(cfg, w, u, from, to, now).Some?
    ensures var r, q := w.review, Handover(cfg, w, u, from, to, now).value;
            && q.requester == (if SeatPasses(cfg, w, r.requester == from, to, Requester, r.reviewer == Some(to) || r.approver == Some(to)) then to else r.requester)
            && q.reviewer == (if SeatPasses(cfg, w, r.reviewer == Some(from), to, SecurityReviewer, r.requester == to) then Some(to) else r.reviewer)
            && q.approver == (if SeatPasses(cfg, w, r.approver == Some(from), to, Approver, r.requester == to) then Some(to) else r.approver)
            && q.items.Keys == r.items.Keys && q.changes.Keys == r.changes.Keys
            && (Reaches(w.(review := q), to) ==>
                  && (forall id :: id in r.items ==> AssigneeOf(q.items[id]) == if AssigneeOf(r.items[id]) == Some(from) then Some(to) else AssigneeOf(r.items[id]))
                  && (forall c :: c in r.changes ==>
                        q.changes[c].assignee == if r.changes[c].assignee == Some(from) && r.changes[c].status != Verified then Some(to) else r.changes[c].assignee))
            && (!Reaches(w.(review := q), to) ==> q.items == r.items && q.changes == r.changes)
  {
  }

  /** An account that is closed by an administrator leaves no answer of an open review behind it. */
  lemma ClosingReleases(cfg: Config, w: World, user: User, account: Account, now: int)
    requires w.review.status !in {Approved, Rejected, Closed, Cancelled} && !account.active
    ensures var v := Next(cfg, w, AccountEvent(user, account), now);
            && v.accounts == w.accounts[user := account] && v.review.items.Keys == w.review.items.Keys
            && forall id :: id in w.review.items ==>
                 AssigneeOf(v.review.items[id]) == if AssigneeOf(w.review.items[id]) == Some(user) then None else AssigneeOf(w.review.items[id])
  {
  }

  // ------------------------------------------------------------------ the item list

  /** An item is added blank, as it is asked for; with OnlyUnusedLeave that is all that can happen to the list. */
  lemma AddedBlank(cfg: Config, w: World, e: Event, now: int, id: Id)
    requires id !in w.review.items && id in Next(cfg, w, e, now).review.items
    ensures e.IncludeEvent? && e.item == id && w.review.status == Draft && HasRole(w, e.u, TemplateAdmin)
    ensures Next(cfg, w, e, now).review.items[id] == Item(e.required, e.evidenceRequired, None, None, 0, 0, None)
  {
    if !e.IncludeEvent? { NothingAdded(cfg, w, e, now, id); }
  }

  lemma NothingAdded(cfg: Config, w: World, e: Event, now: int, id: Id)
    requires !e.IncludeEvent? && id in Next(cfg, w, e, now).review.items
    ensures id in w.review.items
  {
    if !AuthorEvent(e) { OthersKeepList(cfg, w, e, now); }
  }

  lemma OthersKeepList(cfg: Config, w: World, e: Event, now: int)
    requires !AuthorEvent(e)
    ensures Next(cfg, w, e, now).review.items.Keys == w.review.items.Keys
  {
  }

  // --------------------------------------------------------------- what was decided

  /** The result on record fits the status: a rejected review says rejected, and without the approval step an
      approved one does not. */
  predicate ResultFits(cfg: Config, r: Review) {
    && (Decided(r.status) ==> r.result in FINAL_RESULTS)
    && (r.status == ApprovalPending ==> cfg.approvalEnabled)
    && (r.status == Rejected ==> r.result == "REJECTED")
    && (r.status == Approved && !cfg.approvalEnabled ==> r.result in {"APPROVED", "CONDITIONAL"})
  }

  lemma StepKeepsResult(cfg: Config, w: World, e: Event, now: int)
    requires ResultFits(cfg, w.review)
    ensures ResultFits(cfg, Next(cfg, w, e, now).review)
  {
    StatusMachine(cfg, w, e, now);
    ResultMoves(cfg, w, e, now);
  }

  lemma ResultMoves(cfg: Config, w: World, e: Event, now: int)
    ensures var r, q := w.review, Next(cfg, w, e, now).review;
            && (q.result != r.result ==> q.status != r.status)
            && (q.status != r.status && e.CompleteEvent? ==> q.result == e.result && e.result in FINAL_RESULTS)
            && (q.status != r.status && e.DecideEvent? ==> q.result == if e.approved then r.result else "REJECTED")
            && (q.status != r.status && (e.CloseEvent? || e.CancelEvent?) ==> q.result == r.result)
            && (q.status != r.status && (e.WithdrawEvent? || e.ReopenEvent?) ==> q.result == "")
  {
  }

  /** Over every run. */
  lemma {:induction false} ResultAlwaysFits(cfg: Config, w: World, run: seq<Moment>)
    requires ResultFits(cfg, w.review)
    ensures ResultFits(cfg, After(cfg, w, run).review)
    decreases |run|
  {
    if run != [] {
      StepKeepsResult(cfg, w, run[0].event, run[0].at);
      ResultAlwaysFits(cfg, Next(cfg, w, run[0].event, run[0].at), run[1..]);
    }
  }

  /** With the approval step on it can be otherwise, in exactly one way: the reviewer completes the review as
      rejected, and the approver approves it. */
  lemma ApprovedSaysRejected(cfg: Config, w: World, e: Event, now: int)
    requires w.review.status != Approved && Next(cfg, w, e, now).review.status == Approved
    ensures Next(cfg, w, e, now).review.result == "REJECTED" <==> e.DecideEvent? && w.review.result == "REJECTED"
  {
    StatusMachine(cfg, w, e, now);
    ResultMoves(cfg, w, e, now);
  }

  function ApproverDecides(): seq<Moment> {
    [Moment(20, AccountEvent("p", Account(true, {Approver}))), Moment(21, DecideEvent("p", true))]
  }

  /** It happens, in a run from a new draft. */
  lemma ApprovedThoughRejected(cfg: Config)
    requires cfg.approvalEnabled
    ensures var w := Stage(Draft, Optional(OLD_ANSWER, 0, None), map[], "");
            var r := After(cfg, w, JudgedAndCompleted("REJECTED") + ApproverDecides()).review;
            Initial(w.review) && r.status == Approved && r.result == "REJECTED"
  {
    var w, p, m := Stage(Draft, Optional(OLD_ANSWER, 0, None), map[], ""), PendingWith("REJECTED"), ApproverDecides();
    ToPending(cfg, "REJECTED");
    AfterBoth(cfg, w, JudgedAndCompleted("REJECTED"), m);
    AfterBoth(cfg, p, [m[0]], [m[1]]);
    assert m == [m[0]] + [m[1]];
    OneStep(cfg, p, m[0]);
    OneStep(cfg, Next(cfg, p, m[0].event, m[0].at), m[1]);
    Approves(cfg);
  }

  lemma Approves(cfg: Config)
    ensures var m := ApproverDecides();
            var v := Next(cfg, PendingWith("REJECTED"), m[0].event, m[0].at);
            var r := Next(cfg, v, m[1].event, m[1].at).review;
            r.status == Approved && r.result == "REJECTED"
  {
    var v := Next(cfg, PendingWith("REJECTED"), ApproverDecides()[0].event, 20);
    assert "p" != "a" && "p" != "r" by { assert "p"[0] != "a"[0] && "p"[0] != "r"[0]; }
    assert v.review == PendingWith("REJECTED").review && HasRole(v, "p", Approver);
    assert !WroteVerdict(v.review, "p") by { assert forall id :: id in v.review.items ==> id == "i"; }
  }

  // ------------------------------------------------------------ who sees and is seen

  /** Who acts on a review by part or role, rather than as an administrator. */
  predicate ByPart(e: Event) {
    || ReviewerEvent(e) || e.SubmitEvent? || e.SaveAnswerEvent? || e.BulkAnswerEvent? || e.AssignEvent? || e.ParticipantsEvent?
    || e.UpdateChangeEvent? || e.DecideEvent? || e.CancelEvent?
  }

  /** Whoever may act on a review may open it: nobody is let do something to what they cannot see. */
  lemma ActorsCanSee(cfg: Config, w: World, e: Event, now: int)
    requires ByPart(e) && Handled(cfg, w, e, now).Some?
    ensures CanAccess(cfg, w, e.u)
  {
    if ReviewerEvent(e) { ReviewersCanSee(cfg, w, e, now); } else { OthersCanSee(cfg, w, e, now); }
  }

  lemma ReviewersCanSee(cfg: Config, w: World, e: Event, now: int)
    requires ReviewerEvent(e) && Handled(cfg, w, e, now).Some?
    ensures CanAccess(cfg, w, e.u)
  {
  }

  lemma OthersCanSee(cfg: Config, w: World, e: Event, now: int)
    requires ByPart(e) && !ReviewerEvent(e) && Handled(cfg, w, e, now).Some?
    ensures CanAccess(cfg, w, e.u)
  {
  }

  /** Work can be given to everybody with a part in the review, and to nobody else; all of them see it, as do
      its viewers, but a stranger does not unless by role. */
  lemma PartsAndStrangers(cfg: Config, w: World, u: User)
    ensures Reaches(w, u) <==> u in {w.review.requester} + w.editors || Some(u) in {w.review.reviewer, w.review.approver}
    ensures Reaches(w, u) || u in w.viewers ==> CanAccess(cfg, w, u)
    ensures CanAccess(cfg, w, u) && !Reaches(w, u) && u !in w.viewers ==>
              HasRole(w, u, SecurityReviewer) || HasRole(w, u, Auditor) || (HasRole(w, u, Approver) && w.review.status == ApprovalPending)
  {
  }

  /** The lock after long absence closes a privileged account and touches nothing else, unlike an administrator,
      who also takes the work away. */
  lemma LockOnlyCloses(cfg: Config, w: World, user: User, now: int)
    ensures var v := Next(cfg, w, LockEvent(user), now);
            && v.review == w.review && v.editors == w.editors && v.viewers == w.viewers
            && (v != w ==> user in w.accounts && v.accounts == w.accounts[user := Account(false, w.accounts[user].roles)]
                           && exists role :: role in w.accounts[user].roles && role in {SystemAdmin, TemplateAdmin, SecurityReviewer, Approver})
  {
    if IsPrivileged(w, user) {
      var role :| role in w.accounts[user].roles * {SystemAdmin, TemplateAdmin, SecurityReviewer, Approver};
    }
  }

  // ---------------------------------------------------------------- naming people

  /** An author may name whoever is able: with self-review off not themselves into two seats, nor one person
      as reviewer and approver. Naming nobody leaves a seat as it is. */
  lemma WhoMayBeNamed(cfg: Config, w: World, u: User, reviewer: Option<User>, approver: Option<User>)
    requires Editable(w.review.status) && IsAuthor(w, u)
    ensures var r := Reassign(cfg, w, u, reviewer, approver);
            && (r.Some? <==>
                  && (reviewer.Some? ==> !SeatIsFree(w, reviewer, SecurityReviewer) && (cfg.allowSelfReview || reviewer.value != w.review.requester))
                  && (approver.Some? ==> !SeatIsFree(w, approver, Approver) && (cfg.allowSelfReview || approver.value != w.review.requester))
                  && (reviewer.Some? && approver.Some? ==> cfg.allowSelfReview || reviewer.value != approver.value))
            && (r.Some? ==> r.value.reviewer == (if reviewer.Some? then reviewer else w.review.reviewer)
                            && r.value.approver == (if approver.Some? then approver else w.review.approver))
  {
  }

  /** A copy takes over the people of its source, and makes the copier its owner. */
  lemma CopyTakesSeats(cfg: Config, w: World, u: User, items: map<Id, Item>)
    requires Copied(cfg, w, u, items).Some?
    ensures var c := Copied(cfg, w, u, items).value;
            && c.requester == u && c.status == Draft && c.items == items && c.reviewer == w.review.reviewer && c.approver == w.review.approver
            && CanAccess(cfg, w, u)
  {
  }

  // -------------------------------------------------------------- bulk corrections

  predicate UnderCorrection(r: Review, id: Id) {
    exists c :: c in r.changes && r.changes[c].item == id && r.changes[c].status != Verified
  }

  /** A bulk request puts every listed item of the review under correction, and asks nothing twice: what was
      under correction before gets no second request, and nothing gets two. */
  lemma BulkCorrections(cfg: Config, w: World, u: User, ids: set<Id>, added: map<Id, Id>, reason: string, assignee: Option<User>)
    requires BulkRequestChange(cfg, w, u, ids, added, reason, assignee).Some?
    ensures var r, q := w.review, BulkRequestChange(cfg, w, u, ids, added, reason, assignee).value;
            && (forall id :: id in ids && id in r.items ==> UnderCorrection(q, id))
            && (forall c :: c in q.changes && c !in r.changes ==> q.changes[c].item in ids && q.changes[c].item in r.items && !UnderCorrection(r, q.changes[c].item))
            && (forall c, d :: c in q.changes && d in q.changes && c !in r.changes && d !in r.changes && c != d ==> q.changes[c].item != q.changes[d].item)
  {
    var r, q := w.review, BulkRequestChange(cfg, w, u, ids, added, reason, assignee).value;
    forall id | id in ids && id in r.items ensures UnderCorrection(q, id) {
      if UnderCorrection(r, id) {
        var c :| c in r.changes && r.changes[c].item == id && r.changes[c].status != Verified;
        assert q.changes[c] == r.changes[c];
      } else {
        assert id in added.Values;
        var c :| c in added && added[c] == id;
        assert q.changes[c] == Change(id, assignee, Open);
      }
    }
    forall c | c in added ensures added[c] in Correctable(r, ids) {
      assert added[c] in added.Values;
    }
    forall c, d | c in added && d in added && c != d ensures added[c] != added[d] {
      NoTwice(added, c, d);
    }
  }

  /** A map with as many values as keys has no value twice. */
  lemma NoTwice(m: map<Id, Id>, c: Id, d: Id)
    requires |m| == |m.Values| && c in m && d in m && c != d
    ensures m[c] != m[d]
  {
    if m[c] == m[d] {
      WithoutOne(m, c, d);
      FewerValues(m - {c});
    }
  }

  lemma WithoutOne(m: map<Id, Id>, c: Id, d: Id)
    requires c in m && d in m && c != d && m[c] == m[d]
    ensures m.Values == (m - {c}).Values
  {
    var n := m - {c};
    forall v | v in m.Values ensures v in n.Values {
      var k :| k in m && m[k] == v;
      assert n[if k == c then d else k] == v;
    }
    forall v | v in n.Values ensures v in m.Values {
      var k :| k in n && n[k] == v;
      assert m[k] == v;
    }
  }

  lemma {:induction false} FewerValues(m: map<Id, Id>)
    ensures |m.Values| <= |m|
    decreases |m|
  {
    if m != map[] {
      var k :| k in m;
      var n := m - {k};
      FewerValues(n);
      forall v | v in m.Values ensures v in n.Values + {m[k]} {
        var j :| j in m && m[j] == v;
        assert j == k || n[j] == v;
      }
      SubsetSize(m.Values, n.Values + {m[k]});
    } else {
      assert m.Values == {};
    }
  }

  // ------------------------------------------------------------------ what counts

  function TrimLeft(s: string): string {
    if s != "" && IsSpace(s[0]) then TrimLeft(s[1..]) else s
  }

  function TrimRight(s: string): string {
    if s != "" && IsSpace(s[|s| - 1]) then TrimRight(s[..|s| - 1]) else s
  }

  /** Blank is what trimming leaves nothing of. */
  lemma BlankIsTrimmedAway(s: string)
    ensures Blank(s) <==> TrimRight(TrimLeft(s)) == ""
  {
    LeftTrimmed(s);
    RightTrimmed(TrimLeft(s));
  }

  lemma {:induction false} LeftTrimmed(s: string)
    ensures Blank(s) <==> Blank(TrimLeft(s))
  {
    if s != "" && IsSpace(s[0]) {
      LeftTrimmed(s[1..]);
      assert s == [s[0]] + s[1..];
    }
  }

  lemma {:induction false} RightTrimmed(s: string)
    ensures Blank(s) <==> TrimRight(s) == ""
  {
    if s != "" {
      var init, last := s[..|s| - 1], s[|s| - 1];
      assert s == init + [last];
      if IsSpace(last) { RightTrimmed(init); }
    }
  }

  /** Yes and no count as they are, "not applicable" with a reason; with any self-assessment, and whatever else
      is written. */
  lemma AnswersThatCount(a: Answer)
    requires a.selfAssessment in {"", "COMPLIANT", "INSUFFICIENT", "N/A"}
    ensures a.applicability == "Y" || a.applicability == "N" ==> ValidAnswer(a)
    ensures a.applicability == "N/A" ==> (ValidAnswer(a) <==> TrimRight(TrimLeft(a.naReason)) != "")
    ensures ValidAnswer(a) ==> a.applicability in {"Y", "N", "N/A"}
  {
    assert |"Y"| == 1 && |"N"| == 1 && |"N/A"| == 3;
    BlankIsTrimmedAway(a.naReason);
  }
}
