// The review and the scanner together: what the workflow assumes of a review's files is what the job queue
// does to them, and nothing unscanned is under review or decided.
module ScanGate {
  import opened Common
  import W = Workflow
  import S = WorkflowSafety
  import Q = JobQueue

  // -------------------------------------------------------------------- counting files

  /** The undeleted ones of some files. */
  function Present(db: Q.Db, files: set<Q.Id>): set<Q.Id> {
    set f | f in files && f in db.evidences && !db.evidences[f].deleted
  }

  /** Those the scanner has not passed. */
  function Unscanned(db: Q.Db, files: set<Q.Id>): set<Q.Id> {
    set f | f in files && f in db.evidences && !Q.Passed(db.evidences[f])
  }

  /** Only an upload or a new version adds to the files the scanner has not passed. */
  lemma QueueOnlyClears(s: Q.System, step: Q.Step, now: int, files: set<Q.Id>)
    requires Q.Enabled(s, step, now) && (step.Upload? || step.NewVersion? ==> step.e !in files)
    ensures Unscanned(Q.Next(s, step, now).db, files) <= Unscanned(s.db, files)
  {
    var t := Q.Next(s, step, now);
    forall f | f in Unscanned(t.db, files) ensures f in Unscanned(s.db, files) {
      if f in s.db.evidences {
        if Q.Passed(s.db.evidences[f]) { Q.PassedStaysPassed(s, step, now, f); }
      } else {
        NoNewFile(s, step, now, f);
      }
    }
  }

  lemma NoNewFile(s: Q.System, step: Q.Step, now: int, f: Q.Id)
    requires Q.Enabled(s, step, now) && f !in s.db.evidences && (step.Upload? ==> step.e != f)
    ensures f !in Q.Next(s, step, now).db.evidences
  {
  }

  /** The file a step quarantines. */
  function Quarantined(s: Q.System, step: Q.Step): set<Q.Id> {
    if step.Conclude? && step.verdict == Q.Infected && step.w in s.workers && s.workers[step.w].work.Scan? then {s.workers[step.w].work.evidence} else {}
  }

  /** Beside uploads, new versions and deletions only a quarantine moves the undeleted files. */
  lemma QuarantineOnlyRemoves(s: Q.System, step: Q.Step, now: int, files: set<Q.Id>)
    requires Q.Enabled(s, step, now) && (step.Upload? || step.NewVersion? || step.DeleteEvidence? ==> step.e !in files)
    ensures Present(Q.Next(s, step, now).db, files) == Present(s.db, files) - Quarantined(s, step)
  {
    var t := Q.Next(s, step, now);
    forall f | f in files ensures f in Present(t.db, files) <==> f in Present(s.db, files) && f !in Quarantined(s, step) {
      FileStays(s, step, now, f);
    }
  }

  /** The file is there afterwards if it was before, and deleted only if it was, or goes now. */
  ghost predicate Keeps(before: Q.Db, after: Q.Db, f: Q.Id, gone: set<Q.Id>) {
    && (f in after.evidences <==> f in before.evidences)
    && (f in before.evidences ==> (after.evidences[f].deleted <==> before.evidences[f].deleted || f in gone))
  }

  lemma FailureKeeps(db: Q.Db, id: Q.Id, attempt: nat, now: int, f: Q.Id)
    ensures Keeps(db, Q.FailedJob(db, id, attempt, now), f, {})
  {
  }

  lemma VerdictKeeps(db: Q.Db, id: Q.Id, e: Q.Id, verdict: Q.ScanStatus, now: int, f: Q.Id)
    ensures Keeps(db, Q.Concluded(db, id, e, verdict, now), f, if verdict == Q.Infected then {e} else {})
  {
  }

  lemma RetriesKeep(db: Q.Db, id: Q.Id, now: int, f: Q.Id)
    ensures id in db.jobs ==> Keeps(db, Q.RetriedJob(db, id, now), f, {})
    ensures Keeps(db, Q.AllRetried(db, now), f, {})
  {
  }

  lemma FileStays(s: Q.System, step: Q.Step, now: int, f: Q.Id)
    requires Q.Enabled(s, step, now) && (step.Upload? || step.NewVersion? || step.DeleteEvidence? ==> step.e != f)
    ensures Keeps(s.db, Q.Next(s, step, now).db, f, Quarantined(s, step))
  {
    match step
    case Conclude(w, verdict) => VerdictKeeps(s.db, s.workers[w].job, s.workers[w].work.evidence, verdict, now, f);
    case Fail(w) => FailureKeeps(s.db, s.workers[w].job, s.workers[w].attempt, now, f);
    case RetryJob(job) => RetriesKeep(s.db, job, now, f);
    case RetryFailed(_) => RetriesKeep(s.db, 0, now, f);
    case _ =>
  }

  /** The counts of an item after any other step of the queue are an evidence event the workflow accepts, in
      whatever status the review is. */
  lemma QueueIsEvidenceEvent(cfg: W.Config, w: W.World, item: W.Id, s: Q.System, step: Q.Step, now: int, files: set<Q.Id>, touched: Option<int>)
    requires Q.Enabled(s, step, now) && (step.Upload? || step.NewVersion? ==> step.e !in files)
    requires item in w.review.items && w.review.items[item].unscanned == |Unscanned(s.db, files)|
    ensures var db := Q.Next(s, step, now).db;
            W.Handled(cfg, w, W.EvidenceEvent(item, |Present(db, files)|, |Unscanned(db, files)|, touched), now).Some?
  {
    QueueOnlyClears(s, step, now, files);
    SubsetSize(Unscanned(Q.Next(s, step, now).db, files), Unscanned(s.db, files));
  }

  // --------------------------------------------------------------- both machines at once

  /** A review, the queue, and which files hang on which item. */
  datatype Site = Site(w: W.World, s: Q.System, files: map<W.Id, set<Q.Id>>)

  datatype Move = Flow(event: W.Event) | Work(step: Q.Step, item: W.Id, touched: map<W.Id, Option<int>>)

  function FilesOf(files: map<W.Id, set<Q.Id>>, item: W.Id): set<Q.Id> {
    if item in files then files[item] else {}
  }

  predicate Owns(files: map<W.Id, set<Q.Id>>, f: Q.Id) {
    exists item :: item in files && f in files[item]
  }

  /** Uploads, new versions and deletions for the review need the right to edit it; an excluded item never had a file. */
  ghost predicate Enabled(x: Site, m: Move, now: int) {
    match m
    case Flow(e) => !e.EvidenceEvent? && (e.ExcludeEvent? && !e.used ==> FilesOf(x.files, e.item) == {})
    case Work(step, item, touched) =>
      && Q.Enabled(x.s, step, now)
      && (step.Upload? && item in x.w.review.items ==> W.Editable(x.w.review.status))
      && (step.NewVersion? || step.DeleteEvidence? ==> (Owns(x.files, step.e) ==> W.Editable(x.w.review.status)))
  }

  /** The rows of the items as the queries of the workflow count their files. */
  function Counted(items: map<W.Id, W.Item>, db: Q.Db, files: map<W.Id, set<Q.Id>>, touched: map<W.Id, Option<int>>): map<W.Id, W.Item> {
    map id | id in items :: items[id].(evidence := |Present(db, FilesOf(files, id))|, unscanned := |Unscanned(db, FilesOf(files, id))|,
                                       touched := if id in touched then touched[id] else items[id].touched)
  }

  function Next(cfg: W.Config, x: Site, m: Move, now: int): Site
    requires m.Work? ==> Q.Enabled(x.s, m.step, now)
  {
    match m
    case Flow(e) => x.(w := W.Next(cfg, x.w, e, now))
    case Work(step, item, touched) =>
      var t := Q.Next(x.s, step, now);
      var files := if step.Upload? && item in x.w.review.items then x.files[item := FilesOf(x.files, item) + {step.e}] else x.files;
      Site(x.w.(review := x.w.review.(items := Counted(x.w.review.items, t.db, files, touched))), t, files)
  }

  /** The counts are right, and only files that exist hang on items. */
  ghost predicate Synced(x: Site) {
    && (forall id :: id in x.w.review.items ==>
          x.w.review.items[id].evidence == |Present(x.s.db, FilesOf(x.files, id))|
          && x.w.review.items[id].unscanned == |Unscanned(x.s.db, FilesOf(x.files, id))|)
    && (forall f :: Owns(x.files, f) ==> f in x.s.db.evidences)
    && (forall id :: id in x.files && id !in x.w.review.items ==> x.files[id] == {})
  }

  /** Under review or decided, every answer is complete and every undeleted file of the review has passed. */
  ghost predicate Clean(x: Site) {
    && S.CompleteInReview(x.w.review)
    && (S.InReview(x.w.review.status) ==> forall id, f :: id in x.w.review.items && f in FilesOf(x.files, id) && f in x.s.db.evidences ==> Q.Passed(x.s.db.evidences[f]))
  }

  lemma SyncedIsClean(x: Site)
    requires Synced(x) && S.CompleteInReview(x.w.review)
    ensures Clean(x)
  {
    if S.InReview(x.w.review.status) {
      forall id, f | id in x.w.review.items && f in FilesOf(x.files, id) && f in x.s.db.evidences ensures Q.Passed(x.s.db.evidences[f]) {
        assert Unscanned(x.s.db, FilesOf(x.files, id)) == {};
        assert f !in Unscanned(x.s.db, FilesOf(x.files, id));
      }
    }
  }

  lemma FlowKeeps(cfg: W.Config, x: Site, e: W.Event, now: int)
    requires Enabled(x, Flow(e), now) && Synced(x) && S.CompleteInReview(x.w.review)
    ensures Synced(Next(cfg, x, Flow(e), now)) && S.CompleteInReview(Next(cfg, x, Flow(e), now).w.review)
  {
    var y := Next(cfg, x, Flow(e), now);
    S.StepKeepsComplete(cfg, x.w, e, now);
    S.StepOnList(cfg, x.w, e, now);
    forall id | id in y.w.review.items
      ensures y.w.review.items[id].evidence == |Present(x.s.db, FilesOf(x.files, id))|
      ensures y.w.review.items[id].unscanned == |Unscanned(x.s.db, FilesOf(x.files, id))|
    {
      if id in x.w.review.items { S.StepOnItem(cfg, x.w, e, now, id); } else { assert FilesOf(x.files, id) == {}; NoFiles(x.s.db); }
    }
    forall id | id in x.files && id !in y.w.review.items ensures x.files[id] == {} {
      if id in x.w.review.items { OnlyExclusionRemoves(cfg, x.w, e, now, id); }
    }
  }

  lemma NoFiles(db: Q.Db)
    ensures Present(db, {}) == {} && Unscanned(db, {}) == {}
  {
  }

  lemma OnlyExclusionRemoves(cfg: W.Config, w: W.World, e: W.Event, now: int, id: W.Id)
    requires id in w.review.items && id !in W.Next(cfg, w, e, now).review.items
    ensures e.ExcludeEvent? && e.item == id && !e.used
  {
    S.StepOnList(cfg, w, e, now);
  }

  /** Outside editing no file of the review becomes unscanned. */
  lemma ItemStaysClear(x: Site, m: Move, now: int, cfg: W.Config, id: W.Id)
    requires m.Work? && Enabled(x, m, now) && Synced(x) && !W.Editable(x.w.review.status)
    requires id in x.w.review.items && x.w.review.items[id].unscanned == 0
    ensures Next(cfg, x, m, now).w.review.items[id].unscanned == 0
  {
    var files := FilesOf(x.files, id);
    if m.step.Upload? || m.step.NewVersion? { NotTouched(x, m, now, id); }
    QueueOnlyClears(x.s, m.step, now, files);
    assert Unscanned(x.s.db, files) == {};
  }

  lemma NotTouched(x: Site, m: Move, now: int, id: W.Id)
    requires m.Work? && Enabled(x, m, now) && Synced(x) && !W.Editable(x.w.review.status)
    requires m.step.Upload? || m.step.NewVersion? || m.step.DeleteEvidence?
    ensures m.step.e !in FilesOf(x.files, id)
  {
    var f, files := m.step.e, x.files;
    Holding(files, id, f);
    assert Owns(files, f) ==> f in x.s.db.evidences;
  }

  lemma Holding(files: map<W.Id, set<Q.Id>>, id: W.Id, f: Q.Id)
    ensures f in FilesOf(files, id) ==> Owns(files, f)
  {
  }

  lemma WorkKeeps(cfg: W.Config, x: Site, m: Move, now: int)
    requires m.Work? && Enabled(x, m, now) && Synced(x) && S.CompleteInReview(x.w.review)
    ensures Synced(Next(cfg, x, m, now)) && S.CompleteInReview(Next(cfg, x, m, now).w.review)
  {
    var y := Next(cfg, x, m, now);
    WorkKeepsSynced(cfg, x, m, now);
    if S.InReview(y.w.review.status) {
      forall id | id in y.w.review.items ensures W.AnswerComplete(y.w.review.items[id]) && y.w.review.items[id].unscanned == 0 {
        assert W.AnswerComplete(x.w.review.items[id]);
        ItemStaysClear(x, m, now, cfg, id);
      }
    }
  }

  lemma WorkKeepsSynced(cfg: W.Config, x: Site, m: Move, now: int)
    requires m.Work? && Enabled(x, m, now) && Synced(x)
    ensures Synced(Next(cfg, x, m, now))
  {
    var y := Next(cfg, x, m, now);
    FilesRemain(x.s, m.step, now);
    forall f | Owns(y.files, f) ensures f in y.s.db.evidences {
      var id :| id in y.files && f in y.files[id];
      if f in FilesOf(x.files, id) { Holding(x.files, id, f); }
    }
  }

  lemma FilesRemain(s: Q.System, step: Q.Step, now: int)
    requires Q.Enabled(s, step, now)
    ensures forall f :: f in s.db.evidences ==> f in Q.Next(s, step, now).db.evidences
    ensures step.Upload? ==> step.e in Q.Next(s, step, now).db.evidences
  {
  }

  // ---------------------------------------------------------------------------- runs

  datatype Moment = Moment(at: int, move: Move)

  ghost predicate Possible(cfg: W.Config, x: Site, run: seq<Moment>)
    decreases |run|
  {
    run == [] || (Enabled(x, run[0].move, run[0].at) && Possible(cfg, Next(cfg, x, run[0].move, run[0].at), run[1..]))
  }

  ghost function After(cfg: W.Config, x: Site, run: seq<Moment>): Site
    requires Possible(cfg, x, run)
    decreases |run|
  {
    if run == [] then x else After(cfg, Next(cfg, x, run[0].move, run[0].at), run[1..])
  }

  lemma {:induction false} RunKeeps(cfg: W.Config, x: Site, run: seq<Moment>)
    requires Possible(cfg, x, run) && Synced(x) && S.CompleteInReview(x.w.review)
    ensures Synced(After(cfg, x, run)) && S.CompleteInReview(After(cfg, x, run).w.review)
    decreases |run|
  {
    if run != [] {
      var m, at := run[0].move, run[0].at;
      if m.Flow? { FlowKeeps(cfg, x, m.event, at); } else { WorkKeeps(cfg, x, m, at); }
      RunKeeps(cfg, Next(cfg, x, m, at), run[1..]);
    }
  }

  /** Over every interleaving of the review's handlers with uploads, scans, failures, late workers, repairs
      and retries of the queue: from submission until it is handed back or cancelled, a review is complete
      and every undeleted file on it has passed the scanner. */
  lemma NothingUnscannedInReview(cfg: W.Config, x: Site, run: seq<Moment>)
    requires Possible(cfg, x, run) && Synced(x) && S.Initial(x.w.review)
    ensures Clean(After(cfg, x, run))
  {
    RunKeeps(cfg, x, run);
    SyncedIsClean(After(cfg, x, run));
  }

  // ------------------------------------------------------------- required evidence

  /** Under review or decided, every item that needs a file has an undeleted one. */
  ghost predicate Attached(r: W.Review) {
    S.InReview(r.status) ==> forall id :: id in r.items && W.NeedsEvidence(r.items[id]) ==> r.items[id].evidence > 0
  }

  /** The scanner quarantines the last file of an item that needs one, in a review that is handed in. */
  ghost predicate Detaches(x: Site, m: Move) {
    && m.Work? && S.InReview(x.w.review.status)
    && exists id :: id in x.w.review.items && TakesLast(x, m.step, id)
  }

  predicate TakesLast(x: Site, step: Q.Step, id: W.Id)
    requires id in x.w.review.items
  {
    var files := Present(x.s.db, FilesOf(x.files, id));
    W.NeedsEvidence(x.w.review.items[id]) && files != {} && files <= Quarantined(x.s, step)
  }

  lemma FlowKeepsAttached(cfg: W.Config, x: Site, e: W.Event, now: int)
    requires Enabled(x, Flow(e), now) && Attached(x.w.review)
    ensures Attached(Next(cfg, x, Flow(e), now).w.review)
  {
    var r, q := x.w.review, Next(cfg, x, Flow(e), now).w.review;
    S.StepOnStatus(cfg, x.w, e, now);
    S.StepIntoReview(cfg, x.w, e, now);
    S.StepOnList(cfg, x.w, e, now);
    if S.InReview(q.status) {
      forall id | id in q.items && W.NeedsEvidence(q.items[id]) ensures q.items[id].evidence > 0 {
        if S.InReview(r.status) { FlowKeepsFiles(cfg, x.w, e, now, id); } else { assert W.ItemReady(cfg, id, r.items[id]); }
      }
    }
  }

  /** In a review that is handed in no handler changes what an item needs or has. */
  lemma FlowKeepsFiles(cfg: W.Config, w: W.World, e: W.Event, now: int, id: W.Id)
    requires S.InReview(w.review.status) && !e.EvidenceEvent? && id in w.review.items && id in W.Next(cfg, w, e, now).review.items
    ensures var a, b := w.review.items[id], W.Next(cfg, w, e, now).review.items[id];
            b.evidence == a.evidence && (W.NeedsEvidence(b) <==> W.NeedsEvidence(a))
  {
    S.StepOnItem(cfg, w, e, now, id);
    NeedStays(w.review.status, w.review.items[id], W.Next(cfg, w, e, now).review.items[id], now);
  }

  lemma NeedStays(s: W.Status, a: W.Item, b: W.Item, now: int)
    requires S.InReview(s) && S.ItemMoved(s, a, b, now)
    ensures W.NeedsEvidence(b) <==> W.NeedsEvidence(a)
  {
  }

  lemma ItemKeepsFiles(cfg: W.Config, x: Site, m: Move, now: int, id: W.Id)
    requires m.Work? && Enabled(x, m, now) && Synced(x) && !W.Editable(x.w.review.status) && id in x.w.review.items
    requires W.NeedsEvidence(x.w.review.items[id]) ==> x.w.review.items[id].evidence > 0
    ensures var i := Next(cfg, x, m, now).w.review.items[id]; (W.NeedsEvidence(i) ==> i.evidence > 0) <==> !TakesLast(x, m.step, id)
  {
    var files := FilesOf(x.files, id);
    if m.step.Upload? || m.step.NewVersion? || m.step.DeleteEvidence? { NotTouched(x, m, now, id); }
    QuarantineOnlyRemoves(x.s, m.step, now, files);
  }

  /** Exactly that step can leave a review in progress without evidence it needs. */
  lemma AttachedExactly(cfg: W.Config, x: Site, m: Move, now: int)
    requires Enabled(x, m, now) && Synced(x) && Attached(x.w.review)
    ensures Attached(Next(cfg, x, m, now).w.review) <==> !Detaches(x, m)
  {
    if m.Flow? {
      FlowKeepsAttached(cfg, x, m.event, now);
    } else if S.InReview(x.w.review.status) {
      var r, q := x.w.review, Next(cfg, x, m, now).w.review;
      forall id | id in r.items
        ensures (W.NeedsEvidence(q.items[id]) ==> q.items[id].evidence > 0) <==> !TakesLast(x, m.step, id)
      {
        ItemKeepsFiles(cfg, x, m, now, id);
      }
    }
  }

  ghost predicate NeverDetaches(cfg: W.Config, x: Site, run: seq<Moment>)
    requires Possible(cfg, x, run)
    decreases |run|
  {
    run == [] || (!Detaches(x, run[0].move) && NeverDetaches(cfg, Next(cfg, x, run[0].move, run[0].at), run[1..]))
  }

  lemma {:induction false} RunKeepsAttached(cfg: W.Config, x: Site, run: seq<Moment>)
    requires Possible(cfg, x, run) && NeverDetaches(cfg, x, run)
    requires Synced(x) && S.CompleteInReview(x.w.review) && Attached(x.w.review)
    ensures Attached(After(cfg, x, run).w.review)
    decreases |run|
  {
    if run != [] {
      var m, at := run[0].move, run[0].at;
      AttachedExactly(cfg, x, m, at);
      if m.Flow? { FlowKeeps(cfg, x, m.event, at); } else { WorkKeeps(cfg, x, m, at); }
      RunKeepsAttached(cfg, Next(cfg, x, m, at), run[1..]);
    }
  }

  /** Over every interleaving, from a new draft: as long as the scanner quarantines no last file of an item
      that needs one, a review in progress or decided has all the evidence it needs. */
  lemma EvidenceStaysAttached(cfg: W.Config, x: Site, run: seq<Moment>)
    requires Possible(cfg, x, run) && NeverDetaches(cfg, x, run) && Synced(x) && S.Initial(x.w.review)
    ensures Attached(After(cfg, x, run).w.review)
  {
    RunKeepsAttached(cfg, x, run);
  }

  // ------------------------------------------------- the last file can still be taken away

  /** Any run of the queue can go on beside a draft, its uploads becoming files of one item. */
  function Beside(run: seq<Q.Timed>, id: W.Id): seq<Moment> {
    if run == [] then [] else [Moment(run[0].now, Work(run[0].step, id, map[]))] + Beside(run[1..], id)
  }

  lemma {:induction false} BesideDraft(cfg: W.Config, x: Site, run: seq<Q.Timed>, id: W.Id)
    requires Q.Possible(x.s, run) && id in x.w.review.items && x.w.review.status == W.Draft
    ensures Possible(cfg, x, Beside(run, id))
    ensures var y := After(cfg, x, Beside(run, id));
            && y.s == Q.After(x.s, run) && y.w == x.w.(review := x.w.review.(items := y.w.review.items)) && y.w.review.items.Keys == x.w.review.items.Keys
            && y.w.review.items[id] == x.w.review.items[id].(evidence := y.w.review.items[id].evidence, unscanned := y.w.review.items[id].unscanned)
            && FilesOf(x.files, id) <= FilesOf(y.files, id)
            && (run != [] && run[0].step.Upload? ==> run[0].step.e in FilesOf(y.files, id))
    decreases |run|
  {
    if run != [] {
      var m := Work(run[0].step, id, map[]);
      var y := Next(cfg, x, m, run[0].now);
      BesideDraft(cfg, y, run[1..], id);
      assert Beside(run, id)[1..] == Beside(run[1..], id);
    }
  }

  lemma {:induction false} Extended(cfg: W.Config, x: Site, run: seq<Moment>, m: Move, now: int)
    requires Possible(cfg, x, run) && Enabled(After(cfg, x, run), m, now)
    ensures Possible(cfg, x, run + [Moment(now, m)]) && After(cfg, x, run + [Moment(now, m)]) == Next(cfg, After(cfg, x, run), m, now)
    decreases |run|
  {
    var longer := run + [Moment(now, m)];
    if run == [] {
      assert longer[1..] == [] && longer[0] == Moment(now, m);
    } else {
      assert longer[0] == run[0] && longer[1..] == run[1..] + [Moment(now, m)];
      Extended(cfg, Next(cfg, x, run[0].move, run[0].at), run[1..], m, now);
    }
  }

  /** A draft of "a" with one answered item that asks for a file, and nothing uploaded. */
  function OneItem(status: W.Status, evidence: nat): W.World {
    W.World(W.Review(status, "a", Some("r"), Some("p"),
                     map["i" := W.Item(true, true, Some(W.Response(S.OLD_ANSWER, None, 0)), None, evidence, 0, None)], map[], [], ""),
            map[], {}, {})
  }

  lemma HandedIn(cfg: W.Config)
    requires !cfg.typedProblem("i", "{}", 1)
    ensures W.Next(cfg, OneItem(W.Draft, 1), W.SubmitEvent("a"), 1000) == OneItem(W.Submitted, 1)
  {
    var w := OneItem(W.Draft, 1);
    var i := w.review.items["i"];
    assert |"Y"| == 1 && |"N/A"| == 3 && |"COMPLIANT"| == 9;
    assert W.AnswerComplete(i);
    assert W.ItemReady(cfg, "i", i);
    assert w.review.items != map[] by { assert "i" in w.review.items; }
    assert W.ReadyToSubmit(cfg, w.review);
    assert W.CanEdit(w, "a");
  }

  /** Passed by one worker, and still being scanned by another. */
  ghost predicate InHand(x: Site, status: W.Status) {
    && Synced(x) && S.CompleteInReview(x.w.review) && x.w == OneItem(status, 1)
    && Present(x.s.db, FilesOf(x.files, "i")) == {0} && 0 in x.s.workers && x.s.workers[0] == Q.ScanAttempt(1, true)
  }

  const NEW_SITE := Site(OneItem(W.Draft, 0), Q.START, map[])

  lemma NewSite()
    ensures Synced(NEW_SITE) && S.Initial(NEW_SITE.w.review) && S.CompleteInReview(NEW_SITE.w.review)
  {
    NoFiles(Q.START.db);
  }

  lemma PassedInDraft(cfg: W.Config) returns (run: seq<Moment>)
    ensures Possible(cfg, NEW_SITE, run) && InHand(After(cfg, NEW_SITE, run), W.Draft)
  {
    var scans, j := Q.PassedWhileScanning();
    BesideDraft(cfg, NEW_SITE, scans, "i");
    run := Beside(scans, "i");
    NewSite();
    RunKeeps(cfg, NEW_SITE, run);
    OnlyFile(After(cfg, NEW_SITE, run));
    OneItemIs(After(cfg, NEW_SITE, run).w);
  }

  lemma OneItemIs(w: W.World)
    requires "i" in w.review.items && w.review.items.Keys == OneItem(W.Draft, 0).review.items.Keys
    requires w == OneItem(W.Draft, 0).(review := OneItem(W.Draft, 0).review.(items := w.review.items))
    requires w.review.items["i"] == OneItem(W.Draft, 1).review.items["i"]
    ensures w == OneItem(W.Draft, 1)
  {
    assert w.review.items == OneItem(W.Draft, 1).review.items;
  }

  lemma PassedAndHandedIn(cfg: W.Config) returns (run: seq<Moment>)
    requires !cfg.typedProblem("i", "{}", 1)
    ensures Possible(cfg, NEW_SITE, run) && InHand(After(cfg, NEW_SITE, run), W.Submitted)
  {
    var draft := PassedInDraft(cfg);
    var x, m := After(cfg, NEW_SITE, draft), Flow(W.SubmitEvent("a"));
    HandedIn(cfg);
    FlowKeeps(cfg, x, m.event, 1000);
    Extended(cfg, NEW_SITE, draft, m, 1000);
    run := draft + [Moment(1000, m)];
  }

  /** The slow worker finds the file infected, and the item is left without one. */
  lemma LateVerdict(cfg: W.Config, x: Site, m: Move, now: int)
    requires InHand(x, W.Submitted) && m == Work(Q.Conclude(0, Q.Infected), "i", map[])
    ensures Enabled(x, m, now) && !Attached(Next(cfg, x, m, now).w.review) && Next(cfg, x, m, now).w.review.status == W.Submitted
  {
    assert |"Y"| == 1 && |"N/A"| == 3;
    assert TakesLast(x, m.step, "i");
    assert Attached(x.w.review);
    AttachedExactly(cfg, x, m, now);
  }

  /** It happens: a worker is slow and its lock is taken away, another passes the file, the review is handed
      in, and the slow one finds the file infected -- in review, the item has lost the file it needs. */
  lemma LateQuarantine(cfg: W.Config) returns (run: seq<Moment>)
    requires !cfg.typedProblem("i", "{}", 1)
    ensures Synced(NEW_SITE) && S.Initial(NEW_SITE.w.review) && Possible(cfg, NEW_SITE, run)
    ensures var r := After(cfg, NEW_SITE, run).w.review; S.InReview(r.status) && !Attached(r)
  {
    NewSite();
    var before := PassedAndHandedIn(cfg);
    var m := Work(Q.Conclude(0, Q.Infected), "i", map[]);
    LateVerdict(cfg, After(cfg, NEW_SITE, before), m, 1001);
    Extended(cfg, NEW_SITE, before, m, 1001);
    run := before + [Moment(1001, m)];
  }

  lemma OnlyFile(y: Site)
    requires Synced(y) && "i" in y.w.review.items && 0 in FilesOf(y.files, "i")
    requires y.s.db.evidences == map[0 := Q.Evidence(Q.Clean, false)]
    ensures Present(y.s.db, FilesOf(y.files, "i")) == {0}
    ensures y.w.review.items["i"].evidence == 1 && y.w.review.items["i"].unscanned == 0
  {
    assert Present(y.s.db, FilesOf(y.files, "i")) == {0};
    assert Unscanned(y.s.db, FilesOf(y.files, "i")) == {};
  }
}
