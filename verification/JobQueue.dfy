// The job queue and the malware-scan gate: internal/scanner/worker.go, internal/notify/worker.go,
// the sweep of internal/maintenance/worker.go, the administrator's retries in internal/web/admin.go
// and the uploads of internal/web/evidence.go. Every handler and every turn of a worker is one step.
module JobQueue {
  import opened Common

  /** Times are seconds, identifiers are numbers. */
  type Id = nat

  const MINUTE := 60
  const MAX_ATTEMPTS := 5
  const ABANDONED_AFTER := 15 * MINUTE
  const REQUEUE_LIMIT := 500

  datatype Status = Pending | Running | Completed | Failed
  datatype Work = Scan(evidence: Id) | Mail(notification: Id)
  datatype Job = Job(work: Work, status: Status, attempts: nat, availableAt: int, lockedAt: Option<int>, createdAt: int, updatedAt: int)

  datatype ScanStatus = Waiting | Clean | Skipped | Infected | Error
  datatype Evidence = Evidence(scan: ScanStatus, deleted: bool)

  datatype Db = Db(jobs: map<Id, Job>, evidences: map<Id, Evidence>)

  // ------------------------------------------------------------- what a job goes through

  function NewJob(work: Work, now: int): Job {
    Job(work, Pending, 0, now, None, now, now)
  }

  function Claimed(j: Job, now: int): Job {
    j.(status := Running, attempts := j.attempts + 1, lockedAt := Some(now), updatedAt := now)
  }

  function Power(n: nat): nat {
    if n == 0 then 1 else 2 * Power(n - 1)
  }

  /** 1 << min(attempt, 6) minutes */
  function Backoff(attempt: nat): nat {
    Power(if attempt < 6 then attempt else 6) * MINUTE
  }

  function Broken(j: Job, attempt: nat, now: int): Job {
    j.(status := if attempt >= MAX_ATTEMPTS then Failed else Pending, availableAt := now + Backoff(attempt), lockedAt := None, updatedAt := now)
  }

  function Finished(j: Job, now: int): Job {
    j.(status := Completed, lockedAt := None, updatedAt := now)
  }

  predicate IsStale(j: Job, now: int, window: nat) {
    j.status == Running && j.lockedAt.Some? && j.lockedAt.value < now - window
  }

  function Requeued(j: Job, now: int): Job {
    j.(status := Pending, lockedAt := None, availableAt := now, updatedAt := now)
  }

  function Retried(j: Job, now: int): Job {
    j.(status := Pending, attempts := 0, availableAt := now, lockedAt := None, updatedAt := now)
  }

  predicate Retryable(j: Job, now: int) {
    j.status == Failed || j.status == Pending || IsStale(j, now, ABANDONED_AFTER)
  }

  predicate Active(j: Job) {
    j.status == Pending || j.status == Running
  }

  /** The oldest job that is due. */
  predicate IsNext(db: Db, id: Id, scans: bool, now: int) {
    && id in db.jobs && IsDue(db.jobs[id], scans, now)
    && forall k :: k in db.jobs && IsDue(db.jobs[k], scans, now) ==> db.jobs[id].createdAt <= db.jobs[k].createdAt
  }

  predicate IsDue(j: Job, scans: bool, now: int) {
    j.work.Scan? == scans && j.status == Pending && j.availableAt <= now
  }

  // ------------------------------------------------------------------ handlers

  /** enqueueScan, in the transaction that stores the file. */
  function Enqueued(db: Db, e: Id, scan: ScanStatus, job: Id, now: int): Db {
    if scan == Waiting then db.(jobs := db.jobs[job := NewJob(Scan(e), now)]) else db
  }

  function Stored(db: Db, e: Id, scan: ScanStatus): Db {
    db.(evidences := db.evidences[e := Evidence(scan, e in db.evidences && db.evidences[e].deleted)])
  }

  function Marked(db: Db, e: Id, scan: ScanStatus): Db {
    if e in db.evidences then db.(evidences := db.evidences[e := db.evidences[e].(scan := scan)]) else db
  }

  function Removed(db: Db, e: Id): Db {
    if e in db.evidences then db.(evidences := db.evidences[e := db.evidences[e].(deleted := true)]) else db
  }

  function Put(db: Db, id: Id, j: Job): Db {
    db.(jobs := db.jobs[id := j])
  }

  function CompletedJob(db: Db, id: Id, now: int): Db {
    if id in db.jobs then Put(db, id, Finished(db.jobs[id], now)) else db
  }

  /** finish, or quarantine when the file is infected, and the completion of the job. */
  function Concluded(db: Db, id: Id, e: Id, verdict: ScanStatus, now: int): Db {
    var m := Marked(db, e, verdict);
    CompletedJob(if verdict == Infected then Removed(m, e) else m, id, now)
  }

  /** fail: the job backs off or gives up; a scan that gives up leaves its file in error. */
  function FailedJob(db: Db, id: Id, attempt: nat, now: int): Db {
    if id !in db.jobs then db
    else
      var j := db.jobs[id];
      var d := Put(db, id, Broken(j, attempt, now));
      if attempt >= MAX_ATTEMPTS && j.work.Scan? && j.work.evidence in db.evidences && db.evidences[j.work.evidence].scan == Waiting
      then Marked(d, j.work.evidence, Error) else d
  }

  function AbandonedRequeued(db: Db, now: int, window: nat, kinds: set<bool>): Db {
    db.(jobs := map id | id in db.jobs ::
          if IsStale(db.jobs[id], now, window) && db.jobs[id].work.Scan? in kinds then Requeued(db.jobs[id], now) else db.jobs[id])
  }

  function RetriedJob(db: Db, id: Id, now: int): Db
    requires id in db.jobs
  {
    var j := db.jobs[id];
    var d := Put(db, id, Retried(j, now));
    if j.work.Scan? && j.work.evidence in db.evidences && db.evidences[j.work.evidence].scan == Error
    then Marked(d, j.work.evidence, Waiting) else d
  }

  /** The first two statements of retryFailedJobs. */
  function AllRetried(db: Db, now: int): Db {
    Db(map id | id in db.jobs :: if db.jobs[id].status == Failed then Retried(db.jobs[id], now) else db.jobs[id],
       map e | e in db.evidences ::
         if db.evidences[e].scan == Error && !db.evidences[e].deleted then db.evidences[e].(scan := Waiting) else db.evidences[e])
  }

  predicate HasJob(jobs: map<Id, Job>, e: Id, statuses: set<Status>) {
    exists id :: id in jobs && jobs[id].work == Scan(e) && jobs[id].status in statuses
  }

  predicate Wants(v: Evidence) {
    !v.deleted && (v.scan == Waiting || v.scan == Error)
  }

  /** Files that wait for a scan nobody is going to run. */
  function Lost(db: Db): set<Id> {
    set e | e in db.evidences && Wants(db.evidences[e]) && !HasJob(db.jobs, e, {Pending, Running})
  }

  /** A repair gives jobs to at most 500 of the lost files; which of them is up to the database. */
  ghost predicate Requeues(db: Db, added: map<Id, Id>) {
    && added.Keys !! db.jobs.Keys
    && added.Values <= Lost(db)
    && (forall a, b :: a in added && b in added && a != b ==> added[a] != added[b])
    && |added.Values| == Min(REQUEUE_LIMIT, |Lost(db)|)
  }

  function WithScans(db: Db, added: map<Id, Id>, now: int): Db {
    db.(jobs := map id | id in db.jobs.Keys + added.Keys :: if id in added then NewJob(Scan(added[id]), now) else db.jobs[id])
  }

  predicate Deletable(j: Job, now: int, completedDays: nat, failedDays: nat) {
    || (j.status == Completed && j.updatedAt < now - completedDays * 1440 * MINUTE)
    || (j.status == Failed && j.updatedAt < now - failedDays * 1440 * MINUTE)
  }

  // ------------------------------------------------------------------- the machine

  /** A worker in the middle of a job: what it claimed, and whether it has read the file's row yet. */
  datatype Worker = Holding(job: Id, attempt: nat, work: Work, scanning: bool)

  datatype System = System(db: Db, workers: map<Id, Worker>)

  datatype Step = Upload(e: Id, scan: ScanStatus, job: Id)
                | NewVersion(e: Id, scan: ScanStatus, job: Id)
                | DeleteEvidence(e: Id)
                | SendMail(notification: Id, job: Id)
                | Claim(w: Id, job: Id, scans: bool)
                | Examine(w: Id)
                | Conclude(w: Id, verdict: ScanStatus)
                | Deliver(w: Id)
                | Fail(w: Id)
                | Crash(w: Id)
                | RequeueAbandoned(window: nat, kinds: set<bool>)
                | RetryJob(job: Id)
                | RetryFailed(added: map<Id, Id>)
                | RequeueLost(added: map<Id, Id>)
                | DeleteOld(ids: set<Id>, completedDays: nat, failedDays: nat)

  /** gen_random_uuid: never an identifier that was used before. */
  predicate Unused(s: System, job: Id) {
    job !in s.db.jobs && forall w :: w in s.workers ==> s.workers[w].job != job
  }

  ghost predicate Enabled(s: System, step: Step, now: int) {
    match step
    case Upload(e, scan, job) => e !in s.db.evidences && scan in {Waiting, Clean, Skipped} && Unused(s, job)
    case NewVersion(e, scan, job) => e in s.db.evidences && scan in {Waiting, Skipped} && Unused(s, job)
    case DeleteEvidence(e) => e in s.db.evidences
    case SendMail(_, job) => Unused(s, job)
    case Claim(w, job, scans) => w !in s.workers && IsNext(s.db, job, scans, now)
    case Examine(w) => w in s.workers && s.workers[w].work.Scan? && !s.workers[w].scanning
    case Conclude(w, verdict) => w in s.workers && s.workers[w].work.Scan? && s.workers[w].scanning && verdict in {Clean, Skipped, Infected}
    case Deliver(w) => w in s.workers && s.workers[w].work.Mail?
    case Fail(w) => w in s.workers
    case Crash(w) => w in s.workers
    case RequeueAbandoned(_, _) => true
    case RetryJob(job) => job in s.db.jobs && Retryable(s.db.jobs[job], now)
    case RetryFailed(added) => Requeues(AllRetried(s.db, now), added) && forall id :: id in added ==> Unused(s, id)
    case RequeueLost(added) => Requeues(s.db, added) && forall id :: id in added ==> Unused(s, id)
    case DeleteOld(ids, completedDays, failedDays) =>
      forall id :: id in ids ==> id in s.db.jobs && Deletable(s.db.jobs[id], now, completedDays, failedDays)
  }

  function Idle(s: System, w: Id, db: Db): System {
    System(db, s.workers - {w})
  }

  function Next(s: System, step: Step, now: int): System
    requires Enabled(s, step, now)
  {
    match step
    case Upload(e, scan, job) => s.(db := Enqueued(Stored(s.db, e, scan), e, scan, job, now))
    case NewVersion(e, scan, job) => s.(db := Enqueued(Stored(s.db, e, scan), e, scan, job, now))
    case DeleteEvidence(e) => s.(db := Removed(s.db, e))
    case SendMail(n, job) => s.(db := Put(s.db, job, NewJob(Mail(n), now)))
    case Claim(w, job, _) =>
      var j := Claimed(s.db.jobs[job], now);
      System(Put(s.db, job, j), s.workers[w := Holding(job, j.attempts, j.work, false)])
    case Examine(w) =>
      var h := s.workers[w];
      if h.work.evidence !in s.db.evidences || s.db.evidences[h.work.evidence].scan != Waiting
      then Idle(s, w, CompletedJob(s.db, h.job, now))
      else s.(workers := s.workers[w := h.(scanning := true)])
    case Conclude(w, verdict) => Idle(s, w, Concluded(s.db, s.workers[w].job, s.workers[w].work.evidence, verdict, now))
    case Deliver(w) => Idle(s, w, CompletedJob(s.db, s.workers[w].job, now))
    case Fail(w) => Idle(s, w, FailedJob(s.db, s.workers[w].job, s.workers[w].attempt, now))
    case Crash(w) => Idle(s, w, s.db)
    case RequeueAbandoned(window, kinds) => s.(db := AbandonedRequeued(s.db, now, window, kinds))
    case RetryJob(job) => s.(db := RetriedJob(s.db, job, now))
    case RetryFailed(added) => s.(db := WithScans(AllRetried(s.db, now), added, now))
    case RequeueLost(added) => s.(db := WithScans(s.db, added, now))
    case DeleteOld(ids, _, _) => s.(db := s.db.(jobs := s.db.jobs - ids))
  }

  // ------------------------------------------------------------------ the scan gate

  /** No file waits in vain: what waits for a scan, and is still there, has a job that is queued or running. */
  ghost predicate Covered(db: Db) {
    forall e :: e in db.evidences && !db.evidences[e].deleted && db.evidences[e].scan == Waiting ==> HasJob(db.jobs, e, {Pending, Running})
  }

  /** A worker knows the work of the job it holds, as long as the job exists. */
  ghost predicate KnownWork(s: System) {
    forall w :: w in s.workers && s.workers[w].job in s.db.jobs ==> s.db.jobs[s.workers[w].job].work == s.workers[w].work
  }

  ghost predicate Invariant(s: System) {
    Covered(s.db) && KnownWork(s)
  }

  predicate WaitsFor(db: Db, e: Id) {
    e in db.evidences && !db.evidences[e].deleted && db.evidences[e].scan == Waiting
  }

  /** If no active scan of a waiting file is lost, and nothing newly waits without one, nothing waits in vain. */
  lemma Kept(before: Db, after: Db)
    requires Covered(before)
    requires forall e :: WaitsFor(after, e) ==> WaitsFor(before, e) || HasJob(after.jobs, e, {Pending, Running})
    requires forall id :: id in before.jobs && before.jobs[id].work.Scan? && Active(before.jobs[id]) && WaitsFor(after, before.jobs[id].work.evidence)
               ==> id in after.jobs && after.jobs[id].work == before.jobs[id].work && Active(after.jobs[id])
    ensures Covered(after)
  {
    forall e | WaitsFor(after, e) ensures HasJob(after.jobs, e, {Pending, Running}) {
      if WaitsFor(before, e) {
        var id :| id in before.jobs && before.jobs[id].work == Scan(e) && before.jobs[id].status in {Pending, Running};
        assert Active(before.jobs[id]);
      }
    }
  }

  lemma EnqueuedHasJob(db: Db, e: Id, scan: ScanStatus, job: Id, now: int)
    requires scan == Waiting
    ensures HasJob(Enqueued(db, e, scan, job, now).jobs, e, {Pending, Running})
  {
    assert Enqueued(db, e, scan, job, now).jobs[job].work == Scan(e);
  }

  lemma UploadKeepsGate(db: Db, e: Id, scan: ScanStatus, job: Id, now: int)
    requires Covered(db) && job !in db.jobs
    ensures Covered(Enqueued(Stored(db, e, scan), e, scan, job, now))
  {
    if scan == Waiting { EnqueuedHasJob(Stored(db, e, scan), e, scan, job, now); }
    Kept(db, Enqueued(Stored(db, e, scan), e, scan, job, now));
  }

  lemma FailKeepsGate(db: Db, id: Id, attempt: nat, now: int)
    requires Covered(db)
    ensures Covered(FailedJob(db, id, attempt, now))
  {
    Kept(db, FailedJob(db, id, attempt, now));
  }

  /** Completing a job whose file no longer waits loses nothing, whoever holds the job by now. */
  lemma CompletionKeepsGate(db: Db, id: Id, now: int)
    requires Covered(db)
    requires id in db.jobs && db.jobs[id].work.Scan? ==> !WaitsFor(db, db.jobs[id].work.evidence)
    ensures Covered(CompletedJob(db, id, now))
  {
    Kept(db, CompletedJob(db, id, now));
  }

  lemma ConclusionKeepsGate(db: Db, id: Id, e: Id, verdict: ScanStatus, now: int)
    requires Covered(db) && verdict != Waiting && (id in db.jobs ==> db.jobs[id].work == Scan(e))
    ensures Covered(Concluded(db, id, e, verdict, now))
  {
    var m := if verdict == Infected then Removed(Marked(db, e, verdict), e) else Marked(db, e, verdict);
    Kept(db, m);
    CompletionKeepsGate(m, id, now);
  }

  lemma RetryKeepsGate(db: Db, id: Id, now: int)
    requires Covered(db) && id in db.jobs
    ensures Covered(RetriedJob(db, id, now))
  {
    var d := RetriedJob(db, id, now);
    assert d.jobs[id] == Retried(db.jobs[id], now);
    assert db.jobs[id].work.Scan? ==> HasJob(d.jobs, db.jobs[id].work.evidence, {Pending, Running});
    Kept(db, d);
  }

  /** Every step but the bulk retry keeps the gate, even when a worker acts on a job it lost long ago. */
  lemma StepKeepsGate(s: System, step: Step, now: int)
    requires Invariant(s) && Enabled(s, step, now) && !step.RetryFailed?
    ensures Covered(Next(s, step, now).db)
  {
    match step
    case Upload(e, scan, job) => UploadKeepsGate(s.db, e, scan, job, now);
    case NewVersion(e, scan, job) => UploadKeepsGate(s.db, e, scan, job, now);
    case RetryJob(job) => RetryKeepsGate(s.db, job, now);
    case Examine(w) =>
      if Next(s, step, now).db != s.db { CompletionKeepsGate(s.db, s.workers[w].job, now); }
    case Conclude(w, verdict) => ConclusionKeepsGate(s.db, s.workers[w].job, s.workers[w].work.evidence, verdict, now);
    case Deliver(w) => CompletionKeepsGate(s.db, s.workers[w].job, now);
    case Fail(w) => FailKeepsGate(s.db, s.workers[w].job, s.workers[w].attempt, now);
    case Crash(_) =>
    case DeleteEvidence(e) => Kept(s.db, Removed(s.db, e));
    case SendMail(n, job) => Kept(s.db, Put(s.db, job, NewJob(Mail(n), now)));
    case Claim(_, job, _) => Kept(s.db, Put(s.db, job, Claimed(s.db.jobs[job], now)));
    case RequeueAbandoned(window, kinds) => Kept(s.db, AbandonedRequeued(s.db, now, window, kinds));
    case RequeueLost(added) => Kept(s.db, WithScans(s.db, added, now));
    case DeleteOld(ids, _, _) => Kept(s.db, s.db.(jobs := s.db.jobs - ids));
  }

  lemma WorkOfInserted(db: Db, added: map<Id, Id>, now: int, id: Id)
    requires added.Keys !! db.jobs.Keys && id in WithScans(db, added, now).jobs
    ensures if id in db.jobs then WithScans(db, added, now).jobs[id] == db.jobs[id] else id in added
  {
  }

  /** A job keeps its work for life, and a new one takes an identifier no worker holds. */
  lemma WorkStays(s: System, step: Step, now: int, id: Id)
    requires Enabled(s, step, now) && id in Next(s, step, now).db.jobs
    ensures if id in s.db.jobs then Next(s, step, now).db.jobs[id].work == s.db.jobs[id].work else Unused(s, id)
  {
    match step
    case RetryFailed(added) =>
      WorkOfInserted(AllRetried(s.db, now), added, now, id);
      assert id in AllRetried(s.db, now).jobs <==> id in s.db.jobs;
    case RequeueLost(added) => WorkOfInserted(s.db, added, now, id);
    case _ => WorkStaysElse(s, step, now, id);
  }

  lemma WorkStaysElse(s: System, step: Step, now: int, id: Id)
    requires Enabled(s, step, now) && !step.RetryFailed? && !step.RequeueLost? && id in Next(s, step, now).db.jobs
    ensures if id in s.db.jobs then Next(s, step, now).db.jobs[id].work == s.db.jobs[id].work else Unused(s, id)
  {
  }

  lemma StepKeepsWork(s: System, step: Step, now: int)
    requires KnownWork(s) && Enabled(s, step, now)
    ensures KnownWork(Next(s, step, now))
  {
    var t := Next(s, step, now);
    forall w | w in t.workers && t.workers[w].job in t.db.jobs ensures t.db.jobs[t.workers[w].job].work == t.workers[w].work {
      if step.Claim? && w == step.w {
      } else {
        SameHolding(s, step, now, w);
        WorkStays(s, step, now, t.workers[w].job);
      }
    }
  }

  lemma SameHolding(s: System, step: Step, now: int, w: Id)
    requires Enabled(s, step, now) && w in Next(s, step, now).workers && !(step.Claim? && w == step.w)
    ensures w in s.workers && Next(s, step, now).workers[w].job == s.workers[w].job && Next(s, step, now).workers[w].work == s.workers[w].work
  {
  }

  // ----------------------------------------------------- bulk retry and the limit of 500

  /** Files a bulk retry would leave waiting without a job of their own: neither an active nor a failed scan exists. */
  function Stranded(db: Db): set<Id> {
    set e | e in db.evidences && Wants(db.evidences[e]) && !HasJob(db.jobs, e, {Pending, Running, Failed})
  }

  lemma RetriedHasJob(db: Db, e: Id, now: int)
    ensures HasJob(AllRetried(db, now).jobs, e, {Pending, Running}) <==> HasJob(db.jobs, e, {Pending, Running, Failed})
  {
    var after := AllRetried(db, now).jobs;
    if HasJob(db.jobs, e, {Pending, Running, Failed}) {
      var id :| id in db.jobs && db.jobs[id].work == Scan(e) && db.jobs[id].status in {Pending, Running, Failed};
      assert after[id].work == Scan(e) && after[id].status in {Pending, Running};
    }
    if HasJob(after, e, {Pending, Running}) {
      var id :| id in after && after[id].work == Scan(e) && after[id].status in {Pending, Running};
      assert db.jobs[id].work == Scan(e) && db.jobs[id].status in {Pending, Running, Failed};
    }
  }

  lemma StrandedIsLost(db: Db, now: int)
    ensures Lost(AllRetried(db, now)) == Stranded(db)
  {
    var after := AllRetried(db, now);
    forall e ensures e in Lost(after) <==> e in Stranded(db) {
      RetriedHasJob(db, e, now);
    }
  }

  lemma InsertKeepsJobs(db: Db, added: map<Id, Id>, now: int, e: Id)
    requires Requeues(db, added)
    ensures HasJob(db.jobs, e, {Pending, Running}) || e in added.Values ==> HasJob(WithScans(db, added, now).jobs, e, {Pending, Running})
  {
    var after := WithScans(db, added, now).jobs;
    if e in added.Values {
      var id :| id in added && added[id] == e;
      assert after[id] == NewJob(Scan(e), now);
    } else if HasJob(db.jobs, e, {Pending, Running}) {
      var id :| id in db.jobs && db.jobs[id].work == Scan(e) && db.jobs[id].status in {Pending, Running};
      assert id !in added && after[id] == db.jobs[id];
    }
  }

  lemma InsertAddsOnly(db: Db, added: map<Id, Id>, now: int, e: Id)
    requires HasJob(WithScans(db, added, now).jobs, e, {Pending, Running}) && e !in added.Values
    ensures HasJob(db.jobs, e, {Pending, Running})
  {
    var after := WithScans(db, added, now).jobs;
    var id :| id in after && after[id].work == Scan(e) && after[id].status in {Pending, Running};
    assert id !in added;
    assert id in db.jobs && after[id] == db.jobs[id];
  }

  /** From any state at all, one pass over at most 500 lost files gives every file that wants a scan a job;
      over more, it leaves exactly the overhang without one. */
  lemma RequeueRepairs(db: Db, added: map<Id, Id>, now: int)
    requires Requeues(db, added)
    ensures |Lost(WithScans(db, added, now))| == Max(0, |Lost(db)| - REQUEUE_LIMIT)
    ensures |Lost(db)| <= REQUEUE_LIMIT ==> Covered(WithScans(db, added, now))
  {
    var after := WithScans(db, added, now);
    forall e ensures e in Lost(after) <==> e in Lost(db) - added.Values {
      InsertKeepsJobs(db, added, now, e);
      if e in Lost(db) && e !in added.Values && e !in Lost(after) { InsertAddsOnly(db, added, now, e); }
    }
    assert Lost(after) == Lost(db) - added.Values;
    assert |Lost(after)| == |Lost(db)| - |added.Values|;
    if |Lost(db)| <= REQUEUE_LIMIT {
      assert Lost(after) == {};
      forall e | WaitsFor(after, e) ensures HasJob(after.jobs, e, {Pending, Running}) {
        assert e !in Lost(after);
      }
    }
  }

  /** The bulk retry keeps the gate exactly when at most 500 files have no scan job left that is
      queued, running or failed. */
  lemma BulkRetryExact(db: Db, added: map<Id, Id>, now: int)
    requires Requeues(AllRetried(db, now), added)
    ensures Covered(WithScans(AllRetried(db, now), added, now)) <==> |Stranded(db)| <= 500
  {
    var mid := AllRetried(db, now);
    var after := WithScans(mid, added, now);
    StrandedIsLost(db, now);
    RequeueRepairs(mid, added, now);
    if |Stranded(db)| > REQUEUE_LIMIT {
      assert Lost(after) != {} by { assert |Lost(after)| > 0; }
      var e :| e in Lost(after);
      assert WaitsFor(after, e);
    }
  }

  /** More than 500 files in error whose failed jobs were deleted: nothing waits, and after any bulk retry a
      file waits for ever. */
  lemma BulkRetryLosesOne(n: nat, now: int)
    requires n > REQUEUE_LIMIT
    ensures var db := Db(map[], InError(FirstIds(n)));
            Covered(db) && forall added :: Requeues(AllRetried(db, now), added) ==> !Covered(WithScans(AllRetried(db, now), added, now))
  {
    var db := Db(map[], InError(FirstIds(n)));
    assert Stranded(db) == FirstIds(n);
    forall added | Requeues(AllRetried(db, now), added) ensures !Covered(WithScans(AllRetried(db, now), added, now)) {
      BulkRetryExact(db, added, now);
    }
  }

  function InError(ids: set<Id>): map<Id, Evidence> {
    map e | e in ids :: Evidence(Error, false)
  }

  function FirstIds(n: nat): (ids: set<Id>)
    ensures |ids| == n && forall e :: e in ids ==> e < n
  {
    if n == 0 then {} else FirstIds(n - 1) + {n - 1}
  }

  /** What an examination leaves lost: exactly a file in error that has no other active scan. The worker
      that holds the job the repair gave it sees that the file does not wait, completes the job, and the
      file is as lost as before. */
  lemma ErrorIsNotRescanned(s: System, w: Id, now: int)
    requires KnownWork(s) && Enabled(s, Examine(w), now)
    requires s.workers[w].job in s.db.jobs && Active(s.db.jobs[s.workers[w].job]) && s.workers[w].work.evidence in s.db.evidences
    ensures var e, t := s.workers[w].work.evidence, Next(s, Examine(w), now);
            e in Lost(t.db) <==>
              && s.db.evidences[e] == Evidence(Error, false)
              && forall id :: id in s.db.jobs && id != s.workers[w].job && s.db.jobs[id].work == Scan(e) ==> !Active(s.db.jobs[id])
  {
    var t, e, mine := Next(s, Examine(w), now), s.workers[w].work.evidence, s.workers[w].job;
    if s.db.evidences[e].scan == Waiting {
      assert t.db == s.db && s.db.jobs[mine].work == Scan(e);
      assert HasJob(t.db.jobs, e, {Pending, Running});
    } else {
      OthersScan(s.db, mine, e, now);
    }
  }

  lemma OthersScan(db: Db, mine: Id, e: Id, now: int)
    requires mine in db.jobs
    ensures HasJob(CompletedJob(db, mine, now).jobs, e, {Pending, Running})
            <==> exists id :: id in db.jobs && id != mine && db.jobs[id].work == Scan(e) && Active(db.jobs[id])
  {
    var after := CompletedJob(db, mine, now).jobs;
    if HasJob(after, e, {Pending, Running}) {
      var id :| id in after && after[id].work == Scan(e) && after[id].status in {Pending, Running};
      assert id != mine && Active(db.jobs[id]);
    }
    if id :| id in db.jobs && id != mine && db.jobs[id].work == Scan(e) && Active(db.jobs[id]) {
      assert after[id] == db.jobs[id];
    }
  }

  /** The steps that take a file out of error: somebody retries it or everything, replaces it, removes it, or
      a worker that started its scan earlier finishes it. */
  predicate Wakes(s: System, step: Step, e: Id) {
    || step.RetryFailed?
    || (step.NewVersion? && step.e == e)
    || (step.DeleteEvidence? && step.e == e)
    || (step.RetryJob? && step.job in s.db.jobs && s.db.jobs[step.job].work == Scan(e))
    || (step.Conclude? && step.w in s.workers && s.workers[step.w].work == Scan(e))
  }

  predicate InErrorState(db: Db, e: Id) {
    e in db.evidences && db.evidences[e] == Evidence(Error, false)
  }

  /** A step leaves a file in error if and only if it is not one of these; the repair is not. */
  lemma ErrorStays(s: System, step: Step, now: int, e: Id)
    requires Enabled(s, step, now) && InErrorState(s.db, e)
    ensures InErrorState(Next(s, step, now).db, e) <==> !Wakes(s, step, e)
  {
    match step
    case RetryJob(job) => assert s.db.jobs[job].work.Scan? && s.db.jobs[job].work.evidence == e <==> s.db.jobs[job].work == Scan(e);
    case Conclude(w, verdict) => assert s.workers[w].work.evidence == e <==> s.workers[w].work == Scan(e);
    case _ =>
  }

  predicate Passed(v: Evidence) {
    v.deleted || v.scan == Clean || v.scan == Skipped
  }

  lemma PassedSurvivesFailure(db: Db, id: Id, attempt: nat, now: int, e: Id)
    requires e in db.evidences && Passed(db.evidences[e])
    ensures var d := FailedJob(db, id, attempt, now); e in d.evidences && Passed(d.evidences[e])
  {
  }

  lemma PassedSurvivesVerdict(db: Db, id: Id, of: Id, verdict: ScanStatus, now: int, e: Id)
    requires e in db.evidences && Passed(db.evidences[e]) && verdict in {Clean, Skipped, Infected}
    ensures var d := Concluded(db, id, of, verdict, now); e in d.evidences && Passed(d.evidences[e])
  {
  }

  lemma PassedSurvivesRetries(db: Db, id: Id, now: int, e: Id)
    requires e in db.evidences && Passed(db.evidences[e])
    ensures id in db.jobs ==> e in RetriedJob(db, id, now).evidences && Passed(RetriedJob(db, id, now).evidences[e])
    ensures e in AllRetried(db, now).evidences && Passed(AllRetried(db, now).evidences[e])
  {
  }

  /** What has passed the scanner, or is gone, stays so until somebody uploads a new version of it: no
      worker, sweep or retry puts a file back in front of the gate. */
  lemma PassedStaysPassed(s: System, step: Step, now: int, e: Id)
    requires Enabled(s, step, now) && e in s.db.evidences && Passed(s.db.evidences[e])
    requires step.NewVersion? ==> step.e != e
    ensures e in Next(s, step, now).db.evidences && Passed(Next(s, step, now).db.evidences[e])
  {
    match step
    case Conclude(w, verdict) => PassedSurvivesVerdict(s.db, s.workers[w].job, s.workers[w].work.evidence, verdict, now, e);
    case Fail(w) => PassedSurvivesFailure(s.db, s.workers[w].job, s.workers[w].attempt, now, e);
    case RetryJob(job) => PassedSurvivesRetries(s.db, job, now, e);
    case RetryFailed(_) => PassedSurvivesRetries(s.db, 0, now, e);
    case _ =>
  }

  const DAY := 86400

  /** Cleaning up takes away only jobs that are over, and only those nobody has touched for as many days as
      jobs of their kind are kept. */
  lemma OnlyOldJobsGo(s: System, ids: set<Id>, completedDays: nat, failedDays: nat, now: int)
    requires Enabled(s, DeleteOld(ids, completedDays, failedDays), now)
    ensures var t := Next(s, DeleteOld(ids, completedDays, failedDays), now);
            && t.db.evidences == s.db.evidences && t.workers == s.workers
            && forall id :: id in s.db.jobs ==>
                 var j := s.db.jobs[id];
                 if id in t.db.jobs then t.db.jobs[id] == j
                 else (j.status == Completed && now - j.updatedAt > completedDays * DAY) || (j.status == Failed && now - j.updatedAt > failedDays * DAY)
  {
  }

  // ------------------------------------------------------------------------- runs

  datatype Timed = At(now: int, step: Step)

  ghost predicate Possible(s: System, run: seq<Timed>)
    decreases |run|
  {
    run == [] || (Enabled(s, run[0].step, run[0].now) && Possible(Next(s, run[0].step, run[0].now), run[1..]))
  }

  ghost function After(s: System, run: seq<Timed>): System
    requires Possible(s, run)
    decreases |run|
  {
    if run == [] then s else After(Next(s, run[0].step, run[0].now), run[1..])
  }

  /** Every bulk retry of the run meets its condition in the state it is made in. */
  ghost predicate RetriesWithinLimit(s: System, run: seq<Timed>)
    requires Possible(s, run)
    decreases |run|
  {
    run == [] || ((run[0].step.RetryFailed? ==> |Stranded(s.db)| <= REQUEUE_LIMIT)
                  && RetriesWithinLimit(Next(s, run[0].step, run[0].now), run[1..]))
  }

  /** Over every interleaving of uploads, new versions, claims, scans, failures, crashes, requeues, retries
      and deletions, every undeleted file that waits for a scan has a queued or running job. */
  lemma {:induction false} GateAlwaysHolds(s: System, run: seq<Timed>)
    requires Invariant(s) && Possible(s, run) && RetriesWithinLimit(s, run)
    ensures Invariant(After(s, run))
    decreases |run|
  {
    if run != [] {
      var step, now := run[0].step, run[0].now;
      StepKeepsWork(s, step, now);
      if step.RetryFailed? { BulkRetryExact(s.db, step.added, now); } else { StepKeepsGate(s, step, now); }
      GateAlwaysHolds(Next(s, step, now), run[1..]);
    }
  }

  const START := System(Db(map[], map[]), map[])

  /** The same from an empty installation. */
  lemma GateHoldsFromStart(run: seq<Timed>)
    requires Possible(START, run) && RetriesWithinLimit(START, run)
    ensures Covered(After(START, run).db)
  {
    GateAlwaysHolds(START, run);
  }

  ghost predicate NeverWakes(s: System, run: seq<Timed>, e: Id)
    requires Possible(s, run)
    decreases |run|
  {
    run == [] || (!Wakes(s, run[0].step, e) && NeverWakes(Next(s, run[0].step, run[0].now), run[1..], e))
  }

  /** However many repairs, claims and examinations follow: until one of the waking steps, the file stays in error. */
  lemma {:induction false} RepairsNeverRescan(s: System, run: seq<Timed>, e: Id)
    requires Possible(s, run) && InErrorState(s.db, e) && NeverWakes(s, run, e)
    ensures InErrorState(After(s, run).db, e)
    decreases |run|
  {
    if run != [] {
      ErrorStays(s, run[0].step, run[0].now, e);
      RepairsNeverRescan(Next(s, run[0].step, run[0].now), run[1..], e);
    }
  }

  // ------------------------------------------------- a file the repair does not bring back

  lemma {:induction false} Extended(s: System, run: seq<Timed>, step: Step, now: int)
    requires Possible(s, run) && Enabled(After(s, run), step, now)
    ensures Possible(s, run + [At(now, step)]) && After(s, run + [At(now, step)]) == Next(After(s, run), step, now)
    decreases |run|
  {
    var longer := run + [At(now, step)];
    if run == [] {
      assert longer[1..] == [] && longer[0] == At(now, step);
    } else {
      assert longer[0] == run[0] && longer[1..] == run[1..] + [At(now, step)];
      Extended(Next(s, run[0].step, run[0].now), run[1..], step, now);
    }
  }

  /** Files nobody scans any more, nobody at work. */
  function AtRest(files: map<Id, Evidence>): System {
    System(Db(map[], files), map[])
  }

  /** Beside them one file with its scan job. */
  function OneScan(id: Id, j: Job, files: map<Id, Evidence>, e: Id, scan: ScanStatus): System {
    System(Db(map[id := j], files[e := Evidence(scan, false)]), map[])
  }

  lemma ScanClaimed(id: Id, j: Job, files: map<Id, Evidence>, e: Id, scan: ScanStatus, now: int)
    requires j.work == Scan(e) && j.status == Pending && j.availableAt <= now
    ensures var held := Claimed(j, now);
            && Enabled(OneScan(id, j, files, e, scan), Claim(0, id, true), now)
            && Next(OneScan(id, j, files, e, scan), Claim(0, id, true), now)
               == System(OneScan(id, held, files, e, scan).db, map[0 := Holding(id, held.attempts, Scan(e), false)])
  {
    var held := Claimed(j, now);
    assert map[id := j][id := held] == map[id := held];
  }

  lemma ScanFailed(id: Id, held: Job, files: map<Id, Evidence>, e: Id, now: int)
    requires held.work == Scan(e)
    ensures var s := System(OneScan(id, held, files, e, Waiting).db, map[0 := Holding(id, held.attempts, Scan(e), false)]);
            && Enabled(s, Fail(0), now)
            && Next(s, Fail(0), now)
               == OneScan(id, Broken(held, held.attempts, now), files, e, if held.attempts >= MAX_ATTEMPTS then Error else Waiting)
  {
    var s := System(OneScan(id, held, files, e, Waiting).db, map[0 := Holding(id, held.attempts, Scan(e), false)]);
    var broken := Broken(held, held.attempts, now);
    assert map[id := held][id := broken] == map[id := broken];
    assert s.workers - {0} == map[];
    assert s.db.evidences[e := Evidence(Error, false)] == files[e := Evidence(Error, false)];
  }

  /** One failed attempt, added to a run. */
  lemma FailOnce(run: seq<Timed>, id: Id, j: Job, files: map<Id, Evidence>, e: Id, now: int) returns (longer: seq<Timed>, k: Job)
    requires Possible(START, run) && After(START, run) == OneScan(id, j, files, e, Waiting)
    requires j.work == Scan(e) && j.status == Pending && j.availableAt <= now
    ensures k == Broken(Claimed(j, now), j.attempts + 1, now)
    ensures Possible(START, longer) && After(START, longer) == OneScan(id, k, files, e, if j.attempts + 1 >= MAX_ATTEMPTS then Error else Waiting)
  {
    ScanClaimed(id, j, files, e, Waiting, now);
    Extended(START, run, Claim(0, id, true), now);
    var claimed := run + [At(now, Claim(0, id, true))];
    ScanFailed(id, Claimed(j, now), files, e, now);
    Extended(START, claimed, Fail(0), now);
    longer, k := claimed + [At(now, Fail(0))], Broken(Claimed(j, now), j.attempts + 1, now);
  }

  lemma UploadedScan(id: Id, files: map<Id, Evidence>, e: Id, now: int)
    requires e !in files
    ensures Enabled(AtRest(files), Upload(e, Waiting, id), now)
    ensures Next(AtRest(files), Upload(e, Waiting, id), now) == OneScan(id, NewJob(Scan(e), now), files, e, Waiting)
  {
  }

  /** A file uploaded and scanned five times without success. */
  lemma GivenUp(before: seq<Timed>, id: Id, files: map<Id, Evidence>, e: Id, now: int) returns (run: seq<Timed>, j: Job)
    requires Possible(START, before) && After(START, before) == AtRest(files) && e !in files
    ensures Possible(START, run) && After(START, run) == OneScan(id, j, files, e, Error)
    ensures j.work == Scan(e) && j.status == Failed && j.updatedAt == now + 10000
  {
    UploadedScan(id, files, e, now);
    Extended(START, before, Upload(e, Waiting, id), now);
    run, j := before + [At(now, Upload(e, Waiting, id))], NewJob(Scan(e), now);
    BackoffBounds();
    run, j := FailOnce(run, id, j, files, e, now);
    run, j := FailOnce(run, id, j, files, e, now + 1000);
    run, j := FailOnce(run, id, j, files, e, now + 2000);
    run, j := FailOnce(run, id, j, files, e, now + 5000);
    run, j := FailOnce(run, id, j, files, e, now + 10000);
  }

  lemma BackoffBounds()
    ensures forall k :: 1 <= k <= 4 ==> Backoff(k) <= 1000
  {
    assert Power(1) == 2 && Power(2) == 4 && Power(3) == 8 && Power(4) == 16;
    forall k | 1 <= k <= 4 ensures Backoff(k) <= 1000 {
      assert k == 1 || k == 2 || k == 3 || k == 4;
    }
  }

  lemma OldJobDeleted(id: Id, j: Job, files: map<Id, Evidence>, e: Id, now: int)
    requires Deletable(j, now, 30, 90)
    ensures Enabled(OneScan(id, j, files, e, Error), DeleteOld({id}, 30, 90), now)
    ensures Next(OneScan(id, j, files, e, Error), DeleteOld({id}, 30, 90), now) == AtRest(files[e := Evidence(Error, false)])
  {
    assert map[id := j] - {id} == map[];
  }

  const LONG_AFTER := 10_000_000

  /** Given up, and its failed job cleared away months later. */
  lemma Stranding(before: seq<Timed>, id: Id, files: map<Id, Evidence>, e: Id, now: int) returns (run: seq<Timed>)
    requires Possible(START, before) && After(START, before) == AtRest(files) && e !in files
    ensures Possible(START, run) && After(START, run) == AtRest(files[e := Evidence(Error, false)])
  {
    var given, j := GivenUp(before, id, files, e, now);
    OldJobDeleted(id, j, files, e, now + LONG_AFTER);
    Extended(START, given, DeleteOld({id}, 30, 90), now + LONG_AFTER);
    run := given + [At(now + LONG_AFTER, DeleteOld({id}, 30, 90))];
  }

  lemma LostIsRequeued(now: int)
    ensures var s := AtRest(map[0 := Evidence(Error, false)]);
            && Enabled(s, RequeueLost(map[1 := 0]), now)
            && Next(s, RequeueLost(map[1 := 0]), now) == OneScan(1, NewJob(Scan(0), now), map[], 0, Error)
  {
    var s, added := AtRest(map[0 := Evidence(Error, false)]), map[1 := 0];
    assert Lost(s.db) == {0};
    assert added.Values == {0} by { assert added[1] == 0; }
    assert WithScans(s.db, added, now).jobs == map[1 := NewJob(Scan(0), now)];
  }

  /** Repaired, claimed and examined, a file in error without a job is where it was. */
  lemma RepairedInVain(run: seq<Timed>, now: int) returns (longer: seq<Timed>)
    requires Possible(START, run) && After(START, run) == AtRest(map[0 := Evidence(Error, false)])
    ensures longer == run + [At(now, RequeueLost(map[1 := 0]))] + [At(now, Claim(0, 1, true))] + [At(now, Examine(0))]
    ensures Possible(START, longer) && InErrorState(After(START, longer).db, 0) && 0 in Lost(After(START, longer).db)
  {
    LostIsRequeued(now);
    Extended(START, run, RequeueLost(map[1 := 0]), now);
    longer := run + [At(now, RequeueLost(map[1 := 0]))];
    ScanClaimed(1, NewJob(Scan(0), now), map[], 0, Error, now);
    Extended(START, longer, Claim(0, 1, true), now);
    longer := longer + [At(now, Claim(0, 1, true))];
    var s := After(START, longer);
    ErrorIsNotRescanned(s, 0, now);
    ErrorStays(s, Examine(0), now, 0);
    Extended(START, longer, Examine(0), now);
    longer := longer + [At(now, Examine(0))];
  }

  /** It happens: a file is uploaded, its scan fails five times, the failed job is cleared away, the hourly
      repair gives it a new one, a worker claims and examines that -- and the file is in error and lost. */
  lemma RepairedAndStillLost() returns (before: seq<Timed>, run: seq<Timed>)
    ensures run == before + [At(LONG_AFTER, RequeueLost(map[1 := 0]))] + [At(LONG_AFTER, Claim(0, 1, true))] + [At(LONG_AFTER, Examine(0))]
    ensures Possible(START, run) && InErrorState(After(START, run).db, 0) && 0 in Lost(After(START, run).db)
  {
    var none: map<Id, Evidence> := map[];
    before := Stranding([], 0, none, 0, 0);
    assert none[0 := Evidence(Error, false)] == map[0 := Evidence(Error, false)];
    run := RepairedInVain(before, LONG_AFTER);
  }

  lemma OneMoreInError(n: nat)
    ensures n !in InError(FirstIds(n)) && InError(FirstIds(n + 1)) == InError(FirstIds(n))[n := Evidence(Error, false)]
  {
  }

  /** Any number of files can come to be in error without a job. */
  lemma {:induction false} ManyInError(n: nat) returns (run: seq<Timed>)
    ensures Possible(START, run) && After(START, run) == AtRest(InError(FirstIds(n)))
  {
    if n == 0 {
      assert InError(FirstIds(0)) == map[];
      run := [];
    } else {
      var before := ManyInError(n - 1);
      OneMoreInError(n - 1);
      run := Stranding(before, n - 1, InError(FirstIds(n - 1)), n - 1, (n - 1) * 2 * LONG_AFTER);
    }
  }

  /** So the bulk retry can lose a file: from an empty installation any number of files above 500 can come to
      be in error without a job, and then whatever jobs a bulk retry adds, one file waits for ever. */
  lemma BulkRetryLosesOneInARun(n: nat) returns (run: seq<Timed>)
    requires n > REQUEUE_LIMIT
    ensures Possible(START, run) && After(START, run) == AtRest(InError(FirstIds(n))) && Covered(After(START, run).db)
    ensures var s := After(START, run);
            forall added, now :: Enabled(s, RetryFailed(added), now) ==> !Covered(Next(s, RetryFailed(added), now).db)
  {
    run := ManyInError(n);
    var s := After(START, run);
    BulkRetryLosesOne(n, 0);
    forall added, now | Enabled(s, RetryFailed(added), now) ensures !Covered(Next(s, RetryFailed(added), now).db) {
      BulkRetryLosesOne(n, now);
    }
  }

  // ------------------------------------------------------- a worker that comes back late

  /** One file with its scan job, and workers at it. */
  function Scanned(j: Job, scan: ScanStatus, workers: map<Id, Worker>): System {
    System(Db(map[0 := j], map[0 := Evidence(scan, false)]), workers)
  }

  function ScanAttempt(attempt: nat, scanning: bool): Worker {
    Holding(0, attempt, Scan(0), scanning)
  }

  lemma FirstClaim(j: Job)
    requires j == NewJob(Scan(0), 0)
    ensures Enabled(Scanned(j, Waiting, map[]), Claim(0, 0, true), 0)
    ensures Next(Scanned(j, Waiting, map[]), Claim(0, 0, true), 0) == Scanned(Claimed(j, 0), Waiting, map[0 := ScanAttempt(1, false)])
  {
    assert map[0 := j][0 := Claimed(j, 0)] == map[0 := Claimed(j, 0)];
  }

  lemma FirstExamines(j: Job)
    ensures Enabled(Scanned(j, Waiting, map[0 := ScanAttempt(1, false)]), Examine(0), 0)
    ensures Next(Scanned(j, Waiting, map[0 := ScanAttempt(1, false)]), Examine(0), 0) == Scanned(j, Waiting, map[0 := ScanAttempt(1, true)])
  {
    assert map[0 := ScanAttempt(1, false)][0 := ScanAttempt(1, true)] == map[0 := ScanAttempt(1, true)];
  }

  lemma LockTaken(j: Job, now: int)
    requires j.work == Scan(0) && IsStale(j, now, ABANDONED_AFTER)
    ensures var s := Scanned(j, Waiting, map[0 := ScanAttempt(1, true)]);
            && Enabled(s, RequeueAbandoned(ABANDONED_AFTER, {true}), now)
            && Next(s, RequeueAbandoned(ABANDONED_AFTER, {true}), now) == Scanned(Requeued(j, now), Waiting, map[0 := ScanAttempt(1, true)])
  {
  }

  lemma SecondClaim(j: Job, now: int)
    requires j.work == Scan(0) && j.status == Pending && j.availableAt <= now && j.attempts == 1
    ensures var s := Scanned(j, Waiting, map[0 := ScanAttempt(1, true)]);
            && Enabled(s, Claim(1, 0, true), now)
            && Next(s, Claim(1, 0, true), now) == Scanned(Claimed(j, now), Waiting, map[0 := ScanAttempt(1, true), 1 := ScanAttempt(2, false)])
  {
    assert map[0 := j][0 := Claimed(j, now)] == map[0 := Claimed(j, now)];
  }

  lemma SecondExamines(j: Job, now: int)
    ensures var s := Scanned(j, Waiting, map[0 := ScanAttempt(1, true), 1 := ScanAttempt(2, false)]);
            && Enabled(s, Examine(1), now)
            && Next(s, Examine(1), now) == Scanned(j, Waiting, map[0 := ScanAttempt(1, true), 1 := ScanAttempt(2, true)])
  {
  }

  lemma SecondPasses(j: Job, now: int)
    ensures var s := Scanned(j, Waiting, map[0 := ScanAttempt(1, true), 1 := ScanAttempt(2, true)]);
            && Enabled(s, Conclude(1, Clean), now)
            && Next(s, Conclude(1, Clean), now) == Scanned(Finished(j, now), Clean, map[0 := ScanAttempt(1, true)])
  {
    var s := Scanned(j, Waiting, map[0 := ScanAttempt(1, true), 1 := ScanAttempt(2, true)]);
    assert s.workers - {1} == map[0 := ScanAttempt(1, true)];
    assert s.db.jobs[0 := Finished(j, now)] == map[0 := Finished(j, now)];
    assert s.db.evidences[0 := Evidence(Clean, false)] == map[0 := Evidence(Clean, false)];
  }

  /** A worker takes so long that its lock is taken away; another scans the file and passes it, and the first
      is still at it. */
  lemma PassedWhileScanning() returns (run: seq<Timed>, j: Job)
    ensures run != [] && run[0].step == Upload(0, Waiting, 0)
    ensures Possible(START, run) && After(START, run) == Scanned(j, Clean, map[0 := ScanAttempt(1, true)])
  {
    var none: map<Id, Evidence> := map[];
    UploadedScan(0, none, 0, 0);
    assert none[0 := Evidence(Waiting, false)] == map[0 := Evidence(Waiting, false)];
    Extended(START, [], Upload(0, Waiting, 0), 0);
    run, j := [] + [At(0, Upload(0, Waiting, 0))], NewJob(Scan(0), 0);
    FirstClaim(j);
    Extended(START, run, Claim(0, 0, true), 0);
    run, j := run + [At(0, Claim(0, 0, true))], Claimed(j, 0);
    FirstExamines(j);
    Extended(START, run, Examine(0), 0);
    run := run + [At(0, Examine(0))];
    LockTaken(j, 1000);
    Extended(START, run, RequeueAbandoned(ABANDONED_AFTER, {true}), 1000);
    run, j := run + [At(1000, RequeueAbandoned(ABANDONED_AFTER, {true}))], Requeued(j, 1000);
    SecondClaim(j, 1000);
    Extended(START, run, Claim(1, 0, true), 1000);
    run, j := run + [At(1000, Claim(1, 0, true))], Claimed(j, 1000);
    SecondExamines(j, 1000);
    Extended(START, run, Examine(1), 1000);
    run := run + [At(1000, Examine(1))];
    SecondPasses(j, 1000);
    Extended(START, run, Conclude(1, Clean), 1000);
    run, j := run + [At(1000, Conclude(1, Clean))], Finished(j, 1000);
  }

  // -------------------------------------------------------- the repair is always possible

  /** The insert can always be made: there are enough unused identifiers and enough lost files. */
  lemma RequeuePossible(s: System) returns (added: map<Id, Id>)
    ensures Requeues(s.db, added) && forall id :: id in added ==> Unused(s, id)
  {
    var held := set w | w in s.workers :: s.workers[w].job;
    var from := Above(s.db.jobs.Keys + held);
    added := Choose(Lost(s.db), Min(REQUEUE_LIMIT, |Lost(s.db)|), from);
    forall id | id in added ensures Unused(s, id) {
      assert id !in s.db.jobs.Keys + held;
    }
  }

  lemma {:induction false} Above(ids: set<Id>) returns (bound: Id)
    ensures forall id :: id in ids ==> id < bound
  {
    if ids == {} {
      bound := 0;
    } else {
      var id :| id in ids;
      var rest := Above(ids - {id});
      bound := if rest <= id then id + 1 else rest;
      forall x | x in ids ensures x < bound { assert x == id || x in ids - {id}; }
    }
  }

  lemma {:induction false} Choose(lost: set<Id>, n: nat, from: Id) returns (added: map<Id, Id>)
    requires n <= |lost|
    ensures added.Values <= lost && |added.Values| == n
    ensures forall id :: id in added ==> from <= id < from + n
    ensures forall a, b :: a in added && b in added && a != b ==> added[a] != added[b]
  {
    added := map[];
    if n > 0 {
      var rest := Choose(lost, n - 1, from);
      assert exists x :: x in lost && x !in rest.Values by {
        if forall x :: x in lost ==> x in rest.Values { SubsetSize(lost, rest.Values); }
      }
      var e :| e in lost && e !in rest.Values;
      added := rest[from + n - 1 := e];
      AddedValue(rest, from + n - 1, e);
    }
  }

  lemma AddedValue(m: map<Id, Id>, k: Id, v: Id)
    requires k !in m
    ensures m[k := v].Values == m.Values + {v}
  {
    var n := m[k := v];
    forall x ensures x in n.Values <==> x in m.Values + {v} {
      if x in m.Values {
        var a :| a in m && m[a] == x;
        assert n[a] == x;
      }
      if x in n.Values && x != v {
        var a :| a in n && n[a] == x;
        assert m[a] == x;
      }
      assert n[k] == v;
    }
  }
}
