// The jobs and evidences tables as the handlers of the queue change them, and one poll of the scanner.
module JobTables {
  import opened Common
  import opened JobQueue

  /** What clamd, or the lack of it, makes of a file. */
  datatype Verdict = FileClean | FileInfected | ScannerOff | ScanFailed

  /** What the scanner's word does to the file it is about: nothing, unless the file waits for it. */
  predicate FileTold(before: Evidence, after: Evidence, verdict: Verdict, attempt: nat) {
    if before.scan != Waiting then after == before
    else
      match verdict
      case FileClean => after == Evidence(Clean, before.deleted)
      case FileInfected => after == Evidence(Infected, true)
      case ScannerOff => after == Evidence(Skipped, before.deleted)
      case ScanFailed => after == Evidence(if attempt >= 5 then Error else Waiting, before.deleted)
  }

  /** And to its job: done with, unless the scan failed, and then due again after two minutes at the earliest
      or, at the fifth attempt, given up. */
  predicate JobTold(before: Job, after: Job, failed: bool, now: int) {
    && after.work == before.work && after.createdAt == before.createdAt && after.lockedAt.None? && after.attempts == before.attempts + 1
    && after.status == (if !failed then Completed else if after.attempts >= 5 then Failed else Pending)
    && (after.status == Pending ==> after.availableAt >= now + 120)
  }

  function StatusOf(verdict: Verdict): ScanStatus {
    match verdict case FileClean => Clean case FileInfected => Infected case _ => Skipped
  }

  /** The machine of the queue after a claim and an examination by the one worker there is. */
  ghost predicate Examined(before: Db, s: System, id: Id, now: int) {
    var start := System(before, map[]);
    Enabled(start, Claim(0, id, true), now) &&
    var claimed := Next(start, Claim(0, id, true), now);
    Enabled(claimed, Examine(0), now) && s == Next(claimed, Examine(0), now)
  }

  /** One turn of a worker: a claim, an examination and, if the file waits, a verdict or a failure. */
  ghost predicate MachineScan(before: Db, after: Db, id: Id, verdict: Verdict, now: int) {
    exists s :: Examined(before, s, id, now) && MachineEnds(s, after, verdict, now)
  }

  ghost predicate MachineEnds(s: System, after: Db, verdict: Verdict, now: int) {
    if 0 !in s.workers then after == s.db
    else
      var step := if verdict == ScanFailed then Step.Fail(0) else Conclude(0, StatusOf(verdict));
      Enabled(s, step, now) && after == Next(s, step, now).db
  }

  function ClaimedDb(before: Db, id: Id, now: int): Db
    requires id in before.jobs
  {
    Put(before, id, Claimed(before.jobs[id], now))
  }

  lemma TurnSkips(before: Db, id: Id, verdict: Verdict, now: int)
    requires IsNext(before, id, true, now) && !WaitsIn(before.evidences, before.jobs[id].work.evidence)
    ensures MachineScan(before, CompletedJob(ClaimedDb(before, id, now), id, now), id, verdict, now)
  {
    var held := Holding(id, before.jobs[id].attempts + 1, before.jobs[id].work, false);
    var claimed := System(ClaimedDb(before, id, now), map[0 := held]);
    assert Next(System(before, map[]), Claim(0, id, true), now) == claimed;
    assert Examined(before, Next(claimed, Examine(0), now), id, now);
  }

  lemma TurnScans(before: Db, id: Id, now: int)
    requires IsNext(before, id, true, now) && WaitsIn(before.evidences, before.jobs[id].work.evidence)
    ensures Examined(before, System(ClaimedDb(before, id, now), map[0 := Holding(id, before.jobs[id].attempts + 1, before.jobs[id].work, true)]), id, now)
  {
    var held := Holding(id, before.jobs[id].attempts + 1, before.jobs[id].work, false);
    var claimed := System(ClaimedDb(before, id, now), map[0 := held]);
    assert Next(System(before, map[]), Claim(0, id, true), now) == claimed;
    assert map[0 := held][0 := held.(scanning := true)] == map[0 := held.(scanning := true)];
  }

  lemma TurnFails(before: Db, id: Id, now: int)
    requires IsNext(before, id, true, now) && WaitsIn(before.evidences, before.jobs[id].work.evidence)
    ensures MachineScan(before, FailedJob(ClaimedDb(before, id, now), id, before.jobs[id].attempts + 1, now), id, ScanFailed, now)
  {
    TurnScans(before, id, now);
  }

  lemma TurnTells(before: Db, id: Id, verdict: Verdict, now: int)
    requires IsNext(before, id, true, now) && WaitsIn(before.evidences, before.jobs[id].work.evidence) && verdict != ScanFailed
    ensures MachineScan(before, Concluded(ClaimedDb(before, id, now), id, before.jobs[id].work.evidence, StatusOf(verdict), now), id, verdict, now)
  {
    TurnScans(before, id, now);
  }

  function Told(db: Db, e: Id, status: ScanStatus): Db {
    if status == Infected then Removed(Marked(db, e, status), e) else Marked(db, e, status)
  }

  /** The tables after a worker's turn at the job. */
  function AfterTurn(before: Db, id: Id, verdict: Verdict, now: int): Db
    requires IsNext(before, id, true, now)
  {
    var e, claimed := before.jobs[id].work.evidence, ClaimedDb(before, id, now);
    if !WaitsIn(before.evidences, e) then CompletedJob(claimed, id, now)
    else if verdict == ScanFailed then FailedJob(claimed, id, before.jobs[id].attempts + 1, now)
    else CompletedJob(Told(claimed, e, StatusOf(verdict)), id, now)
  }

  lemma TurnIsMachines(before: Db, id: Id, verdict: Verdict, now: int)
    requires IsNext(before, id, true, now) && Covered(before)
    ensures Covered(AfterTurn(before, id, verdict, now)) && MachineScan(before, AfterTurn(before, id, verdict, now), id, verdict, now)
  {
    var e, claimed := before.jobs[id].work.evidence, ClaimedDb(before, id, now);
    Kept(before, claimed);
    if !WaitsIn(before.evidences, e) {
      TurnSkips(before, id, verdict, now);
      CompletionKeepsGate(claimed, id, now);
    } else if verdict == ScanFailed {
      TurnFails(before, id, now);
      FailKeepsGate(claimed, id, before.jobs[id].attempts + 1, now);
    } else {
      TurnTells(before, id, verdict, now);
      ConclusionKeepsGate(claimed, id, e, StatusOf(verdict), now);
    }
  }

  /** The turn's job and its file are told; every other job and file is left alone. */
  ghost predicate TurnTold(before: Db, after: Db, id: Id, verdict: Verdict, now: int) {
    && id in before.jobs && before.jobs[id].work.Scan?
    && var e := before.jobs[id].work.evidence;
       && after.evidences.Keys == before.evidences.Keys && after.jobs.Keys == before.jobs.Keys
       && JobTold(before.jobs[id], after.jobs[id], verdict == ScanFailed && WaitsIn(before.evidences, e), now)
       && (e in before.evidences ==> FileTold(before.evidences[e], after.evidences[e], verdict, before.jobs[id].attempts + 1))
       && (forall k :: k in before.jobs && k != id ==> after.jobs[k] == before.jobs[k])
       && (forall f :: f in before.evidences && f != e ==> after.evidences[f] == before.evidences[f])
  }

  lemma TurnMeans(before: Db, id: Id, verdict: Verdict, now: int)
    requires IsNext(before, id, true, now)
    ensures TurnTold(before, AfterTurn(before, id, verdict, now), id, verdict, now)
  {
    BackoffAtLeast(before.jobs[id].attempts + 1);
  }

  predicate WaitsIn(evidences: map<Id, Evidence>, e: Id) {
    e in evidences && evidences[e].scan == Waiting
  }

  /** What the verdicts of a tick explain of a file's change. */
  predicate FileExplained(before: Evidence, after: Evidence, told: seq<Verdict>) {
    && (after.scan != before.scan ==> before.scan == Waiting)
    && (after.scan == Clean && before.scan != Clean ==> FileClean in told)
    && (after.scan == Skipped && before.scan != Skipped ==> ScannerOff in told)
    && (after.scan == Error && before.scan != Error ==> ScanFailed in told)
    && (after.scan == Infected && before.scan != Infected ==> FileInfected in told && after.deleted)
    && (after.deleted && !before.deleted ==> FileInfected in told && after.scan == Infected)
    && (before.deleted ==> after.deleted)
  }

  lemma ToldOnceMore(a: Evidence, b: Evidence, c: Evidence, told: seq<Verdict>, v: Verdict, attempt: nat)
    requires FileExplained(a, b, told)
    ensures FileExplained(a, b, told + [v]) && (FileTold(b, c, v, attempt) ==> FileExplained(a, c, told + [v]))
  {
    assert v in told + [v];
  }

  /** An insert in progress: the files of `lost` outside `todo` have been given the jobs of `added`. */
  ghost predicate Underway(db: Db, lost: set<Id>, todo: set<Id>, added: map<Id, Id>) {
    && todo <= lost && added.Values == lost - todo
    && added.Keys !! db.jobs.Keys
    && forall a, b :: a in added && b in added && a != b ==> added[a] != added[b]
  }

  lemma OneMoreScan(db: Db, added: map<Id, Id>, job: Id, e: Id, now: int)
    requires job !in added
    ensures WithScans(db, added[job := e], now) == Put(WithScans(db, added, now), job, NewJob(Scan(e), now))
  {
    assert WithScans(db, added[job := e], now).jobs == Put(WithScans(db, added, now), job, NewJob(Scan(e), now)).jobs;
  }

  lemma NotAValue(added: map<Id, Id>, e: Id)
    requires e !in added.Values
    ensures forall a :: a in added ==> added[a] != e
  {
    forall a | a in added ensures added[a] != e {
      assert added[a] in added.Values;
    }
  }

  lemma SplitOff(lost: set<Id>, todo: set<Id>, e: Id)
    requires todo <= lost && e in todo
    ensures lost - todo + {e} == lost - (todo - {e}) && |lost - todo| + |todo| == |lost| && |lost - (todo - {e})| == |lost - todo| + 1
  {
    assert lost == lost - todo + todo;
    assert lost - todo + {e} == lost - (todo - {e});
  }

  lemma OneMore(db: Db, lost: set<Id>, todo: set<Id>, added: map<Id, Id>, job: Id, e: Id)
    requires Underway(db, lost, todo, added) && e in todo && job !in db.jobs && job !in added
    ensures Underway(db, lost, todo - {e}, added[job := e])
  {
    SplitOff(lost, todo, e);
    NotAValue(added, e);
    AddedValue(added, job, e);
  }

  lemma Inserted(db: Db, lost: set<Id>, todo: set<Id>, added: map<Id, Id>, count: nat)
    requires Underway(db, lost, todo, added) && lost == Lost(db) && count + |todo| == |lost|
    requires count <= REQUEUE_LIMIT && (todo == {} || count == REQUEUE_LIMIT)
    ensures Requeues(db, added) && |added.Values| == count
  {
    assert |lost - todo| == |lost| - |todo|;
  }

  lemma Nothing(db: Db, lost: set<Id>, now: int)
    ensures Underway(db, lost, lost, map[]) && WithScans(db, map[], now) == db
  {
    assert WithScans(db, map[], now).jobs == db.jobs;
  }

  lemma BackoffAtLeast(attempt: nat)
    requires attempt >= 1
    ensures Backoff(attempt) >= 2 * MINUTE
  {
    PowerGrows(if attempt < 6 then attempt else 6);
  }

  lemma {:induction false} PowerGrows(n: nat)
    requires n >= 1
    ensures Power(n) >= 2
  {
    if n > 1 { PowerGrows(n - 1); }
  }

  class Tables {
    var jobs: map<Id, Job>
    var evidences: map<Id, Evidence>
    var nextJob: Id

    function State(): Db
      reads this
    {
      Db(jobs, evidences)
    }

    ghost predicate Valid()
      reads this
    {
      forall id :: id in jobs ==> id < nextJob
    }

    constructor ()
      ensures Valid() && State() == Db(map[], map[])
    {
      jobs, evidences, nextJob := map[], map[], 0;
    }

    /** uploadEvidence and newEvidenceVersion: the row and, if it has to be scanned, its job. */
    method StoreFile(e: Id, scan: ScanStatus, now: int)
      requires Valid()
      modifies this
      ensures Valid() && State() == Enqueued(Stored(old(State()), e, scan), e, scan, old(nextJob), now)
      ensures e in evidences && evidences[e] == Evidence(scan, e in old(evidences) && old(evidences)[e].deleted) && evidences - {e} == old(evidences) - {e}
      ensures scan == Waiting ==> old(nextJob) in jobs && jobs[old(nextJob)].work == Scan(e) && IsDue(jobs[old(nextJob)], true, now)
    {
      evidences := evidences[e := Evidence(scan, e in evidences && evidences[e].deleted)];
      if scan == Waiting {
        jobs := jobs[nextJob := NewJob(Scan(e), now)];
        nextJob := nextJob + 1;
      }
    }

    /** The oldest of the pending jobs of a kind whose time has come. */
    method FirstDue(scans: bool, now: int) returns (next: Option<Id>)
      ensures next.None? ==> forall id :: id in jobs ==> !IsDue(jobs[id], scans, now)
      ensures next.Some? ==> IsNext(State(), next.value, scans, now)
    {
      next := None;
      var todo := jobs.Keys;
      while todo != {}
        invariant todo <= jobs.Keys
        invariant next.None? ==> forall id :: id in jobs && id !in todo ==> !IsDue(jobs[id], scans, now)
        invariant next.Some? ==> next.value in jobs && IsDue(jobs[next.value], scans, now)
        invariant next.Some? ==> forall id :: id in jobs && id !in todo && IsDue(jobs[id], scans, now) ==> jobs[next.value].createdAt <= jobs[id].createdAt
        decreases todo
      {
        var id :| id in todo;
        if IsDue(jobs[id], scans, now) && (next.None? || jobs[id].createdAt < jobs[next.value].createdAt) {
          next := Some(id);
        }
        todo := todo - {id};
      }
    }

    method Claim(scans: bool, now: int) returns (held: Option<Worker>)
      requires Valid()
      modifies this
      ensures Valid() && evidences == old(evidences)
      ensures held.None? ==> jobs == old(jobs) && forall id :: id in jobs ==> !IsDue(jobs[id], scans, now)
      ensures held.Some? ==> IsNext(old(State()), held.value.job, scans, now)
                             && jobs == old(jobs)[held.value.job := Claimed(old(jobs)[held.value.job], now)]
                             && jobs[held.value.job].status == Running && jobs[held.value.job].lockedAt == Some(now)
                             && jobs[held.value.job].attempts == old(jobs)[held.value.job].attempts + 1
                             && held.value == Holding(held.value.job, jobs[held.value.job].attempts, jobs[held.value.job].work, false)
    {
      var next := FirstDue(scans, now);
      if next.None? { return None; }
      var j := Claimed(jobs[next.value], now);
      jobs := jobs[next.value := j];
      return Some(Holding(next.value, j.attempts, j.work, false));
    }

    method Complete(id: Id, now: int)
      requires Valid()
      modifies this
      ensures Valid() && State() == CompletedJob(old(State()), id, now)
    {
      if id in jobs { jobs := jobs[id := Finished(jobs[id], now)]; }
    }

    method Finish(e: Id, status: ScanStatus)
      requires Valid()
      modifies this
      ensures Valid() && State() == Marked(old(State()), e, status)
    {
      if e in evidences { evidences := evidences[e := Evidence(status, evidences[e].deleted)]; }
    }

    method Quarantine(e: Id)
      requires Valid()
      modifies this
      ensures Valid() && State() == Removed(Marked(old(State()), e, Infected), e)
    {
      if e in evidences { evidences := evidences[e := Evidence(Infected, true)]; }
    }

    method Fail(id: Id, attempt: nat, now: int)
      requires Valid()
      modifies this
      ensures Valid() && State() == FailedJob(old(State()), id, attempt, now)
      ensures old(Covered(State())) ==> Covered(State())
      ensures id in jobs && jobs[id].status == Failed && jobs[id].work.Scan? ==> !WaitsFor(State(), jobs[id].work.evidence)
      ensures id in jobs && attempt >= 1 ==> !IsDue(jobs[id], jobs[id].work.Scan?, now + 2 * MINUTE - 1)
      ensures id in jobs ==> if attempt >= 5 then jobs[id].status == Failed else IsDue(jobs[id], jobs[id].work.Scan?, now + Backoff(attempt))
    {
      if Covered(State()) { FailKeepsGate(State(), id, attempt, now); }
      if attempt >= 1 { BackoffAtLeast(attempt); }
      if id !in jobs { return; }
      jobs := jobs[id := Broken(jobs[id], attempt, now)];
      if attempt >= MAX_ATTEMPTS && jobs[id].work.Scan? {
        var e := jobs[id].work.evidence;
        if e in evidences && evidences[e].scan == Waiting { Finish(e, Error); }
      }
    }

    method RequeueAbandoned(now: int, window: nat, kinds: set<bool>)
      requires Valid()
      modifies this
      ensures Valid() && State() == AbandonedRequeued(old(State()), now, window, kinds)
      ensures evidences == old(evidences) && jobs.Keys == old(jobs).Keys
      ensures forall id :: id in jobs ==>
                if IsStale(old(jobs)[id], now, window) && jobs[id].work.Scan? in kinds
                then IsDue(jobs[id], jobs[id].work.Scan?, now) && jobs[id].lockedAt.None? && jobs[id].attempts == old(jobs)[id].attempts
                else jobs[id] == old(jobs)[id]
    {
      var todo := jobs.Keys;
      while todo != {}
        invariant Valid() && evidences == old(evidences) && jobs.Keys == old(jobs).Keys && todo <= jobs.Keys
        invariant forall id :: id in todo ==> jobs[id] == old(jobs)[id]
        invariant forall id :: id in jobs && id !in todo ==> jobs[id] == AbandonedRequeued(old(State()), now, window, kinds).jobs[id]
        decreases todo
      {
        var id :| id in todo;
        if IsStale(jobs[id], now, window) && jobs[id].work.Scan? in kinds {
          jobs := jobs[id := Requeued(jobs[id], now)];
        }
        todo := todo - {id};
      }
      assert jobs == AbandonedRequeued(old(State()), now, window, kinds).jobs;
    }

    method RetryJob(id: Id, now: int) returns (found: bool)
      requires Valid()
      modifies this
      ensures Valid() && found == (id in old(jobs) && Retryable(old(jobs)[id], now))
      ensures State() == if found then RetriedJob(old(State()), id, now) else old(State())
      ensures old(Covered(State())) ==> Covered(State())
      ensures found <==> id in old(jobs) && match old(jobs)[id].status
                                            case Completed => false
                                            case Running => old(jobs)[id].lockedAt.Some? && now - old(jobs)[id].lockedAt.value > 15 * 60
                                            case _ => true
      ensures found ==> IsDue(jobs[id], jobs[id].work.Scan?, now) && jobs[id].attempts == 0
      ensures found && jobs[id].work.Scan? ==> jobs[id].work.evidence !in Lost(State()) && !InErrorState(State(), jobs[id].work.evidence)
    {
      if id in jobs && Covered(State()) { RetryKeepsGate(State(), id, now); }
      if id !in jobs || !Retryable(jobs[id], now) { return false; }
      jobs := jobs[id := Retried(jobs[id], now)];
      if jobs[id].work.Scan? {
        var e := jobs[id].work.evidence;
        if e in evidences && evidences[e].scan == Error { Finish(e, Waiting); }
      }
      return true;
    }

    method InsertScan(e: Id, now: int, ghost db: Db, ghost lost: set<Id>, ghost todo: set<Id>, ghost added: map<Id, Id>)
      returns (ghost more: map<Id, Id>)
      requires Valid() && Underway(db, lost, todo, added) && e in todo && State() == WithScans(db, added, now)
      modifies this
      ensures Valid() && Underway(db, lost, todo - {e}, more) && State() == WithScans(db, more, now)
    {
      assert forall id :: id in db.jobs.Keys + added.Keys ==> id in jobs;
      assert nextJob !in jobs;
      OneMore(db, lost, todo, added, nextJob, e);
      OneMoreScan(db, added, nextJob, e, now);
      more := added[nextJob := e];
      jobs := jobs[nextJob := NewJob(Scan(e), now)];
      nextJob := nextJob + 1;
    }

    /** The repair inserts its jobs row by row, up to the limit. */
    method RequeueLostScans(now: int) returns (ghost added: map<Id, Id>, count: nat)
      requires Valid()
      modifies this
      ensures Valid() && Requeues(old(State()), added) && State() == WithScans(old(State()), added, now)
      ensures count == |added.Values|
      ensures |Lost(State())| == Max(0, |old(Lost(State()))| - REQUEUE_LIMIT)
    {
      ghost var db := State();
      var lost := Lost(State());
      var todo := lost;
      added, count := map[], 0;
      Nothing(db, lost, now);
      while todo != {} && count < REQUEUE_LIMIT
        invariant Valid() && count <= REQUEUE_LIMIT && count + |todo| == |lost|
        invariant Underway(db, lost, todo, added)
        invariant State() == WithScans(db, added, now)
        decreases todo
      {
        var e :| e in todo;
        added := InsertScan(e, now, db, lost, todo, added);
        todo, count := todo - {e}, count + 1;
      }
      Inserted(db, lost, todo, added, count);
      RequeueRepairs(db, added, now);
    }

    method RetryFailedJobs(now: int) returns (ghost added: map<Id, Id>, rescheduled: nat)
      requires Valid()
      modifies this
      ensures Valid() && Requeues(AllRetried(old(State()), now), added)
      ensures State() == WithScans(AllRetried(old(State()), now), added, now)
      ensures Covered(State()) <==> |old(Stranded(State()))| <= REQUEUE_LIMIT
    {
      jobs := map id | id in jobs :: if jobs[id].status == Failed then Retried(jobs[id], now) else jobs[id];
      evidences := map e | e in evidences ::
        if evidences[e].scan == Error && !evidences[e].deleted then Evidence(Waiting, false) else evidences[e];
      assert State() == AllRetried(old(State()), now);
      added, rescheduled := RequeueLostScans(now);
      BulkRetryExact(old(State()), added, now);
    }

    /** scan: whatever the scanner says, a file that does not wait stays as it is. */
    method ScanFile(e: Id, verdict: Verdict) returns (failed: bool)
      requires Valid()
      modifies this
      ensures Valid() && failed == (old(WaitsIn(evidences, e)) && verdict == ScanFailed)
      ensures jobs == old(jobs) && evidences.Keys == old(evidences).Keys
      ensures forall f :: f in evidences && f != e ==> evidences[f] == old(evidences)[f]
      ensures e in evidences && !failed ==> forall n :: FileTold(old(evidences)[e], evidences[e], verdict, n)
      ensures State() == if !old(WaitsIn(evidences, e)) || failed then old(State()) else Told(old(State()), e, StatusOf(verdict))
    {
      if e !in evidences || evidences[e].scan != Waiting { return false; }
      if verdict == ScanFailed { return true; }
      if verdict == ScannerOff {
        Finish(e, Skipped);
      } else if verdict == FileInfected {
        Quarantine(e);
      } else {
        Finish(e, Clean);
      }
      return false;
    }

    /** One scan job, from the claim to its end. */
    method ScanNext(verdict: Verdict, now: int) returns (worked: bool, ghost id: Id)
      requires Valid() && Covered(State())
      modifies this
      ensures Valid() && Covered(State())
      ensures worked == exists id :: id in old(jobs) && IsDue(old(jobs)[id], true, now)
      ensures !worked ==> State() == old(State())
      ensures worked ==> IsNext(old(State()), id, true, now) && MachineScan(old(State()), State(), id, verdict, now)
      ensures worked ==> TurnTold(old(State()), State(), id, verdict, now)
    {
      ghost var before := State();
      id := 0;
      var held := Claim(true, now);
      if held.None? { return false, id; }
      var job, e, attempt := held.value.job, held.value.work.evidence, held.value.attempt;
      id := job;
      TurnIsMachines(before, job, verdict, now);
      TurnMeans(before, job, verdict, now);
      var failed := ScanFile(e, verdict);
      if failed { Fail(job, attempt, now); } else { Complete(job, now); }
      assert State() == AfterTurn(before, job, verdict, now);
      return true, id;
    }

    /** One tick of the scanner: up to five jobs, stopping when none is due. */
    method Poll(verdicts: seq<Verdict>, now: int) returns (done: nat)
      requires Valid() && Covered(State()) && |verdicts| == 5
      modifies this
      ensures Valid() && Covered(State()) && done <= 5
      ensures done < 5 ==> forall id :: id in jobs ==> !IsDue(jobs[id], true, now)
      ensures evidences.Keys == old(evidences).Keys
      ensures forall f :: f in evidences ==> FileExplained(old(evidences)[f], evidences[f], verdicts[..done])
    {
      done := 0;
      var worked := true;
      while done < 5 && worked
        invariant Valid() && Covered(State()) && done <= 5
        invariant worked || forall id :: id in jobs ==> !IsDue(jobs[id], true, now)
        invariant evidences.Keys == old(evidences).Keys
        invariant forall f :: f in evidences ==> FileExplained(old(evidences)[f], evidences[f], verdicts[..done])
        decreases 5 - done, worked
      {
        ghost var earlier, started := evidences, jobs;
        ghost var id: Id;
        worked, id := ScanNext(verdicts[done], now);
        if worked {
          forall f | f in evidences ensures FileExplained(old(evidences)[f], evidences[f], verdicts[..done] + [verdicts[done]]) {
            ToldOnceMore(old(evidences)[f], earlier[f], evidences[f], verdicts[..done], verdicts[done], started[id].attempts + 1);
          }
          assert verdicts[..done] + [verdicts[done]] == verdicts[..done + 1];
          done := done + 1;
        }
      }
    }
  }
}
