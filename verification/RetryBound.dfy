// The life of one job of the queue, between two interventions of an administrator: how often it can
// fail, and how far apart its attempts are. A worker whose lock is taken away is assumed to be dead.
module RetryBound {
  import opened Common
  import opened JobQueue

  /** What can happen to a job without an administrator's retry. */
  datatype Event = Begin | Break | Finish | Die | Requeue(window: nat)

  /** The claims and the failures of a job, in the order they happened. */
  datatype Mark = Began(attempt: nat, at: int) | Failure(attempt: nat, at: int)

  /** A job, the attempt its live worker was given, the time, and its history. */
  datatype Life = Life(job: Job, holder: Option<nat>, now: int, marks: seq<Mark>)

  datatype Moment = Moment(at: int, event: Event)

  predicate Enabled(l: Life, m: Moment) {
    && l.now <= m.at
    && match m.event
       case Begin => l.job.status == Pending && l.job.availableAt <= m.at
       case Break => l.holder.Some?
       case Finish => l.holder.Some?
       case Die => l.holder.Some?
       case Requeue(window) => IsStale(l.job, m.at, window) && l.holder.None?
  }

  function Next(l: Life, m: Moment): Life
    requires Enabled(l, m)
  {
    match m.event
    case Begin =>
      var j := Claimed(l.job, m.at); Life(j, Some(j.attempts), m.at, l.marks + [Began(j.attempts, m.at)])
    case Break => Life(Broken(l.job, l.holder.value, m.at), None, m.at, l.marks + [Failure(l.holder.value, m.at)])
    case Finish => Life(Finished(l.job, m.at), None, m.at, l.marks)
    case Die => l.(holder := None, now := m.at)
    case Requeue(_) => Life(Requeued(l.job, m.at), None, m.at, l.marks)
  }

  function Born(work: Work, now: int): Life {
    Life(NewJob(work, now), None, now, [])
  }

  predicate Possible(l: Life, run: seq<Moment>)
    decreases |run|
  {
    run == [] || (Enabled(l, run[0]) && Possible(Next(l, run[0]), run[1..]))
  }

  function After(l: Life, run: seq<Moment>): Life
    requires Possible(l, run)
    decreases |run|
  {
    if run == [] then l else After(Next(l, run[0]), run[1..])
  }

  // ---------------------------------------------------------------- the invariant

  function Init(marks: seq<Mark>): seq<Mark>
    requires marks != []
  {
    marks[..|marks| - 1]
  }

  function Last(marks: seq<Mark>): Mark
    requires marks != []
  {
    marks[|marks| - 1]
  }

  lemma Snoc(marks: seq<Mark>, m: Mark)
    ensures Init(marks + [m]) == marks && Last(marks + [m]) == m
  {
  }

  function Failures(marks: seq<Mark>): nat {
    if marks == [] then 0 else Failures(Init(marks)) + if Last(marks).Failure? then 1 else 0
  }

  /** Every failure was of an attempt below the bound. */
  predicate FailedBelow(marks: seq<Mark>, bound: nat) {
    marks == [] || (FailedBelow(Init(marks), bound) && (Last(marks).Failure? ==> Last(marks).attempt < bound))
  }

  /** Attempt numbers never go back, and go up after a failure. */
  predicate Ordered(marks: seq<Mark>, attempts: nat) {
    marks == [] ||
    (1 <= Last(marks).attempt <= attempts && FailedBelow(Init(marks), Last(marks).attempt) && Ordered(Init(marks), Last(marks).attempt))
  }

  /** No failure's backoff reaches beyond the time. */
  predicate Clear(marks: seq<Mark>, earliest: int) {
    marks == [] ||
    (Clear(Init(marks), earliest) && (Last(marks).Failure? ==> Last(marks).at + Backoff(Last(marks).attempt) <= earliest))
  }

  /** Whatever follows a failure follows it by its backoff. */
  predicate Spaced(marks: seq<Mark>) {
    marks == [] || (Spaced(Init(marks)) && Clear(Init(marks), Last(marks).at))
  }

  predicate Sound(l: Life) {
    var j := l.job;
    && (j.status == Running <==> j.lockedAt.Some?)
    && (l.holder.Some? ==> j.status == Running && l.holder.value == j.attempts)
    && Ordered(l.marks, j.attempts) && Spaced(l.marks)
    && (j.status == Pending ==> Clear(l.marks, Max(j.availableAt, l.now)))
    && (j.status == Running ==> Clear(l.marks, l.now) && FailedBelow(l.marks, j.attempts) && j.attempts >= 1)
    && (j.status == Failed ==> j.attempts >= MAX_ATTEMPTS)
    && (j.status != Failed ==> FailedBelow(l.marks, MAX_ATTEMPTS))
    && Failures(l.marks) <= (if j.status == Failed then MAX_ATTEMPTS else MAX_ATTEMPTS - 1)
  }

  /** Failures have distinct attempt numbers, so those below a bound are fewer than it. */
  lemma {:induction false} FewFailures(marks: seq<Mark>, attempts: nat, bound: nat)
    requires Ordered(marks, attempts) && bound >= 1 && FailedBelow(marks, bound)
    ensures Failures(marks) <= bound - 1
    decreases |marks|
  {
    if marks != [] {
      FewFailures(Init(marks), Last(marks).attempt, if Last(marks).Failure? then Last(marks).attempt else bound);
    }
  }

  lemma {:induction false} ClearLater(marks: seq<Mark>, earlier: int, later: int)
    requires Clear(marks, earlier) && earlier <= later
    ensures Clear(marks, later)
  {
    if marks != [] { ClearLater(Init(marks), earlier, later); }
  }

  lemma {:induction false} BelowMore(marks: seq<Mark>, attempts: nat, bound: nat)
    requires Ordered(marks, attempts) && attempts < bound
    ensures FailedBelow(marks, bound)
    decreases |marks|
  {
    if marks != [] { BelowMore(Init(marks), Last(marks).attempt, bound); }
  }

  lemma {:induction false} OrderedMore(marks: seq<Mark>, attempts: nat, more: nat)
    requires Ordered(marks, attempts) && attempts <= more
    ensures Ordered(marks, more)
  {
  }

  /** A claim after all backoffs, under a new attempt number, keeps every bound on the marks. */
  lemma ClaimAdded(marks: seq<Mark>, attempts: nat, earliest: int, began: Mark, all: seq<Mark>)
    requires Ordered(marks, attempts) && Spaced(marks) && Clear(marks, earliest) && FailedBelow(marks, MAX_ATTEMPTS)
    requires began.Began? && began.attempt == attempts + 1 && earliest <= began.at && all == marks + [began]
    ensures Ordered(all, began.attempt) && Spaced(all) && Clear(all, began.at)
    ensures FailedBelow(all, MAX_ATTEMPTS) && FailedBelow(all, began.attempt) && Failures(all) == Failures(marks)
  {
    Snoc(marks, began);
    BelowMore(marks, attempts, began.attempt);
    OrderedMore(marks, attempts, began.attempt);
    ClearLater(marks, earliest, began.at);
  }

  lemma BeginIsSound(l: Life, m: Moment)
    requires Sound(l) && Enabled(l, m) && m.event == Begin
    ensures Sound(Next(l, m))
  {
    var n := Next(l, m);
    ClaimAdded(l.marks, l.job.attempts, Max(l.job.availableAt, l.now), Began(l.job.attempts + 1, m.at), n.marks);
    assert n.job.status == Running && n.job.lockedAt == Some(m.at) && n.holder == Some(n.job.attempts) && n.now == m.at;
  }

  lemma BreakIsSound(l: Life, m: Moment)
    requires Sound(l) && Enabled(l, m) && m.event == Break
    ensures Sound(Next(l, m))
  {
    var n, failed := Next(l, m), Failure(l.holder.value, m.at);
    Snoc(l.marks, failed);
    ClearLater(l.marks, l.now, m.at);
    ClearLater(l.marks, l.now, Max(n.job.availableAt, m.at));
    if n.job.status == Pending { FewFailures(n.marks, n.job.attempts, MAX_ATTEMPTS); }
  }

  lemma RestIsSound(l: Life, m: Moment)
    requires Sound(l) && Enabled(l, m) && m.event != Begin && m.event != Break
    ensures Sound(Next(l, m))
  {
    ClearLater(l.marks, l.now, m.at);
  }

  lemma {:induction false} AlwaysSound(l: Life, run: seq<Moment>)
    requires Sound(l) && Possible(l, run)
    ensures Sound(After(l, run))
    decreases |run|
  {
    if run != [] {
      match run[0].event {
        case Begin => BeginIsSound(l, run[0]);
        case Break => BreakIsSound(l, run[0]);
        case _ => RestIsSound(l, run[0]);
      }
      AlwaysSound(Next(l, run[0]), run[1..]);
    }
  }

  /** What follows a failure, spelled out for two marks. */
  lemma {:induction false} SpacedMeans(marks: seq<Mark>, i: nat, j: nat)
    requires Spaced(marks) && i < j < |marks| && marks[i].Failure?
    ensures marks[j].at >= marks[i].at + Backoff(marks[i].attempt)
  {
    if j == |marks| - 1 { ClearMeans(Init(marks), marks[j].at, i); } else { SpacedMeans(Init(marks), i, j); }
  }

  lemma {:induction false} ClearMeans(marks: seq<Mark>, earliest: int, i: nat)
    requires Clear(marks, earliest) && i < |marks| && marks[i].Failure?
    ensures marks[i].at + Backoff(marks[i].attempt) <= earliest
  {
    if i < |marks| - 1 { ClearMeans(Init(marks), earliest, i); }
  }

  lemma {:induction false} OrderedMeans(marks: seq<Mark>, attempts: nat, i: nat, j: nat)
    requires Ordered(marks, attempts) && i < j < |marks|
    ensures marks[i].attempt <= marks[j].attempt && (marks[i].Failure? ==> marks[i].attempt < marks[j].attempt)
    decreases |marks|
  {
    if j == |marks| - 1 { OrderedBelow(Init(marks), marks[j].attempt, i); } else { OrderedMeans(Init(marks), Last(marks).attempt, i, j); }
  }

  lemma {:induction false} OrderedBelow(marks: seq<Mark>, attempts: nat, i: nat)
    requires Ordered(marks, attempts) && FailedBelow(marks, attempts) && i < |marks|
    ensures marks[i].attempt <= attempts && (marks[i].Failure? ==> marks[i].attempt < attempts)
    decreases |marks|
  {
    if i < |marks| - 1 {
      OrderedMore(Init(marks), Last(marks).attempt, attempts);
      OrderedBelow(Init(marks), attempts, i);
    }
  }

  predicate BackedOff(marks: seq<Mark>) {
    forall i, j :: 0 <= i < j < |marks| && marks[i].Failure? ==> marks[j].at >= marks[i].at + Backoff(marks[i].attempt)
  }

  /** Over every life of a job without an administrator's retry: it fails at most five times, a FAILED job
      was attempted at least five times, it is RUNNING exactly while a lock time is set, and every attempt
      that follows a failed attempt k begins at least the backoff of k after that failure. */
  lemma RetriesAreBounded(work: Work, born: int, run: seq<Moment>)
    requires Possible(Born(work, born), run)
    ensures var l := After(Born(work, born), run);
            && Failures(l.marks) <= MAX_ATTEMPTS
            && (l.job.status == Failed ==> l.job.attempts >= MAX_ATTEMPTS)
            && (l.job.status == Running <==> l.job.lockedAt.Some?)
            && BackedOff(l.marks)
  {
    AlwaysSound(Born(work, born), run);
    var l := After(Born(work, born), run);
    forall i, j | 0 <= i < j < |l.marks| && l.marks[i].Failure? ensures l.marks[j].at >= l.marks[i].at + Backoff(l.marks[i].attempt) {
      SpacedMeans(l.marks, i, j);
    }
  }

  lemma BackoffTable()
    ensures Backoff(1) == 2 * MINUTE && Backoff(2) == 4 * MINUTE && Backoff(3) == 8 * MINUTE && Backoff(4) == 16 * MINUTE
    ensures Backoff(5) == 32 * MINUTE && forall k :: k >= 6 ==> Backoff(k) == 64 * MINUTE
  {
    assert Power(1) == 2 && Power(2) == 4 && Power(3) == 8 && Power(4) == 16 && Power(5) == 32 && Power(6) == 64;
  }

  /** A failure, and a mark of a later attempt, lie in this order and apart by the backoff. */
  lemma LaterAttempt(marks: seq<Mark>, attempts: nat, i: nat, j: nat)
    requires Ordered(marks, attempts) && Spaced(marks) && i < |marks| && j < |marks|
    requires marks[i].Failure? && marks[i].attempt < marks[j].attempt
    ensures marks[j].at >= marks[i].at + Backoff(marks[i].attempt)
  {
    if j < i { OrderedMeans(marks, attempts, j, i); }
    SpacedMeans(marks, i, j);
  }

  predicate FailedAt(marks: seq<Mark>, i: nat, attempt: nat) {
    i < |marks| && marks[i].Failure? && marks[i].attempt == attempt
  }

  /** When attempts one to four all fail, the fifth comes at least thirty minutes after the first failure. */
  lemma FifthAfterHalfAnHour(work: Work, born: int, run: seq<Moment>, a: nat, b: nat, c: nat, d: nat, e: nat)
    requires Possible(Born(work, born), run)
    requires var marks := After(Born(work, born), run).marks;
             && FailedAt(marks, a, 1) && FailedAt(marks, b, 2) && FailedAt(marks, c, 3) && FailedAt(marks, d, 4)
             && e < |marks| && marks[e].Began? && marks[e].attempt == 5
    ensures var marks := After(Born(work, born), run).marks; marks[e].at >= marks[a].at + 30 * MINUTE
  {
    AlwaysSound(Born(work, born), run);
    BackoffTable();
    var l := After(Born(work, born), run);
    LaterAttempt(l.marks, l.job.attempts, a, b);
    LaterAttempt(l.marks, l.job.attempts, b, c);
    LaterAttempt(l.marks, l.job.attempts, c, d);
    LaterAttempt(l.marks, l.job.attempts, d, e);
  }

  // ------------------------------------------------------------- the job inside the queue

  predicate HeldBy(s: System, w: Id, id: Id) {
    w in s.workers && s.workers[w].job == id
  }

  /** The job of the queue is that of the life, and the one worker that holds it is its holder. */
  ghost predicate Follows(s: System, id: Id, l: Life) {
    && id in s.db.jobs && s.db.jobs[id] == l.job
    && (l.holder.None? ==> forall w :: !HeldBy(s, w, id))
    && (l.holder.Some? ==> exists w :: HeldBy(s, w, id) && s.workers[w].attempt == l.holder.value && forall u :: HeldBy(s, u, id) ==> u == w)
  }

  predicate IsRequeued(s: System, step: Step, now: int, id: Id)
    requires id in s.db.jobs
  {
    step.RequeueAbandoned? && IsStale(s.db.jobs[id], now, step.window) && s.db.jobs[id].work.Scan? in step.kinds
  }

  /** No administrator retries the job, nobody deletes it, and its lock is taken away only from the dead. */
  predicate LeftAlone(s: System, step: Step, now: int, id: Id) {
    && id in s.db.jobs
    && (step.RetryJob? ==> step.job != id)
    && (step.RetryFailed? ==> s.db.jobs[id].status != Failed)
    && (step.DeleteOld? ==> id !in step.ids)
    && (IsRequeued(s, step, now, id) ==> forall w :: w in s.workers ==> s.workers[w].job != id)
  }

  /** What a step of the queue is in the life of one job. */
  function EventOf(s: System, step: Step, now: int, id: Id): Option<Event>
    requires id in s.db.jobs
  {
    match step
    case Claim(_, job, _) => if job == id then Some(Begin) else None
    case Fail(w) => if HeldBy(s, w, id) then Some(Break) else None
    case Conclude(w, _) => if HeldBy(s, w, id) then Some(Finish) else None
    case Deliver(w) => if HeldBy(s, w, id) then Some(Finish) else None
    case Crash(w) => if HeldBy(s, w, id) then Some(Die) else None
    case Examine(w) =>
      if HeldBy(s, w, id) && s.workers[w].work.Scan?
         && (s.workers[w].work.evidence !in s.db.evidences || s.db.evidences[s.workers[w].work.evidence].scan != Waiting)
      then Some(Finish) else None
    case RequeueAbandoned(window, _) => if IsRequeued(s, step, now, id) then Some(Requeue(window)) else None
    case _ => None
  }

  /** The job a step leaves behind is the one its event leaves behind. */
  lemma JobFollows(s: System, step: Step, now: int, id: Id, l: Life)
    requires JobQueue.Enabled(s, step, now) && LeftAlone(s, step, now, id) && Follows(s, id, l) && Sound(l) && l.now <= now
    ensures var e, t := EventOf(s, step, now, id), JobQueue.Next(s, step, now);
            && id in t.db.jobs
            && (e.Some? ==> Enabled(l, Moment(now, e.value)))
            && t.db.jobs[id] == if e.Some? then Next(l, Moment(now, e.value)).job else l.job
  {
    match step
    case RetryFailed(added) => assert id !in added;
    case RequeueLost(added) => assert id !in added;
    case _ =>
  }

  /** Who holds the job afterwards: a claimer begins to, whoever ends or dies ceases to, all others stay. */
  lemma HolderFollows(s: System, step: Step, now: int, id: Id, u: Id)
    requires JobQueue.Enabled(s, step, now) && LeftAlone(s, step, now, id)
    ensures var e, t := EventOf(s, step, now, id), JobQueue.Next(s, step, now);
            && (HeldBy(t, u, id) <==> (e == Some(Begin) && u == step.w) || (HeldBy(s, u, id) && !(e in {Some(Break), Some(Finish), Some(Die)} && u == step.w)))
            && (HeldBy(t, u, id) ==> t.workers[u].attempt == if e == Some(Begin) && u == step.w then s.db.jobs[id].attempts + 1 else s.workers[u].attempt)
  {
  }

  /** One step of the queue is one event of the job's life, or none. */
  lemma StepFollows(s: System, step: Step, now: int, id: Id, l: Life)
    requires JobQueue.Enabled(s, step, now) && LeftAlone(s, step, now, id) && Follows(s, id, l) && Sound(l) && l.now <= now
    ensures var e, t := EventOf(s, step, now, id), JobQueue.Next(s, step, now);
            && (e.Some? ==> Enabled(l, Moment(now, e.value)))
            && Follows(t, id, if e.Some? then Next(l, Moment(now, e.value)) else l)
  {
    var e, t := EventOf(s, step, now, id), JobQueue.Next(s, step, now);
    JobFollows(s, step, now, id, l);
    var n := if e.Some? then Next(l, Moment(now, e.value)) else l;
    if e == Some(Begin) {
      OneHolder(s, step, now, id, step.w);
    } else if l.holder.Some? {
      var w :| HeldBy(s, w, id) && s.workers[w].attempt == l.holder.value && forall u :: HeldBy(s, u, id) ==> u == w;
      OneHolder(s, step, now, id, w);
    } else {
      forall u ensures !HeldBy(t, u, id) { HolderFollows(s, step, now, id, u); }
    }
  }

  /** If nobody but w held the job, or w claims it now, nobody but w holds it afterwards. */
  lemma OneHolder(s: System, step: Step, now: int, id: Id, w: Id)
    requires JobQueue.Enabled(s, step, now) && LeftAlone(s, step, now, id)
    requires forall u :: HeldBy(s, u, id) ==> u == w
    requires EventOf(s, step, now, id) == Some(Begin) ==> step.w == w
    ensures var e, t := EventOf(s, step, now, id), JobQueue.Next(s, step, now);
            && (forall u :: HeldBy(t, u, id) ==> u == w)
            && (HeldBy(t, w, id) <==> e == Some(Begin) || (HeldBy(s, w, id) && e !in {Some(Break), Some(Finish), Some(Die)}))
            && (HeldBy(t, w, id) ==> t.workers[w].attempt == if e == Some(Begin) then s.db.jobs[id].attempts + 1 else s.workers[w].attempt)
  {
    var t := JobQueue.Next(s, step, now);
    HolderFollows(s, step, now, id, w);
    forall u | HeldBy(t, u, id) ensures u == w { HolderFollows(s, step, now, id, u); }
  }

  /** Along the run time does not go back, and the job is left alone. */
  ghost predicate Orderly(s: System, run: seq<Timed>, id: Id, now: int)
    requires JobQueue.Possible(s, run)
    decreases |run|
  {
    run == [] ||
    (now <= run[0].now && LeftAlone(s, run[0].step, run[0].now, id) && Orderly(JobQueue.Next(s, run[0].step, run[0].now), run[1..], id, run[0].now))
  }

  /** What a step adds to the job's history: a claim of it, or a failure of a worker that holds it. */
  function MarkOf(s: System, step: Step, now: int, id: Id): seq<Mark> {
    if step.Claim? && step.job == id && id in s.db.jobs then [Began(s.db.jobs[id].attempts + 1, now)]
    else if step.Fail? && HeldBy(s, step.w, id) then [Failure(s.workers[step.w].attempt, now)]
    else []
  }

  /** The claims and failures of the job along a run of the queue, with the times of the run. */
  ghost function MarksOf(s: System, run: seq<Timed>, id: Id): seq<Mark>
    requires JobQueue.Possible(s, run)
    decreases |run|
  {
    if run == [] then []
    else MarkOf(s, run[0].step, run[0].now, id) + MarksOf(JobQueue.Next(s, run[0].step, run[0].now), run[1..], id)
  }

  lemma MarkFollows(s: System, step: Step, now: int, id: Id, l: Life)
    requires JobQueue.Enabled(s, step, now) && LeftAlone(s, step, now, id) && Follows(s, id, l) && Sound(l) && l.now <= now
    ensures var e := EventOf(s, step, now, id);
            && (e.None? ==> MarkOf(s, step, now, id) == [])
            && (e.Some? ==> Enabled(l, Moment(now, e.value)) && Next(l, Moment(now, e.value)).marks == l.marks + MarkOf(s, step, now, id)
                            && Next(l, Moment(now, e.value)).now == now)
  {
    JobFollows(s, step, now, id, l);
    assert step.Fail? && HeldBy(s, step.w, id) ==> l.holder == Some(s.workers[step.w].attempt);
  }

  lemma OneIsSound(l: Life, m: Moment)
    requires Sound(l) && Enabled(l, m)
    ensures Sound(Next(l, m))
  {
    AlwaysSound(l, [m]);
    assert [m][1..] == [] && After(l, [m]) == Next(l, m);
  }

  /** Along any run of the queue that leaves a job alone, that job lives one of the lives above, with the
      claims and failures of the run. */
  lemma {:induction false} QueueFollowsLife(s: System, run: seq<Timed>, id: Id, l: Life) returns (life: seq<Moment>)
    requires JobQueue.Possible(s, run) && Orderly(s, run, id, l.now) && Follows(s, id, l) && Sound(l)
    ensures Possible(l, life) && Follows(JobQueue.After(s, run), id, After(l, life))
    ensures After(l, life).marks == l.marks + MarksOf(s, run, id)
    decreases |run|
  {
    if run == [] {
      life := [];
    } else {
      var step, now := run[0].step, run[0].now;
      var e, t := EventOf(s, step, now, id), JobQueue.Next(s, step, now);
      StepFollows(s, step, now, id, l);
      MarkFollows(s, step, now, id, l);
      if e.None? {
        OrderlyLater(t, run[1..], id, l.now, now);
        life := QueueFollowsLife(t, run[1..], id, l);
      } else {
        var m := Moment(now, e.value);
        OneIsSound(l, m);
        var rest := QueueFollowsLife(t, run[1..], id, Next(l, m));
        life := [m] + rest;
        assert life[1..] == rest;
        Assoc(l.marks, MarkOf(s, step, now, id), MarksOf(t, run[1..], id));
      }
    }
  }

  lemma OrderlyLater(s: System, run: seq<Timed>, id: Id, earlier: int, now: int)
    requires JobQueue.Possible(s, run) && Orderly(s, run, id, now) && earlier <= now
    ensures Orderly(s, run, id, earlier)
  {
  }

  /** A job just inserted, that nobody holds. */
  predicate IsNew(s: System, id: Id, work: Work, born: int) {
    id in s.db.jobs && s.db.jobs[id] == NewJob(work, born) && forall w :: w in s.workers ==> s.workers[w].job != id
  }

  /** So in the queue itself: from its creation, and while no administrator touches it, a job fails at most
      five times, is FAILED only after five attempts, is RUNNING exactly while a lock time is set, and what
      follows a failed attempt k in the run follows it by the backoff of k. */
  lemma QueuedJobIsBounded(s: System, run: seq<Timed>, id: Id, work: Work, born: int)
    requires JobQueue.Possible(s, run) && Orderly(s, run, id, born) && IsNew(s, id, work, born)
    ensures var t, marks := JobQueue.After(s, run), MarksOf(s, run, id);
            && Failures(marks) <= MAX_ATTEMPTS
            && id in t.db.jobs && (t.db.jobs[id].status == Failed ==> t.db.jobs[id].attempts >= MAX_ATTEMPTS)
            && (t.db.jobs[id].status == Running <==> t.db.jobs[id].lockedAt.Some?)
            && BackedOff(marks)
  {
    var life := QueueFollowsLife(s, run, id, Born(work, born));
    RetriesAreBounded(work, born, life);
    assert After(Born(work, born), life).marks == MarksOf(s, run, id);
  }

  /** And when its attempts one to four all fail, its fifth claim comes at least thirty minutes after the
      first failure. */
  lemma QueuedFifthAfterHalfAnHour(s: System, run: seq<Timed>, id: Id, work: Work, born: int, a: nat, b: nat, c: nat, d: nat, e: nat)
    requires JobQueue.Possible(s, run) && Orderly(s, run, id, born) && IsNew(s, id, work, born)
    requires var marks := MarksOf(s, run, id);
             && FailedAt(marks, a, 1) && FailedAt(marks, b, 2) && FailedAt(marks, c, 3) && FailedAt(marks, d, 4)
             && e < |marks| && marks[e].Began? && marks[e].attempt == 5
    ensures var marks := MarksOf(s, run, id); marks[e].at >= marks[a].at + 30 * MINUTE
  {
    var life := QueueFollowsLife(s, run, id, Born(work, born));
    assert After(Born(work, born), life).marks == MarksOf(s, run, id);
    FifthAfterHalfAnHour(work, born, life, a, b, c, d, e);
  }
}
