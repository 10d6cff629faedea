// Account lockout: PasswordLogin, lockedUntil, registerLoginFailure and Unlock of internal/auth/auth.go,
// and the clearing of expired locks in internal/maintenance/worker.go. One account, one clock, attempts
// one after the other.
module Lockout {
  import opened Common

  const MINUTE := 60_000_000_000

  /** The two settings of the security policy that matter here; a threshold of zero turns lockout off. */
  datatype Policy = Policy(maxFailures: int, minutes: nat)

  datatype Account = Account(failures: nat, lockedUntil: Option<int>)

  /** What the password and the one-time code of an attempt are worth. */
  datatype Credentials = WrongPassword | WrongCode | NoCode | Valid

  datatype Answer = Locked(until: int) | Invalid | CodeInvalid | CodeRequired | Welcome

  datatype Event = Attempt(at: int, credentials: Credentials) | Unlock(at: int) | Sweep(at: int)

  const CLEAR := Account(0, None)

  function Window(p: Policy): nat {
    p.minutes * MINUTE
  }

  predicate IsLocked(a: Account, now: int) {
    a.lockedUntil.Some? && a.lockedUntil.value > now
  }

  /** A lock that has run out is removed together with the count when the next attempt looks at it. */
  function Looked(a: Account, now: int): Account {
    if a.lockedUntil.Some? && a.lockedUntil.value <= now then CLEAR else a
  }

  function Failed(p: Policy, a: Account, now: int): Account {
    if p.maxFailures <= 0 then a
    else Account(a.failures + 1, if a.failures + 1 >= p.maxFailures then Some(now + Window(p)) else a.lockedUntil)
  }

  function Refusal(a: Account, now: int, otherwise: Answer): Answer {
    if IsLocked(a, now) then Locked(a.lockedUntil.value) else otherwise
  }

  function Login(p: Policy, a: Account, c: Credentials, now: int): (Account, Answer) {
    if IsLocked(a, now) then (a, Locked(a.lockedUntil.value))
    else
      var l := Looked(a, now);
      var f := Failed(p, l, now);
      match c
      case WrongPassword => (f, if p.maxFailures <= 0 then Invalid else Refusal(f, now, Invalid))
      case WrongCode => (f, if p.maxFailures <= 0 then CodeInvalid else Refusal(f, now, CodeInvalid))
      case NoCode => (l, CodeRequired)
      case Valid => (CLEAR, Welcome)
  }

  function Step(p: Policy, a: Account, e: Event): Account {
    match e
    case Attempt(at, c) => Login(p, a, c, at).0
    case Unlock(_) => CLEAR
    case Sweep(at) => if a.lockedUntil.Some? && a.lockedUntil.value < at then CLEAR else a
  }

  // ------------------------------------------------------------------ the bound

  /** Wrong credentials that were actually compared, not turned away by a lock. */
  predicate Evaluated(a: Account, e: Event) {
    e.Attempt? && (e.credentials == WrongPassword || e.credentials == WrongCode) && !IsLocked(a, e.at)
  }

  /** A success or an administrator's unlock, which both start a new budget. */
  predicate Restarts(a: Account, e: Event) {
    e.Unlock? || (e.Attempt? && e.credentials == Valid && !IsLocked(a, e.at))
  }

  predicate Timed(now: int, events: seq<Event>)
    decreases |events|
  {
    events == [] || (now <= events[0].at && Timed(events[0].at, events[1..]))
  }

  predicate Undisturbed(p: Policy, a: Account, events: seq<Event>)
    decreases |events|
  {
    events == [] || (!Restarts(a, events[0]) && Undisturbed(p, Step(p, a, events[0]), events[1..]))
  }

  /** How many wrong credentials were evaluated at a time in [lo, lo + window). */
  function EvaluatedIn(p: Policy, a: Account, events: seq<Event>, lo: int): nat
    decreases |events|
  {
    if events == [] then 0
    else
      var e := events[0];
      (if Evaluated(a, e) && lo <= e.at < lo + Window(p) then 1 else 0) + EvaluatedIn(p, Step(p, a, e), events[1..], lo)
  }

  /** The count has reached the threshold exactly while a lock is recorded. */
  ghost predicate Coherent(p: Policy, a: Account) {
    a.failures >= p.maxFailures <==> a.lockedUntil.Some?
  }

  /** What the account still allows in [lo, lo + window). */
  function Budget(p: Policy, a: Account, now: int, lo: int): int {
    if a.lockedUntil.Some? then (if a.lockedUntil.value >= lo + Window(p) then 0 else p.maxFailures)
    else if now < lo then p.maxFailures
    else p.maxFailures - a.failures
  }

  /** Every step keeps the count and the lock together, whatever the event. */
  lemma StepCoherent(p: Policy, a: Account, e: Event)
    requires p.maxFailures >= 1 && Coherent(p, a)
    ensures Coherent(p, Step(p, a, e))
  {
  }

  lemma BudgetStep(p: Policy, a: Account, e: Event, now: int, lo: int)
    requires p.maxFailures >= 1 && Coherent(p, a) && now <= e.at < lo + Window(p) && !Restarts(a, e)
    ensures Budget(p, Step(p, a, e), e.at, lo) + (if Evaluated(a, e) && lo <= e.at then 1 else 0) <= Budget(p, a, now, lo)
  {
  }

  lemma {:induction false} NothingAfter(p: Policy, a: Account, events: seq<Event>, now: int, lo: int)
    requires Timed(now, events) && now >= lo + Window(p)
    ensures EvaluatedIn(p, a, events, lo) == 0
    decreases |events|
  {
    if events != [] { NothingAfter(p, Step(p, a, events[0]), events[1..], events[0].at, lo); }
  }

  lemma {:induction false} BudgetHolds(p: Policy, a: Account, events: seq<Event>, now: int, lo: int)
    requires p.maxFailures >= 1 && Coherent(p, a) && Timed(now, events) && Undisturbed(p, a, events)
    ensures EvaluatedIn(p, a, events, lo) <= Max(0, Budget(p, a, now, lo))
    decreases |events|
  {
    if events != [] {
      var e, b := events[0], Step(p, a, events[0]);
      if e.at < lo + Window(p) {
        StepCoherent(p, a, e);
        BudgetStep(p, a, e, now, lo);
        BudgetHolds(p, b, events[1..], e.at, lo);
      } else {
        NothingAfter(p, b, events[1..], e.at, lo);
      }
    }
  }

  /** Without a success or an unlock, at most maxFailures wrong credentials are evaluated in any span as
      long as the lockout window, however attempts, waits and sweeps are interleaved. */
  lemma LockoutBound(p: Policy, a: Account, events: seq<Event>, now: int, lo: int)
    requires p.maxFailures >= 1 && Coherent(p, a) && Timed(now, events) && Undisturbed(p, a, events)
    ensures EvaluatedIn(p, a, events, lo) <= p.maxFailures
  {
    BudgetHolds(p, a, events, now, lo);
  }

  function After(p: Policy, a: Account, events: seq<Event>): Account
    decreases |events|
  {
    if events == [] then a else After(p, Step(p, a, events[0]), events[1..])
  }

  /** Over every run, in any order of times: a count at the threshold always goes with a recorded lock. */
  lemma {:induction false} AlwaysCoherent(p: Policy, a: Account, events: seq<Event>)
    requires p.maxFailures >= 1 && Coherent(p, a)
    ensures Coherent(p, After(p, a, events))
    decreases |events|
  {
    if events != [] {
      StepCoherent(p, a, events[0]);
      AlwaysCoherent(p, Step(p, a, events[0]), events[1..]);
    }
  }

  /** A lock that is running turns every attempt away for exactly one window after the failure that set it. */
  lemma LockHolds(p: Policy, a: Account, c: Credentials, t: int, now: int)
    requires p.maxFailures >= 1 && Coherent(p, a) && (c == WrongPassword || c == WrongCode)
    requires !IsLocked(a, t) && Login(p, a, c, t).0.lockedUntil.Some? && now >= t
    ensures var b := Login(p, a, c, t).0;
            forall d :: Login(p, b, d, now).1.Locked? || Login(p, b, d, now) == Login(p, CLEAR, d, now)
    ensures var b := Login(p, a, c, t).0; IsLocked(b, now) <==> now < t + Window(p)
  {
  }

  /** With the threshold at zero no account is ever locked, and no count is kept. */
  lemma {:induction false} DisabledNeverLocks(p: Policy, events: seq<Event>)
    requires p.maxFailures <= 0
    ensures After(p, CLEAR, events) == CLEAR
    decreases |events|
  {
    if events != [] {
      assert Step(p, CLEAR, events[0]) == CLEAR;
      DisabledNeverLocks(p, events[1..]);
    }
  }

  // --------------------------------------------------------------- who gets in

  /** Only the right password, with the code if there is one, gets in, and only at an account that is not
      locked; everybody else learns what was wrong, or that the account is locked. */
  ghost predicate Answers(a: Account, c: Credentials, now: int, answer: Answer) {
    && (answer == Welcome <==> c == Valid && !IsLocked(a, now))
    && (answer == CodeRequired <==> c == NoCode && !IsLocked(a, now))
    && (answer == Invalid ==> c == WrongPassword) && (answer == CodeInvalid ==> c == WrongCode)
    && (IsLocked(a, now) ==> answer == Locked(a.lockedUntil.value))
  }

  lemma LoginAnswers(p: Policy, a: Account, c: Credentials, now: int)
    ensures Answers(a, c, now, Login(p, a, c, now).1)
  {
  }

  /** Leaving the code out is no failure: however often it happens, the next attempt fares as if it had not. */
  lemma AskingForTheCodeIsFree(p: Policy, a: Account, c: Credentials, now: int)
    requires !IsLocked(a, now)
    ensures Login(p, Login(p, a, NoCode, now).0, c, now) == Login(p, a, c, now)
  {
  }

  function Attempts(n: nat, c: Credentials, at: int): seq<Event> {
    if n == 0 then [] else [Attempt(at, c)] + Attempts(n - 1, c, at)
  }

  /** Below the threshold wrong credentials are counted one by one and refused by name. */
  lemma {:induction false} CountsUp(p: Policy, n: nat, k: nat, c: Credentials, at: int)
    requires (c == WrongPassword || c == WrongCode) && n + k < p.maxFailures
    ensures After(p, Account(k, None), Attempts(n, c, at)) == Account(k + n, None)
    ensures k + 1 < p.maxFailures ==> Login(p, Account(k, None), c, at).1 == if c == WrongPassword then Invalid else CodeInvalid
    decreases n
  {
    if n > 0 { CountsUp(p, n - 1, k + 1, c, at); }
  }

  /** The threshold is exact: after one failure less the right credentials still get in and clear the count;
      the next failure locks the account for the window and says so. */
  lemma ThresholdIsExact(p: Policy, c: Credentials, at: int)
    requires p.maxFailures >= 1 && p.minutes >= 1 && (c == WrongPassword || c == WrongCode)
    ensures var a := After(p, CLEAR, Attempts(p.maxFailures - 1, c, at));
            && Login(p, a, Valid, at) == (CLEAR, Welcome)
            && var until := at + p.minutes * 60_000_000_000;
               Login(p, a, c, at) == (Account(p.maxFailures, Some(until)), Locked(until))
  {
    CountsUp(p, p.maxFailures - 1, 0, c, at);
  }

  // ------------------------------------------------------------ the users row

  class UserRow {
    var failedLoginCount: nat
    var lockedUntil: Option<int>

    function State(): Account
      reads this
    {
      Account(failedLoginCount, lockedUntil)
    }

    constructor ()
      ensures State() == CLEAR
    {
      failedLoginCount, lockedUntil := 0, None;
    }

    method LockedUntil(now: int) returns (until: Option<int>)
      modifies this
      ensures State() == (if IsLocked(old(State()), now) then old(State()) else Looked(old(State()), now))
      ensures until == if IsLocked(old(State()), now) then old(lockedUntil) else None
    {
      if lockedUntil.None? { return None; }
      if lockedUntil.value > now { return lockedUntil; }
      failedLoginCount, lockedUntil := 0, None;
      return None;
    }

    method RegisterLoginFailure(p: Policy, now: int) returns (until: Option<int>)
      modifies this
      ensures State() == Failed(p, old(State()), now)
      ensures failedLoginCount == old(failedLoginCount) + if p.maxFailures > 0 then 1 else 0
      ensures until == if p.maxFailures > 0 && IsLocked(State(), now) then lockedUntil else None
      ensures p.maxFailures >= 1 && old(Coherent(p, State())) ==> Coherent(p, State())
      ensures p.maxFailures >= 1 && p.minutes >= 1 && old(Coherent(p, State()) && lockedUntil.None?) ==>
                (until.Some? <==> failedLoginCount >= p.maxFailures)
    {
      if p.maxFailures <= 0 { return None; }
      failedLoginCount := failedLoginCount + 1;
      if failedLoginCount >= p.maxFailures { lockedUntil := Some(now + Window(p)); }
      return if lockedUntil.Some? && lockedUntil.value > now then lockedUntil else None;
    }

    method PasswordLogin(p: Policy, c: Credentials, now: int) returns (answer: Answer)
      modifies this
      ensures (State(), answer) == Login(p, old(State()), c, now)
      ensures Answers(old(State()), c, now, answer)
      ensures c == NoCode && !old(IsLocked(State(), now)) ==> lockedUntil.None? && failedLoginCount == if old(lockedUntil).None? then old(failedLoginCount) else 0
      ensures answer == Welcome ==> failedLoginCount == 0 && lockedUntil.None?
      ensures old(IsLocked(State(), now)) ==> State() == old(State())
    {
      var until := LockedUntil(now);
      if until.Some? { return Locked(until.value); }
      if c == WrongPassword {
        until := RegisterLoginFailure(p, now);
        return if until.Some? then Locked(until.value) else Invalid;
      }
      if c == NoCode { return CodeRequired; }
      if c == WrongCode {
        until := RegisterLoginFailure(p, now);
        return if until.Some? then Locked(until.value) else CodeInvalid;
      }
      failedLoginCount, lockedUntil := 0, None;
      return Welcome;
    }

    method Unlock()
      modifies this
      ensures forall p, at :: State() == Step(p, old(State()), Event.Unlock(at))
    {
      failedLoginCount, lockedUntil := 0, None;
    }

    method ClearExpired(now: int)
      modifies this
      ensures forall p :: State() == Step(p, old(State()), Sweep(now))
      ensures forall p: Policy :: p.maxFailures >= 1 && old(Coherent(p, State())) ==> Coherent(p, State())
      ensures forall p, c, t :: t >= now ==> Login(p, State(), c, t) == Login(p, old(State()), c, t)
    {
      if lockedUntil.Some? && lockedUntil.value < now {
        failedLoginCount, lockedUntil := 0, None;
      }
    }
  }
}
