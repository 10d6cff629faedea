// The fixed-window rate limiter of internal/web/server.go: a counter per key, swept once a minute and
// bounded by a cap that resets the whole table.
module RateLimit {
  import opened Common

  /** Times are nanoseconds. */
  const MINUTE := 60_000_000_000
  const MAX_ENTRIES := 50000

  datatype Entry = Entry(window: int, count: nat)
  type Table = map<string, Entry>

  datatype Limiter = Limiter(entries: Table, sweptAt: int)

  datatype Op = Allow(key: string, limit: int) | Blocked(key: string, limit: int) | Record(key: string)
  datatype Request = Request(at: int, op: Op)

  predicate Current(entries: Table, key: string, now: int) {
    key in entries && now - entries[key].window < MINUTE
  }

  function Live(entries: Table, now: int): Table {
    map k | k in entries && now - entries[k].window < MINUTE :: entries[k]
  }

  predicate SweepDue(l: Limiter, now: int) {
    now - l.sweptAt >= MINUTE || |l.entries| >= MAX_ENTRIES
  }

  /** The sweep found the table full of current windows and dropped it. */
  predicate CapReset(l: Limiter, now: int) {
    SweepDue(l, now) && |Live(l.entries, now)| >= MAX_ENTRIES
  }

  function Swept(l: Limiter, now: int): Limiter {
    if !SweepDue(l, now) then l
    else Limiter(if CapReset(l, now) then map[] else Live(l.entries, now), now)
  }

  /** One operation on the table, and the answer it gives: allowed, blocked, or simply recorded. */
  function Act(entries: Table, op: Op, now: int): (Table, bool) {
    match op
    case Allow(key, limit) =>
      if !Current(entries, key, now) then (entries[key := Entry(now, 1)], true)
      else (entries[key := entries[key].(count := entries[key].count + 1)], entries[key].count + 1 <= limit)
    case Blocked(key, limit) =>
      (entries, Current(entries, key, now) && entries[key].count >= limit)
    case Record(key) =>
      if Current(entries, key, now) then (entries[key := entries[key].(count := entries[key].count + 1)], true)
      else (entries[key := Entry(now, 1)], true)
  }

  function Step(l: Limiter, op: Op, now: int): (Limiter, bool) {
    var s := Swept(l, now);
    var (entries, answer) := Act(s.entries, op, now);
    (Limiter(entries, s.sweptAt), answer)
  }

  // ------------------------------------------------------------------- memory

  lemma NeverOverTheCap(l: Limiter, op: Op, now: int)
    ensures |Swept(l, now).entries| < MAX_ENTRIES
    ensures |Step(l, op, now).0.entries| <= 50000
  {
    var s, t := Swept(l, now).entries, Step(l, op, now).0.entries;
    assert t.Keys <= s.Keys + {op.key};
    SubsetSize(t.Keys, s.Keys + {op.key});
  }

  // ----------------------------------------------- sweeping does not change answers

  predicate Timed(now: int, requests: seq<Request>)
    decreases |requests|
  {
    requests == [] || (now <= requests[0].at && Timed(requests[0].at, requests[1..]))
  }

  ghost predicate NoReset(l: Limiter, requests: seq<Request>)
    decreases |requests|
  {
    requests == [] ||
    (!CapReset(l, requests[0].at) && NoReset(Step(l, requests[0].op, requests[0].at).0, requests[1..]))
  }

  function Answers(l: Limiter, requests: seq<Request>): (a: seq<bool>)
    ensures |a| == |requests|
    decreases |requests|
  {
    if requests == [] then []
    else var (l', answer) := Step(l, requests[0].op, requests[0].at); [answer] + Answers(l', requests[1..])
  }

  /** The same requests against a table that is never swept and never full. */
  function PlainAnswers(entries: Table, requests: seq<Request>): (a: seq<bool>)
    ensures |a| == |requests|
    decreases |requests|
  {
    if requests == [] then []
    else var (e, answer) := Act(entries, requests[0].op, requests[0].at); [answer] + PlainAnswers(e, requests[1..])
  }

  /** The bounded table holds a part of the plain one, with every window that is still current. */
  ghost predicate Agree(bounded: Table, plain: Table, now: int) {
    && (forall k :: k in bounded ==> k in plain && plain[k] == bounded[k])
    && (forall k :: Current(plain, k, now) ==> k in bounded)
  }

  lemma StepAgrees(l: Limiter, plain: Table, now: int, r: Request)
    requires Agree(l.entries, plain, now) && now <= r.at && !CapReset(l, r.at)
    ensures Step(l, r.op, r.at).1 == Act(plain, r.op, r.at).1
    ensures Agree(Step(l, r.op, r.at).0.entries, Act(plain, r.op, r.at).0, r.at)
  {
    forall k | Current(plain, k, r.at) ensures Current(plain, k, now) && k in Swept(l, r.at).entries {
    }
    assert Current(plain, r.op.key, r.at) <==> Current(Swept(l, r.at).entries, r.op.key, r.at);
  }

  /** Until the cap resets the table, the sweep is invisible: every answer is the plain limiter's. */
  lemma {:induction false} SweepIsInvisible(l: Limiter, plain: Table, now: int, requests: seq<Request>)
    requires Agree(l.entries, plain, now) && Timed(now, requests) && NoReset(l, requests)
    ensures Answers(l, requests) == PlainAnswers(plain, requests)
    decreases |requests|
  {
    if requests != [] {
      StepAgrees(l, plain, now, requests[0]);
      SweepIsInvisible(Step(l, requests[0].op, requests[0].at).0, Act(plain, requests[0].op, requests[0].at).0,
                       requests[0].at, requests[1..]);
    }
  }

  // ------------------------------------------------------- what the three operations share

  /** Once a minute has gone by since the last sweep, the next operation leaves no window behind that has run
      out, and the next minute begins. */
  lemma SweptOnceAMinute(l: Limiter, op: Op, now: int)
    requires now - l.sweptAt >= 60_000_000_000
    ensures Step(l, op, now).0.sweptAt == now
    ensures forall k :: k in Step(l, op, now).0.entries ==> now - Step(l, op, now).0.entries[k].window < 60_000_000_000
  {
  }

  /** Asking whether a key is blocked answers what trying would: it is blocked exactly when the next request
      would be refused. And asking changes no counter. */
  lemma BlockedIsRefusal(l: Limiter, key: string, limit: int, now: int)
    requires limit >= 1
    ensures Step(l, Blocked(key, limit), now).1 <==> !Step(l, Allow(key, limit), now).1
    ensures Step(l, Blocked(key, limit), now).0 == Swept(l, now)
  {
  }

  /** Recording an event counts what a request counts, and no other key ever notices either. */
  lemma RecordCounts(l: Limiter, key: string, limit: int, now: int)
    ensures Step(l, Record(key), now).0 == Step(l, Allow(key, limit), now).0
    ensures forall other :: other != key ==>
              (other in Step(l, Record(key), now).0.entries <==> other in Swept(l, now).entries)
              && (other in Swept(l, now).entries ==> Step(l, Record(key), now).0.entries[other] == Swept(l, now).entries[other])
  {
  }

  function Recorded(entries: Table, key: string, at: int, n: nat): Table {
    if n == 0 then entries else Act(Recorded(entries, key, at, n - 1), Record(key), at).0
  }

  /** So a key with no running window is blocked after exactly `limit` events, until a minute after the
      first of them. */
  lemma {:induction false} BlockedAfterLimit(entries: Table, key: string, limit: int, at: int, n: nat, later: int)
    requires limit >= 1 && !Current(entries, key, at) && at <= later && n >= 1
    ensures key in Recorded(entries, key, at, n) && Recorded(entries, key, at, n)[key] == Entry(at, n)
    ensures Act(Recorded(entries, key, at, n), Blocked(key, limit), later).1 <==> n >= limit && later < at + 60_000_000_000
    decreases n
  {
    if n > 1 { BlockedAfterLimit(entries, key, limit, at, n - 1, later); }
  }

  // --------------------------------------------------------------------- budget

  ghost predicate FixedLimit(requests: seq<Request>, key: string, limit: int) {
    forall r :: r in requests && r.op.Allow? && r.op.key == key ==> r.op.limit == limit
  }

  /** How many requests of `key` were allowed at a time in [lo, lo + 1 minute). */
  function AllowedIn(requests: seq<Request>, answers: seq<bool>, key: string, lo: int): nat
    requires |requests| == |answers|
    decreases |requests|
  {
    if requests == [] then 0
    else
      var r := requests[0];
      (if r.op.Allow? && r.op.key == key && answers[0] && lo <= r.at < lo + MINUTE then 1 else 0)
      + AllowedIn(requests[1..], answers[1..], key, lo)
  }

  /** What the rest of a run can still allow in the interval: what is left of the window the interval
      cuts, and one whole window more. */
  function Budget(entries: Table, key: string, limit: int, now: int, lo: int): int
    requires limit >= 1
  {
    if now < lo then 2 * limit - 1
    else if key !in entries then limit
    else Max(0, limit - entries[key].count) + if entries[key].window >= lo then 0 else limit
  }

  /** Counters start at one, and windows are opened no later than now. */
  ghost predicate Started(entries: Table, now: int) {
    forall k :: k in entries ==> entries[k].count >= 1 && entries[k].window <= now
  }

  /** Every request is paid for: what it uses up plus what is left is at most what was left before. */
  lemma BudgetStep(entries: Table, r: Request, key: string, limit: int, now: int, lo: int)
    requires limit >= 1 && now <= r.at < lo + MINUTE && Started(entries, now)
    requires r.op.Allow? && r.op.key == key ==> r.op.limit == limit
    ensures var (e, answer) := Act(entries, r.op, r.at);
            && Started(e, r.at)
            && Budget(entries, key, limit, now, lo)
               >= Budget(e, key, limit, r.at, lo) + if r.op.Allow? && r.op.key == key && answer && lo <= r.at then 1 else 0
  {
  }

  lemma {:induction false} BudgetHolds(entries: Table, requests: seq<Request>, key: string, limit: int, now: int, lo: int)
    requires limit >= 1 && Timed(now, requests) && FixedLimit(requests, key, limit) && Started(entries, now)
    ensures AllowedIn(requests, PlainAnswers(entries, requests), key, lo) <= Budget(entries, key, limit, now, lo)
    decreases |requests|
  {
    if requests != [] {
      var r, rest := requests[0], requests[1..];
      var (e, answer) := Act(entries, r.op, r.at);
      assert PlainAnswers(entries, requests)[1..] == PlainAnswers(e, rest);
      if r.at < lo + MINUTE {
        assert r in requests;
        BudgetStep(entries, r, key, limit, now, lo);
        BudgetHolds(e, rest, key, limit, r.at, lo);
      } else {
        NothingAfter(e, rest, key, r.at, lo);
      }
    }
  }

  lemma {:induction false} NothingAfter(entries: Table, requests: seq<Request>, key: string, now: int, lo: int)
    requires Timed(now, requests) && now >= lo + MINUTE
    ensures AllowedIn(requests, PlainAnswers(entries, requests), key, lo) == 0
    decreases |requests|
  {
    if requests != [] {
      var e := Act(entries, requests[0].op, requests[0].at).0;
      NothingAfter(e, requests[1..], key, requests[0].at, lo);
      assert PlainAnswers(entries, requests)[1..] == PlainAnswers(e, requests[1..]);
    }
  }

  /** With a fixed limit and a clock that does not step back, at most 2 * limit - 1 requests of one key
      are allowed in any half-open minute, as long as the cap does not reset the table. */
  lemma BurstBound(started: int, requests: seq<Request>, key: string, limit: int, lo: int)
    requires limit >= 1 && Timed(started, requests) && FixedLimit(requests, key, limit)
    requires NoReset(Limiter(map[], started), requests)
    ensures AllowedIn(requests, Answers(Limiter(map[], started), requests), key, lo) <= 2 * limit - 1
  {
    SweepIsInvisible(Limiter(map[], started), map[], started, requests);
    BudgetHolds(map[], requests, key, limit, started, lo);
  }

  function Times(n: nat, at: int, key: string, limit: int): seq<Request> {
    if n == 0 then [] else [Request(at, Allow(key, limit))] + Times(n - 1, at, key, limit)
  }

  /** Inside one window, n requests that the limit leaves room for are all allowed. */
  lemma {:induction false} AllAllowed(entries: Table, n: nat, at: int, key: string, limit: int, lo: int, rest: seq<Request>)
    requires Current(entries, key, at) && entries[key].count + n <= limit && lo <= at < lo + MINUTE
    ensures var requests := Times(n, at, key, limit) + rest;
            var full := entries[key := entries[key].(count := entries[key].count + n)];
            AllowedIn(requests, PlainAnswers(entries, requests), key, lo) == n + AllowedIn(rest, PlainAnswers(full, rest), key, lo)
  {
    if n == 0 {
      assert Times(0, at, key, limit) + rest == rest;
      assert entries == entries[key := entries[key].(count := entries[key].count + 0)];
    } else {
      var requests := Times(n, at, key, limit) + rest;
      var next := entries[key := entries[key].(count := entries[key].count + 1)];
      assert requests[0] == Request(at, Allow(key, limit)) && requests[1..] == Times(n - 1, at, key, limit) + rest;
      assert PlainAnswers(entries, requests)[1..] == PlainAnswers(next, requests[1..]);
      assert next[key := next[key].(count := next[key].count + (n - 1))] == entries[key := entries[key].(count := entries[key].count + n)];
      AllAllowed(next, n - 1, at, key, limit, lo, rest);
    }
  }

  /** Requests of one key never fill the table. */
  lemma {:induction false} OneKeyNeverResets(l: Limiter, requests: seq<Request>, key: string)
    requires l.entries.Keys <= {key} && forall r :: r in requests ==> r.op.key == key
    ensures NoReset(l, requests)
    decreases |requests|
  {
    if requests != [] {
      var r := requests[0];
      assert r in requests && forall q :: q in requests[1..] ==> q in requests;
      SubsetSize(Live(l.entries, r.at).Keys, {key});
      OneKeyNeverResets(Step(l, r.op, r.at).0, requests[1..], key);
    }
  }

  lemma {:induction false} TimesOfKey(n: nat, at: int, key: string, limit: int)
    ensures forall r :: r in Times(n, at, key, limit) ==> r == Request(at, Allow(key, limit))
  {
    if n > 0 { TimesOfKey(n - 1, at, key, limit); }
  }

  lemma {:induction false} TimedTail(now: int, n: nat, at: int, key: string, limit: int, rest: seq<Request>)
    requires now <= at && Timed(at, rest)
    ensures Timed(now, Times(n, at, key, limit) + rest)
    decreases n
  {
    var all := Times(n, at, key, limit) + rest;
    if n == 0 {
      assert all == rest;
    } else {
      assert all[0].at == at && all[1..] == Times(n - 1, at, key, limit) + rest;
      TimedTail(at, n - 1, at, key, limit, rest);
    }
  }

  function Burst(key: string, limit: int): seq<Request>
    requires limit >= 1
  {
    [Request(0, Allow(key, limit))] + (Times(limit - 1, MINUTE - 1, key, limit) + Times(limit, MINUTE, key, limit))
  }

  /** The bound is reached for every limit: one request opens a window, limit - 1 fill it at its very
      end, and the next limit requests find a new one a nanosecond later. */
  lemma BurstReached(key: string, limit: int)
    requires limit >= 1
    ensures var requests := Burst(key, limit);
            Timed(0, requests) && AllowedIn(requests, Answers(Limiter(map[], 0), requests), key, MINUTE - 1) == 2 * limit - 1
  {
    var fill, later := Times(limit - 1, MINUTE - 1, key, limit), Times(limit, MINUTE, key, limit);
    TimesOfKey(limit - 1, MINUTE - 1, key, limit);
    TimesOfKey(limit, MINUTE, key, limit);
    OneKeyNeverResets(Limiter(map[], 0), Burst(key, limit), key);
    TimedTail(MINUTE - 1, limit, MINUTE, key, limit, []);
    assert later + [] == later;
    TimedTail(0, limit - 1, MINUTE - 1, key, limit, later);
    assert Burst(key, limit)[1..] == fill + later;
    SweepIsInvisible(Limiter(map[], 0), map[], 0, Burst(key, limit));
    PlainBurst(key, limit);
  }

  lemma PlainBurst(key: string, limit: int)
    requires limit >= 1
    ensures AllowedIn(Burst(key, limit), PlainAnswers(map[], Burst(key, limit)), key, MINUTE - 1) == 2 * limit - 1
  {
    var lo, later := MINUTE - 1, Times(limit, MINUTE, key, limit);
    var tail := Times(limit - 1, lo, key, limit) + later;
    var requests := [Request(0, Allow(key, limit))] + tail;
    var first, full := map[key := Entry(0, 1)], map[key := Entry(0, limit)];
    assert requests[1..] == tail && PlainAnswers(map[], requests)[1..] == PlainAnswers(first, tail);
    AllAllowed(first, limit - 1, lo, key, limit, lo, later);
    assert first[key := first[key].(count := first[key].count + (limit - 1))] == full;
    var again, rest := full[key := Entry(MINUTE, 1)], Times(limit - 1, MINUTE, key, limit);
    assert later[1..] == rest && PlainAnswers(full, later)[1..] == PlainAnswers(again, rest);
    AllAllowed(again, limit - 1, MINUTE, key, limit, lo, []);
    assert rest + [] == rest;
  }

  // ------------------------------------------------------------------ the limiter

  class RateLimiter {
    var entries: Table
    var sweptAt: int

    function State(): Limiter
      reads this
    {
      Limiter(entries, sweptAt)
    }

    constructor (now: int)
      ensures State() == Limiter(map[], now)
    {
      entries, sweptAt := map[], now;
    }

    method Sweep(now: int)
      modifies this
      ensures State() == Swept(old(State()), now)
    {
      if now - sweptAt < MINUTE && |entries| < MAX_ENTRIES { return; }
      var todo := entries.Keys;
      while todo != {}
        invariant todo <= old(entries).Keys && sweptAt == old(sweptAt)
        invariant entries == map k | k in old(entries) && (k in todo || now - old(entries)[k].window < MINUTE) :: old(entries)[k]
        decreases todo
      {
        var key :| key in todo;
        if now - entries[key].window >= MINUTE {
          entries := entries - {key};
        }
        todo := todo - {key};
      }
      assert entries == Live(old(entries), now);
      if |entries| >= MAX_ENTRIES {
        entries := map[];
      }
      sweptAt := now;
    }

    method Allow(key: string, limit: int, now: int) returns (ok: bool)
      modifies this
      ensures (State(), ok) == Step(old(State()), Op.Allow(key, limit), now)
    {
      Sweep(now);
      if key !in entries || now - entries[key].window >= MINUTE {
        entries := entries[key := Entry(now, 1)];
        return true;
      }
      var e := entries[key];
      entries := entries[key := Entry(e.window, e.count + 1)];
      return e.count + 1 <= limit;
    }

    method Blocked(key: string, limit: int, now: int) returns (blocked: bool)
      modifies this
      ensures (State(), blocked) == Step(old(State()), Op.Blocked(key, limit), now)
    {
      Sweep(now);
      return key in entries && now - entries[key].window < MINUTE && entries[key].count >= limit;
    }

    method Record(key: string, now: int)
      modifies this
      ensures (State(), true) == Step(old(State()), Op.Record(key), now)
    {
      Sweep(now);
      if key in entries && now - entries[key].window < MINUTE {
        entries := entries[key := Entry(entries[key].window, entries[key].count + 1)];
        return;
      }
      entries := entries[key := Entry(now, 1)];
    }
  }
}
