// How a notification reaches a mailbox: notifyTx and WantsImmediateMail of internal/store/notify.go,
// delivery and daily digests of internal/notify/worker.go. A notification goes out at once, in a
// digest, or not at all -- never in two of these ways.
module MailRouting {
  import opened Common

  type Id = nat

  const DIGEST_LIMIT := 200

  datatype Notification = Notification(recipient: string, event: string, createdAt: int, emailedAt: Option<int>)

  /** A row of notification_preferences; a reader may have none. */
  datatype Preference = Preference(enabled: bool, digest: string, muted: seq<string>)

  /** The mail settings, as far as routing looks at them, and the events that report on the service itself. */
  datatype Config = Config(enabled: bool, allowed: set<string>)

  datatype Flight = Flight(included: seq<Id>)

  /** What one digest contained, and whether marking it as sent succeeded. */
  datatype Digest = Digest(ids: set<Id>, marked: bool)

  /** The notifications, every send job ever created, the digest being sent, and those sent before. */
  datatype Mailbox = Mailbox(notes: map<Id, Notification>, nextId: Id, jobs: set<Id>, flight: Option<Flight>, digests: seq<Digest>)

  const EMPTY := Mailbox(map[], 0, {}, None, [])

  // ------------------------------------------------------------------- routing

  /** WantsImmediateMail; settings that cannot be loaded mean no mail. */
  function WantsImmediateMail(cfg: Option<Config>, pref: Option<Preference>, event: string): bool {
    if cfg.None? || !cfg.value.enabled || event !in cfg.value.allowed then false
    else if pref.None? then true
    else if !pref.value.enabled then false
    else if event in pref.value.muted then false
    else pref.value.digest != "DAILY"
  }

  datatype Route = Withheld | Immediate | Left

  /** notifyTx: what happens to the notification in the transaction that creates it. */
  function Routed(own: bool, aboutTheService: bool, cfg: Option<Config>, pref: Option<Preference>, event: string): Route {
    if own && !aboutTheService then Withheld
    else if WantsImmediateMail(cfg, pref, event) then Immediate
    else Left
  }

  function Notified(m: Mailbox, recipient: string, event: string, route: Route, now: int): Mailbox {
    var n := Notification(recipient, event, now, if route == Left then None else Some(now));
    m.(notes := m.notes[m.nextId := n], nextId := m.nextId + 1, jobs := if route == Immediate then m.jobs + {m.nextId} else m.jobs)
  }

  // -------------------------------------------------------------------- digests

  predicate IsCandidate(n: Notification, recipient: string, muted: set<string>, allowed: set<string>) {
    n.recipient == recipient && n.emailedAt.None? && n.event !in muted && n.event in allowed
  }

  function Candidates(notes: map<Id, Notification>, recipient: string, muted: set<string>, allowed: set<string>): set<Id> {
    set id | id in notes && IsCandidate(notes[id], recipient, muted, allowed)
  }

  function Ids(s: seq<Id>): set<Id> {
    set id | id in s
  }

  /** A digest takes up to 200 of the oldest candidates, oldest first, each once. */
  ghost predicate IsSelection(notes: map<Id, Notification>, among: set<Id>, included: seq<Id>)
    requires among <= notes.Keys
  {
    && (forall i :: 0 <= i < |included| ==> included[i] in among)
    && (forall i, j :: 0 <= i < j < |included| ==> included[i] != included[j])
    && |included| == Min(DIGEST_LIMIT, |among|)
    && (forall i, j :: 0 <= i < j < |included| ==> notes[included[i]].createdAt <= notes[included[j]].createdAt)
    && (forall id, i :: id in among && id !in included && 0 <= i < |included| ==> notes[included[i]].createdAt <= notes[id].createdAt)
  }

  /** The listed notifications are stamped as mailed; the others stay as they are. */
  function Stamped(notes: map<Id, Notification>, ids: set<Id>, now: int): map<Id, Notification> {
    map id | id in notes :: if id in ids then notes[id].(emailedAt := Some(now)) else notes[id]
  }

  // ---------------------------------------------------------------- the machine

  datatype Step = Notify(recipient: string, event: string, route: Route)
                | Deliver(id: Id, marked: bool)
                | SelectDigest(recipient: string, muted: set<string>, allowed: set<string>, included: seq<Id>)
                | SendDigest(sent: bool, marked: bool)
                | Expire(ids: set<Id>)

  ghost predicate Enabled(m: Mailbox, step: Step) {
    match step
    case Notify(_, _, _) => true
    case Deliver(id, _) => id in m.jobs
    case SelectDigest(recipient, muted, allowed, included) =>
      m.flight.None? && included != [] && IsSelection(m.notes, Candidates(m.notes, recipient, muted, allowed), included)
    case SendDigest(_, _) => m.flight.Some?
    case Expire(_) => true
  }

  function Next(m: Mailbox, step: Step, now: int): Mailbox
    requires step.SendDigest? ==> m.flight.Some?
  {
    match step
    case Notify(recipient, event, route) => Notified(m, recipient, event, route, now)
    case Deliver(id, marked) =>
      if marked && id in m.notes && m.notes[id].emailedAt.None? then m.(notes := Stamped(m.notes, {id}, now)) else m
    case SelectDigest(_, _, _, included) => m.(flight := Some(Flight(included)))
    case SendDigest(sent, marked) =>
      if !sent then m.(flight := None)
      else
        var ids := Ids(m.flight.value.included);
        m.(flight := None, digests := m.digests + [Digest(ids, marked)], notes := if marked then Stamped(m.notes, ids, now) else m.notes)
    case Expire(ids) => m.(notes := m.notes - ids)
  }

  // ------------------------------------------------------------------- exclusivity

  function Flying(m: Mailbox): set<Id> {
    if m.flight.None? then {} else Ids(m.flight.value.included)
  }

  predicate InDigest(digests: seq<Digest>, i: int, id: Id) {
    0 <= i < |digests| && id in digests[i].ids
  }

  /** Sent for good: by a job, or in a digest that was marked. */
  ghost predicate Spent(m: Mailbox, id: Id) {
    id in m.jobs || exists i :: InDigest(m.digests, i, id) && m.digests[i].marked
  }

  /** No notification has both a send job and a place in a digest, and none is in a digest after one that was marked. */
  ghost predicate Exclusive(m: Mailbox) {
    && (forall i, id :: InDigest(m.digests, i, id) ==> id !in m.jobs)
    && (forall i, j, id :: i < j && InDigest(m.digests, i, id) && InDigest(m.digests, j, id) ==> !m.digests[i].marked)
  }

  ghost predicate Known(m: Mailbox) {
    && (forall id :: id in m.notes ==> id < m.nextId)
    && (forall id :: id in m.jobs ==> id < m.nextId)
    && (forall id :: id in Flying(m) ==> id < m.nextId)
    && (forall i, id: Id :: InDigest(m.digests, i, id) ==> id < m.nextId)
  }

  ghost predicate Invariant(m: Mailbox) {
    && Known(m) && Exclusive(m)
    && (forall id :: id in m.notes && Spent(m, id) ==> m.notes[id].emailedAt.Some?)
    && (forall id :: id in Flying(m) ==> !Spent(m, id))
    && (forall id :: id in Flying(m) && id in m.notes ==> m.notes[id].emailedAt.None?)
  }

  lemma NotifyKeeps(m: Mailbox, recipient: string, event: string, route: Route, now: int)
    requires Invariant(m)
    ensures Invariant(Notified(m, recipient, event, route, now))
  {
    var t := Notified(m, recipient, event, route, now);
    assert m.nextId !in m.jobs && Flying(t) == Flying(m) && t.digests == m.digests;
    assert forall id :: id != m.nextId ==> (Spent(t, id) <==> Spent(m, id));
    assert Spent(t, m.nextId) ==> t.notes[m.nextId].emailedAt.Some?;
  }

  /** What a digest selects has neither a job nor a place in a digest that was marked. */
  lemma SelectedIsFree(m: Mailbox, recipient: string, muted: set<string>, allowed: set<string>, included: seq<Id>)
    requires Invariant(m) && IsSelection(m.notes, Candidates(m.notes, recipient, muted, allowed), included)
    ensures forall id :: id in included ==> id in m.notes && !Spent(m, id)
  {
  }

  lemma DigestAdded(digests: seq<Digest>, d: Digest, i: int, id: Id)
    ensures InDigest(digests + [d], i, id) <==> InDigest(digests, i, id) || (i == |digests| && id in d.ids)
  {
  }

  /** A digest that is in flight joins the ones sent before without meeting any of them. */
  lemma SendStaysExclusive(m: Mailbox, t: Mailbox, d: Digest)
    requires Invariant(m) && d.ids == Flying(m) && t.jobs == m.jobs && t.digests == m.digests + [d]
    ensures Exclusive(t)
  {
    forall i, id | InDigest(t.digests, i, id) ensures id !in t.jobs {
      DigestAdded(m.digests, d, i, id);
    }
    forall i, j, id | i < j && InDigest(t.digests, i, id) && InDigest(t.digests, j, id) ensures !t.digests[i].marked {
      DigestAdded(m.digests, d, i, id);
      DigestAdded(m.digests, d, j, id);
    }
  }

  lemma SpentAfterSend(m: Mailbox, t: Mailbox, d: Digest, id: Id)
    requires t.jobs == m.jobs && t.digests == m.digests + [d]
    ensures Spent(t, id) <==> Spent(m, id) || (d.marked && id in d.ids)
  {
    if Spent(m, id) && id !in m.jobs {
      var i :| InDigest(m.digests, i, id) && m.digests[i].marked;
      assert InDigest(t.digests, i, id);
    }
    if d.marked && id in d.ids { assert InDigest(t.digests, |m.digests|, id); }
    if Spent(t, id) && id !in m.jobs {
      var i :| InDigest(t.digests, i, id) && t.digests[i].marked;
      DigestAdded(m.digests, d, i, id);
    }
  }

  lemma SendKeeps(m: Mailbox, sent: bool, marked: bool, now: int)
    requires Invariant(m) && m.flight.Some?
    ensures Invariant(Next(m, SendDigest(sent, marked), now))
  {
    var t := Next(m, SendDigest(sent, marked), now);
    if sent {
      var d := Digest(Flying(m), marked);
      SendStaysExclusive(m, t, d);
      forall i, id: Id | InDigest(t.digests, i, id) ensures id < t.nextId { DigestAdded(m.digests, d, i, id); }
      forall id ensures Spent(t, id) <==> Spent(m, id) || (marked && id in d.ids) { SpentAfterSend(m, t, d, id); }
    } else {
      assert forall id :: Spent(t, id) <==> Spent(m, id);
    }
  }

  lemma StepKeeps(m: Mailbox, step: Step, now: int)
    requires Invariant(m) && Enabled(m, step)
    ensures Invariant(Next(m, step, now))
  {
    match step
    case Notify(recipient, event, route) => NotifyKeeps(m, recipient, event, route, now);
    case SelectDigest(recipient, muted, allowed, included) =>
      SelectedIsFree(m, recipient, muted, allowed, included);
      assert forall id :: Spent(Next(m, step, now), id) <==> Spent(m, id);
    case SendDigest(sent, marked) => SendKeeps(m, sent, marked, now);
    case Deliver(_, _) => assert forall id :: Spent(Next(m, step, now), id) <==> Spent(m, id);
    case Expire(_) => assert forall id :: Spent(Next(m, step, now), id) <==> Spent(m, id);
  }

  datatype Timed = At(now: int, step: Step)

  ghost predicate Possible(m: Mailbox, run: seq<Timed>)
    decreases |run|
  {
    run == [] || (Enabled(m, run[0].step) && Possible(Next(m, run[0].step, run[0].now), run[1..]))
  }

  ghost function After(m: Mailbox, run: seq<Timed>): Mailbox
    requires Possible(m, run)
    decreases |run|
  {
    if run == [] then m else After(Next(m, run[0].step, run[0].now), run[1..])
  }

  lemma {:induction false} RunKeeps(m: Mailbox, run: seq<Timed>)
    requires Invariant(m) && Possible(m, run)
    ensures Invariant(After(m, run))
    decreases |run|
  {
    if run != [] {
      StepKeeps(m, run[0].step, run[0].now);
      RunKeeps(Next(m, run[0].step, run[0].now), run[1..]);
    }
  }

  /** Over every run: no notification has both a send job and a place in a digest, and once a digest that
      contained it was marked it is in no other. While marking succeeds, all digests are disjoint. */
  lemma RoutingIsExclusive(run: seq<Timed>)
    requires Possible(EMPTY, run)
    ensures Exclusive(After(EMPTY, run))
    ensures var d := After(EMPTY, run).digests;
            (forall i :: 0 <= i < |d| ==> d[i].marked) ==> forall i, j :: 0 <= i < j < |d| ==> d[i].ids !! d[j].ids
  {
    RunKeeps(EMPTY, run);
    var d := After(EMPTY, run).digests;
    forall i, j, id | 0 <= i < j < |d| && d[i].marked && id in d[i].ids ensures id !in d[j].ids {
      assert InDigest(d, i, id) && (id in d[j].ids ==> InDigest(d, j, id));
    }
  }

  /** A digest that was sent and marked stamps exactly the notifications it contained. */
  lemma MarksExactly(run: seq<Timed>, now: int)
    requires Possible(EMPTY, run) && After(EMPTY, run).flight.Some?
    ensures var m := After(EMPTY, run);
            var t := Next(m, SendDigest(true, true), now);
            && t.notes.Keys == m.notes.Keys
            && forall id :: id in m.notes ==> (t.notes[id] != m.notes[id] <==> id in m.flight.value.included)
  {
    RunKeeps(EMPTY, run);
    var m := After(EMPTY, run);
    assert forall id :: id in m.flight.value.included ==> id in Flying(m);
  }

  /** What has been stamped -- by a job, a digest, or because it was the reader's own doing -- stays
      stamped and is selected no more. */
  lemma StampedIsFinal(m: Mailbox, step: Step, now: int, id: Id)
    requires Known(m) && Enabled(m, step) && id in m.notes && m.notes[id].emailedAt.Some?
    ensures var t := Next(m, step, now); id in t.notes ==> t.notes[id].emailedAt.Some?
    ensures step.SelectDigest? ==> id !in step.included
  {
  }

  /** Marking matters: a digest that was sent but could not be marked is selected once more, unchanged. */
  lemma UnmarkedRepeats(m: Mailbox, select: Step, now: int)
    requires select.SelectDigest? && Enabled(m, select)
    ensures var t := Next(Next(m, select, now), SendDigest(true, false), now);
            Enabled(t, select) && Ids(select.included) == t.digests[|t.digests| - 1].ids
  {
  }

  /** A reader gets a notification at once if the mail settings let the event out and nothing in the
      preferences holds it back; one's own doing is never mailed, unless it is about the service. */
  predicate MailedAtOnce(own: bool, about: bool, cfg: Option<Config>, pref: Option<Preference>, event: string) {
    && (own ==> about) && cfg.Some? && cfg.value.enabled && event in cfg.value.allowed
    && (pref.Some? ==> pref.value.enabled && event !in pref.value.muted && pref.value.digest != "DAILY")
  }

  /** The table gains one notification with what was asked for, and a send job exactly when it is mailed at once. */
  lemma NotifyMeans(m: Mailbox, recipient: string, own: bool, about: bool, cfg: Option<Config>, pref: Option<Preference>, event: string, now: int)
    ensures var t := Notified(m, recipient, event, Routed(own, about, cfg, pref, event), now);
            && t.jobs == (if MailedAtOnce(own, about, cfg, pref, event) then m.jobs + {m.nextId} else m.jobs)
            && t.nextId == m.nextId + 1 && m.nextId in t.notes && t.notes - {m.nextId} == m.notes - {m.nextId}
            && var n := t.notes[m.nextId];
               && n.recipient == recipient && n.event == event && n.createdAt == now
               && (n.emailedAt.Some? <==> MailedAtOnce(own, about, cfg, pref, event) || (own && !about))
  {
  }

  /** What a digest contains is the reader's own, unmailed, not muted and allowed out; and what of that it
      leaves is no older, and left only because the digest is full. */
  lemma DigestTakes(m: Mailbox, recipient: string, muted: set<string>, allowed: set<string>, included: seq<Id>)
    requires IsSelection(m.notes, Candidates(m.notes, recipient, muted, allowed), included)
    ensures forall id :: id in included ==> id in m.notes && m.notes[id].recipient == recipient && m.notes[id].emailedAt.None?
                                            && m.notes[id].event !in muted && m.notes[id].event in allowed
    ensures forall id :: id in m.notes && m.notes[id].recipient == recipient && m.notes[id].emailedAt.None?
                         && m.notes[id].event !in muted && m.notes[id].event in allowed && id !in included ==>
              |included| == 200 && forall i :: 0 <= i < |included| ==> m.notes[included[i]].createdAt <= m.notes[id].createdAt
  {
    var among := Candidates(m.notes, recipient, muted, allowed);
    if exists id :: id in among && id !in included {
      var id :| id in among && id !in included;
      DistinctInside(included, among, id);
    }
  }

  /** A list of different members of a set that misses one of them is shorter than the set. */
  lemma DistinctInside(s: seq<Id>, all: set<Id>, missing: Id)
    requires missing in all && missing !in s
    requires (forall i :: 0 <= i < |s| ==> s[i] in all) && (forall i, j :: 0 <= i < j < |s| ==> s[i] != s[j])
    ensures |s| < |all|
  {
    IdsSize(s);
    assert Ids(s) <= all - {missing};
    SubsetSize(Ids(s), all - {missing});
  }

  lemma {:induction false} IdsSize(s: seq<Id>)
    requires forall i, j :: 0 <= i < j < |s| ==> s[i] != s[j]
    ensures |Ids(s)| == |s|
  {
    if s != [] {
      var init, last := s[..|s| - 1], s[|s| - 1];
      IdsSize(init);
      assert s == init + [last];
      assert Ids(s) == Ids(init) + {last};
    } else {
      assert Ids(s) == {};
    }
  }

  /** Delivering a mail stamps its notification if that is still unstamped, and nothing else. */
  lemma DeliverMeans(m: Mailbox, id: Id, marked: bool, now: int)
    ensures var t := Next(m, Deliver(id, marked), now);
            && t == m.(notes := t.notes) && t.notes.Keys == m.notes.Keys
            && forall k :: k in m.notes ==>
                 t.notes[k] == if k == id && marked && m.notes[k].emailedAt.None? then m.notes[k].(emailedAt := Some(now)) else m.notes[k]
  {
  }

  /** The only notifications a digest can ever pick up are those left to it when they were created. */
  lemma NotifyFates(m: Mailbox, recipient: string, own: bool, about: bool, cfg: Option<Config>, pref: Option<Preference>, event: string, now: int)
    ensures var t := Notified(m, recipient, event, Routed(own, about, cfg, pref, event), now);
            && (t.notes[m.nextId].emailedAt.None? <==>
                  (!own || about) && (cfg.None? || !cfg.value.enabled || event !in cfg.value.allowed
                                      || (pref.Some? && (!pref.value.enabled || event in pref.value.muted || pref.value.digest == "DAILY"))))
            && (t.jobs != m.jobs && m.nextId !in m.jobs ==> t.notes[m.nextId].emailedAt == Some(now))
  {
  }

  // ----------------------------------------------------------------- the tables

  class Notifications {
    var notes: map<Id, Notification>
    var nextId: Id
    var jobs: set<Id>
    ghost var digests: seq<Digest>

    ghost function State(): Mailbox
      reads this
    {
      Mailbox(notes, nextId, jobs, None, digests)
    }

    constructor ()
      ensures State() == EMPTY
    {
      notes, nextId, jobs, digests := map[], 0, {}, [];
    }

    method NotifyTx(recipient: string, event: string, own: bool, about: bool, cfg: Option<Config>, pref: Option<Preference>, now: int)
      modifies this
      ensures State() == Notified(old(State()), recipient, event, Routed(own, about, cfg, pref, event), now)
    {
      var id := nextId;
      nextId := nextId + 1;
      notes := notes[id := Notification(recipient, event, now, None)];
      if own && !about {
        notes := notes[id := notes[id].(emailedAt := Some(now))];
        return;
      }
      if !WantsImmediateMail(cfg, pref, event) { return; }
      jobs := jobs + {id};
      notes := notes[id := notes[id].(emailedAt := Some(now))];
    }

    method Oldest(todo: set<Id>) returns (oldest: Id)
      requires todo != {} && todo <= notes.Keys
      ensures oldest in todo && forall id :: id in todo ==> notes[oldest].createdAt <= notes[id].createdAt
    {
      oldest :| oldest in todo;
      var rest := todo - {oldest};
      while rest != {}
        invariant rest <= todo && oldest in todo
        invariant forall id :: id in todo && id !in rest ==> notes[oldest].createdAt <= notes[id].createdAt
        decreases rest
      {
        var id :| id in rest;
        if notes[id].createdAt < notes[oldest].createdAt { oldest := id; }
        rest := rest - {id};
      }
    }

    /** The identifiers one digest contains, collected row by row. */
    method Collect(among: set<Id>) returns (included: seq<Id>)
      requires among <= notes.Keys
      ensures IsSelection(notes, among, included)
    {
      included := [];
      var todo := among;
      while todo != {} && |included| < DIGEST_LIMIT
        invariant todo <= among && |included| + |todo| == |among| && |included| <= DIGEST_LIMIT
        invariant forall id :: id in among ==> (id in todo <==> id !in included)
        invariant forall i :: 0 <= i < |included| ==> included[i] in among
        invariant forall i, j :: 0 <= i < j < |included| ==> included[i] != included[j] && notes[included[i]].createdAt <= notes[included[j]].createdAt
        invariant forall id, i :: id in todo && 0 <= i < |included| ==> notes[included[i]].createdAt <= notes[id].createdAt
        decreases todo
      {
        var id := Oldest(todo);
        included := included + [id];
        todo := todo - {id};
      }
    }

    /** One recipient of sendDigests; `sent` and `marked` say whether the relay and the update succeeded. */
    method SendDigest(recipient: string, muted: set<string>, allowed: set<string>, sent: bool, marked: bool, now: int)
      returns (included: seq<Id>)
      modifies this
      ensures var select := SelectDigest(recipient, muted, allowed, included);
              if included == [] then State() == old(State()) && Candidates(notes, recipient, muted, allowed) == {}
              else Enabled(old(State()), select)
                   && State() == Next(Next(old(State()), select, now), Step.SendDigest(sent, marked), now)
    {
      included := Collect(Candidates(notes, recipient, muted, allowed));
      if included == [] || !sent { return; }
      if marked { notes := Stamped(notes, Ids(included), now); }
      digests := digests + [Digest(Ids(included), marked)];
    }

    method Deliver(id: Id, marked: bool, now: int)
      requires id in jobs
      modifies this
      ensures State() == Next(old(State()), Step.Deliver(id, marked), now)
    {
      if marked && id in notes && notes[id].emailedAt.None? { notes := Stamped(notes, {id}, now); }
    }
  }
}
