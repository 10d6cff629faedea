// The bounded recorder of blocked requests, internal/analytics/violations.go: an LRU of a hundred keys.
module Violations {
  import opened Common

  const MAX_VIOLATIONS := 100

  datatype Violation = Violation(page: string, count: nat, firstSeen: int, lastSeen: int)

  /** One recorded request: the key made of its directive and origin, the page it came from, the time. */
  datatype Sighting = Sighting(key: string, page: string, at: int)

  type Table = map<string, Violation>

  /** `base` is `before` without one entry that was seen no later than any other. */
  ghost predicate Evicted(before: Table, base: Table) {
    exists victim :: victim in before && base == before - {victim} && forall k :: k in before ==> before[victim].lastSeen <= before[k].lastSeen
  }

  ghost predicate MakesRoom(before: Table, base: Table) {
    if |before| >= MAX_VIOLATIONS then Evicted(before, base) else base == before
  }

  function Inserted(base: Table, s: Sighting): Table {
    base[s.key := Violation(s.page, 1, s.at, s.at)]
  }

  /** What one Record may do: eviction picks any of the oldest entries. */
  ghost predicate Recorded(before: Table, after: Table, s: Sighting) {
    if s.key in before then
      after == before[s.key := before[s.key].(count := before[s.key].count + 1, lastSeen := s.at, page := s.page)]
    else exists base :: MakesRoom(before, base) && after == Inserted(base, s)
  }

  class Recorder {
    var violations: Table

    constructor ()
      ensures violations == map[]
    {
      violations := map[];
    }

    method EvictOldest()
      requires "" !in violations && violations != map[]
      modifies this
      ensures Evicted(old(violations), violations)
    {
      var oldestKey, oldest := "", 0;
      var todo := violations.Keys;
      while todo != {}
        invariant violations == old(violations) && todo <= violations.Keys
        invariant oldestKey == "" ==> todo == violations.Keys
        invariant oldestKey != "" ==> oldestKey in violations && oldest == violations[oldestKey].lastSeen
        invariant oldestKey != "" ==> forall k :: k in violations && k !in todo ==> oldest <= violations[k].lastSeen
        decreases todo
      {
        var key :| key in todo;
        if oldestKey == "" || violations[key].lastSeen < oldest {
          oldestKey, oldest := key, violations[key].lastSeen;
        }
        todo := todo - {key};
      }
      violations := violations - {oldestKey};
    }

    /** Record, with the directive and the origin already normalised; what is not an http origin has none. */
    method Record(origin: string, directive: string, page: string, now: int)
      requires "" !in violations
      modifies this
      ensures "" !in violations
      ensures if origin == "" then violations == old(violations)
              else Recorded(old(violations), violations, Sighting(directive + " " + origin, page, now))
    {
      if origin == "" { return; }
      var key := directive + " " + origin;
      if key in violations {
        var v := violations[key];
        violations := violations[key := v.(count := v.count + 1, lastSeen := now, page := page)];
        return;
      }
      if |violations| >= MAX_VIOLATIONS {
        EvictOldest();
      }
      ghost var base := violations;
      assert MakesRoom(old(violations), base);
      violations := violations[key := Violation(page, 1, now, now)];
    }

    method Forget()
      modifies this
      ensures violations == map[]
    {
      violations := map[];
    }
  }

  // ------------------------------------------------------- what the table means

  function Keys(trace: seq<Sighting>): set<string> {
    if trace == [] then {} else Keys(trace[..|trace| - 1]) + {trace[|trace| - 1].key}
  }

  /** The keys recorded after the last record of `k`. */
  function After(trace: seq<Sighting>, k: string): set<string> {
    if trace == [] || trace[|trace| - 1].key == k then {}
    else After(trace[..|trace| - 1], k) + {trace[|trace| - 1].key}
  }

  /** The least-recently-used rule: fewer than a hundred other keys were recorded since. */
  predicate IsKept(trace: seq<Sighting>, k: string) {
    k in Keys(trace) && |After(trace, k)| < 100
  }

  function Occurrences(trace: seq<Sighting>, k: string): nat {
    if trace == [] then 0 else (if trace[|trace| - 1].key == k then 1 else 0) + Occurrences(trace[..|trace| - 1], k)
  }

  /** The key was last inserted by record i: it was not kept then, and was kept at every record of it since. */
  ghost predicate InsertedAt(trace: seq<Sighting>, k: string, i: nat) {
    && i < |trace| && trace[i].key == k && !IsKept(trace[..i], k)
    && forall j :: i < j < |trace| && trace[j].key == k ==> IsKept(trace[..j], k)
  }

  ghost predicate LastAt(trace: seq<Sighting>, k: string, i: nat) {
    i < |trace| && trace[i].key == k && forall j :: i < j < |trace| ==> trace[j].key != k
  }

  ghost predicate EntryOf(v: Violation, trace: seq<Sighting>, k: string, first: nat, last: nat) {
    && InsertedAt(trace, k, first) && LastAt(trace, k, last) && first <= last
    && v.count == Occurrences(trace[first..], k)
    && v.firstSeen == trace[first].at && v.lastSeen == trace[last].at && v.page == trace[last].page
  }

  /** The table after `trace`: min(100, distinct keys) entries, one for each kept key, counted from its
      last insertion. */
  ghost predicate Represents(table: Table, trace: seq<Sighting>) {
    && HoldsKept(table, trace)
    && |table| == Min(MAX_VIOLATIONS, |Keys(trace)|)
    && forall k :: k in table ==> HasEntry(table[k], trace, k)
  }

  ghost predicate HoldsKept(table: Table, trace: seq<Sighting>) {
    forall k :: k in table <==> IsKept(trace, k)
  }

  ghost predicate HasEntry(v: Violation, trace: seq<Sighting>, k: string) {
    exists first, last :: EntryOf(v, trace, k, first, last)
  }

  ghost predicate Increasing(trace: seq<Sighting>) {
    forall i, j :: 0 <= i < j < |trace| ==> trace[i].at < trace[j].at
  }

  lemma Grown(trace: seq<Sighting>, s: Sighting)
    ensures var t := trace + [s];
            && Keys(t) == Keys(trace) + {s.key}
            && forall k :: After(t, k) == if k == s.key then {} else After(trace, k) + {s.key}
  {
    var t := trace + [s];
    assert t[..|t| - 1] == trace;
  }

  /** Keys are ordered by their last record, and a key recorded later has fewer keys after it. */
  lemma {:induction false} LaterHasFewer(trace: seq<Sighting>, early: string, late: string)
    requires early in Keys(trace) && late in Keys(trace) && early != late
    ensures late in After(trace, early) || early in After(trace, late)
    ensures late in After(trace, early) ==> After(trace, late) <= After(trace, early) && early !in After(trace, late)
    ensures late !in After(trace, late) && After(trace, late) <= Keys(trace)
  {
    var init, last := trace[..|trace| - 1], trace[|trace| - 1];
    assert trace == init + [last];
    Grown(init, last);
    if last.key != early && last.key != late {
      LaterHasFewer(init, early, late);
    } else if last.key == early {
      NotAfterItself(init, late);
    } else {
      NotAfterItself(init, early);
    }
  }

  lemma {:induction false} NotAfterItself(trace: seq<Sighting>, k: string)
    ensures k !in After(trace, k) && After(trace, k) <= Keys(trace)
  {
    if trace != [] {
      assert trace == trace[..|trace| - 1] + [trace[|trace| - 1]];
      Grown(trace[..|trace| - 1], trace[|trace| - 1]);
      NotAfterItself(trace[..|trace| - 1], k);
    }
  }

  lemma {:induction false} LaterRecordIsAfter(trace: seq<Sighting>, early: string, i: nat, late: string, j: nat)
    requires LastAt(trace, early, i) && LastAt(trace, late, j) && i < j
    ensures late in After(trace, early)
  {
    if j < |trace| - 1 {
      LaterRecordIsAfter(trace[..|trace| - 1], early, i, late, j);
    }
  }

  /** Every key recorded after a kept key is kept as well. */
  lemma OthersAfter(table: Table, trace: seq<Sighting>, k: string)
    requires HoldsKept(table, trace) && k in table
    ensures After(trace, k) <= table.Keys - {k} && |After(trace, k)| <= |table| - 1
  {
    NotAfterItself(trace, k);
    forall x | x in After(trace, k) ensures x in table {
      LaterHasFewer(trace, k, x);
      SubsetSize(After(trace, x), After(trace, k));
    }
    SubsetSize(After(trace, k), table.Keys - {k});
  }

  lemma StaysOut(trace: seq<Sighting>, s: Sighting, k: string)
    requires k != s.key
    ensures IsKept(trace + [s], k) <==> k in Keys(trace) && |After(trace, k) + {s.key}| < MAX_VIOLATIONS
    ensures IsKept(trace + [s], k) ==> IsKept(trace, k)
  {
    Grown(trace, s);
    SubsetSize(After(trace, k), After(trace, k) + {s.key});
  }

  /** Recording a key the table holds changes no membership. */
  lemma SameKept(table: Table, trace: seq<Sighting>, s: Sighting)
    requires HoldsKept(table, trace) && |table| <= MAX_VIOLATIONS && s.key in table
    ensures HoldsKept(table, trace + [s])
  {
    Grown(trace, s);
    forall k | k != s.key ensures IsKept(trace + [s], k) <==> k in table {
      StaysOut(trace, s, k);
      if k in table {
        OthersAfter(table, trace, k);
        SubsetSize(After(trace, k) + {s.key}, table.Keys - {k});
      }
    }
  }

  /** Recording a new key into a table with room keeps everything that was there. */
  lemma RoomForOne(table: Table, trace: seq<Sighting>, s: Sighting, after: Table)
    requires HoldsKept(table, trace) && |table| < MAX_VIOLATIONS && s.key !in table && after == Inserted(table, s)
    ensures HoldsKept(after, trace + [s])
  {
    Grown(trace, s);
    forall k | k != s.key ensures IsKept(trace + [s], k) <==> k in table {
      StaysOut(trace, s, k);
      if k in table { OthersAfter(table, trace, k); }
    }
  }

  ghost predicate SeenLast(v: Violation, trace: seq<Sighting>, k: string) {
    exists i: nat :: LastAt(trace, k, i) && v.lastSeen == trace[i].at
  }

  ghost predicate Timestamped(table: Table, trace: seq<Sighting>) {
    forall k :: k in table ==> SeenLast(table[k], trace, k)
  }

  lemma {:induction false} LastIsRecorded(trace: seq<Sighting>, k: string, i: nat)
    requires LastAt(trace, k, i)
    ensures k in Keys(trace)
  {
    if i < |trace| - 1 { LastIsRecorded(trace[..|trace| - 1], k, i); }
  }

  lemma OlderIsEarlier(trace: seq<Sighting>, victim: string, v: Violation, k: string, w: Violation)
    requires SeenLast(v, trace, victim) && SeenLast(w, trace, k) && Increasing(trace) && v.lastSeen <= w.lastSeen && k != victim
    ensures k in After(trace, victim) && victim !in After(trace, k)
  {
    var i: nat :| LastAt(trace, victim, i) && v.lastSeen == trace[i].at;
    var j: nat :| LastAt(trace, k, j) && w.lastSeen == trace[j].at;
    assert i < j;
    LaterRecordIsAfter(trace, victim, i, k, j);
    LastIsRecorded(trace, victim, i);
    LastIsRecorded(trace, k, j);
    LaterHasFewer(trace, victim, k);
  }

  /** In a full table the entry with the oldest timestamp is the one a new key pushes out. */
  lemma EvictsTheLast(table: Table, trace: seq<Sighting>, s: Sighting, victim: string, after: Table)
    requires HoldsKept(table, trace) && Timestamped(table, trace) && Increasing(trace)
    requires |table| == MAX_VIOLATIONS && s.key !in table && victim in table
    requires forall k :: k in table ==> table[victim].lastSeen <= table[k].lastSeen
    requires after == Inserted(table - {victim}, s)
    ensures HoldsKept(after, trace + [s])
  {
    Grown(trace, s);
    forall k | k in table && k != victim ensures k in After(trace, victim) && victim !in After(trace, k) {
      OlderIsEarlier(trace, victim, table[victim], k, table[k]);
    }
    forall k | k != s.key ensures IsKept(trace + [s], k) <==> k in table && k != victim {
      StaysOut(trace, s, k);
      if k in table { Ranked(table, trace, s, victim, k); }
    }
  }

  /** In a full table, the new record pushes only the victim past rank 99. */
  lemma Ranked(table: Table, trace: seq<Sighting>, s: Sighting, victim: string, k: string)
    requires HoldsKept(table, trace) && |table| == MAX_VIOLATIONS && s.key !in table && victim in table && k in table
    requires k == victim ==> table.Keys - {victim} <= After(trace, k)
    requires k != victim ==> victim !in After(trace, k)
    ensures |After(trace, k) + {s.key}| < MAX_VIOLATIONS <==> k != victim
  {
    OthersAfter(table, trace, k);
    if k == victim {
      SubsetSize(table.Keys - {victim}, After(trace, k));
    } else {
      SubsetSize(After(trace, k), table.Keys - {victim, k});
    }
  }

  lemma {:induction false} OccurrencesSnoc(trace: seq<Sighting>, s: Sighting, k: string)
    ensures Occurrences(trace + [s], k) == Occurrences(trace, k) + if s.key == k then 1 else 0
  {
    assert (trace + [s])[..|trace|] == trace;
  }

  /** An entry that stays describes the longer trace once it takes the new record into account. */
  lemma EntryStays(v: Violation, trace: seq<Sighting>, s: Sighting, k: string, first: nat, last: nat)
    requires EntryOf(v, trace, k, first, last) && (s.key == k ==> IsKept(trace, k))
    ensures s.key != k ==> EntryOf(v, trace + [s], k, first, last)
    ensures s.key == k ==> EntryOf(v.(count := v.count + 1, lastSeen := s.at, page := s.page), trace + [s], k, first, |trace|)
  {
    var t := trace + [s];
    assert forall j :: 0 <= j <= |trace| ==> t[..j] == trace[..j];
    assert t[first..] == trace[first..] + [s];
    assert trace[..|trace|] == trace;
    OccurrencesSnoc(trace[first..], s, k);
  }

  lemma EntryStarts(trace: seq<Sighting>, s: Sighting)
    requires !IsKept(trace, s.key)
    ensures EntryOf(Violation(s.page, 1, s.at, s.at), trace + [s], s.key, |trace|, |trace|)
  {
    var t := trace + [s];
    assert t[..|trace|] == trace && t[|trace|..] == [s];
    OccurrencesSnoc([], s, s.key);
    assert [] + [s] == [s];
  }

  /** What one Record does to the membership of the table. */
  ghost predicate Moved(before: Table, after: Table, k: string) {
    && k in after && (forall x :: x in after && x != k ==> x in before && after[x] == before[x])
    && |after| == if k in before || |before| == MAX_VIOLATIONS then |before| else |before| + 1
  }

  lemma MovedIn(before: Table, base: Table, after: Table, s: Sighting)
    requires s.key !in before && base.Keys <= before.Keys && after == Inserted(base, s)
    requires forall x :: x in base ==> base[x] == before[x]
    requires |base| == if |before| == MAX_VIOLATIONS then |before| - 1 else |before|
    ensures Moved(before, after, s.key)
  {
    assert after.Keys == base.Keys + {s.key} && |after.Keys| == |base.Keys| + 1;
  }

  lemma Membership(before: Table, after: Table, trace: seq<Sighting>, s: Sighting)
    requires HoldsKept(before, trace) && Timestamped(before, trace) && |before| <= MAX_VIOLATIONS
    requires Increasing(trace) && Recorded(before, after, s)
    ensures HoldsKept(after, trace + [s]) && Moved(before, after, s.key)
  {
    if s.key in before {
      SameKept(before, trace, s);
      assert after.Keys == before.Keys && |after.Keys| == |before.Keys|;
    } else {
      var base :| MakesRoom(before, base) && after == Inserted(base, s);
      if |before| >= MAX_VIOLATIONS {
        MembershipFull(before, base, after, trace, s);
      } else {
        RoomForOne(before, trace, s, after);
        MovedIn(before, base, after, s);
      }
    }
  }

  lemma MembershipFull(before: Table, base: Table, after: Table, trace: seq<Sighting>, s: Sighting)
    requires HoldsKept(before, trace) && Timestamped(before, trace) && |before| == MAX_VIOLATIONS && Increasing(trace)
    requires s.key !in before && Evicted(before, base) && after == Inserted(base, s)
    ensures HoldsKept(after, trace + [s]) && Moved(before, after, s.key)
  {
    var victim :| victim in before && base == before - {victim} && forall k :: k in before ==> before[victim].lastSeen <= before[k].lastSeen;
    EvictsTheLast(before, trace, s, victim, after);
    assert base.Keys == before.Keys - {victim} && |base.Keys| == |before.Keys| - 1;
    MovedIn(before, base, after, s);
  }

  /** A table with room to spare has never lost a key. */
  lemma AllHeld(table: Table, trace: seq<Sighting>)
    requires HoldsKept(table, trace) && |table| == Min(MAX_VIOLATIONS, |Keys(trace)|) && |table| < MAX_VIOLATIONS
    ensures table.Keys == Keys(trace)
  {
    var rest := Keys(trace) - table.Keys;
    assert Keys(trace) == table.Keys + rest;
  }

  /** One Record, at a later time than every record before it, keeps the table an exact LRU. */
  lemma StepRepresents(before: Table, after: Table, trace: seq<Sighting>, s: Sighting)
    requires Represents(before, trace) && Increasing(trace) && Recorded(before, after, s)
    ensures Represents(after, trace + [s])
  {
    var t := trace + [s];
    forall k | k in before ensures SeenLast(before[k], trace, k) { EntrySeen(before[k], trace, k); }
    Membership(before, after, trace, s);
    Size(before, trace, s);
    forall k | k in after ensures HasEntry(after[k], t, k) {
      if k in before { StillEntry(before[k], after[k], trace, s, k); } else { EntryStarts(trace, s); }
    }
  }

  lemma EntrySeen(v: Violation, trace: seq<Sighting>, k: string)
    requires HasEntry(v, trace, k)
    ensures SeenLast(v, trace, k)
  {
    var first, last :| EntryOf(v, trace, k, first, last);
    assert LastAt(trace, k, last);
  }

  lemma Size(table: Table, trace: seq<Sighting>, s: Sighting)
    requires HoldsKept(table, trace) && |table| == Min(MAX_VIOLATIONS, |Keys(trace)|)
    ensures Min(MAX_VIOLATIONS, |Keys(trace + [s])|) == if s.key in table || |table| == MAX_VIOLATIONS then |table| else |table| + 1
  {
    Grown(trace, s);
    if |table| < MAX_VIOLATIONS { AllHeld(table, trace); } else { SubsetSize(Keys(trace), Keys(trace + [s])); }
    if s.key in table { assert Keys(trace) + {s.key} == Keys(trace); }
  }

  lemma StillEntry(v: Violation, w: Violation, trace: seq<Sighting>, s: Sighting, k: string)
    requires HasEntry(v, trace, k) && IsKept(trace, k)
    requires w == if s.key == k then v.(count := v.count + 1, lastSeen := s.at, page := s.page) else v
    ensures HasEntry(w, trace + [s], k)
  {
    var first, last :| EntryOf(v, trace, k, first, last);
    EntryStays(v, trace, s, k, first, last);
  }

  /** The tables a run of records can lead to, from an empty one. */
  ghost predicate Reachable(table: Table, trace: seq<Sighting>)
    decreases |trace|
  {
    if trace == [] then table == map[]
    else
      var init, last := trace[..|trace| - 1], trace[|trace| - 1];
      exists before :: Reachable(before, init) && Recorded(before, table, last)
  }

  /** The recorder is a least-recently-used table: after any run since it was last emptied, with strictly
      increasing timestamps, it holds exactly the min(100, distinct) keys recorded last, each with the
      number of its records since it was last inserted. */
  lemma {:induction false} RecorderIsLru(table: Table, trace: seq<Sighting>)
    requires Reachable(table, trace) && Increasing(trace)
    ensures Represents(table, trace)
    decreases |trace|
  {
    if trace != [] {
      var init, last := trace[..|trace| - 1], trace[|trace| - 1];
      assert trace == init + [last];
      var before :| Reachable(before, init) && Recorded(before, table, last);
      RecorderIsLru(before, init);
      StepRepresents(before, table, init, last);
    }
  }
}
