// The hash-chained audit log: appendAudit of internal/store/store.go, the verification of
// internal/store/audit_verify.go, and the callers that move its anchor forward
// (internal/maintenance/worker.go, internal/web/admin.go).
module AuditChain {
  import opened Common

  /** The columns of audit_logs the chain is built from. */
  datatype Row = Row(id: string, previous: string, payload: string, hash: string, sequence: int)

  datatype Event = Event(id: string, timestamp: string, user: string, eventType: string, targetType: string,
                         targetId: string, requestId: string, result: string, before: string, after: string)

  /** audit_logs ordered by chain_sequence, and the single row of audit_chain_state. */
  datatype Log = Log(rows: seq<Row>, headHash: string, headSequence: int, verifiedSequence: int, verifiedHash: string)

  datatype Reason = NoReason | LinkOrPayload | EventHash | HeadState

  datatype Check = Check(valid: bool, checked: nat, headSequence: int, headHash: string,
                         failedId: string, failedSequence: int, reason: Reason)

  const EMPTY_LOG := Log([], "", 0, 0, "")

  // ------------------------------------------------------------------- append

  function Join(parts: seq<string>): string {
    if |parts| == 0 then "" else if |parts| == 1 then parts[0] else parts[0] + "|" + Join(parts[1..])
  }

  function Digits(n: nat): (s: string)
    ensures s != "" && |s| == |Decimal(n)| && forall i :: 0 <= i < |s| ==> s[i] as int == Decimal(n)[i]
  {
    var digits := Decimal(n);
    seq(|digits|, i requires 0 <= i < |digits| => digits[i] as char)
  }

  function Canonical(sequence: nat, e: Event, previous: string): (s: string)
    ensures s != ""
  {
    Join([Digits(sequence), e.id, e.timestamp, e.user, e.eventType, e.targetType,
          e.targetId, e.requestId, if e.result == "" then "SUCCESS" else e.result, e.before, e.after, previous])
  }

  /** appendAudit: the head row is locked, the event inserted and the head advanced in one transaction. */
  function Appended(digest: string -> string, log: Log, e: Event): Log
    requires log.headSequence >= 0
  {
    var payload := Canonical(log.headSequence + 1, e, log.headHash);
    var row := Row(e.id, log.headHash, payload, digest(payload), log.headSequence + 1);
    log.(rows := log.rows + [row], headHash := row.hash, headSequence := row.sequence)
  }

  // ----------------------------------------------------- what a payload says

  /** The pieces of a text between its bars. */
  function Split(s: string): (parts: seq<string>)
    ensures parts != []
  {
    if s == "" then [""]
    else if s[0] == '|' then [""] + Split(s[1..])
    else var rest := Split(s[1..]); [[s[0]] + rest[0]] + rest[1..]
  }

  /** The number a text of decimal digits stands for. */
  function Number(s: string): int {
    if s == "" then 0 else 10 * Number(s[..|s| - 1]) + (s[|s| - 1] as int - '0' as int)
  }

  predicate EndsIn(s: string, tail: string) {
    |tail| <= |s| && s[|s| - |tail|..] == tail
  }

  /** What is recorded of an event: no result means success. */
  function Recorded(e: Event): Event {
    e.(result := if e.result == "" then "SUCCESS" else e.result)
  }

  predicate NoBars(e: Event) {
    forall part :: part in [e.id, e.timestamp, e.user, e.eventType, e.targetType, e.targetId, e.requestId, e.result, e.before, e.after] ==> '|' !in part
  }

  lemma {:induction false} SplitPlain(s: string)
    requires '|' !in s
    ensures Split(s) == [s]
  {
    if s != "" {
      SplitPlain(s[1..]);
      assert s == [s[0]] + s[1..];
    }
  }

  lemma {:induction false} SplitFirst(field: string, rest: string)
    requires '|' !in field
    ensures Split(field + "|" + rest) == [field] + Split(rest)
  {
    var s := field + "|" + rest;
    if field == "" {
      assert s[1..] == rest;
    } else {
      SplitFirst(field[1..], rest);
      assert s[1..] == field[1..] + "|" + rest && field == [field[0]] + field[1..];
    }
  }

  lemma {:induction false} SplitJoin(parts: seq<string>)
    requires parts != [] && forall part :: part in parts ==> '|' !in part
    ensures Split(Join(parts)) == parts
  {
    if |parts| == 1 {
      SplitPlain(parts[0]);
    } else {
      SplitFirst(parts[0], Join(parts[1..]));
      SplitJoin(parts[1..]);
      assert parts == [parts[0]] + parts[1..];
    }
  }

  lemma {:induction false} JoinEnds(parts: seq<string>)
    requires |parts| >= 2
    ensures EndsIn(Join(parts), "|" + parts[|parts| - 1])
  {
    if |parts| > 2 {
      JoinEnds(parts[1..]);
    } else {
      assert parts[1..] == [parts[1]];
    }
  }

  lemma {:induction false} NumberOfDigits(n: nat)
    ensures Number(Digits(n)) == n && '|' !in Digits(n)
  {
    var s := Digits(n);
    if n < 10 {
      assert s[..0] == "" && |s| == 1;
    } else {
      NumberOfDigits(n / 10);
      assert s[..|s| - 1] == Digits(n / 10);
    }
  }

  /** Any payload begins with its sequence number and ends in the hash of its predecessor. */
  lemma PayloadIsLinked(sequence: nat, e: Event, previous: string)
    ensures Number(Split(Canonical(sequence, e, previous))[0]) == sequence
    ensures EndsIn(Canonical(sequence, e, previous), "|" + previous)
  {
    var r := Recorded(e);
    var rest := [r.id, r.timestamp, r.user, r.eventType, r.targetType, r.targetId, r.requestId, r.result, r.before, r.after, previous];
    var parts := [Digits(sequence)] + rest;
    assert parts[1..] == rest && Join(parts) == Canonical(sequence, e, previous);
    NumberOfDigits(sequence);
    SplitFirst(Digits(sequence), Join(rest));
    JoinEnds(parts);
  }

  /** Of fields without bars it holds every one, in its place. */
  lemma PayloadHoldsTheEvent(sequence: nat, e: Event, previous: string)
    requires NoBars(e) && '|' !in previous
    ensures var f, r := Split(Canonical(sequence, e, previous)), Recorded(e);
            && |f| == 12 && Number(f[0]) == sequence && f[11] == previous
            && Event(f[1], f[2], f[3], f[4], f[5], f[6], f[7], f[8], f[9], f[10]) == r
  {
    var r := Recorded(e);
    var parts := [Digits(sequence), r.id, r.timestamp, r.user, r.eventType, r.targetType, r.targetId, r.requestId, r.result, r.before, r.after, previous];
    NumberOfDigits(sequence);
    assert Join(parts) == Canonical(sequence, e, previous);
    var texts := [e.id, e.timestamp, e.user, e.eventType, e.targetType, e.targetId, e.requestId, e.result, e.before, e.after];
    assert '|' !in texts[0] && '|' !in texts[1] && '|' !in texts[2] && '|' !in texts[3] && '|' !in texts[4];
    assert '|' !in texts[5] && '|' !in texts[6] && '|' !in texts[7] && '|' !in texts[8] && '|' !in texts[9];
    SplitJoin(parts);
  }

  /** The payload of a row begins with its number and ends in the hash it follows; between them it holds the
      event, field by field, if no field has a bar. */
  ghost predicate Records(r: Row, e: Event) {
    var f := Split(r.payload);
    && Number(f[0]) == r.sequence && EndsIn(r.payload, "|" + r.previous)
    && (NoBars(e) && '|' !in r.previous ==>
          |f| == 12 && f[11] == r.previous && Event(f[1], f[2], f[3], f[4], f[5], f[6], f[7], f[8], f[9], f[10]) == Recorded(e))
  }

  lemma RowRecords(sequence: nat, e: Event, previous: string, hash: string)
    ensures Records(Row(e.id, previous, Canonical(sequence, e, previous), hash, sequence), e)
  {
    PayloadIsLinked(sequence, e, previous);
    if NoBars(e) && '|' !in previous { PayloadHoldsTheEvent(sequence, e, previous); }
  }

  // -------------------------------------------------- the head commits to the log

  /** A log written from the beginning, event by event. */
  function Written(digest: string -> string, es: seq<Event>): (log: Log)
    ensures log.headSequence == |log.rows| == |es|
  {
    if es == [] then EMPTY_LOG else Appended(digest, Written(digest, es[..|es| - 1]), es[|es| - 1])
  }

  /** No two texts share a hash, and hashes are texts without bars, as hexadecimal digits are. */
  ghost predicate IdealDigest(digest: string -> string) {
    && (forall s, t :: digest(s) == digest(t) ==> s == t)
    && (forall s :: digest(s) != "" && '|' !in digest(s))
  }

  lemma LastBar(s: string, a: string)
    requires EndsIn(s, "|" + a) && '|' !in a
    ensures |a| < |s| && s[|s| - |a| - 1] == '|' && s[|s| - |a|..] == a
    ensures forall k :: |s| - |a| <= k < |s| ==> s[k] != '|'
  {
    var tail := s[|s| - |a| - 1..];
    assert tail == "|" + a && tail[0] == '|' && tail[1..] == a;
    assert s[|s| - |a|..] == tail[1..];
    forall k | |s| - |a| <= k < |s| ensures s[k] != '|' { assert s[k] == a[k - (|s| - |a|)]; }
  }

  /** The last bar is where the hash of the predecessor begins. */
  lemma SameTail(s: string, a: string, b: string)
    requires EndsIn(s, "|" + a) && EndsIn(s, "|" + b) && '|' !in a && '|' !in b
    ensures a == b
  {
    LastBar(s, a);
    LastBar(s, b);
    assert |a| == |b|;
  }

  lemma HeadHasNoBar(digest: string -> string, es: seq<Event>)
    requires IdealDigest(digest)
    ensures '|' !in Written(digest, es).headHash && (Written(digest, es).headHash == "" <==> es == [])
  {
  }

  predicate SameRows(a: seq<Row>, b: seq<Row>) {
    |a| == |b| && forall i :: 0 <= i < |a| ==> a[i].payload == b[i].payload && a[i].hash == b[i].hash && a[i].previous == b[i].previous
  }

  predicate Barless(es: seq<Event>) {
    forall i :: 0 <= i < |es| ==> NoBars(es[i])
  }

  predicate SameEvents(es: seq<Event>, fs: seq<Event>) {
    |es| == |fs| && forall i :: 0 <= i < |es| ==> Recorded(es[i]) == Recorded(fs[i])
  }

  /** One step back from two equal heads: the same last payload, and equal heads before it. */
  lemma HeadsBefore(digest: string -> string, a: Log, e: Event, b: Log, f: Event)
    requires IdealDigest(digest) && a.headSequence >= 0 && b.headSequence >= 0 && '|' !in a.headHash && '|' !in b.headHash
    requires Appended(digest, a, e).headHash == Appended(digest, b, f).headHash
    ensures Canonical(a.headSequence + 1, e, a.headHash) == Canonical(b.headSequence + 1, f, b.headHash)
    ensures a.headHash == b.headHash && (NoBars(e) && NoBars(f) ==> Recorded(e) == Recorded(f))
  {
    var s := Canonical(a.headSequence + 1, e, a.headHash);
    PayloadIsLinked(a.headSequence + 1, e, a.headHash);
    PayloadIsLinked(b.headSequence + 1, f, b.headHash);
    SameTail(s, a.headHash, b.headHash);
    if NoBars(e) && NoBars(f) {
      PayloadHoldsTheEvent(a.headSequence + 1, e, a.headHash);
      PayloadHoldsTheEvent(b.headSequence + 1, f, b.headHash);
    }
  }

  /** If digests never collide, two logs with the same head hash were written with the same payloads, one
      by one. */
  lemma {:induction false} HeadCommits(digest: string -> string, es: seq<Event>, fs: seq<Event>)
    requires IdealDigest(digest) && Written(digest, es).headHash == Written(digest, fs).headHash
    ensures SameRows(Written(digest, es).rows, Written(digest, fs).rows)
    decreases |es|
  {
    HeadHasNoBar(digest, es);
    HeadHasNoBar(digest, fs);
    if es != [] && fs != [] {
      var es', fs' := es[..|es| - 1], fs[..|fs| - 1];
      HeadHasNoBar(digest, es');
      HeadHasNoBar(digest, fs');
      HeadsBefore(digest, Written(digest, es'), es[|es| - 1], Written(digest, fs'), fs[|fs| - 1]);
      HeadCommits(digest, es', fs');
    }
  }

  /** And if the fields of their events have no bars, they record the same events. */
  lemma {:induction false} HeadCommitsToEvents(digest: string -> string, es: seq<Event>, fs: seq<Event>)
    requires IdealDigest(digest) && Written(digest, es).headHash == Written(digest, fs).headHash
    requires Barless(es) && Barless(fs)
    ensures SameEvents(es, fs)
    decreases |es|
  {
    HeadHasNoBar(digest, es);
    HeadHasNoBar(digest, fs);
    if es != [] && fs != [] {
      var es', fs' := es[..|es| - 1], fs[..|fs| - 1];
      HeadHasNoBar(digest, es');
      HeadHasNoBar(digest, fs');
      HeadsBefore(digest, Written(digest, es'), es[|es| - 1], Written(digest, fs'), fs[|fs| - 1]);
      HeadCommitsToEvents(digest, es', fs');
      OneMoreEvent(es, fs);
    }
  }

  lemma OneMoreEvent(es: seq<Event>, fs: seq<Event>)
    requires es != [] && fs != [] && SameEvents(es[..|es| - 1], fs[..|fs| - 1]) && Recorded(es[|es| - 1]) == Recorded(fs[|fs| - 1])
    ensures SameEvents(es, fs)
  {
    forall i | 0 <= i < |es| ensures Recorded(es[i]) == Recorded(fs[i]) {
      if i < |es| - 1 { assert es[..|es| - 1][i] == es[i] && fs[..|fs| - 1][i] == fs[i]; }
    }
  }

  // ------------------------------------------------------------- verification

  datatype Walked = Clean(previous: string, expected: int, checked: nat)
                  | Broken(id: string, sequence: int, reason: Reason, checked: nat)

  ghost predicate Ordered(rows: seq<Row>) {
    forall i, j :: 0 <= i < j < |rows| ==> rows[i].sequence < rows[j].sequence
  }

  /** The rows a check reads: those after a sequence number, in order. */
  function RowsAfter(rows: seq<Row>, from: int): seq<Row> {
    if rows == [] || rows[0].sequence > from then rows else RowsAfter(rows[1..], from)
  }

  function Walk(digest: string -> string, rows: seq<Row>, previous: string, expected: int, checked: nat): Walked {
    if rows == [] then Clean(previous, expected, checked)
    else
      var r := rows[0];
      if r.payload == "" || r.previous != previous || r.sequence != expected then Broken(r.id, r.sequence, LinkOrPayload, checked + 1)
      else if digest(r.payload) != r.hash then Broken(r.id, r.sequence, EventHash, checked + 1)
      else Walk(digest, rows[1..], r.hash, expected + 1, checked + 1)
  }

  /** The head state is read after the rows, possibly from a later state. */
  function Conclude(w: Walked, headHash: string, headSequence: int): Check {
    match w
    case Broken(id, sequence, reason, checked) => Check(false, checked, 0, "", id, sequence, reason)
    case Clean(previous, expected, checked) =>
      if headHash != previous || headSequence != expected - 1 then Check(false, checked, 0, "", "", headSequence, HeadState)
      else Check(true, checked, headSequence, headHash, "", 0, NoReason)
  }

  function Verify(digest: string -> string, log: Log, from: int, previous: string): Check {
    Conclude(Walk(digest, RowsAfter(log.rows, from), previous, from + 1, 0), log.headHash, log.headSequence)
  }

  /** AuditCheckpoint: an empty hash means nothing has been proved yet. */
  function Checkpoint(log: Log): (int, string) {
    if log.verifiedHash == "" then (0, "") else (log.verifiedSequence, log.verifiedHash)
  }

  // What the walk decides, stated without walking.

  ghost predicate GoodRow(digest: string -> string, rows: seq<Row>, previous: string, expected: int, i: nat)
    requires i < |rows|
  {
    && rows[i].payload != ""
    && rows[i].previous == (if i == 0 then previous else rows[i - 1].hash)
    && rows[i].sequence == expected + i
    && digest(rows[i].payload) == rows[i].hash
  }

  /** Everything about a row but its own hash. */
  predicate IsLinked(rows: seq<Row>, previous: string, expected: int, i: nat)
    requires i < |rows|
  {
    rows[i].payload != "" && rows[i].previous == (if i == 0 then previous else rows[i - 1].hash) && rows[i].sequence == expected + i
  }

  ghost predicate Chain(digest: string -> string, rows: seq<Row>, previous: string, expected: int) {
    forall i :: 0 <= i < |rows| ==> GoodRow(digest, rows, previous, expected, i)
  }

  /** A walk ends clean exactly on a gapless, linked and hashed chain; otherwise it names the first
      row that is not, and has counted the rows up to and including it. */
  lemma {:induction false} WalkExact(digest: string -> string, rows: seq<Row>, previous: string, expected: int, checked: nat)
    ensures var w := Walk(digest, rows, previous, expected, checked);
            && (w.Clean? <==> Chain(digest, rows, previous, expected))
            && (w.Clean? ==> w == Clean(if rows == [] then previous else rows[|rows| - 1].hash, expected + |rows|, checked + |rows|))
            && (w.Broken? ==> exists i :: FirstBad(digest, rows, previous, expected, i)
                                          && w.id == rows[i].id && w.sequence == rows[i].sequence && w.checked == checked + i + 1
                                          && (w.reason == EventHash <==> IsLinked(rows, previous, expected, i))
                                          && (w.reason == LinkOrPayload <==> !IsLinked(rows, previous, expected, i)))
  {
    if rows != [] {
      if GoodRow(digest, rows, previous, expected, 0) {
        var rest, hash := rows[1..], rows[0].hash;
        WalkExact(digest, rest, hash, expected + 1, checked + 1);
        ChainBehind(digest, rows, previous, expected);
        if !Chain(digest, rest, hash, expected + 1) {
          var w := Walk(digest, rest, hash, expected + 1, checked + 1);
          var i :| FirstBad(digest, rest, hash, expected + 1, i)
                   && w.id == rest[i].id && w.sequence == rest[i].sequence && w.checked == checked + 1 + i + 1
                   && (w.reason == EventHash <==> IsLinked(rest, hash, expected + 1, i))
                   && (w.reason == LinkOrPayload <==> !IsLinked(rest, hash, expected + 1, i));
          assert IsLinked(rest, hash, expected + 1, i) <==> IsLinked(rows, previous, expected, i + 1);
          BadBehind(digest, rows, previous, expected, i);
        }
      } else {
        assert FirstBad(digest, rows, previous, expected, 0);
      }
    }
  }

  lemma ChainBehind(digest: string -> string, rows: seq<Row>, previous: string, expected: int)
    requires rows != [] && GoodRow(digest, rows, previous, expected, 0)
    ensures Chain(digest, rows, previous, expected) <==> Chain(digest, rows[1..], rows[0].hash, expected + 1)
  {
    var rest, hash, next := rows[1..], rows[0].hash, expected + 1;
    if Chain(digest, rows, previous, expected) {
      forall i | 0 <= i < |rest| ensures GoodRow(digest, rest, hash, next, i) {
        assert GoodRow(digest, rows, previous, expected, i + 1);
      }
    }
    if Chain(digest, rest, hash, next) {
      forall i | 0 < i < |rows| ensures GoodRow(digest, rows, previous, expected, i) {
        assert GoodRow(digest, rest, hash, next, i - 1);
      }
    }
  }

  lemma BadBehind(digest: string -> string, rows: seq<Row>, previous: string, expected: int, i: nat)
    requires rows != [] && GoodRow(digest, rows, previous, expected, 0) && FirstBad(digest, rows[1..], rows[0].hash, expected + 1, i)
    ensures FirstBad(digest, rows, previous, expected, i + 1)
  {
    forall j | 0 < j < i + 1 ensures GoodRow(digest, rows, previous, expected, j) {
      assert GoodRow(digest, rows[1..], rows[0].hash, expected + 1, j - 1);
    }
  }

  ghost predicate FirstBad(digest: string -> string, rows: seq<Row>, previous: string, expected: int, i: int) {
    && 0 <= i < |rows| && !GoodRow(digest, rows, previous, expected, i)
    && forall j :: 0 <= j < i ==> GoodRow(digest, rows, previous, expected, j)
  }

  /** A full verification accepts exactly the tables whose positive sequence numbers run 1, 2, ... without
      a gap, every row carrying a payload, its hash and the hash of the row before, up to the head. */
  lemma AcceptsExactly(digest: string -> string, log: Log)
    ensures var rows := RowsAfter(log.rows, 0);
            Verify(digest, log, 0, "").valid <==>
            && Chain(digest, rows, "", 1)
            && log.headSequence == |rows|
            && log.headHash == if rows == [] then "" else rows[|rows| - 1].hash
  {
    WalkExact(digest, RowsAfter(log.rows, 0), "", 1, 0);
  }

  /** A full verification that does not accept says why: it names the first row that is out of place, or whose
      hash is wrong, with the rows counted up to it; or, if every row is in order, that the head is not theirs. */
  lemma RejectionIsNamed(digest: string -> string, log: Log)
    requires log.rows != [] ==> log.rows[0].sequence > 0
    ensures var c := Verify(digest, log, 0, "");
            !c.valid ==>
              if Chain(digest, log.rows, "", 1) then c.reason == HeadState && c.checked == |log.rows| && c.failedId == "" && c.failedSequence == log.headSequence
              else exists i :: FirstBad(digest, log.rows, "", 1, i) && c.failedId == log.rows[i].id && c.failedSequence == log.rows[i].sequence
                               && c.checked == i + 1 && c.reason == if IsLinked(log.rows, "", 1, i) then EventHash else LinkOrPayload
  {
    WalkExact(digest, log.rows, "", 1, 0);
  }

  // ------------------------------------------------------ incremental and full

  /** The rows with from < chain_sequence <= to. */
  function RowsBetween(rows: seq<Row>, from: int, to: int): seq<Row> {
    if rows == [] || rows[0].sequence > to then []
    else (if rows[0].sequence > from then [rows[0]] else []) + RowsBetween(rows[1..], from, to)
  }

  lemma OrderedTail(rows: seq<Row>, from: int)
    requires rows != [] && Ordered(rows) && rows[0].sequence > from
    ensures Ordered(rows[1..]) && RowsAfter(rows[1..], from) == rows[1..]
  {
    assert rows[1..] != [] ==> rows[1..][0] == rows[1];
  }

  lemma {:induction false} SplitAtAnchor(rows: seq<Row>, from: int, to: int)
    requires Ordered(rows) && from <= to
    ensures RowsAfter(rows, from) == RowsBetween(rows, from, to) + RowsAfter(rows, to)
  {
    if rows != [] && rows[0].sequence <= to {
      var first, rest := [rows[0]], rows[1..];
      SplitAtAnchor(rest, from, to);
      if rows[0].sequence > from {
        OrderedTail(rows, from);
        Assoc(first, RowsBetween(rest, from, to), RowsAfter(rest, to));
        assert rows == first + rest;
      }
    }
  }

  lemma {:induction false} WalkConcat(digest: string -> string, a: seq<Row>, b: seq<Row>, previous: string, expected: int, checked: nat)
    ensures var w := Walk(digest, a, previous, expected, checked);
            Walk(digest, a + b, previous, expected, checked)
            == if w.Clean? then Walk(digest, b, w.previous, w.expected, w.checked) else w
  {
    if a == [] {
      assert a + b == b;
    } else {
      assert (a + b)[1..] == a[1..] + b;
      WalkConcat(digest, a[1..], b, a[0].hash, expected + 1, checked + 1);
    }
  }

  lemma {:induction false} WalkCount(digest: string -> string, rows: seq<Row>, previous: string, expected: int, checked: nat)
    ensures var w, z := Walk(digest, rows, previous, expected, checked), Walk(digest, rows, previous, expected, 0);
            w == z.(checked := z.checked + checked)
  {
    if rows != [] {
      WalkCount(digest, rows[1..], rows[0].hash, expected + 1, checked + 1);
      WalkCount(digest, rows[1..], rows[0].hash, expected + 1, 1);
    }
  }

  /** The rows up to a proved anchor only add their number to what the walk of the rest concludes. */
  lemma WalkFromAnchor(digest: string -> string, before: seq<Row>, rest: seq<Row>, anchor: nat, hash: string)
    requires Walk(digest, before, "", 1, 0) == Clean(hash, anchor + 1, anchor)
    ensures var w := Walk(digest, rest, hash, anchor + 1, 0);
            Walk(digest, before + rest, "", 1, 0) == w.(checked := w.checked + anchor)
  {
    WalkConcat(digest, before, rest, "", 1, 0);
    WalkCount(digest, rest, hash, anchor + 1, anchor);
  }

  lemma ConclusionsAgree(digest: string -> string, all: seq<Row>, before: seq<Row>, rest: seq<Row>, anchor: nat, hash: string,
                         headHash: string, headSequence: int)
    requires all == before + rest && Walk(digest, before, "", 1, 0) == Clean(hash, anchor + 1, anchor)
    ensures var c := Conclude(Walk(digest, rest, hash, anchor + 1, 0), headHash, headSequence);
            Conclude(Walk(digest, all, "", 1, 0), headHash, headSequence) == c.(checked := c.checked + anchor)
  {
    WalkFromAnchor(digest, before, rest, anchor, hash);
  }

  /** On any table: if the rows up to the anchor walk cleanly and end in its hash, then the routine check
      from the anchor and the full check agree on everything -- verdict, head, and the first offending
      row -- and differ in the number of rows read by exactly the anchor's sequence. */
  lemma IncrementalEqualsFull(digest: string -> string, log: Log, anchor: nat, hash: string)
    requires Ordered(log.rows)
    requires Walk(digest, RowsBetween(log.rows, 0, anchor), "", 1, 0) == Clean(hash, anchor + 1, anchor)
    ensures var full, routine := Verify(digest, log, 0, ""), Verify(digest, log, anchor, hash);
            full == routine.(checked := routine.checked + anchor)
  {
    SplitAtAnchor(log.rows, 0, anchor);
    ConclusionsAgree(digest, RowsAfter(log.rows, 0), RowsBetween(log.rows, 0, anchor), RowsAfter(log.rows, anchor),
                     anchor, hash, log.headHash, log.headSequence);
  }

  // --------------------------------------------------------------- the protocol

  /** A verification in progress: it has read its anchor, then the rows after it, then the head. */
  datatype Verifier = Anchored(from: int, previous: string)
                    | HasRows(from: int, previous: string, rows: seq<Row>)
                    | Proved(sequence: int, hash: string)

  datatype System = System(log: Log, verifiers: map<int, Verifier>)

  datatype Step = Append(e: Event)
                | Start(v: int, full: bool)
                | ReadRows(v: int)
                | ReadHead(v: int)
                | Mark(v: int)
                | Stop(v: int)

  predicate Enabled(s: System, step: Step) {
    match step
    case Append(_) => true
    case Start(v, _) => v !in s.verifiers
    case ReadRows(v) => v in s.verifiers && s.verifiers[v].Anchored?
    case ReadHead(v) => v in s.verifiers && s.verifiers[v].HasRows?
    case Mark(v) => v in s.verifiers && s.verifiers[v].Proved?
    case Stop(v) => v in s.verifiers
  }

  /** The answer a verification gives when it reads the head in the present state. */
  function Answer(digest: string -> string, log: Log, v: Verifier): Check
    requires v.HasRows?
  {
    Conclude(Walk(digest, v.rows, v.previous, v.from + 1, 0), log.headHash, log.headSequence)
  }

  function Next(digest: string -> string, s: System, step: Step): System
    requires s.log.headSequence >= 0 && Enabled(s, step)
  {
    match step
    case Append(e) => s.(log := Appended(digest, s.log, e))
    case Start(v, full) =>
      var (from, previous) := if full then (0, "") else Checkpoint(s.log);
      s.(verifiers := s.verifiers[v := Anchored(from, previous)])
    case ReadRows(v) =>
      var a := s.verifiers[v];
      s.(verifiers := s.verifiers[v := HasRows(a.from, a.previous, RowsAfter(s.log.rows, a.from))])
    case ReadHead(v) =>
      var c := Answer(digest, s.log, s.verifiers[v]);
      if c.valid then s.(verifiers := s.verifiers[v := Proved(c.headSequence, c.headHash)])
      else s.(verifiers := s.verifiers - {v})
    case Mark(v) =>
      var p := s.verifiers[v];
      System(s.log.(verifiedSequence := p.sequence, verifiedHash := p.hash), s.verifiers - {v})
    case Stop(v) => s.(verifiers := s.verifiers - {v})
  }

  ghost predicate Run(digest: string -> string, states: seq<System>, steps: seq<Step>) {
    && |states| == |steps| + 1
    && states[0] == System(EMPTY_LOG, map[])
    && forall i {:trigger steps[i]} :: 0 <= i < |steps| ==>
         states[i].log.headSequence >= 0 && Enabled(states[i], steps[i]) && states[i + 1] == Next(digest, states[i], steps[i])
  }

  /** (sequence, hash) of a row of the log, or the empty anchor. */
  ghost predicate TruePoint(rows: seq<Row>, sequence: int, hash: string) {
    (sequence == 0 && hash == "") || (1 <= sequence <= |rows| && rows[sequence - 1].hash == hash)
  }

  ghost predicate TrueLog(digest: string -> string, log: Log) {
    && Chain(digest, log.rows, "", 1)
    && log.headSequence == |log.rows|
    && log.headHash == (if log.rows == [] then "" else log.rows[|log.rows| - 1].hash)
    && TruePoint(log.rows, log.verifiedSequence, log.verifiedHash)
  }

  ghost predicate TrueVerifier(rows: seq<Row>, v: Verifier) {
    match v
    case Anchored(from, previous) => TruePoint(rows, from, previous)
    case HasRows(from, previous, read) => TruePoint(rows, from, previous) && read <= rows[from..]
    case Proved(sequence, hash) => TruePoint(rows, sequence, hash)
  }

  ghost predicate Invariant(digest: string -> string, s: System) {
    TrueLog(digest, s.log) && forall v :: v in s.verifiers ==> TrueVerifier(s.log.rows, s.verifiers[v])
  }

  lemma ChainSequences(digest: string -> string, rows: seq<Row>, previous: string, expected: int)
    requires Chain(digest, rows, previous, expected)
    ensures forall i :: 0 <= i < |rows| ==> rows[i].sequence == expected + i
  {
    forall i | 0 <= i < |rows| ensures rows[i].sequence == expected + i {
      assert GoodRow(digest, rows, previous, expected, i);
    }
  }

  lemma {:induction false} AfterAnchor(rows: seq<Row>, from: nat, expected: int)
    requires forall i :: 0 <= i < |rows| ==> rows[i].sequence == expected + i
    requires expected - 1 <= from <= expected - 1 + |rows|
    ensures RowsAfter(rows, from) == rows[from - expected + 1..]
  {
    if rows != [] && rows[0].sequence <= from {
      AfterAnchor(rows[1..], from, expected + 1);
    }
  }

  /** The rows after a true point of the log form a chain from its hash, and so does every prefix. */
  lemma ReadIsChain(digest: string -> string, log: Log, v: Verifier)
    requires TrueLog(digest, log) && v.HasRows? && TrueVerifier(log.rows, v)
    ensures Chain(digest, v.rows, v.previous, v.from + 1)
    ensures v.rows == log.rows[v.from..v.from + |v.rows|]
  {
    var expected := v.from + 1;
    forall i | 0 <= i < |v.rows| ensures GoodRow(digest, v.rows, v.previous, expected, i) {
      assert v.rows[i] == log.rows[v.from..][i] == log.rows[v.from + i];
      assert GoodRow(digest, log.rows, "", 1, v.from + i);
      if i > 0 { assert v.rows[i - 1] == log.rows[v.from..][i - 1] == log.rows[v.from + i - 1]; }
    }
  }

  /** On a true log a verification accepts exactly when the rows it read reach the head. */
  lemma AnswerOnTrueLog(digest: string -> string, s: System, v: int)
    requires Invariant(digest, s) && v in s.verifiers && s.verifiers[v].HasRows?
    ensures var h := s.verifiers[v];
            && (Answer(digest, s.log, h).valid <==> h.from + |h.rows| == |s.log.rows|)
            && (Answer(digest, s.log, h).valid ==>
                  Answer(digest, s.log, h).headSequence == |s.log.rows| && Answer(digest, s.log, h).headHash == s.log.headHash)
  {
    var h := s.verifiers[v];
    ReadIsChain(digest, s.log, h);
    WalkExact(digest, h.rows, h.previous, h.from + 1, 0);
  }

  lemma AppendKeepsTruth(digest: string -> string, log: Log, e: Event)
    requires TrueLog(digest, log)
    ensures var log' := Appended(digest, log, e);
            && TrueLog(digest, log') && log.rows <= log'.rows
            && forall q, h :: TruePoint(log.rows, q, h) ==> TruePoint(log'.rows, q, h)
  {
    var log' := Appended(digest, log, e);
    forall i | 0 <= i < |log'.rows| ensures GoodRow(digest, log'.rows, "", 1, i) {
      if i < |log.rows| { assert GoodRow(digest, log.rows, "", 1, i); }
    }
  }

  lemma StepKeepsInvariant(digest: string -> string, s: System, step: Step)
    requires Invariant(digest, s) && Enabled(s, step)
    ensures Invariant(digest, Next(digest, s, step))
  {
    match step
    case Append(e) =>
      AppendKeepsTruth(digest, s.log, e);
      var rows' := Appended(digest, s.log, e).rows;
      forall v | v in s.verifiers ensures TrueVerifier(rows', s.verifiers[v]) {
        assert TrueVerifier(s.log.rows, s.verifiers[v]);
        if s.verifiers[v].HasRows? {
          assert s.log.rows[s.verifiers[v].from..] <= rows'[s.verifiers[v].from..];
        }
      }
    case Start(v, full) =>
    case ReadRows(v) =>
      var a := s.verifiers[v];
      assert TrueVerifier(s.log.rows, a);
      ChainSequences(digest, s.log.rows, "", 1);
      AfterAnchor(s.log.rows, a.from, 1);
    case ReadHead(v) =>
      AnswerOnTrueLog(digest, s, v);
    case Mark(v) =>
      assert TrueVerifier(s.log.rows, s.verifiers[v]);
    case Stop(v) =>
  }

  /** Over every interleaving of appends, verifications and anchor moves, the log stays gapless from 1 and
      linked, the head is its last row, and the anchor is empty or the true (sequence, hash) of a row. */
  lemma {:induction false} AlwaysInvariant(digest: string -> string, states: seq<System>, steps: seq<Step>, i: nat)
    requires Run(digest, states, steps) && i < |states|
    ensures Invariant(digest, states[i])
  {
    if i > 0 {
      AlwaysInvariant(digest, states, steps, i - 1);
      StepKeepsInvariant(digest, states[i - 1], steps[i - 1]);
    }
  }

  /** What a check started from a true point reads: a chain that leads from its hash to the head. */
  lemma RestOfTrueLog(digest: string -> string, log: Log, from: int, previous: string)
    requires TrueLog(digest, log) && TruePoint(log.rows, from, previous)
    ensures 0 <= from <= |log.rows| && RowsAfter(log.rows, from) == log.rows[from..]
    ensures Chain(digest, log.rows[from..], previous, from + 1)
    ensures log.headHash == if from == |log.rows| then previous else log.rows[|log.rows| - 1].hash
  {
    ChainSequences(digest, log.rows, "", 1);
    AfterAnchor(log.rows, from, 1);
    ReadIsChain(digest, log, HasRows(from, previous, log.rows[from..]));
  }

  predicate Concerns(step: Step, v: int) {
    !step.Append? && step.v == v
  }

  /** The rows a verification read reach the end of the log as it was then. */
  lemma ReadsToTheEnd(digest: string -> string, s: System, v: int)
    requires Invariant(digest, s) && Enabled(s, ReadRows(v))
    ensures var h := Next(digest, s, ReadRows(v)).verifiers[v]; h.HasRows? && h.from + |h.rows| == |s.log.rows|
  {
    var a := s.verifiers[v];
    assert TrueVerifier(s.log.rows, a);
    ChainSequences(digest, s.log.rows, "", 1);
    AfterAnchor(s.log.rows, a.from, 1);
  }

  lemma StepLength(digest: string -> string, s: System, step: Step)
    requires s.log.headSequence >= 0 && Enabled(s, step)
    ensures |Next(digest, s, step).log.rows| == |s.log.rows| + if step.Append? then 1 else 0
    ensures forall v :: v in s.verifiers && !Concerns(step, v) ==> v in Next(digest, s, step).verifiers && Next(digest, s, step).verifiers[v] == s.verifiers[v]
  {
  }

  /** Between its two reads a verification keeps its rows, and only appends make the log longer. */
  lemma {:induction false} BetweenReads(digest: string -> string, states: seq<System>, steps: seq<Step>, i: nat, m: nat, v: int)
    requires Run(digest, states, steps) && i < m <= |steps| && v in states[i + 1].verifiers
    requires forall k :: i < k < m ==> !Concerns(steps[k], v)
    ensures v in states[m].verifiers && states[m].verifiers[v] == states[i + 1].verifiers[v]
    ensures |states[m].log.rows| >= |states[i + 1].log.rows|
    ensures |states[m].log.rows| == |states[i + 1].log.rows| <==> forall k :: i < k < m ==> !steps[k].Append?
  {
    if m > i + 1 {
      BetweenReads(digest, states, steps, i, m - 1, v);
      StepLength(digest, states[m - 1], steps[m - 1]);
    }
  }

  /** Over every run, on a log nobody edited: a verification accepts if and only if no event was appended
      between its reading the rows and its reading the head. */
  lemma RejectsOnlyOnRace(digest: string -> string, states: seq<System>, steps: seq<Step>, i: nat, j: nat, v: int)
    requires Run(digest, states, steps) && i < j < |steps| && steps[i] == ReadRows(v) && steps[j] == ReadHead(v)
    requires forall k :: i < k < j ==> !Concerns(steps[k], v)
    ensures v in states[j].verifiers && states[j].verifiers[v].HasRows?
    ensures Answer(digest, states[j].log, states[j].verifiers[v]).valid <==> forall k :: i < k < j ==> !steps[k].Append?
  {
    AlwaysInvariant(digest, states, steps, i);
    AlwaysInvariant(digest, states, steps, j);
    ReadsToTheEnd(digest, states[i], v);
    StepLength(digest, states[i], steps[i]);
    BetweenReads(digest, states, steps, i, j, v);
    AnswerOnTrueLog(digest, states[j], v);
  }

  lemma TrueLogVerifies(digest: string -> string, log: Log, from: int, previous: string)
    requires TrueLog(digest, log) && TruePoint(log.rows, from, previous)
    ensures var c := Verify(digest, log, from, previous);
            c.valid && c.checked == |log.rows| - from && c.headSequence == |log.rows|
  {
    RestOfTrueLog(digest, log, from, previous);
    CleanVerifies(digest, log, from, previous, log.rows[from..]);
  }

  lemma CleanVerifies(digest: string -> string, log: Log, from: int, previous: string, rest: seq<Row>)
    requires RowsAfter(log.rows, from) == rest && Chain(digest, rest, previous, from + 1) && log.headSequence == from + |rest|
    requires log.headHash == if rest == [] then previous else rest[|rest| - 1].hash
    ensures var c := Verify(digest, log, from, previous);
            c.valid && c.checked == |rest| && c.headSequence == log.headSequence
  {
    WalkExact(digest, rest, previous, from + 1, 0);
  }

  /** An append to a true log leaves one that verifies from the beginning and from every earlier true point. */
  lemma AppendedVerifies(digest: string -> string, log: Log, e: Event)
    requires TrueLog(digest, log)
    ensures var t := Appended(digest, log, e);
            && TrueLog(digest, t) && Verify(digest, t, 0, "").valid
            && forall q, h :: TruePoint(log.rows, q, h) ==> TruePoint(t.rows, q, h) && Verify(digest, t, q, h).valid
  {
    var t := Appended(digest, log, e);
    AppendKeepsTruth(digest, log, e);
    TrueLogVerifies(digest, t, 0, "");
    forall q, h | TruePoint(log.rows, q, h) ensures TruePoint(t.rows, q, h) && Verify(digest, t, q, h).valid {
      TrueLogVerifies(digest, t, q, h);
    }
  }

  /** In any reachable state a check that reads rows and head together accepts, from the stored anchor
      and from the beginning, and every row of the log is counted exactly once. */
  lemma UntouchedLogVerifies(digest: string -> string, states: seq<System>, steps: seq<Step>, i: nat)
    requires Run(digest, states, steps) && i < |states|
    ensures var log := states[i].log;
            var (from, previous) := Checkpoint(log);
            && (log.verifiedHash != "" ==> from == log.verifiedSequence && previous == log.verifiedHash)
            && Verify(digest, log, 0, "").valid && Verify(digest, log, from, previous).valid
            && Verify(digest, log, from, previous).checked == |log.rows| - from
            && Verify(digest, log, from, previous).headSequence == |log.rows|
  {
    AlwaysInvariant(digest, states, steps, i);
    var log := states[i].log;
    TrueLogVerifies(digest, log, 0, "");
    TrueLogVerifies(digest, log, Checkpoint(log).0, Checkpoint(log).1);
  }

  // ------------------------------------------------------------------ the store

  class AuditStore {
    var rows: seq<Row>
    var headHash: string
    var headSequence: int
    var verifiedSequence: int
    var verifiedHash: string

    function State(): Log
      reads this
    {
      Log(rows, headHash, headSequence, verifiedSequence, verifiedHash)
    }

    constructor ()
      ensures State() == EMPTY_LOG
    {
      rows, headHash, headSequence, verifiedSequence, verifiedHash := [], "", 0, 0, "";
    }

    method AppendAudit(digest: string -> string, e: Event)
      requires headSequence >= 0
      modifies this
      ensures State() == Appended(digest, old(State()), e)
      ensures |rows| == |old(rows)| + 1 && rows[..|rows| - 1] == old(rows)
      ensures var r := rows[|rows| - 1];
              && headHash == r.hash == digest(r.payload) && headSequence == r.sequence == old(headSequence) + 1
              && r.id == e.id && r.previous == old(headHash) && Records(r, e)
      ensures old(TrueLog(digest, State())) ==> TrueLog(digest, State()) && Verify(digest, State(), 0, "").valid
      ensures old(TrueLog(digest, State())) ==>
                forall q, h :: TruePoint(old(rows), q, h) ==> TruePoint(rows, q, h) && Verify(digest, State(), q, h).valid
    {
      ghost var before := State();
      var previous, sequence := headHash, headSequence + 1;
      var canonical := Canonical(sequence, e, previous);
      var encoded := digest(canonical);
      rows := rows + [Row(e.id, previous, canonical, encoded, sequence)];
      headHash, headSequence := encoded, sequence;
      RowRecords(sequence, e, previous, encoded);
      if TrueLog(digest, before) { AppendedVerifies(digest, before, e); }
    }

    method AuditCheckpoint() returns (sequence: int, hash: string)
      ensures (sequence, hash) == Checkpoint(State())
    {
      if verifiedHash == "" { return 0, ""; }
      return verifiedSequence, verifiedHash;
    }

    method VerifyAuditChain(digest: string -> string, fromSequence: int, anchor: string) returns (out: Check)
      ensures out == Verify(digest, State(), fromSequence, anchor)
    {
      var selected := RowsAfter(rows, fromSequence);
      var previous, expected, checked: nat := anchor, fromSequence + 1, 0;
      var i := 0;
      while i < |selected|
        invariant 0 <= i <= |selected|
        invariant Walk(digest, selected, anchor, fromSequence + 1, 0) == Walk(digest, selected[i..], previous, expected, checked)
      {
        var r := selected[i];
        checked := checked + 1;
        if r.payload == "" || r.previous != previous || r.sequence != expected {
          return Check(false, checked, 0, "", r.id, r.sequence, LinkOrPayload);
        }
        if digest(r.payload) != r.hash {
          return Check(false, checked, 0, "", r.id, r.sequence, EventHash);
        }
        previous := r.hash;
        expected := expected + 1;
        i := i + 1;
      }
      if headHash != previous || headSequence != expected - 1 {
        return Check(false, checked, 0, "", "", headSequence, HeadState);
      }
      return Check(true, checked, headSequence, headHash, "", 0, NoReason);
    }

    method MarkAuditChainVerified(sequence: int, hash: string)
      modifies this`verifiedSequence, this`verifiedHash
      ensures State() == old(State()).(verifiedSequence := sequence, verifiedHash := hash)
    {
      verifiedSequence, verifiedHash := sequence, hash;
    }

    /** verifyAuditChain of the maintenance sweep: the anchor moves only over a stretch that was read and
        proved, and a break leaves it where it was. */
    method RoutineCheck(digest: string -> string) returns (checked: nat)
      modifies this`verifiedSequence, this`verifiedHash
      ensures var log := old(State());
              var c := Verify(digest, log, Checkpoint(log).0, Checkpoint(log).1);
              && checked == (if c.valid then c.checked else 0)
              && State() == if c.valid && c.checked > 0 then log.(verifiedSequence := c.headSequence, verifiedHash := c.headHash) else log
    {
      var from, previous := AuditCheckpoint();
      var result := VerifyAuditChain(digest, from, previous);
      if !result.valid { return 0; }
      if result.checked > 0 {
        MarkAuditChainVerified(result.headSequence, result.headHash);
      }
      return result.checked;
    }
  }
}
