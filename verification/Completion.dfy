// The completion guard and the completion check of internal/web/reviews.go: three counts that refuse,
// and a list that is meant to say where the counts come from.
module Completion {
  import opened Common

  type Id = string

  /** A verdict row; an empty result is no verdict yet. */
  datatype Verdict = Verdict(result: string, at: int)

  /** One checklist item with the rows joined to it: its verdict, the time of its answer, and the time its
      evidence last moved. */
  datatype Item = Item(id: Id, verdict: Option<Verdict>, response: Option<int>, touched: Option<int>)

  datatype Submission = Submission(review: Id, revision: int, items: seq<Item>)

  datatype Change = Change(review: Id, item: Option<Id>, status: string)

  datatype Tables = Tables(submissions: seq<Submission>, changes: seq<Change>)

  datatype Reason = Unreviewed | OpenChanges(count: nat) | Stale

  /** A line of the list; the one for change requests on no current item has no item. */
  datatype Issue = Issue(item: Option<Id>, reasons: seq<Reason>)

  function Count<T>(rows: seq<T>, p: T -> bool): nat {
    if rows == [] then 0 else (if p(rows[0]) then 1 else 0) + Count(rows[1..], p)
  }

  lemma {:induction false} CountZero<T>(rows: seq<T>, p: T -> bool)
    ensures Count(rows, p) == 0 <==> forall r :: r in rows ==> !p(r)
  {
    if rows != [] {
      CountZero(rows[1..], p);
      assert rows == [rows[0]] + rows[1..];
    }
  }

  lemma {:induction false} CountLast<T>(rows: seq<T>, p: T -> bool)
    requires rows != []
    ensures Count(rows, p) == Count(rows[..|rows| - 1], p) + if p(rows[|rows| - 1]) then 1 else 0
  {
    if |rows| == 1 {
      assert rows[1..] == [] && rows[..0] == [];
    } else {
      CountLast(rows[1..], p);
      assert rows[..|rows| - 1][1..] == rows[1..][..|rows| - 2];
    }
  }

  function Where<T>(rows: seq<T>, p: T -> bool): set<int> {
    set i | 0 <= i < |rows| && p(rows[i])
  }

  /** It counts each row that is meant, once. */
  lemma {:induction false} CountIsSize<T>(rows: seq<T>, p: T -> bool)
    ensures Count(rows, p) == |Where(rows, p)|
  {
    if rows == [] {
      assert Where(rows, p) == {};
    } else {
      var n := |rows| - 1;
      CountLast(rows, p);
      CountIsSize(rows[..n], p);
      assert Where(rows, p) == Where(rows[..n], p) + if p(rows[n]) then {n} else {};
    }
  }

  // ------------------------------------------------------------------- joins

  predicate IsCurrent(submissions: seq<Submission>, s: Submission) {
    forall i :: 0 <= i < |submissions| && submissions[i].review == s.review ==> submissions[i].revision <= s.revision
  }

  function ItemsOf(all: seq<Submission>, from: seq<Submission>, review: Id): seq<Item> {
    if from == [] then []
    else (if from[0].review == review && IsCurrent(all, from[0]) then from[0].items else []) + ItemsOf(all, from[1..], review)
  }

  /** The items of the current revision. */
  function Current(t: Tables, review: Id): seq<Item> {
    ItemsOf(t.submissions, t.submissions, review)
  }

  /** GREATEST ignores NULL, and is NULL only when both are. */
  function Greatest(a: Option<int>, b: Option<int>): Option<int> {
    if a.None? then b else if b.None? then a else Some(Max(a.value, b.value))
  }

  predicate IsUnreviewed(i: Item) {
    i.verdict.None? || i.verdict.value.result == ""
  }

  /** The staleness expression over the joined rows; NULL counts as false. */
  predicate IsStale(i: Item) {
    && i.verdict.Some? && i.verdict.value.result != ""
    && var moved := Greatest(i.response, if i.touched.Some? then i.touched else i.response);
       moved.Some? && moved.value > i.verdict.value.at
  }

  predicate IsOpen(c: Change) {
    c.status != "VERIFIED"
  }

  // ------------------------------------------------------------- the guard's counts

  function Missing(t: Tables, review: Id): nat {
    Count(Current(t, review), IsUnreviewed)
  }

  function Open(t: Tables, review: Id): nat {
    Count(t.changes, (c: Change) => c.review == review && IsOpen(c))
  }

  /** The count joins the answer strictly: an item without one is not counted. */
  function StaleVerdicts(t: Tables, review: Id): nat {
    Count(Current(t, review), (i: Item) => i.response.Some? && IsStale(i))
  }

  predicate Refuses(t: Tables, review: Id) {
    Missing(t, review) > 0 || Open(t, review) > 0 || StaleVerdicts(t, review) > 0
  }

  // ------------------------------------------------------------------- the list

  /** Open change requests of an item, whichever review they were filed under. */
  function OpenOn(t: Tables, item: Id): nat {
    Count(t.changes, (c: Change) => c.item == Some(item) && IsOpen(c))
  }

  function Reasons(t: Tables, i: Item): seq<Reason> {
    (if IsUnreviewed(i) then [Unreviewed] else [])
    + (if OpenOn(t, i.id) > 0 then [OpenChanges(OpenOn(t, i.id))] else [])
    + (if IsStale(i) then [Stale] else [])
  }

  predicate Names(items: seq<Item>, item: Option<Id>) {
    item.Some? && exists k :: 0 <= k < |items| && items[k].id == item.value
  }

  /** Open change requests that hang off no item of the current revision. */
  function Orphaned(t: Tables, review: Id): nat {
    Count(t.changes, (c: Change) => c.review == review && IsOpen(c) && !Names(Current(t, review), c.item))
  }

  /** The line of an item, if it has something to say. */
  function Line(t: Tables, i: Item): seq<Issue> {
    if Reasons(t, i) == [] then [] else [Issue(Some(i.id), Reasons(t, i))]
  }

  function ItemIssues(t: Tables, items: seq<Item>): seq<Issue> {
    if items == [] then []
    else
      var n := |items| - 1;
      ItemIssues(t, items[..n]) + Line(t, items[n])
  }

  function BlockingItems(t: Tables, review: Id): seq<Issue> {
    ItemIssues(t, Current(t, review)) + if Orphaned(t, review) > 0 then [Issue(None, [OpenChanges(Orphaned(t, review))])] else []
  }

  lemma {:induction false} NoItemIssues(t: Tables, items: seq<Item>)
    ensures ItemIssues(t, items) == [] <==> forall i :: i in items ==> Line(t, i) == []
  {
    if items != [] {
      var init, last := items[..|items| - 1], items[|items| - 1];
      NoItemIssues(t, init);
      LastOf(items, init, last);
    }
  }

  lemma LastOf<T>(s: seq<T>, init: seq<T>, last: T)
    requires s != [] && init == s[..|s| - 1] && last == s[|s| - 1]
    ensures forall x :: x in s <==> x in init || x == last
  {
    assert s == init + [last];
  }

  /** The list is empty exactly when no current item has a reason and no open change request is orphaned. */
  lemma EmptyList(t: Tables, review: Id)
    ensures BlockingItems(t, review) == [] <==>
              (forall i :: i in Current(t, review) ==> Reasons(t, i) == []) && Orphaned(t, review) == 0
  {
    NoItemIssues(t, Current(t, review));
  }

  /** Items the list names although no count sees them: a verdict older than the evidence of an item that
      has no answer, and an open change request filed under another review. */
  ghost predicate ListedOnly(t: Tables, review: Id) {
    exists i :: i in Current(t, review) && (UnansweredStale(i) || ForeignChange(t, review, i))
  }

  predicate UnansweredStale(i: Item) {
    i.response.None? && i.verdict.Some? && i.verdict.value.result != "" && i.touched.Some? && i.touched.value > i.verdict.value.at
  }

  predicate ForeignChange(t: Tables, review: Id, i: Item) {
    exists c :: c in t.changes && c.item == Some(i.id) && c.review != review && IsOpen(c)
  }

  /** Whatever the rows, on whatever revision: an empty list means that all three counts are zero, so the
      guard never refuses without the list naming something; and the list is non-empty beyond that
      exactly for the two kinds of item above. */
  lemma ListExplainsGuard(t: Tables, review: Id)
    ensures Refuses(t, review) ==> BlockingItems(t, review) != []
    ensures BlockingItems(t, review) != [] <==> Refuses(t, review) || ListedOnly(t, review)
  {
    EmptyList(t, review);
    CountZero(Current(t, review), IsUnreviewed);
    CountZero(Current(t, review), (i: Item) => i.response.Some? && IsStale(i));
    ChangesExplained(t, review);
    forall i | i in Current(t, review)
      ensures Reasons(t, i) == [] <==> !IsUnreviewed(i) && OpenOn(t, i.id) == 0 && !IsStale(i)
      ensures IsStale(i) <==> (i.response.Some? && IsStale(i)) || UnansweredStale(i)
    {
    }
  }

  /** The current items are those of the newest revision of the review. */
  lemma CurrentIsNewest(t: Tables, review: Id, i: Item)
    ensures i in Current(t, review) <==>
              exists s :: s in t.submissions && s.review == review && i in s.items
                          && forall o :: o in t.submissions && o.review == review ==> o.revision <= s.revision
  {
    InItemsOf(t.submissions, t.submissions, review, i);
    forall s | s in t.submissions && s.review == review
      ensures IsCurrent(t.submissions, s) <==> forall o :: o in t.submissions && o.review == review ==> o.revision <= s.revision
    {
      if IsCurrent(t.submissions, s) {
        forall o | o in t.submissions && o.review == review ensures o.revision <= s.revision {
          var k :| 0 <= k < |t.submissions| && t.submissions[k] == o;
        }
      }
    }
  }

  lemma {:induction false} InItemsOf(all: seq<Submission>, from: seq<Submission>, review: Id, i: Item)
    ensures i in ItemsOf(all, from, review) <==> exists s :: s in from && s.review == review && IsCurrent(all, s) && i in s.items
  {
    if from != [] {
      InItemsOf(all, from[1..], review, i);
      assert from == [from[0]] + from[1..];
    }
  }

  /** What a line says of its item: that it has no verdict, how many open corrections it has, and that its
      answer or its evidence is younger than its verdict -- and nothing else. */
  ghost predicate Says(t: Tables, i: Item, reasons: seq<Reason>) {
    && (Unreviewed in reasons <==> i.verdict.None? || i.verdict.value.result == "")
    && (Stale in reasons <==> i.verdict.Some? && i.verdict.value.result != ""
                              && ((i.response.Some? && i.response.value > i.verdict.value.at) || (i.touched.Some? && i.touched.value > i.verdict.value.at)))
    && (forall n :: OpenChanges(n) in reasons <==> n == Count(t.changes, (c: Change) => c.item == Some(i.id) && c.status != "VERIFIED") && n > 0)
  }

  /** The list has a line for every current item that has something to say, and no other, and at its end one
      for the open corrections that belong to no current item. */
  lemma ListIsExact(t: Tables, review: Id)
    ensures forall i :: i in Current(t, review) ==>
              Says(t, i, Reasons(t, i)) && forall l :: l in Line(t, i) <==> Reasons(t, i) != [] && l == Issue(Some(i.id), Reasons(t, i))
    ensures forall l :: l in BlockingItems(t, review) <==>
              (exists i :: i in Current(t, review) && l in Line(t, i))
              || (Orphaned(t, review) > 0 && l == Issue(None, [OpenChanges(Orphaned(t, review))]))
    ensures Orphaned(t, review) == Count(t.changes, (c: Change) => c.review == review && c.status != "VERIFIED"
                                                                   && (c.item.None? || forall i :: i in Current(t, review) ==> i.id != c.item.value))
  {
    var items := Current(t, review);
    forall i | i in items ensures Says(t, i, Reasons(t, i)) {
      SameCount(t.changes, (c: Change) => c.item == Some(i.id) && IsOpen(c), (c: Change) => c.item == Some(i.id) && c.status != "VERIFIED");
    }
    forall l ensures l in ItemIssues(t, items) <==> exists i :: i in items && l in Line(t, i) {
      InItemIssues(t, items, l);
    }
    SameCount(t.changes, (c: Change) => c.review == review && IsOpen(c) && !Names(items, c.item),
              (c: Change) => c.review == review && c.status != "VERIFIED" && (c.item.None? || forall i :: i in items ==> i.id != c.item.value));
  }

  lemma {:induction false} SameCount<T>(rows: seq<T>, p: T -> bool, q: T -> bool)
    requires forall r :: p(r) <==> q(r)
    ensures Count(rows, p) == Count(rows, q)
  {
    if rows != [] { SameCount(rows[1..], p, q); }
  }

  lemma {:induction false} InItemIssues(t: Tables, items: seq<Item>, l: Issue)
    ensures l in ItemIssues(t, items) <==> exists i :: i in items && l in Line(t, i)
  {
    if items != [] {
      var init, last := items[..|items| - 1], items[|items| - 1];
      InItemIssues(t, init, l);
      LastOf(items, init, last);
    }
  }

  /** An open change request of the review is either orphaned or hangs off a current item. */
  lemma ChangesExplained(t: Tables, review: Id)
    ensures Orphaned(t, review) == 0 && (forall i :: i in Current(t, review) ==> OpenOn(t, i.id) == 0)
            <==> Open(t, review) == 0 && forall i :: i in Current(t, review) ==> !ForeignChange(t, review, i)
  {
    var items := Current(t, review);
    CountZero(t.changes, (c: Change) => c.review == review && IsOpen(c));
    CountZero(t.changes, (c: Change) => c.review == review && IsOpen(c) && !Names(items, c.item));
    forall i | i in items
      ensures OpenOn(t, i.id) == 0 <==> forall c :: c in t.changes ==> !(c.item == Some(i.id) && IsOpen(c))
    {
      CountZero(t.changes, (c: Change) => c.item == Some(i.id) && IsOpen(c));
    }
  }

  // ----------------------------------------------------------------- the handlers

  method ReviewBlockers(t: Tables, review: Id) returns (missing: nat, open: nat, stale: nat)
    ensures (missing, open, stale) == (Missing(t, review), Open(t, review), StaleVerdicts(t, review))
    ensures missing + open + stale > 0 ==> BlockingItems(t, review) != []
  {
    ListExplainsGuard(t, review);
    missing, open, stale := Missing(t, review), Open(t, review), StaleVerdicts(t, review);
  }

  method ReasonsFor(t: Tables, item: Item) returns (reasons: seq<Reason>)
    ensures reasons == Reasons(t, item)
  {
    reasons := [];
    if IsUnreviewed(item) { reasons := reasons + [Unreviewed]; }
    var open := OpenOn(t, item.id);
    if open > 0 { reasons := reasons + [OpenChanges(open)]; }
    if IsStale(item) { reasons := reasons + [Stale]; }
  }

  lemma IssuesStep(t: Tables, rows: seq<Item>, k: nat)
    requires k < |rows|
    ensures ItemIssues(t, rows[..k + 1])
         == if Reasons(t, rows[k]) == [] then ItemIssues(t, rows[..k]) else ItemIssues(t, rows[..k]) + [Issue(Some(rows[k].id), Reasons(t, rows[k]))]
  {
    assert rows[..k + 1][..k] == rows[..k];
  }

  method CompletionBlockingItems(t: Tables, review: Id) returns (issues: seq<Issue>)
    ensures issues == BlockingItems(t, review)
    ensures issues == [] ==> !Refuses(t, review)
  {
    ListExplainsGuard(t, review);
    var rows := Current(t, review);
    issues := [];
    for k := 0 to |rows|
      invariant issues == ItemIssues(t, rows[..k])
    {
      var item := rows[k];
      var reasons := ReasonsFor(t, item);
      if |reasons| > 0 { issues := issues + [Issue(Some(item.id), reasons)]; }
      IssuesStep(t, rows, k);
    }
    assert rows[..|rows|] == rows;
    var orphaned := Orphaned(t, review);
    if orphaned > 0 { issues := issues + [Issue(None, [OpenChanges(orphaned)])]; }
  }
}
