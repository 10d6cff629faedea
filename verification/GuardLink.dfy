// The completion guard is the same in both models: the counts over joined rows refuse exactly when the
// workflow's guard does.
module GuardLink {
  import opened Common
  import W = Workflow
  import C = Completion

  function ItemRow(id: W.Id, i: W.Item): C.Item {
    C.Item(id,
           if i.verdict.None? then None else Some(C.Verdict(i.verdict.value.result, i.verdict.value.at)),
           if i.response.None? then None else Some(i.response.value.updatedAt),
           i.touched)
  }

  function ChangeRow(review: W.Id, c: W.Change): C.Change {
    C.Change(review, Some(c.item), match c.status case Open => "OPEN" case Done => "DONE" case Verified => "VERIFIED")
  }

  /** A listing of the keys of a table, in any order. */
  ghost predicate Lists(order: seq<W.Id>, keys: set<W.Id>) {
    forall k :: k in order <==> k in keys
  }

  function ItemRows(r: W.Review, order: seq<W.Id>): (rows: seq<C.Item>)
    requires forall k :: k in order ==> k in r.items
    ensures |rows| == |order| && forall n :: 0 <= n < |order| ==> rows[n] == ItemRow(order[n], r.items[order[n]])
  {
    seq(|order|, n requires 0 <= n < |order| => ItemRow(order[n], r.items[order[n]]))
  }

  function ChangeRows(r: W.Review, review: W.Id, order: seq<W.Id>): (rows: seq<C.Change>)
    requires forall k :: k in order ==> k in r.changes
    ensures |rows| == |order| && forall n :: 0 <= n < |order| ==> rows[n] == ChangeRow(review, r.changes[order[n]])
  {
    seq(|order|, n requires 0 <= n < |order| => ChangeRow(review, r.changes[order[n]]))
  }

  /** The tables that hold one review of one revision. */
  function TablesOf(r: W.Review, review: W.Id, items: seq<W.Id>, changes: seq<W.Id>): C.Tables
    requires (forall k :: k in items ==> k in r.items) && (forall k :: k in changes ==> k in r.changes)
  {
    C.Tables([C.Submission(review, 1, ItemRows(r, items))], ChangeRows(r, review, changes))
  }

  lemma OneSubmission(r: W.Review, review: W.Id, items: seq<W.Id>, changes: seq<W.Id>)
    requires (forall k :: k in items ==> k in r.items) && (forall k :: k in changes ==> k in r.changes)
    ensures C.Current(TablesOf(r, review, items, changes), review) == ItemRows(r, items)
  {
    var s := C.Submission(review, 1, ItemRows(r, items));
    assert [s][1..] == [];
    assert C.ItemsOf([s], [s], review) == s.items + C.ItemsOf([s], [], review);
    assert s.items + [] == s.items;
  }

  lemma RowAgrees(id: W.Id, i: W.Item)
    ensures !C.IsUnreviewed(ItemRow(id, i)) <==> W.HasVerdict(i)
    ensures ItemRow(id, i).response.Some? && C.IsStale(ItemRow(id, i)) <==> W.IsStale(i)
  {
  }

  lemma ChangeAgrees(review: W.Id, c: W.Change)
    ensures C.IsOpen(ChangeRow(review, c)) <==> c.status != W.Verified
  {
    assert |"OPEN"| == 4 && |"DONE"| == 4 && |"VERIFIED"| == 8;
  }

  /** The workflow's guard lets a review pass exactly when the three counts over its rows are zero, in
      whatever order the rows come. */
  lemma GuardsAgree(r: W.Review, review: W.Id, items: seq<W.Id>, changes: seq<W.Id>)
    requires Lists(items, r.items.Keys) && Lists(changes, r.changes.Keys)
    ensures W.NothingBlocks(r) <==> !C.Refuses(TablesOf(r, review, items, changes), review)
  {
    var t, rows, open := TablesOf(r, review, items, changes), ItemRows(r, items), ChangeRows(r, review, changes);
    OneSubmission(r, review, items, changes);
    C.CountZero(rows, C.IsUnreviewed);
    C.CountZero(rows, (i: C.Item) => i.response.Some? && C.IsStale(i));
    C.CountZero(open, (c: C.Change) => c.review == review && C.IsOpen(c));
    ItemsAgree(r, items);
    ChangesAgree(r, review, changes);
  }

  lemma ItemsAgree(r: W.Review, items: seq<W.Id>)
    requires Lists(items, r.items.Keys)
    ensures (forall i :: i in ItemRows(r, items) ==> !C.IsUnreviewed(i)) <==> forall id :: id in r.items ==> W.HasVerdict(r.items[id])
    ensures (forall i :: i in ItemRows(r, items) ==> !(i.response.Some? && C.IsStale(i))) <==> forall id :: id in r.items ==> !W.IsStale(r.items[id])
  {
    var rows := ItemRows(r, items);
    forall id | id in r.items
      ensures ItemRow(id, r.items[id]) in rows
      ensures !C.IsUnreviewed(ItemRow(id, r.items[id])) <==> W.HasVerdict(r.items[id])
      ensures ItemRow(id, r.items[id]).response.Some? && C.IsStale(ItemRow(id, r.items[id])) <==> W.IsStale(r.items[id])
    {
      var n :| 0 <= n < |items| && items[n] == id;
      assert rows[n] == ItemRow(id, r.items[id]);
      RowAgrees(id, r.items[id]);
    }
    forall i | i in rows ensures exists id :: id in r.items && i == ItemRow(id, r.items[id]) {
      var n :| 0 <= n < |rows| && rows[n] == i;
      assert items[n] in r.items;
    }
  }

  lemma ChangesAgree(r: W.Review, review: W.Id, changes: seq<W.Id>)
    requires Lists(changes, r.changes.Keys)
    ensures (forall c :: c in ChangeRows(r, review, changes) ==> !(c.review == review && C.IsOpen(c)))
            <==> forall c :: c in r.changes ==> r.changes[c].status == W.Verified
  {
    var rows := ChangeRows(r, review, changes);
    forall c | c in r.changes
      ensures ChangeRow(review, r.changes[c]) in rows
      ensures C.IsOpen(ChangeRow(review, r.changes[c])) <==> r.changes[c].status != W.Verified
    {
      var n :| 0 <= n < |changes| && changes[n] == c;
      assert rows[n] == ChangeRow(review, r.changes[c]);
      ChangeAgrees(review, r.changes[c]);
    }
    forall x | x in rows ensures exists c :: c in r.changes && x == ChangeRow(review, r.changes[c]) {
      var n :| 0 <= n < |rows| && rows[n] == x;
      assert changes[n] in r.changes;
    }
  }
}
