/**
 * The `help_requests` table as a value: its rows in insertion order, and what
 * the statements of `DBManager` (db_manager.py) do to them.
 */
module Ledger {
  import opened Wrappers
  import opened Sorting

  /** A request still PENDING this many seconds after its creation times out. */
  const TimeoutSeconds: int := 3600

  datatype Status = Pending | Resolved | Unresolved

  /** One row of `help_requests`. */
  datatype HelpRequest = HelpRequest(
    id: int,
    customerId: string,
    question: string,
    status: Status,
    supervisorAnswer: Option<string>,
    createdAt: int,
    resolvedAt: Option<int>)

  /** The supervisor's answer and the resolution time are set exactly on RESOLVED rows. */
  predicate RowConsistent(r: HelpRequest) {
    && (r.supervisorAnswer.Some? <==> r.status == Resolved)
    && (r.resolvedAt.Some? <==> r.status == Resolved)
  }

  /** The table invariant: every row consistent, and ids strictly increasing in
      insertion order (AUTOINCREMENT), hence unique. */
  ghost predicate WellFormed(rows: seq<HelpRequest>) {
    && (forall i :: 0 <= i < |rows| ==> RowConsistent(rows[i]))
    && (forall i, j {:trigger IdBefore(rows[i], rows[j])} :: 0 <= i < j < |rows| ==> IdBefore(rows[i], rows[j]))
  }

  /** AUTOINCREMENT: a row inserted before another has a smaller id. */
  predicate IdBefore(a: HelpRequest, b: HelpRequest) {
    a.id < b.id
  }

  /** Ids being increasing, two rows have the same id exactly when they are the same row. */
  lemma {:induction false} IdsDistinct(rows: seq<HelpRequest>, a: int, b: int)
    requires WellFormed(rows) && 0 <= a < |rows| && 0 <= b < |rows|
    ensures rows[a].id == rows[b].id <==> a == b
  {
    assert a < b ==> IdBefore(rows[a], rows[b]);
    assert b < a ==> IdBefore(rows[b], rows[a]);
  }

  /** A table whose rows each keep their id, and stay consistent, keeps its invariant. */
  lemma {:induction false} WellFormedSameIds(rows: seq<HelpRequest>, after: seq<HelpRequest>)
    requires WellFormed(rows) && |after| == |rows|
    requires forall i :: 0 <= i < |rows| ==> after[i].id == rows[i].id && RowConsistent(after[i])
    ensures WellFormed(after)
  {
    forall i, j | 0 <= i < j < |after| ensures IdBefore(after[i], after[j]) {
      assert IdBefore(rows[i], rows[j]);
    }
  }

  /** `after` is a later version of the row `before`: the same request, and a
      RESOLVED or UNRESOLVED row never changes again. */
  predicate RowEvolves(before: HelpRequest, after: HelpRequest) {
    && after.id == before.id
    && after.customerId == before.customerId
    && after.question == before.question
    && after.createdAt == before.createdAt
    && (before.status != Pending ==> after == before)
  }

  /** `after` is a later version of the table `before`: rows are only added at
      the end, and each existing row evolves as `RowEvolves` allows. */
  ghost predicate Evolves(before: seq<HelpRequest>, after: seq<HelpRequest>) {
    && |before| <= |after|
    && forall i :: 0 <= i < |before| ==> RowEvolves(before[i], after[i])
  }

  lemma EvolvesTransitive(a: seq<HelpRequest>, b: seq<HelpRequest>, c: seq<HelpRequest>)
    requires Evolves(a, b) && Evolves(b, c)
    ensures Evolves(a, c)
  {
  }

  /** The row `create_request` inserts. */
  function NewRequest(id: int, customerId: string, question: string, now: int): (r: HelpRequest)
    ensures RowConsistent(r) && r.status == Pending
  {
    HelpRequest(id, customerId, question, Pending, None, now, None)
  }

  // ----- the timeout sweep -----

  /** A PENDING row created strictly before `now - TimeoutSeconds`. */
  predicate IsStale(r: HelpRequest, now: int) {
    r.status == Pending && r.createdAt < now - TimeoutSeconds
  }

  function SweepRow(r: HelpRequest, now: int): HelpRequest {
    if IsStale(r, now) then r.(status := Unresolved) else r
  }

  /** `UPDATE help_requests SET status = 'UNRESOLVED' WHERE status = 'PENDING' AND created_at < now - 3600`. */
  function Sweep(rows: seq<HelpRequest>, now: int): (r: seq<HelpRequest>)
    ensures |r| == |rows|
    ensures forall i :: 0 <= i < |r| ==> !IsStale(r[i], now)
    ensures forall i :: 0 <= i < |r| ==> (r[i] != rows[i] <==> IsStale(rows[i], now))
    ensures forall i :: 0 <= i < |r| && IsStale(rows[i], now) ==> r[i] == rows[i].(status := Unresolved)
    ensures Evolves(rows, r)
    ensures WellFormed(rows) ==> WellFormed(r)
  {
    var r := seq(|rows|, i requires 0 <= i < |rows| => SweepRow(rows[i], now));
    assert WellFormed(rows) ==> WellFormed(r) by {
      if WellFormed(rows) {
        WellFormedSameIds(rows, r);
      }
    }
    r
  }

  // ----- the reads -----

  /** The PENDING rows, in table order (`WHERE status = 'PENDING'`). */
  function PendingRows(rows: seq<HelpRequest>): (r: seq<HelpRequest>)
    ensures forall x :: multiset(r)[x] == if x.status == Pending then multiset(rows)[x] else 0
    decreases |rows|
  {
    if rows == [] then []
    else
      assert rows == [rows[0]] + rows[1..];
      (if rows[0].status == Pending then [rows[0]] else []) + PendingRows(rows[1..])
  }

  function CreatedAt(r: HelpRequest): int {
    r.createdAt
  }

  function NewestFirst(r: HelpRequest): int {
    -r.createdAt
  }

  /** `SELECT * FROM help_requests WHERE status = 'PENDING' ORDER BY created_at ASC`:
      the PENDING rows, oldest first (`ListPendingContents` says which rows). */
  function ListPending(rows: seq<HelpRequest>): (r: seq<HelpRequest>)
    ensures forall i, j :: 0 <= i < j < |r| ==> r[i].createdAt <= r[j].createdAt
  {
    var r := SortBy(PendingRows(rows), CreatedAt);
    assert SortedBy(r, CreatedAt);
    r
  }

  /** The pending list holds every PENDING row, as often as it occurs, and nothing else. */
  lemma {:induction false} ListPendingContents(rows: seq<HelpRequest>)
    ensures forall x :: multiset(ListPending(rows))[x] == if x.status == Pending then multiset(rows)[x] else 0
  {
    var pending := PendingRows(rows);
    assert multiset(ListPending(rows)) == multiset(pending);
  }

  /** `SELECT * FROM help_requests ORDER BY created_at DESC`: the whole history, newest first. */
  function ListAll(rows: seq<HelpRequest>): (r: seq<HelpRequest>)
    ensures forall i, j :: 0 <= i < j < |r| ==> r[i].createdAt >= r[j].createdAt
    ensures multiset(r) == multiset(rows)
  {
    var r := SortBy(rows, NewestFirst);
    assert SortedBy(r, NewestFirst);
    r
  }

  /** The position of the row with primary key `id`, if there is one. */
  function FindRequest(rows: seq<HelpRequest>, id: int): (r: Option<nat>)
    ensures r.Some? ==> r.value < |rows| && rows[r.value].id == id
    ensures r.Some? ==> forall j :: 0 <= j < r.value ==> rows[j].id != id
    ensures r.None? <==> forall i :: 0 <= i < |rows| ==> rows[i].id != id
    decreases |rows|
  {
    if rows == [] then None
    else if rows[0].id == id then Some(0)
    else
      match FindRequest(rows[1..], id)
      case None => None
      case Some(k) => Some(k + 1)
  }

  // ----- resolution -----

  /** Some row with primary key `id` is PENDING. */
  predicate IsPendingRequest(rows: seq<HelpRequest>, id: int) {
    exists i :: 0 <= i < |rows| && rows[i].id == id && rows[i].status == Pending
  }

  /** The row as the resolving `UPDATE` leaves it. */
  function MarkResolved(r: HelpRequest, answer: string, now: int): (after: HelpRequest)
    ensures RowConsistent(after) && after.status == Resolved
    ensures r.status == Pending ==> RowEvolves(r, after)
  {
    r.(status := Resolved, supervisorAnswer := Some(answer), resolvedAt := Some(now))
  }

  /** The table after `resolve_request`, and the record it returns (None when no row changed). */
  datatype Resolution = Resolution(rows: seq<HelpRequest>, updated: Option<HelpRequest>)

  /** `UPDATE help_requests SET status = 'RESOLVED', supervisor_answer = ?, resolved_at = ?
      WHERE id = ? AND status = 'PENDING'`, then the row with that id if one changed. */
  function Resolve(rows: seq<HelpRequest>, id: int, answer: string, now: int): (out: Resolution)
    ensures out.updated.Some? ==> IsPendingRequest(rows, id)
    ensures WellFormed(rows) && IsPendingRequest(rows, id) ==> out.updated.Some?
    ensures out.updated.None? ==> out.rows == rows
    ensures out.updated.Some? ==>
      && out.updated.value.id == id && out.updated.value.status == Resolved
      && out.updated.value.supervisorAnswer == Some(answer) && out.updated.value.resolvedAt == Some(now)
    ensures WellFormed(rows) ==> WellFormed(out.rows)
  {
    match FindRequest(rows, id)
    case None => Resolution(rows, None)
    case Some(i) =>
      if rows[i].status != Pending then
        assert WellFormed(rows) ==> !IsPendingRequest(rows, id) by {
          if WellFormed(rows) {
            forall j | 0 <= j < |rows| && rows[j].id == id ensures rows[j].status != Pending {
              IdsDistinct(rows, i, j);
            }
          }
        }
        Resolution(rows, None)
      else
        var after := rows[i := MarkResolved(rows[i], answer, now)];
        assert WellFormed(rows) ==> WellFormed(after) by {
          if WellFormed(rows) {
            WellFormedSameIds(rows, after);
          }
        }
        Resolution(after, Some(after[i]))
  }

  /** A successful resolution changes exactly one row: the PENDING row with
      that id, which it marks RESOLVED and returns. */
  lemma {:induction false} ResolveMarksOneRow(rows: seq<HelpRequest>, id: int, answer: string, now: int) returns (i: int)
    requires Resolve(rows, id, answer, now).updated.Some?
    ensures 0 <= i < |rows| && rows[i].id == id && rows[i].status == Pending
    ensures Resolve(rows, id, answer, now).rows == rows[i := MarkResolved(rows[i], answer, now)]
    ensures Resolve(rows, id, answer, now).updated == Some(Resolve(rows, id, answer, now).rows[i])
  {
    i := FindRequest(rows, id).value;
  }

  /** Resolution only moves a PENDING row on, so the table evolves. */
  lemma {:induction false} ResolveEvolves(rows: seq<HelpRequest>, id: int, answer: string, now: int)
    ensures Evolves(rows, Resolve(rows, id, answer, now).rows)
  {
    if Resolve(rows, id, answer, now).updated.Some? {
      var i := ResolveMarksOneRow(rows, id, answer, now);
    }
  }

  /** A request is resolved at most once: resolving the same id again, with any
      answer at any time, returns None and leaves the table as it is. */
  lemma {:induction false} ResolveOnlyOnce(rows: seq<HelpRequest>, id: int, first: string, t1: int, second: string, t2: int)
    requires WellFormed(rows)
    ensures var once := Resolve(rows, id, first, t1);
      Resolve(once.rows, id, second, t2) == Resolution(once.rows, None)
  {
    var once := Resolve(rows, id, first, t1);
    if once.updated.Some? {
      var i := ResolveMarksOneRow(rows, id, first, t1);
      forall j | 0 <= j < |once.rows| && once.rows[j].id == id
        ensures once.rows[j].status != Pending
      {
        IdsDistinct(once.rows, i, j);
      }
    }
  }

  /** No row of the pending list is stale once the sweep has run: it is PENDING
      and younger than the timeout. */
  lemma {:induction false} PendingListIsFresh(rows: seq<HelpRequest>, now: int)
    ensures forall x :: x in ListPending(Sweep(rows, now)) ==>
      x.status == Pending && x.createdAt >= now - TimeoutSeconds
  {
    var swept := Sweep(rows, now);
    ListPendingContents(swept);
    forall x | x in ListPending(swept)
      ensures x.status == Pending && x.createdAt >= now - TimeoutSeconds
    {
      assert x in multiset(ListPending(swept));
      assert x in multiset(swept);
      var k :| 0 <= k < |swept| && swept[k] == x;
    }
  }

  /** A request that timed out at `now` never appears in the pending list again,
      whatever later operations do to the table. */
  lemma {:induction false} TimedOutStaysOut(rows: seq<HelpRequest>, now: int, i: nat, later: seq<HelpRequest>)
    requires i < |rows| && IsStale(rows[i], now)
    requires Evolves(Sweep(rows, now), later) && WellFormed(later)
    ensures forall x :: x in ListPending(later) ==> x.id != rows[i].id
  {
    var swept := Sweep(rows, now);
    assert later[i] == swept[i] && later[i].status == Unresolved;
    ListPendingContents(later);
    forall x | x in ListPending(later)
      ensures x.id != rows[i].id
    {
      assert x in multiset(ListPending(later));
      assert x in multiset(later);
      var k :| 0 <= k < |later| && later[k] == x;
      assert k != i;
      IdsDistinct(later, i, k);
    }
  }
}
