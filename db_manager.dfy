/**
 * `DBManager` (db_manager.py): the two SQLite tables as fields that its
 * methods update in place. Each `last...Id` field is the table's
 * AUTOINCREMENT counter (its entry in `sqlite_sequence`); `now` stands for the
 * `time.time()` each method reads.
 */
module DbManager {
  import opened Wrappers
  import opened Text
  import opened Ledger
  import opened Knowledge

  class DBManager {
    var requests: seq<HelpRequest>
    var lastRequestId: int
    var entries: seq<KnowledgeEntry>
    var lastEntryId: int

    /** Both table invariants, and every id issued by its table's counter. */
    ghost predicate Valid()
      reads this
    {
      && 0 <= lastRequestId && 0 <= lastEntryId
      && Ledger.WellFormed(requests)
      && (forall i :: 0 <= i < |requests| ==> 0 < requests[i].id <= lastRequestId)
      && Knowledge.WellFormed(entries)
      && (forall i :: 0 <= i < |entries| ==> 0 < entries[i].id <= lastEntryId)
    }

    /** `__init__` on a fresh database file: both tables exist and are empty. */
    constructor ()
      ensures Valid()
      ensures requests == [] && entries == [] && lastRequestId == 0 && lastEntryId == 0
    {
      requests, lastRequestId := [], 0;
      entries, lastEntryId := [], 0;
    }

    /** `create_request`: inserts one PENDING row with a new, larger id. */
    method CreateRequest(customerId: string, question: string, now: int) returns (id: int)
      requires Valid()
      modifies this
      ensures Valid()
      ensures id == old(lastRequestId) + 1 && lastRequestId == id
      ensures forall i :: 0 <= i < |old(requests)| ==> old(requests)[i].id < id
      ensures requests == old(requests) + [NewRequest(id, customerId, question, now)]
      ensures Evolves(old(requests), requests)
      ensures entries == old(entries) && lastEntryId == old(lastEntryId)
    {
      lastRequestId := lastRequestId + 1;
      id := lastRequestId;
      requests := requests + [NewRequest(id, customerId, question, now)];
    }

    /** The UPDATE of `get_pending_requests`: every stale PENDING row becomes UNRESOLVED. */
    method TimeOutStale(now: int)
      modifies this
      ensures requests == Sweep(old(requests), now)
      ensures lastRequestId == old(lastRequestId)
      ensures entries == old(entries) && lastEntryId == old(lastEntryId)
    {
      var i := 0;
      while i < |requests|
        invariant 0 <= i <= |requests| == |old(requests)|
        invariant forall k :: 0 <= k < i ==> requests[k] == SweepRow(old(requests)[k], now)
        invariant forall k :: i <= k < |requests| ==> requests[k] == old(requests)[k]
        invariant lastRequestId == old(lastRequestId)
        invariant entries == old(entries) && lastEntryId == old(lastEntryId)
      {
        if IsStale(requests[i], now) {
          requests := requests[i := requests[i].(status := Unresolved)];
        }
        i := i + 1;
      }
      assert requests == Sweep(old(requests), now);
    }

    /** `get_pending_requests`: times out every stale PENDING row, then returns
        the rows still PENDING, oldest first. */
    method GetPendingRequests(now: int) returns (pending: seq<HelpRequest>)
      requires Valid()
      modifies this
      ensures Valid()
      ensures requests == Sweep(old(requests), now)
      ensures pending == ListPending(requests)
      ensures lastRequestId == old(lastRequestId)
      ensures entries == old(entries) && lastEntryId == old(lastEntryId)
    {
      TimeOutStale(now);
      assert forall k :: 0 <= k < |requests| ==> requests[k].id == old(requests)[k].id;
      pending := ListPending(requests);
    }

    /** `resolve_request`: resolves the row with that id if, and only if, it is
        PENDING, and returns it; otherwise returns None and changes nothing. */
    method ResolveRequest(requestId: int, answer: string, now: int) returns (resolved: Option<HelpRequest>)
      requires Valid()
      modifies this
      ensures Valid()
      ensures requests == Resolve(old(requests), requestId, answer, now).rows
      ensures resolved == Resolve(old(requests), requestId, answer, now).updated
      ensures lastRequestId == old(lastRequestId)
      ensures entries == old(entries) && lastEntryId == old(lastEntryId)
    {
      var k := FindRequest(requests, requestId);
      if k.None? || requests[k.value].status != Pending {
        return None;
      }
      ghost var out := Resolve(requests, requestId, answer, now);
      requests := requests[k.value := MarkResolved(requests[k.value], answer, now)];
      resolved := Some(requests[k.value]);
      assert requests == out.rows;
    }

    /** `get_all_requests`: the whole history, newest first. */
    method GetAllRequests() returns (all: seq<HelpRequest>)
      ensures all == ListAll(requests)
    {
      all := ListAll(requests);
    }

    /** `save_learned_answer`: overwrites the entry keyed `question.lower().strip()`
        or inserts it with the next id. */
    method SaveLearnedAnswer(question: string, answer: string, requestId: int, now: int)
      requires Valid()
      modifies this
      ensures Valid()
      ensures entries == Upsert(old(entries), Normalize(question), answer, requestId, now, old(lastEntryId) + 1)
      ensures lastEntryId == if HasKey(old(entries), Normalize(question)) then old(lastEntryId) else old(lastEntryId) + 1
      ensures requests == old(requests) && lastRequestId == old(lastRequestId)
    {
      var key := Normalize(question);
      ghost var upserted := Upsert(entries, key, answer, requestId, now, lastEntryId + 1);
      assert IdsBelow(entries, lastEntryId + 1);
      var existing := KeyIndex(entries, key);
      if existing.Some? {
        var i := existing.value;
        entries := entries[i := entries[i].(answer := answer, sourceRequestId := requestId, updatedAt := now)];
      } else {
        lastEntryId := lastEntryId + 1;
        entries := entries + [KnowledgeEntry(lastEntryId, key, answer, requestId, now)];
      }
      assert entries == upserted;
    }

    /** `get_kb_answer`: exact lookup of the normalised question. */
    method GetKbAnswer(question: string) returns (answer: Option<string>)
      ensures answer == Lookup(entries, question)
    {
      var existing := KeyIndex(entries, Normalize(question));
      answer := if existing.Some? then Some(entries[existing.value].answer) else None;
    }

    /** `get_all_kb_entries`: every entry, most recently written first. */
    method GetAllKbEntries() returns (all: seq<KnowledgeEntry>)
      ensures all == ListEntries(entries)
    {
      all := ListEntries(entries);
    }
  }
}
