/**
 * The `knowledge_base` table as a value: entries in insertion order, keyed by
 * the normalised question, and what the statements of `DBManager`
 * (db_manager.py) do to them.
 */
module Knowledge {
  import opened Wrappers
  import opened Sorting
  import opened Text

  /** One row of `knowledge_base`. */
  datatype KnowledgeEntry = KnowledgeEntry(
    id: int,
    questionKey: string,
    answer: string,
    sourceRequestId: int,
    updatedAt: int)

  /** The table invariant: `question_key` is UNIQUE, and ids strictly increase
      in insertion order (AUTOINCREMENT). */
  ghost predicate WellFormed(entries: seq<KnowledgeEntry>) {
    forall i, j {:trigger InOrder(entries[i], entries[j])} :: 0 <= i < j < |entries| ==> InOrder(entries[i], entries[j])
  }

  /** Two entries as they may stand in the table, `a` before `b`. */
  predicate InOrder(a: KnowledgeEntry, b: KnowledgeEntry) {
    a.questionKey != b.questionKey && a.id < b.id
  }

  /** Keys being unique, two entries have the same key exactly when they are the same entry. */
  lemma {:induction false} KeysDistinct(entries: seq<KnowledgeEntry>, a: int, b: int)
    requires WellFormed(entries) && 0 <= a < |entries| && 0 <= b < |entries|
    ensures entries[a].questionKey == entries[b].questionKey <==> a == b
  {
    assert a < b ==> InOrder(entries[a], entries[b]);
    assert b < a ==> InOrder(entries[b], entries[a]);
  }

  /** Every id in the table is below `bound`. */
  ghost predicate IdsBelow(entries: seq<KnowledgeEntry>, bound: int) {
    forall i :: 0 <= i < |entries| ==> entries[i].id < bound
  }

  predicate HasKey(entries: seq<KnowledgeEntry>, key: string) {
    exists i :: 0 <= i < |entries| && entries[i].questionKey == key
  }

  /** `SELECT ... FROM knowledge_base WHERE question_key = ?`: the position of the entry. */
  function KeyIndex(entries: seq<KnowledgeEntry>, key: string): (r: Option<nat>)
    ensures r.Some? ==> r.value < |entries| && entries[r.value].questionKey == key
    ensures r.None? <==> !HasKey(entries, key)
    decreases |entries|
  {
    if entries == [] then None
    else if entries[0].questionKey == key then Some(0)
    else
      match KeyIndex(entries[1..], key)
      case None =>
        assert forall i :: 1 <= i < |entries| ==> entries[i] == entries[1..][i - 1];
        None
      case Some(k) => Some(k + 1)
  }

  /** `get_kb_answer`: the answer stored under the question's normalised key, if any. */
  function Lookup(entries: seq<KnowledgeEntry>, question: string): (r: Option<string>)
    ensures r.Some? <==> HasKey(entries, Normalize(question))
    ensures WellFormed(entries) ==>
      forall i :: 0 <= i < |entries| && entries[i].questionKey == Normalize(question) ==>
        r == Some(entries[i].answer)
  {
    match KeyIndex(entries, Normalize(question))
    case None => None
    case Some(k) =>
      assert WellFormed(entries) ==>
        forall i :: 0 <= i < |entries| && entries[i].questionKey == Normalize(question) ==> i == k
      by {
        if WellFormed(entries) {
          forall i | 0 <= i < |entries| && entries[i].questionKey == Normalize(question) ensures i == k {
            KeysDistinct(entries, i, k);
          }
        }
      }
      Some(entries[k].answer)
  }

  /** The body of `save_learned_answer` once the key is computed: overwrite the
      entry with that key in place, or insert a new one with id `newId`. */
  function Upsert(entries: seq<KnowledgeEntry>, key: string, answer: string, requestId: int, now: int, newId: int)
    : (r: seq<KnowledgeEntry>)
    ensures WellFormed(entries) && IdsBelow(entries, newId) ==> WellFormed(r)
    ensures exists i :: 0 <= i < |r| && r[i].questionKey == key && r[i].answer == answer
                        && r[i].sourceRequestId == requestId && r[i].updatedAt == now
    ensures HasKey(entries, key) ==>
      && |r| == |entries|
      && forall i :: 0 <= i < |r| ==> r[i].id == entries[i].id && r[i].questionKey == entries[i].questionKey
    ensures !HasKey(entries, key) ==> r == entries + [KnowledgeEntry(newId, key, answer, requestId, now)]
  {
    match KeyIndex(entries, key)
    case Some(i) =>
      var r := entries[i := entries[i].(answer := answer, sourceRequestId := requestId, updatedAt := now)];
      assert r[i].questionKey == key && r[i].answer == answer;
      assert WellFormed(entries) ==> WellFormed(r) by {
        if WellFormed(entries) {
          forall a, b | 0 <= a < b < |r| ensures InOrder(r[a], r[b]) {
            assert InOrder(entries[a], entries[b]);
          }
        }
      }
      r
    case None =>
      var r := entries + [KnowledgeEntry(newId, key, answer, requestId, now)];
      assert r[|entries|].questionKey == key;
      assert WellFormed(entries) && IdsBelow(entries, newId) ==> WellFormed(r) by {
        if WellFormed(entries) && IdsBelow(entries, newId) {
          forall a, b | 0 <= a < b < |r| ensures InOrder(r[a], r[b]) {
            if b < |entries| {
              assert InOrder(entries[a], entries[b]);
            }
          }
        }
      }
      r
  }

  /** An upsert touches only the entry with its key: every entry under another
      key is kept, and no entry under another key appears. */
  lemma {:induction false} UpsertKeepsOtherKeys(entries: seq<KnowledgeEntry>, key: string, answer: string,
                                                requestId: int, now: int, newId: int)
    ensures var r := Upsert(entries, key, answer, requestId, now, newId);
      && (forall e :: e in entries && e.questionKey != key ==> e in r)
      && (forall e :: e in r && e.questionKey != key ==> e in entries)
  {
    var r := Upsert(entries, key, answer, requestId, now, newId);
    match KeyIndex(entries, key)
    case Some(i) =>
      forall e | e in entries && e.questionKey != key ensures e in r {
        var k :| 0 <= k < |entries| && entries[k] == e;
        assert r[k] == e;
      }
      forall e | e in r && e.questionKey != key ensures e in entries {
        var k :| 0 <= k < |r| && r[k] == e;
        assert entries[k] == e;
      }
    case None =>
  }

  /** After an upsert for `question`, every question with the same normalised
      key finds the new answer. */
  lemma {:induction false} LookupAfterUpsert(entries: seq<KnowledgeEntry>, question: string, asked: string,
                                             answer: string, requestId: int, now: int, newId: int)
    requires WellFormed(entries) && IdsBelow(entries, newId)
    requires Normalize(asked) == Normalize(question)
    ensures Lookup(Upsert(entries, Normalize(question), answer, requestId, now, newId), asked) == Some(answer)
  {
    var r := Upsert(entries, Normalize(question), answer, requestId, now, newId);
    var i :| 0 <= i < |r| && r[i].questionKey == Normalize(question) && r[i].answer == answer;
  }

  /** An upsert for `question` does not change what any question with another
      normalised key finds. */
  lemma {:induction false} LookupOtherKey(entries: seq<KnowledgeEntry>, question: string, asked: string,
                                          answer: string, requestId: int, now: int, newId: int)
    requires WellFormed(entries) && IdsBelow(entries, newId)
    requires Normalize(asked) != Normalize(question)
    ensures Lookup(Upsert(entries, Normalize(question), answer, requestId, now, newId), asked) == Lookup(entries, asked)
  {
    var key := Normalize(asked);
    var r := Upsert(entries, Normalize(question), answer, requestId, now, newId);
    UpsertKeepsOtherKeys(entries, Normalize(question), answer, requestId, now, newId);
    if HasKey(entries, key) {
      var k :| 0 <= k < |entries| && entries[k].questionKey == key;
      assert entries[k] in r;
      var m :| 0 <= m < |r| && r[m] == entries[k];
    }
  }

  function LatestFirst(e: KnowledgeEntry): int {
    -e.updatedAt
  }

  /** `SELECT * FROM knowledge_base ORDER BY updated_at DESC`: every entry, most recently written first. */
  function ListEntries(entries: seq<KnowledgeEntry>): (r: seq<KnowledgeEntry>)
    ensures forall i, j :: 0 <= i < j < |r| ==> r[i].updatedAt >= r[j].updatedAt
    ensures multiset(r) == multiset(entries)
  {
    var r := SortBy(entries, LatestFirst);
    assert SortedBy(r, LatestFirst);
    r
  }
}
