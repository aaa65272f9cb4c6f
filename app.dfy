/**
 * The guard and sequencing logic of the Flask endpoints (app.py). Form fields
 * arrive as optional strings; a field counts as given when Python would find
 * it truthy (present and non-empty). The server owns one `DBManager` and one
 * `AIAgent` built on it, as the module globals of app.py do.
 */
module App {
  import opened Wrappers
  import opened Text
  import opened Ledger
  import opened Knowledge
  import opened DbManager
  import opened Simulations
  import opened AiAgent

  const DefaultCustomerId := "555-1234"
  const MissingQuestionBody := "Error: Missing question."
  const CallResponsePrefix := "AI Agent's Response to Caller:\n"

  /** Python truthiness of a form value. */
  predicate Truthy(field: Option<string>) {
    field.Some? && field.value != ""
  }

  /** `request.form.get('customer_id') or '555-1234'`: an absent or empty id gets the default. */
  function CustomerIdOf(field: Option<string>): (id: string)
    ensures id != ""
    ensures Truthy(field) ==> id == field.value
    ensures !Truthy(field) ==> id == DefaultCustomerId
  {
    if Truthy(field) then field.value else DefaultCustomerId
  }

  // ----- what the endpoints keep true across both tables and the messages sent -----

  /** `entry` holds the answer of the RESOLVED request `r`, under `r`'s normalised question. */
  predicate LearnedFrom(entry: KnowledgeEntry, r: HelpRequest) {
    && entry.sourceRequestId == r.id
    && r.status == Resolved
    && r.supervisorAnswer == Some(entry.answer)
    && entry.questionKey == Normalize(r.question)
  }

  /** `e` was learned from one of `requests`. */
  ghost predicate Sourced(requests: seq<HelpRequest>, e: KnowledgeEntry) {
    exists r {:trigger LearnedFrom(e, r)} :: r in requests && LearnedFrom(e, r)
  }

  /** Every knowledge entry was learned from a request that is still resolved with that answer. */
  ghost predicate KnowledgeTraced(requests: seq<HelpRequest>, entries: seq<KnowledgeEntry>) {
    forall e {:trigger Sourced(requests, e)} :: e in entries ==> Sourced(requests, e)
  }

  /** The supervisor was texted about `r`. */
  predicate Alerted(sent: seq<Message>, r: HelpRequest) {
    SupervisorText(r.question, r.id) in sent
  }

  /** `m` is the supervisor text about `r`. */
  predicate Announces(m: Message, r: HelpRequest) {
    m.SupervisorText? && m.requestId == r.id && m.question == r.question
  }

  /** The supervisor text `m` is about one of `requests`. */
  ghost predicate AlertOf(requests: seq<HelpRequest>, m: Message) {
    exists r {:trigger Announces(m, r)} :: r in requests && Announces(m, r)
  }

  /** The supervisor was texted about every request, and about nothing else. */
  ghost predicate AlertsTraced(requests: seq<HelpRequest>, sent: seq<Message>) {
    && (forall r {:trigger Alerted(sent, r)} :: r in requests ==> Alerted(sent, r))
    && (forall m {:trigger AlertOf(requests, m)} :: m in sent && m.SupervisorText? ==> AlertOf(requests, m))
  }

  /** The customer of `r` was called back with `r`'s answer. */
  predicate CalledBack(sent: seq<Message>, r: HelpRequest) {
    r.supervisorAnswer.Some? && CustomerCallback(r.customerId, r.supervisorAnswer.value) in sent
  }

  /** `m` is the callback that passes the answer of the resolved request `r` on. */
  predicate AnswersCall(m: Message, r: HelpRequest) {
    && m.CustomerCallback? && r.status == Resolved
    && r.customerId == m.customerId && r.supervisorAnswer == Some(m.answer)
  }

  /** The callback `m` passes on the answer of one of `requests`. */
  ghost predicate CallbackOf(requests: seq<HelpRequest>, m: Message) {
    exists r {:trigger AnswersCall(m, r)} :: r in requests && AnswersCall(m, r)
  }

  /** The customer of every resolved request got its answer, and no other callback was sent. */
  ghost predicate CallbacksTraced(requests: seq<HelpRequest>, sent: seq<Message>) {
    && (forall r {:trigger CalledBack(sent, r)} :: r in requests && r.status == Resolved ==> CalledBack(sent, r))
    && (forall m {:trigger CallbackOf(requests, m)} :: m in sent && m.CustomerCallback? ==> CallbackOf(requests, m))
  }

  /** No request was resolved with an empty answer: the endpoint refuses those. */
  ghost predicate AnswersGiven(requests: seq<HelpRequest>) {
    forall r {:trigger AnswerGiven(r)} :: r in requests ==> AnswerGiven(r)
  }

  /** `r`, if resolved, carries a non-empty answer. */
  predicate AnswerGiven(r: HelpRequest) {
    r.status == Resolved ==> r.supervisorAnswer != Some("")
  }

  ghost predicate Consistent(requests: seq<HelpRequest>, entries: seq<KnowledgeEntry>, sent: seq<Message>) {
    && KnowledgeTraced(requests, entries)
    && AlertsTraced(requests, sent)
    && CallbacksTraced(requests, sent)
    && AnswersGiven(requests)
  }

  /** Escalation (a new PENDING request and its supervisor text) keeps the tables consistent. */
  lemma {:induction false} ConsistentAfterEscalation(requests: seq<HelpRequest>, entries: seq<KnowledgeEntry>,
                                                     sent: seq<Message>, id: int, customerId: string,
                                                     question: string, now: int)
    requires Consistent(requests, entries, sent)
    ensures Consistent(requests + [NewRequest(id, customerId, question, now)], entries,
                       sent + [SupervisorText(question, id)])
  {
    var row := NewRequest(id, customerId, question, now);
    var requests', sent' := requests + [row], sent + [SupervisorText(question, id)];
    forall e | e in entries ensures Sourced(requests', e) {
      assert Sourced(requests, e);
      var x :| x in requests && LearnedFrom(e, x);
      assert x in requests';
    }
    forall r | r in requests' ensures Alerted(sent', r) {
      if r in requests {
        assert Alerted(sent, r);
      } else {
        assert r == row;
      }
    }
    forall m | m in sent' && m.SupervisorText? ensures AlertOf(requests', m) {
      if m in sent {
        assert AlertOf(requests, m);
        var x :| x in requests && Announces(m, x);
        assert x in requests';
      } else {
        assert row in requests' && Announces(m, row);
      }
    }
    forall r | r in requests' && r.status == Resolved ensures CalledBack(sent', r) {
      assert r in requests && CalledBack(sent, r);
    }
    forall m | m in sent' && m.CustomerCallback? ensures CallbackOf(requests', m) {
      assert m in sent && CallbackOf(requests, m);
      var x :| x in requests && AnswersCall(m, x);
      assert x in requests';
    }
  }

  /** A step that only changes PENDING rows into UNRESOLVED ones, such as the
      timeout sweep, keeps the tables consistent. */
  lemma {:induction false} ConsistentWithoutNewResolutions(before: seq<HelpRequest>, after: seq<HelpRequest>,
                                                           entries: seq<KnowledgeEntry>, sent: seq<Message>)
    requires Consistent(before, entries, sent)
    requires Evolves(before, after) && |after| == |before|
    requires forall i :: 0 <= i < |after| && after[i].status == Resolved ==> after[i] == before[i]
    ensures Consistent(after, entries, sent)
  {
    forall r | r in before && r.status == Resolved ensures r in after {
      var k :| 0 <= k < |before| && before[k] == r;
      assert after[k] == r;
    }
    forall r | r in after && r.status == Resolved ensures r in before {
      var k :| 0 <= k < |after| && after[k] == r;
    }
    forall e | e in entries ensures Sourced(after, e) {
      assert Sourced(before, e);
      var x :| x in before && LearnedFrom(e, x);
      assert x in after;
    }
    forall r | r in after ensures Alerted(sent, r) {
      var k :| 0 <= k < |after| && after[k] == r;
      assert before[k] in before && Alerted(sent, before[k]);
    }
    forall m | m in sent && m.SupervisorText? ensures AlertOf(after, m) {
      assert AlertOf(before, m);
      var x :| x in before && Announces(m, x);
      var k :| 0 <= k < |before| && before[k] == x;
      assert after[k] in after && Announces(m, after[k]);
    }
    forall r | r in after && r.status == Resolved ensures CalledBack(sent, r) {
      assert CalledBack(sent, r);
    }
    forall m | m in sent && m.CustomerCallback? ensures CallbackOf(after, m) {
      assert CallbackOf(before, m);
      var x :| x in before && AnswersCall(m, x);
      assert x in after;
    }
  }

  lemma {:induction false} ConsistentAfterSweep(requests: seq<HelpRequest>, entries: seq<KnowledgeEntry>,
                                                sent: seq<Message>, now: int)
    requires Consistent(requests, entries, sent)
    ensures Consistent(Sweep(requests, now), entries, sent)
  {
    ConsistentWithoutNewResolutions(requests, Sweep(requests, now), entries, sent);
  }

  /** Rows of `requests[i := MarkResolved(..)]` other than row `i` were already there,
      and every resolved row of `requests` is still there. */
  lemma {:induction false} RowsAfterMark(requests: seq<HelpRequest>, i: int, answer: string, now: int)
    requires 0 <= i < |requests| && requests[i].status == Pending
    ensures var rows := requests[i := MarkResolved(requests[i], answer, now)];
      && (forall x :: x in requests && x.status == Resolved ==> x in rows)
      && (forall x :: x in rows && x != rows[i] ==> x in requests)
      && (forall x :: x in requests ==> exists y :: y in rows && y.id == x.id && y.question == x.question)
  {
    var rows := requests[i := MarkResolved(requests[i], answer, now)];
    forall x | x in requests && x.status == Resolved ensures x in rows {
      var k :| 0 <= k < |requests| && requests[k] == x;
      assert k != i && rows[k] == x;
    }
    forall x | x in rows && x != rows[i] ensures x in requests {
      var k :| 0 <= k < |rows| && rows[k] == x;
      assert k != i && requests[k] == x;
    }
    forall x | x in requests ensures exists y :: y in rows && y.id == x.id && y.question == x.question {
      var k :| 0 <= k < |requests| && requests[k] == x;
      assert rows[k] in rows;
    }
  }

  lemma {:induction false} KnowledgeTracedAfterMark(requests: seq<HelpRequest>, entries: seq<KnowledgeEntry>,
                                                    i: int, answer: string, now: int, newId: int)
    requires 0 <= i < |requests| && requests[i].status == Pending
    requires KnowledgeTraced(requests, entries)
    requires Knowledge.WellFormed(entries) && IdsBelow(entries, newId)
    ensures var rows := requests[i := MarkResolved(requests[i], answer, now)];
      KnowledgeTraced(rows, Upsert(entries, Normalize(rows[i].question), answer, rows[i].id, now, newId))
  {
    var rows := requests[i := MarkResolved(requests[i], answer, now)];
    var r := rows[i];
    var key := Normalize(r.question);
    var entries' := Upsert(entries, key, answer, r.id, now, newId);
    RowsAfterMark(requests, i, answer, now);
    UpsertKeepsOtherKeys(entries, key, answer, r.id, now, newId);
    forall e | e in entries' ensures Sourced(rows, e) {
      if e.questionKey == key {
        var j :| 0 <= j < |entries'| && entries'[j].questionKey == key && entries'[j].answer == answer
          && entries'[j].sourceRequestId == r.id && entries'[j].updatedAt == now;
        var k :| 0 <= k < |entries'| && entries'[k] == e;
        KeysDistinct(entries', j, k);
        assert r in rows && LearnedFrom(e, r);
      } else {
        assert e in entries && Sourced(requests, e);
        var x :| x in requests && LearnedFrom(e, x);
        assert x in rows;
      }
    }
  }

  lemma {:induction false} MessagesTracedAfterMark(requests: seq<HelpRequest>, sent: seq<Message>,
                                                   i: int, answer: string, now: int)
    requires 0 <= i < |requests| && requests[i].status == Pending
    requires AlertsTraced(requests, sent) && CallbacksTraced(requests, sent) && AnswersGiven(requests)
    requires answer != ""
    ensures var rows := requests[i := MarkResolved(requests[i], answer, now)];
      var sent' := sent + [CustomerCallback(rows[i].customerId, answer)];
      AlertsTraced(rows, sent') && CallbacksTraced(rows, sent') && AnswersGiven(rows)
  {
    var rows := requests[i := MarkResolved(requests[i], answer, now)];
    var r := rows[i];
    var sent' := sent + [CustomerCallback(r.customerId, answer)];
    RowsAfterMark(requests, i, answer, now);
    forall x | x in rows ensures Alerted(sent', x) {
      if x == r {
        assert requests[i] in requests && Alerted(sent, requests[i]);
      } else {
        assert x in requests && Alerted(sent, x);
      }
    }
    forall m | m in sent' && m.SupervisorText? ensures AlertOf(rows, m) {
      assert m in sent && AlertOf(requests, m);
      var x :| x in requests && Announces(m, x);
      var y :| y in rows && y.id == x.id && y.question == x.question;
      assert Announces(m, y);
    }
    forall x | x in rows && x.status == Resolved ensures CalledBack(sent', x) {
      if x != r {
        assert x in requests && CalledBack(sent, x);
      }
    }
    forall m | m in sent' && m.CustomerCallback? ensures CallbackOf(rows, m) {
      if m in sent {
        assert CallbackOf(requests, m);
        var x :| x in requests && AnswersCall(m, x);
        assert x in rows;
      } else {
        assert r in rows && AnswersCall(m, r);
      }
    }
  }

  /** A successful resolution with a non-empty answer, followed by learning the
      answer and calling the customer back, keeps the tables consistent. */
  lemma {:induction false} ConsistentAfterResolution(requests: seq<HelpRequest>, entries: seq<KnowledgeEntry>,
                                                     sent: seq<Message>, id: int, answer: string, now: int, newId: int)
    requires Consistent(requests, entries, sent)
    requires Ledger.WellFormed(requests) && Knowledge.WellFormed(entries) && IdsBelow(entries, newId)
    requires answer != ""
    requires Resolve(requests, id, answer, now).updated.Some?
    ensures var r := Resolve(requests, id, answer, now).updated.value;
      Consistent(Resolve(requests, id, answer, now).rows,
                 Upsert(entries, Normalize(r.question), answer, r.id, now, newId),
                 sent + [CustomerCallback(r.customerId, answer)])
  {
    var i := ResolveMarksOneRow(requests, id, answer, now);
    KnowledgeTracedAfterMark(requests, entries, i, answer, now, newId);
    MessagesTracedAfterMark(requests, sent, i, answer, now);
  }

  /** Through the endpoints, every stored answer is non-empty, so a lookup hit
      is always served as a learned answer. */
  lemma {:induction false} HitsAreServed(requests: seq<HelpRequest>, entries: seq<KnowledgeEntry>,
                                         sent: seq<Message>, question: string)
    requires Consistent(requests, entries, sent)
    ensures Lookup(entries, question).Some? ==>
      Decide(Lookup(entries, question), question) == Learned(Lookup(entries, question).value)
  {
    var found := Lookup(entries, question);
    if found.Some? {
      var k := KeyIndex(entries, Normalize(question));
      assert entries[k.value] in entries && Sourced(requests, entries[k.value]);
      var x :| x in requests && LearnedFrom(entries[k.value], x);
      assert AnswerGiven(x);
    }
  }

  /** The learning loop: once a pending request is resolved with a non-empty
      answer and the answer is learned, any later question with the same
      normalised text is answered with it. */
  lemma {:induction false} LearnedAnswerIsServed(requests: seq<HelpRequest>, entries: seq<KnowledgeEntry>,
                                                 id: int, answer: string, now: int, newId: int, asked: string)
    requires Ledger.WellFormed(requests) && Knowledge.WellFormed(entries) && IdsBelow(entries, newId)
    requires answer != ""
    requires Resolve(requests, id, answer, now).updated.Some?
    requires Normalize(asked) == Normalize(Resolve(requests, id, answer, now).updated.value.question)
    ensures var r := Resolve(requests, id, answer, now).updated.value;
      var learned := Upsert(entries, Normalize(r.question), answer, r.id, now, newId);
      Decide(Lookup(learned, asked), asked) == Learned(answer)
  {
    var r := Resolve(requests, id, answer, now).updated.value;
    LookupAfterUpsert(entries, r.question, asked, answer, r.id, now, newId);
  }

  class Server {
    const db: DBManager
    const agent: AIAgent

    ghost predicate Valid()
      reads db, agent.gateway
    {
      && agent.db == db
      && db.Valid()
      && Consistent(db.requests, db.entries, agent.gateway.sent)
    }

    constructor ()
      ensures Valid() && fresh(db) && fresh(agent.gateway)
      ensures db.requests == [] && db.entries == [] && agent.gateway.sent == []
    {
      var manager := new DBManager();
      var gateway := new Gateway();
      db := manager;
      agent := new AIAgent(manager, gateway);
    }

    /** `handle_incoming_call`: without a question, 400 and nothing happens;
        otherwise the agent handles the call and its reply is returned with 200. */
    method HandleIncomingCall(customerIdField: Option<string>, questionField: Option<string>, now: int)
      returns (body: string, status: int)
      requires Valid()
      modifies db, agent.gateway
      ensures Valid()
      ensures !Truthy(questionField) ==>
        && body == MissingQuestionBody && status == 400
        && unchanged(db) && agent.gateway.sent == old(agent.gateway.sent)
      ensures Truthy(questionField) ==>
        var question, customerId := questionField.value, CustomerIdOf(customerIdField);
        var route := Decide(Lookup(old(db.entries), question), question);
        && status == 200 && body == CallResponsePrefix + Reply(route)
        && db.entries == old(db.entries) && db.lastEntryId == old(db.lastEntryId)
        && (route.Escalate? ==>
              && db.lastRequestId == old(db.lastRequestId) + 1
              && db.requests == old(db.requests) + [NewRequest(db.lastRequestId, customerId, question, now)]
              && agent.gateway.sent == old(agent.gateway.sent) + [SupervisorText(question, db.lastRequestId)])
        && (!route.Escalate? ==>
              && db.requests == old(db.requests) && db.lastRequestId == old(db.lastRequestId)
              && agent.gateway.sent == old(agent.gateway.sent))
    {
      var customerId := CustomerIdOf(customerIdField);
      if !Truthy(questionField) {
        return MissingQuestionBody, 400;
      }
      var question := questionField.value;
      ghost var before := (db.requests, db.entries, agent.gateway.sent);
      ghost var id := db.lastRequestId + 1;
      var agentResponse := agent.HandleCall(customerId, question, now);
      if Decide(Lookup(before.1, question), question).Escalate? {
        ConsistentAfterEscalation(before.0, before.1, before.2, id, customerId, question, now);
      }
      body, status := CallResponsePrefix + agentResponse, 200;
    }

    /** `supervisor_dashboard`: the pending read runs the timeout sweep first, so
        the history read after it already shows timed-out requests as UNRESOLVED. */
    method SupervisorDashboard(now: int) returns (pending: seq<HelpRequest>, all: seq<HelpRequest>)
      requires Valid()
      modifies db
      ensures Valid()
      ensures db.requests == Sweep(old(db.requests), now)
      ensures pending == ListPending(db.requests) && all == ListAll(db.requests)
      ensures db.entries == old(db.entries) && db.lastEntryId == old(db.lastEntryId)
      ensures db.lastRequestId == old(db.lastRequestId)
    {
      ConsistentAfterSweep(db.requests, db.entries, agent.gateway.sent, now);
      pending := db.GetPendingRequests(now);
      all := db.GetAllRequests();
    }

    /** `resolve_request_endpoint`: without an answer nothing happens; otherwise
        the request is resolved, and only if that succeeded is the answer
        learned and the customer called back. */
    method ResolveRequestEndpoint(requestId: int, answerField: Option<string>, now: int)
      requires Valid()
      modifies db, agent.gateway
      ensures Valid()
      ensures !Truthy(answerField) ==> unchanged(db) && agent.gateway.sent == old(agent.gateway.sent)
      ensures Truthy(answerField) ==>
        && db.requests == Resolve(old(db.requests), requestId, answerField.value, now).rows
        && db.lastRequestId == old(db.lastRequestId)
      ensures Truthy(answerField) && Resolve(old(db.requests), requestId, answerField.value, now).updated.None? ==>
        && db.entries == old(db.entries) && db.lastEntryId == old(db.lastEntryId)
        && agent.gateway.sent == old(agent.gateway.sent)
      ensures Truthy(answerField) && Resolve(old(db.requests), requestId, answerField.value, now).updated.Some? ==>
        var resolved := Resolve(old(db.requests), requestId, answerField.value, now).updated.value;
        db.entries == Upsert(old(db.entries), Normalize(resolved.question), answerField.value,
                             requestId, now, old(db.lastEntryId) + 1)
      ensures Truthy(answerField) && Resolve(old(db.requests), requestId, answerField.value, now).updated.Some? ==>
        var resolved := Resolve(old(db.requests), requestId, answerField.value, now).updated.value;
        agent.gateway.sent == old(agent.gateway.sent) + [CustomerCallback(resolved.customerId, answerField.value)]
      ensures Truthy(answerField) && Resolve(old(db.requests), requestId, answerField.value, now).updated.Some? ==>
        var resolved := Resolve(old(db.requests), requestId, answerField.value, now).updated.value;
        db.lastEntryId == if HasKey(old(db.entries), Normalize(resolved.question)) then old(db.lastEntryId)
                          else old(db.lastEntryId) + 1
    {
      if !Truthy(answerField) {
        return;
      }
      var answer := answerField.value;
      assert agent.db == db;
      ghost var requests, entries, sent := db.requests, db.entries, agent.gateway.sent;
      ghost var out := Resolve(requests, requestId, answer, now);
      ghost var newId := db.lastEntryId + 1;
      assert IdsBelow(entries, newId);
      var resolved := db.ResolveRequest(requestId, answer, now);
      assert db.requests == out.rows && resolved == out.updated;
      if resolved.Some? {
        var r := resolved.value;
        // The resolved row and the state before the agent runs, spelled out for the calls below.
        assert r.id == requestId;
        assert db.entries == entries;
        assert db.lastEntryId + 1 == newId;
        assert r.question == out.updated.value.question;
        assert r.supervisorAnswer.value == answer;
        ghost var learned := Upsert(entries, Normalize(out.updated.value.question), answer, requestId, now, newId);
        assert learned == Upsert(db.entries, Normalize(r.question), r.supervisorAnswer.value, r.id, now, db.lastEntryId + 1);
        agent.ResolveHelpRequest(r, now);
        assert db.entries == learned;
        assert db.requests == out.rows;
        assert agent.gateway.sent == sent + [CustomerCallback(r.customerId, answer)];
        ConsistentAfterResolution(requests, entries, sent, requestId, answer, now, newId);
        assert Consistent(db.requests, db.entries, agent.gateway.sent);
      }
    }

    /** `knowledge_base_view`: every learned entry, most recently written first. */
    method KnowledgeBaseView() returns (entries: seq<KnowledgeEntry>)
      ensures entries == ListEntries(db.entries)
    {
      entries := db.GetAllKbEntries();
    }
  }
}
