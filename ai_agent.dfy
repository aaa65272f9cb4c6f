/**
 * `AIAgent` (ai_agent.py): answers from the learned knowledge base first, then
 * from a fixed keyword heuristic, and otherwise escalates to the supervisor;
 * on resolution it learns the answer and calls the customer back.
 */
module AiAgent {
  import opened Wrappers
  import opened Text
  import opened Ledger
  import opened Knowledge
  import opened DbManager
  import opened Simulations

  const LearnedPrefix := "Hello! Based on our updated information, the answer is: "

  const HoursKeywords := ["hours", "open", "close"]
  const ServiceKeywords := ["service", "price", "cost", "haircut", "manicure", "coloring"]
  const BookingKeywords := ["book", "appointment", "schedule"]

  const HoursReply := "We are open Mon-Fri 9AM-7PM and Sat 10AM-5PM."
  const ServicesReply := "Our main services are: We offer Haircuts ($50+), Coloring ($120+), and Manicures ($30)."
  const BookingReply := "Appointments are required. Please call us at 555-555-5555 to book."
  const EscalationReply := "I apologize, that is not in my current knowledge base. Let me check with my supervisor and get back to you immediately via text message."

  /** The three ways `handle_call` can answer. */
  datatype Route = Learned(answer: string) | Canned(reply: string) | Escalate

  /** Step 2 of `handle_call`: the keyword checks on `question.lower()`, hours
      before services before booking. */
  function CannedReply(question: string): (r: Option<string>)
    ensures r == Some(HoursReply) <==> ContainsAny(Lower(question), HoursKeywords)
    ensures r == Some(ServicesReply) <==>
      !ContainsAny(Lower(question), HoursKeywords) && ContainsAny(Lower(question), ServiceKeywords)
    ensures r == Some(BookingReply) <==>
      && !ContainsAny(Lower(question), HoursKeywords)
      && !ContainsAny(Lower(question), ServiceKeywords)
      && ContainsAny(Lower(question), BookingKeywords)
    ensures r.Some? ==> r.value in {HoursReply, ServicesReply, BookingReply}
  {
    var questionLower := Lower(question);
    if ContainsAny(questionLower, HoursKeywords) then Some(HoursReply)
    else if ContainsAny(questionLower, ServiceKeywords) then Some(ServicesReply)
    else if ContainsAny(questionLower, BookingKeywords) then Some(BookingReply)
    else None
  }

  /** The decision of `handle_call` given what `get_kb_answer` returned: a
      non-empty learned answer wins; an empty one counts as a miss. */
  function Decide(kbAnswer: Option<string>, question: string): (r: Route)
    ensures r.Learned? <==> kbAnswer.Some? && kbAnswer.value != ""
    ensures r.Learned? ==> kbAnswer == Some(r.answer)
    ensures r.Canned? <==> !r.Learned? && CannedReply(question).Some?
    ensures r.Canned? ==> CannedReply(question) == Some(r.reply)
    ensures r.Escalate? <==> !(kbAnswer.Some? && kbAnswer.value != "") && CannedReply(question).None?
  {
    if kbAnswer.Some? && kbAnswer.value != "" then Learned(kbAnswer.value)
    else match CannedReply(question)
      case Some(reply) => Canned(reply)
      case None => Escalate
  }

  /** What the caller hears on each route. A learned answer follows a fixed prefix,
      so it can be read back from the reply. */
  function Reply(route: Route): (r: string)
    ensures route.Learned? ==>
      && |LearnedPrefix| <= |r| && r[..|LearnedPrefix|] == LearnedPrefix
      && r[|LearnedPrefix|..] == route.answer
  {
    match route
    case Learned(answer) => LearnedPrefix + answer
    case Canned(reply) => reply
    case Escalate => EscalationReply
  }

  class AIAgent {
    const db: DBManager
    const gateway: Gateway

    constructor (db: DBManager, gateway: Gateway)
      ensures this.db == db && this.gateway == gateway
    {
      this.db := db;
      this.gateway := gateway;
    }

    /** `handle_call`: answers from the knowledge base, then the heuristic;
        otherwise escalates. Only escalation touches the ledger or sends anything. */
    method HandleCall(customerId: string, question: string, now: int) returns (response: string)
      requires db.Valid()
      modifies db, gateway
      ensures db.Valid()
      ensures var route := Decide(Lookup(old(db.entries), question), question);
        && response == Reply(route)
        && db.entries == old(db.entries) && db.lastEntryId == old(db.lastEntryId)
        && (route.Escalate? ==>
              && db.lastRequestId == old(db.lastRequestId) + 1
              && db.requests == old(db.requests) + [NewRequest(db.lastRequestId, customerId, question, now)]
              && gateway.sent == old(gateway.sent) + [SupervisorText(question, db.lastRequestId)])
        && (!route.Escalate? ==>
              && db.requests == old(db.requests) && db.lastRequestId == old(db.lastRequestId)
              && gateway.sent == old(gateway.sent))
    {
      var kbAnswer := db.GetKbAnswer(question);
      match Decide(kbAnswer, question)
      case Learned(answer) =>
        response := LearnedPrefix + answer;
      case Canned(reply) =>
        response := reply;
      case Escalate =>
        response := TriggerHelpRequest(customerId, question, now);
    }

    /** `_trigger_help_request`: one new PENDING request, then one text to the
        supervisor naming its id, then the apology. */
    method TriggerHelpRequest(customerId: string, question: string, now: int) returns (response: string)
      requires db.Valid()
      modifies db, gateway
      ensures db.Valid()
      ensures response == EscalationReply
      ensures db.lastRequestId == old(db.lastRequestId) + 1
      ensures db.requests == old(db.requests) + [NewRequest(db.lastRequestId, customerId, question, now)]
      ensures gateway.sent == old(gateway.sent) + [SupervisorText(question, db.lastRequestId)]
      ensures db.entries == old(db.entries) && db.lastEntryId == old(db.lastEntryId)
    {
      var requestId := db.CreateRequest(customerId, question, now);
      gateway.SimulateSupervisorText(question, requestId);
      response := EscalationReply;
    }

    /** `resolve_help_request`: learns the answer under the question, then
        texts it to the customer. The ledger is not touched. A record without
        an answer would violate the NOT NULL constraint on the knowledge base. */
    method ResolveHelpRequest(resolved: HelpRequest, now: int)
      requires db.Valid()
      requires resolved.supervisorAnswer.Some?
      modifies db, gateway
      ensures db.Valid()
      ensures db.entries == Upsert(old(db.entries), Normalize(resolved.question),
                                   resolved.supervisorAnswer.value, resolved.id, now, old(db.lastEntryId) + 1)
      ensures db.lastEntryId ==
        if HasKey(old(db.entries), Normalize(resolved.question)) then old(db.lastEntryId) else old(db.lastEntryId) + 1
      ensures db.requests == old(db.requests) && db.lastRequestId == old(db.lastRequestId)
      ensures gateway.sent == old(gateway.sent) + [CustomerCallback(resolved.customerId, resolved.supervisorAnswer.value)]
    {
      var answer := resolved.supervisorAnswer.value;
      ghost var learned := Upsert(db.entries, Normalize(resolved.question), answer, resolved.id, now, db.lastEntryId + 1);
      db.SaveLearnedAnswer(resolved.question, answer, resolved.id, now);
      assert db.entries == learned;
      gateway.SimulateCustomerCallback(resolved.customerId, answer);
    }
  }
}
