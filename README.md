# Frontdesk human-in-the-loop: a Dafny model of the ledger, the knowledge base and the agent

The Frontdesk receptionist answers callers in three steps, in this order:

1. It looks the question up in a learned knowledge base.
2. If that misses, it tries a fixed keyword heuristic (hours, services, booking).
3. If that misses too, it escalates. It opens a PENDING help request and texts the supervisor.

The supervisor resolves the request from a dashboard. The agent then learns the answer under the
question's normalised key, `question.lower().strip()`, and calls the customer back. A PENDING request
older than an hour is swept to UNRESOLVED whenever the pending list is read.

The model is sequential and has one module per part of the program:

- `Wrappers`: `Option`.
- `Text`: ASCII `lower()`, `strip()` and the substring test `keyword in text`.
- `Sorting`: what an `ORDER BY` on one numeric column promises.
- `Ledger`: the `help_requests` table as a value.
  - The timeout sweep.
  - The guarded resolution.
  - The ordered reads.
- `Knowledge`: the `knowledge_base` table as a value.
  - The unique normalised key.
  - Upsert.
  - Exact lookup.
- `DbManager`: class `DBManager`.
  - Both tables are `seq` fields that its methods update in place.
  - Each table has a field holding its AUTOINCREMENT counter.
  - It keeps the table invariants in `Valid()`.
- `Simulations`: class `Gateway`. The two simulated texts are appended to a log of messages sent.
- `AiAgent`: the routing decision as pure functions, and class `AIAgent`, whose methods call the
  manager and the gateway in the source's order.
- `App`: class `Server`, the four Flask handlers with form fields as optional strings. Its `Valid()`
  adds invariants that tie the two tables to the messages sent:
  - Every knowledge entry was learned from a request that is still RESOLVED with that answer.
  - Each supervisor text names a request with that question, and each request has its supervisor text.
  - Each callback carries the answer of a resolved request to its customer, and each resolved request
    has its callback.
  - No request was resolved with an empty answer.

Time is an integer `now` that each operation takes in place of `time.time()`.

Edge cases where the model follows the code's exact behaviour:

- A `customer_id` that is present but empty also gets the default `555-1234`, because Python's `or`
  treats `""` as false (app.py:16).
- A knowledge-base hit whose stored answer is `""` counts as a miss, because `if kb_answer:` is a
  truthiness test (ai_agent.py:35).
  - Through the endpoints such an entry cannot arise: `App.HitsAreServed` proves that every hit is served.
- The timeout comparison is strict. A request exactly `TIMEOUT_SECONDS` old stays PENDING (db_manager.py:65).

## Model

| member | source | states |
|---|---|---|
| Text.StripLeading | db_manager.py:100 | `lstrip`, recursively; what it returns is stated by `Text.StripLeadingIsSuffix` |
| Text.StripTrailing | db_manager.py:100 | `rstrip`, recursively; what it returns is stated by `Text.StripTrailingIsPrefix` |
| Text.Strip | db_manager.py:100 | `strip` as `rstrip` after `lstrip`; stated by `Text.StripBounds` and, conversely, `Text.StripUnique` |
| Text.Normalize | db_manager.py:100 | the key `question.lower().strip()`; stated by `Text.NormalizeShape`, `Text.NormalizeIdempotent` and `Text.NormalizeIgnoresCaseAndPadding` |
| Text.ToLower | db_manager.py:100 | the result is never an upper-case ASCII letter; other characters are unchanged; A-Z move by 32 |
| Text.Lower | ai_agent.py:40 | same length, no upper-case letter left, each character lower-cased in place |
| Text.StripLeadingIsSuffix | db_manager.py:100 | `lstrip` leaves a suffix after white space only, and that suffix starts with a non-space |
| Text.StripTrailingIsPrefix | db_manager.py:100 | `rstrip` leaves a prefix before white space only, and that prefix ends with a non-space |
| Text.StripBounds | db_manager.py:100 | `strip` returns a slice of the input with only white space around it and none at its ends |
| Text.StripLeadingAllSpace | db_manager.py:100 | a string of white space only strips to the empty string |
| Text.StripUnique | db_manager.py:100 | any slice with only white space around it and none at its ends is the result of `strip` |
| Text.StripOfTrimmed | db_manager.py:100 | a string without white space at its ends strips to itself |
| Text.StripOfMiddle | db_manager.py:100 | white space around a middle part does not change what `strip` returns |
| Text.LowerOfLowercase | db_manager.py:100 | lower-casing a string without upper-case letters changes nothing |
| Text.NormalizeShape | db_manager.py:37 | a key is trimmed, has no upper-case letter and is no longer than its question |
| Text.NormalizeIdempotent | db_manager.py:127 | normalising a key gives the key again, so a stored key finds itself |
| Text.NormalizeIgnoresCaseAndPadding | db_manager.py:127 | the key ignores the case of the question and the white space around it |
| Text.Contains | ai_agent.py:43 | true iff the keyword occurs at some position of the text |
| Text.ContainsAny | ai_agent.py:43 | true iff some keyword of the list occurs in the text |
| Sorting.Insert | db_manager.py:70 | inserting into a sorted sequence keeps it sorted and adds exactly that element |
| Sorting.SortBy | db_manager.py:70 | the result is sorted by the key and is a permutation of the input |
| Knowledge.WellFormed | db_manager.py:37 | the table invariant: keys are UNIQUE and ids grow in insertion order |
| Knowledge.KeysDistinct | db_manager.py:37 | in a well-formed table two entries have the same key iff they are the same entry |
| Knowledge.KeyIndex | db_manager.py:105-106 | finds an entry with the key iff there is one |
| Knowledge.Lookup | db_manager.py:127-133 | an answer iff some entry has the question's key, and then the answer of that (unique) entry |
| Knowledge.Upsert | db_manager.py:104-119 | keeps keys unique and ids increasing; one entry under the key holds the new answer, source and time; an existing key keeps every id and key in place; a new key appends one entry with the next id |
| Knowledge.UpsertKeepsOtherKeys | db_manager.py:108-119 | every entry under another key is kept, and none under another key appears |
| Knowledge.LookupAfterUpsert | db_manager.py:98-133 | after learning, every question with the same key finds the new answer |
| Knowledge.LookupOtherKey | db_manager.py:98-133 | learning does not change what a question with another key finds |
| Knowledge.ListEntries | db_manager.py:138 | every entry exactly once, most recently updated first |
| Ledger.WellFormed | db_manager.py:23 | the table invariant: every row's status agrees with its answer and resolution time, and ids grow in insertion order |
| Ledger.NewRequest | db_manager.py:51-54 | the inserted row is consistent and PENDING |
| Ledger.MarkResolved | db_manager.py:79 | the updated row is consistent and RESOLVED, and a PENDING row only moves on by it |
| Ledger.IdsDistinct | db_manager.py:23 | in a well-formed table two rows have the same id iff they are the same row |
| Ledger.EvolvesTransitive | db_manager.py:79 | a later version of a later version is a later version: terminal rows stay as they are |
| Ledger.Sweep | db_manager.py:63-67 | same length; no row is stale afterwards; exactly the stale PENDING rows change, each to UNRESOLVED; the table only evolves and stays well-formed |
| Ledger.PendingRows | db_manager.py:70 | holds each PENDING row as often as the table does, and no other row |
| Ledger.ListPending | db_manager.py:70 | the rows come back oldest first |
| Ledger.ListPendingContents | db_manager.py:70-71 | the pending list holds each PENDING row as often as the table does, and nothing else |
| Ledger.ListAll | db_manager.py:93 | the whole table, a permutation, newest first |
| Ledger.FindRequest | db_manager.py:87 | the position of a row with that id, or None iff no row has it |
| Ledger.Resolve | db_manager.py:78-88 | returns a row only if a PENDING row has that id, and always does when the table is well-formed; the returned row has that id, is RESOLVED and holds the answer and `now`; a failed resolve leaves the table as it was; well-formedness is kept |
| Ledger.ResolveMarksOneRow | db_manager.py:78-81 | a successful resolve marks exactly the PENDING row with that id and returns it; no other row changes |
| Ledger.ResolveEvolves | db_manager.py:79 | resolution only moves a PENDING row on |
| Ledger.ResolveOnlyOnce | db_manager.py:84-85 | resolving the same id again, with any answer at any time, returns None and changes nothing |
| Ledger.PendingListIsFresh | db_manager.py:63-71 | after the sweep every row of the pending list is PENDING and at most `TIMEOUT_SECONDS` old |
| Ledger.TimedOutStaysOut | db_manager.py:65 | a request that timed out never shows up in any later pending list |
| DbManager.DBManager.constructor | db_manager.py:11-42 | a fresh database: both tables empty, both counters at 0, invariants hold |
| DbManager.DBManager.CreateRequest | db_manager.py:47-56 | appends exactly one PENDING row with the given fields, `created_at = now`, no answer and an id above every existing one; nothing else changes |
| DbManager.DBManager.TimeOutStale | db_manager.py:63-67 | the loop leaves the table equal to `Sweep` of the old table |
| DbManager.DBManager.GetPendingRequests | db_manager.py:58-71 | sweeps, keeps the invariants, and returns the ordered pending list of the swept table |
| DbManager.DBManager.ResolveRequest | db_manager.py:73-88 | the new table and the returned record are those of `Resolve`; the knowledge base is untouched |
| DbManager.DBManager.GetAllRequests | db_manager.py:90-94 | returns `ListAll` of the table |
| DbManager.DBManager.SaveLearnedAnswer | db_manager.py:98-120 | the knowledge base becomes the upsert under `question.lower().strip()`; the counter moves only on an insert; the ledger is untouched |
| DbManager.DBManager.GetKbAnswer | db_manager.py:122-133 | returns `Lookup` of the question |
| DbManager.DBManager.GetAllKbEntries | db_manager.py:135-139 | returns `ListEntries` of the table |
| Simulations.Gateway.SimulateSupervisorText | simulations.py:4-12 | appends one supervisor text about (question, id) to the messages sent |
| Simulations.Gateway.SimulateCustomerCallback | simulations.py:14-22 | appends one callback with (customer, answer) to the messages sent |
| AiAgent.CannedReply | ai_agent.py:40-58 | hours keywords win over service keywords, which win over booking keywords; otherwise None |
| AiAgent.Decide | ai_agent.py:33-61 | a learned answer iff the lookup gave a non-empty answer; else a canned reply iff a keyword matched; else escalate |
| AiAgent.Reply | ai_agent.py:37-78 | the learned reply is the fixed prefix followed by the stored answer, so the answer can be read back |
| AiAgent.AIAgent.constructor | ai_agent.py:22-24 | the agent holds the manager (and the gateway) it was built with |
| AiAgent.AIAgent.HandleCall | ai_agent.py:26-61 | replies as `Decide` routes; only escalation adds a request and a supervisor text; the knowledge base is never touched |
| AiAgent.AIAgent.TriggerHelpRequest | ai_agent.py:63-78 | one new PENDING request, then one supervisor text naming its id, then the apology |
| AiAgent.AIAgent.ResolveHelpRequest | ai_agent.py:80-99 | upserts the answer under the question's key and appends one callback with it; the ledger is untouched |
| App.CustomerIdOf | app.py:16 | the given id when it is non-empty, otherwise `555-1234`; never empty |
| App.ConsistentAfterEscalation | ai_agent.py:71-75 | a new request together with its supervisor text keeps the cross-table invariants |
| App.ConsistentWithoutNewResolutions | db_manager.py:64-67 | a step that resolves nothing new keeps the cross-table invariants |
| App.ConsistentAfterSweep | app.py:38 | the timeout sweep keeps the cross-table invariants |
| App.KnowledgeTracedAfterMark | ai_agent.py:93 | after one row is marked and its answer learned, every entry still traces back to a resolved request |
| App.MessagesTracedAfterMark | ai_agent.py:97 | after one row is marked and its customer called back, each text and callback still corresponds to a request, each request still has its text and each resolved request its callback |
| App.ConsistentAfterResolution | app.py:56-59 | a resolution, then learning, then the callback keeps the cross-table invariants |
| App.HitsAreServed | ai_agent.py:34-37 | under those invariants every lookup hit is served as a learned answer |
| App.LearnedAnswerIsServed | app.py:56-59 | once a request is resolved and learned, any question with the same key is answered with that answer |
| App.Server.constructor | app.py:5-7 | one manager on a fresh database, one agent built on it, no message sent |
| App.Server.HandleIncomingCall | app.py:10-28 | without a question: 400 and nothing changes; otherwise 200 with the agent's reply, and the ledger and messages change only on escalation |
| App.Server.SupervisorDashboard | app.py:33-44 | the sweep runs before both reads, so the history already shows timed-out requests as UNRESOLVED |
| App.Server.ResolveRequestEndpoint | app.py:47-61 | without an answer nothing changes; otherwise the ledger becomes `Resolve`'s, and the answer is learned and the customer called back iff that returned a record; the entry counter moves only when the key is new |
| App.Server.KnowledgeBaseView | app.py:66-72 | returns `ListEntries` of the knowledge base |

## Left out

- The SQLite plumbing: connections, cursors, `commit`, DDL and the `dict(row)` conversion. Each
  operation is one atomic step on the table values.
- Concurrency, including `check_same_thread=False` (db_manager.py:12). Operations run one at a time,
  so a crash or another request between the statements of one operation is not modelled.
- Floating-point timestamps. `time.time()` becomes an integer `now`.
- App.Server.ResolveRequestEndpoint: one `now` serves as both `resolved_at` and `updated_at`; the source reads the clock twice.
- DbManager.DBManager.constructor: starts from a fresh database file; rows that `CREATE TABLE IF NOT
  EXISTS` would find in an existing file are not modelled.
- Storage faults, and the end of SQLite's rowid range. Ids are unbounded integers.
- AiAgent.AIAgent.ResolveHelpRequest: requires a record with an answer; the source would hit the
  NOT NULL constraint on `knowledge_base.answer` and raise; through the endpoint the record is always
  RESOLVED and so always has one.
- Unicode: `lower()` and `strip()` are modelled on ASCII letters and ASCII white space only.
- Ledger.ListPending, Ledger.ListAll, Knowledge.ListEntries: promise the order by the column and the
  contents only; the order SQLite gives rows with equal timestamps is not modelled.
- App.Consistent: does not count messages, so a duplicated supervisor text or two resolved requests
  sharing one callback are not excluded; each text and callback corresponds to some request.
- Ledger.Resolve: the `SELECT` by id after the `UPDATE` is modelled as returning the updated row directly.
- Simulations: the printed wording of the two texts and the clock in their headers. Each text is
  logged by its payload only.
- `print` output, `SYSTEM_PROMPT`, `render_template`, `redirect`/`url_for`, `app.run`, and Flask's
  routing and conversion of `<int:request_id>`.
