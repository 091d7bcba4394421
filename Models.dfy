/**
 * The four tables of the support bot and the defaults a new row receives.
 * Timestamps are microseconds since the epoch (the resolution of
 * `datetime.utcnow()`), supplied by the caller as `now`.
 */
module Models {
  import opened Wrappers

  type Timestamp = int

  /** A chat session, keyed by an opaque id (a UUID string in the source). */
  datatype Session = Session(
    id: string,
    createdAt: Timestamp,
    updatedAt: Timestamp,
    isActive: bool,
    escalated: bool,
    customerEmail: Option<string>,
    customerName: Option<string>)

  /** One exchange of a session; `id` is the table's auto-increment key. */
  datatype Conversation = Conversation(
    id: nat,
    sessionId: string,
    userMessage: string,
    botResponse: string,
    timestamp: Timestamp,
    escalated: bool,
    faqMatched: Option<string>,
    confidenceScore: Option<string>)

  /** A knowledge-base entry; a lower `priority` comes first (1 = high, 5 = low). */
  datatype Faq = Faq(
    id: string,
    question: string,
    answer: string,
    category: string,
    keywords: Option<string>,
    priority: int,
    createdAt: Timestamp,
    updatedAt: Timestamp,
    isActive: bool)

  /** One record of the escalation log; `id` is the table's auto-increment key. */
  datatype EscalationLog = EscalationLog(
    id: nat,
    sessionId: string,
    reason: string,
    timestamp: Timestamp,
    resolved: bool,
    resolutionNotes: Option<string>)

  /** A `{user_message, bot_response}` pair as handed to the language model. */
  datatype HistoryEntry = HistoryEntry(userMessage: string, botResponse: string)

  const DefaultFaqPriority: int := 1

  /**
   * A session row as inserted: active, not escalated, both timestamps `now`;
   * the customer's email and name are optional.
   */
  function NewSession(id: string, email: Option<string>, name: Option<string>, now: Timestamp): (s: Session)
    ensures s.id == id && s.isActive && !s.escalated
    ensures s.createdAt == now && s.updatedAt == now
    ensures s.customerEmail == email && s.customerName == name
  {
    Session(id, now, now, true, false, email, name)
  }

  /**
   * A conversation row as inserted with the required message and response:
   * `escalated` defaults to false, the matched FAQ and confidence score to none.
   */
  function NewConversation(id: nat, sessionId: string, userMessage: string, botResponse: string, now: Timestamp): (c: Conversation)
    ensures c.id == id && c.sessionId == sessionId && c.timestamp == now
    ensures c.userMessage == userMessage && c.botResponse == botResponse
    ensures !c.escalated && c.faqMatched == None && c.confidenceScore == None
  {
    Conversation(id, sessionId, userMessage, botResponse, now, false, None, None)
  }

  /**
   * A FAQ row as inserted with the required question, answer and category:
   * priority 1, active, no keywords.
   */
  function NewFaq(id: string, question: string, answer: string, category: string, now: Timestamp): (f: Faq)
    ensures f.id == id && f.question == question && f.answer == answer && f.category == category
    ensures f.priority == DefaultFaqPriority && f.isActive && f.keywords == None
    ensures f.createdAt == now && f.updatedAt == now
  {
    Faq(id, question, answer, category, None, DefaultFaqPriority, now, now, true)
  }

  /** An escalation record as inserted with its required reason: unresolved, no notes. */
  function NewEscalationLog(id: nat, sessionId: string, reason: string, now: Timestamp): (e: EscalationLog)
    ensures e.id == id && e.sessionId == sessionId && e.reason == reason && e.timestamp == now
    ensures !e.resolved && e.resolutionNotes == None
  {
    EscalationLog(id, sessionId, reason, now, false, None)
  }

  /** The `{user_message, bot_response}` view of a stored conversation. */
  function ToHistoryEntry(c: Conversation): (h: HistoryEntry)
    ensures h.userMessage == c.userMessage && h.botResponse == c.botResponse
  {
    HistoryEntry(c.userMessage, c.botResponse)
  }

  /** The `{user_message, bot_response}` views of stored conversations, in order. */
  function Histories(cs: seq<Conversation>): (hs: seq<HistoryEntry>)
    ensures |hs| == |cs|
    ensures forall i :: 0 <= i < |cs| ==> hs[i] == ToHistoryEntry(cs[i])
  {
    seq(|cs|, i requires 0 <= i < |cs| => ToHistoryEntry(cs[i]))
  }
}
