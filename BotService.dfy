/**
 * The session and turn store behind the chat endpoints: four tables
 * (sessions keyed by id, an append-only conversation log, an append-only
 * escalation log, and the read-only FAQs) and the turn pipeline that reads
 * context, asks the language model and writes the turn back in one commit.
 *
 * The clock (`now`), fresh session ids and the outcome of each commit are
 * parameters; so are the orders in which the database lists rows where the
 * query leaves them open.
 */
module Bot {
  import opened Wrappers
  import opened Lists
  import opened Models
  import opened LlmService

  /** How many past exchanges the service reads back as context (`max_conversation_history`). */
  const ContextWindow: nat := 20

  const MicrosPerHour: int := 3_600_000_000

  /** The default retention of `cleanup_old_sessions`, in hours. */
  const DefaultCleanupHours: int := 24

  const AutoEscalationReason: string := "LLM determined escalation needed"
  const ManualEscalationPrefix: string := "Manual escalation: "
  const UnknownReason: string := "Unknown"

  const SessionNotFound: string := "Session not found"
  const SessionInactive: string := "Session is no longer active"
  const ProcessingFailed: string := "Failed to process message"

  /** The dictionary `process_message` returns: a turn, or an error for the session. */
  datatype TurnResult =
    | TurnReply(botResponse: string, sessionId: string, escalated: bool,
                matchedFaq: Option<string>, timestamp: Timestamp)
    | TurnError(error: string, sessionId: string)

  /** One entry of `get_escalated_sessions`. */
  datatype EscalatedSession = EscalatedSession(
    sessionId: string,
    customerEmail: Option<string>,
    customerName: Option<string>,
    createdAt: Timestamp,
    escalationReason: string,
    escalationTime: Option<Timestamp>,
    resolved: bool)

  // =====================================================================
  // Queries over the tables, as functions of their contents
  // =====================================================================

  /** The conversations of one session, in the order they were stored. */
  function SessionTurns(convs: seq<Conversation>, sessionId: string): (r: seq<Conversation>)
    ensures |r| <= |convs|
    ensures forall i :: 0 <= i < |r| ==> r[i].sessionId == sessionId && r[i] in convs
    ensures forall c :: c in convs && c.sessionId == sessionId ==> c in r
  {
    if convs == [] then []
    else
      var init := convs[..|convs| - 1];
      var last := convs[|convs| - 1];
      assert forall c :: c in init ==> c in convs;
      assert forall c :: c in convs ==> c in init || c == last;
      SessionTurns(init, sessionId) + (if last.sessionId == sessionId then [last] else [])
  }

  /** Storing one more conversation extends its own session's list and no other. */
  lemma SessionTurnsAppend(convs: seq<Conversation>, c: Conversation, sessionId: string)
    ensures SessionTurns(convs + [c], sessionId)
            == SessionTurns(convs, sessionId) + (if c.sessionId == sessionId then [c] else [])
  {
    assert (convs + [c])[..|convs|] == convs;
  }

  /** Some escalation record references the session. */
  predicate HasEscalationLog(logs: seq<EscalationLog>, sessionId: string)
  {
    exists i :: 0 <= i < |logs| && logs[i].sessionId == sessionId
  }

  lemma HasEscalationLogAppend(logs: seq<EscalationLog>, extra: seq<EscalationLog>, sessionId: string)
    ensures HasEscalationLog(logs + extra, sessionId) <==>
            HasEscalationLog(logs, sessionId) || HasEscalationLog(extra, sessionId)
  {
    if HasEscalationLog(logs + extra, sessionId) {
      var i :| 0 <= i < |logs + extra| && (logs + extra)[i].sessionId == sessionId;
      if i >= |logs| {
        assert extra[i - |logs|] == (logs + extra)[i];
      }
    }
    if HasEscalationLog(logs, sessionId) {
      var i :| 0 <= i < |logs| && logs[i].sessionId == sessionId;
      assert (logs + extra)[i] == logs[i];
    }
    if HasEscalationLog(extra, sessionId) {
      var i :| 0 <= i < |extra| && extra[i].sessionId == sessionId;
      assert (logs + extra)[|logs| + i] == extra[i];
    }
  }

  /** The most recent escalation record of a session (the last one stored). */
  function LatestEscalation(logs: seq<EscalationLog>, sessionId: string): (r: Option<EscalationLog>)
    ensures r.None? <==> !HasEscalationLog(logs, sessionId)
    ensures r.Some? ==> r.value.sessionId == sessionId &&
                        exists i :: 0 <= i < |logs| && logs[i] == r.value &&
                                    forall j :: i < j < |logs| ==> logs[j].sessionId != sessionId
  {
    if logs == [] then None
    else
      var init := logs[..|logs| - 1];
      var last := logs[|logs| - 1];
      if last.sessionId == sessionId then Some(last)
      else
        var r := LatestEscalation(init, sessionId);
        assert forall i :: 0 <= i < |init| ==> init[i] == logs[i];
        r
  }

  /** A session old enough and ended, as `cleanup_old_sessions` selects them. */
  predicate Stale(s: Session, cutoff: Timestamp)
  {
    !s.isActive && s.updatedAt < cutoff
  }

  /** The active FAQs, in table order. */
  function ActiveFaqs(faqs: seq<Faq>): (r: seq<Faq>)
    ensures forall f :: f in r <==> f in faqs && f.isActive
  {
    if faqs == [] then []
    else (if faqs[0].isActive then [faqs[0]] else []) + ActiveFaqs(faqs[1..])
  }

  predicate SortedByPriority(fs: seq<Faq>)
  {
    forall i, j :: 0 <= i < j < |fs| ==> fs[i].priority <= fs[j].priority
  }

  /**
   * A list the database may return for `_get_active_faqs`: exactly the active
   * FAQs, ordered by ascending priority. FAQs of equal priority may come in
   * any order.
   */
  predicate IsActiveFaqListing(faqs: seq<Faq>, listing: seq<Faq>)
  {
    multiset(listing) == multiset(ActiveFaqs(faqs)) && SortedByPriority(listing)
  }

  /** Places `f` before the first entry of higher priority value. */
  function InsertByPriority(f: Faq, sorted: seq<Faq>): (r: seq<Faq>)
    requires SortedByPriority(sorted)
    ensures SortedByPriority(r)
    ensures multiset(r) == multiset(sorted) + multiset{f}
    ensures |r| == |sorted| + 1 && (r[0] == f || (sorted != [] && r[0] == sorted[0]))
    decreases |sorted|, 1
  {
    if sorted == [] then [f]
    else if f.priority <= sorted[0].priority then [f] + sorted
    else
      InsertBehindHead(f, sorted);
      [sorted[0]] + InsertByPriority(f, sorted[1..])
  }

  /** Inserting past the head keeps the head in front of a sorted, one longer rest. */
  lemma InsertBehindHead(f: Faq, sorted: seq<Faq>)
    requires SortedByPriority(sorted) && sorted != [] && f.priority > sorted[0].priority
    ensures var r := [sorted[0]] + InsertByPriority(f, sorted[1..]);
            && SortedByPriority(r)
            && multiset(r) == multiset(sorted) + multiset{f}
    decreases |sorted|, 0
  {
    var rest := InsertByPriority(f, sorted[1..]);
    assert sorted == [sorted[0]] + sorted[1..];
    SortedCons(sorted[0], rest);
  }

  /** A sorted run stays sorted behind an entry no later than its head. */
  lemma SortedCons(f: Faq, fs: seq<Faq>)
    requires SortedByPriority(fs)
    requires fs != [] ==> f.priority <= fs[0].priority
    ensures SortedByPriority([f] + fs)
  {
  }

  /** One order a priority sort can produce. */
  function SortByPriority(fs: seq<Faq>): (r: seq<Faq>)
    ensures SortedByPriority(r)
    ensures multiset(r) == multiset(fs)
  {
    if fs == [] then []
    else
      assert fs == [fs[0]] + fs[1..];
      InsertByPriority(fs[0], SortByPriority(fs[1..]))
  }

  /** Whatever the FAQ table holds, the database has a listing to give. */
  lemma ActiveFaqListingExists(faqs: seq<Faq>) returns (listing: seq<Faq>)
    ensures IsActiveFaqListing(faqs, listing)
  {
    listing := SortByPriority(ActiveFaqs(faqs));
  }

  /**
   * The invariant of the tables: sessions are keyed by their id; a stored
   * session is escalated exactly when some escalation record references it;
   * conversation and escalation ids count up from 1 in insertion order.
   */
  ghost predicate StoreValid(sessions: map<string, Session>, convs: seq<Conversation>, logs: seq<EscalationLog>)
  {
    && (forall sid :: sid in sessions ==> sessions[sid].id == sid)
    && (forall sid :: sid in sessions ==> (sessions[sid].escalated <==> HasEscalationLog(logs, sid)))
    && (forall i :: 0 <= i < |convs| ==> convs[i].id == i + 1)
    && (forall i :: 0 <= i < |logs| ==> logs[i].id == i + 1)
  }

  /**
   * Writing one session row back, with zero or more conversations and
   * escalation records of that session numbered on from the tables' ends,
   * keeps the invariant when the row's flag records whether the session has
   * been escalated by now.
   */
  lemma RecordKeepsValid(sessions: map<string, Session>, convs: seq<Conversation>, logs: seq<EscalationLog>,
                         s: Session, newConvs: seq<Conversation>, newLogs: seq<EscalationLog>)
    requires StoreValid(sessions, convs, logs)
    requires s.id in sessions
    requires s.escalated <==> sessions[s.id].escalated || newLogs != []
    requires forall i :: 0 <= i < |newConvs| ==> newConvs[i].id == |convs| + i + 1
    requires forall i :: 0 <= i < |newLogs| ==> newLogs[i].id == |logs| + i + 1 && newLogs[i].sessionId == s.id
    ensures StoreValid(sessions[s.id := s], convs + newConvs, logs + newLogs)
  {
    var ss := sessions[s.id := s];
    forall sid | sid in ss ensures ss[sid].escalated <==> HasEscalationLog(logs + newLogs, sid) {
      HasEscalationLogAppend(logs, newLogs, sid);
      if newLogs != [] && sid == s.id {
        assert newLogs[0].sessionId == sid;
      }
    }
    var cs := convs + newConvs;
    forall i | 0 <= i < |cs| ensures cs[i].id == i + 1 {
      if i >= |convs| {
        assert cs[i] == newConvs[i - |convs|];
      }
    }
    var ls := logs + newLogs;
    forall i | 0 <= i < |ls| ensures ls[i].id == i + 1 {
      if i >= |logs| {
        assert ls[i] == newLogs[i - |logs|];
      }
    }
  }

  /** Taking the last `n` commutes with projecting conversations to history entries. */
  lemma LastNOfHistories(cs: seq<Conversation>, n: nat)
    requires n > 0
    ensures LastN(Histories(cs), n) == Histories(LastN(cs, n))
  {
    var a := LastN(Histories(cs), n);
    var b := Histories(LastN(cs, n));
    assert |a| == |b|;
    forall i | 0 <= i < |a| ensures a[i] == b[i] {
    }
  }

  /** The conversation row a committed turn stores. */
  function TurnRow(id: nat, sessionId: string, userMessage: string, reply: Reply, now: Timestamp): Conversation
  {
    NewConversation(id, sessionId, userMessage, reply.text, now).(escalated := reply.escalate, faqMatched := reply.matchedFaq)
  }

  /** The escalation records a committed turn stores: one when the reply escalates, none otherwise. */
  function TurnLogs(id: nat, sessionId: string, reply: Reply, now: Timestamp): seq<EscalationLog>
  {
    if reply.escalate then [NewEscalationLog(id, sessionId, AutoEscalationReason, now)] else []
  }

  /** The session row after a committed turn: escalated once any turn escalated, stamped `now`. */
  function TurnSession(s: Session, reply: Reply, now: Timestamp): Session
  {
    s.(escalated := s.escalated || reply.escalate, updatedAt := now)
  }

  /** The `get_escalated_sessions` entry for a session and its latest record, if any. */
  function EscalatedInfo(s: Session, latest: Option<EscalationLog>): (e: EscalatedSession)
    ensures e.sessionId == s.id && e.customerEmail == s.customerEmail
    ensures e.customerName == s.customerName && e.createdAt == s.createdAt
    ensures e.escalationTime.Some? <==> latest.Some?
    ensures latest.Some? ==> e.escalationReason == latest.value.reason &&
                             e.escalationTime == Some(latest.value.timestamp) &&
                             e.resolved == latest.value.resolved
    ensures latest.None? ==> e.escalationReason == UnknownReason && !e.resolved
  {
    match latest
    case Some(e) => EscalatedSession(s.id, s.customerEmail, s.customerName, s.createdAt, e.reason, Some(e.timestamp), e.resolved)
    case None => EscalatedSession(s.id, s.customerEmail, s.customerName, s.createdAt, UnknownReason, None, false)
  }

  // =====================================================================
  // The service and its tables
  // =====================================================================

  class BotService {
    var sessions: map<string, Session>
    var conversations: seq<Conversation>
    var escalations: seq<EscalationLog>
    const faqs: seq<Faq>
    /** The language model, injected. */
    const generate: string -> Option<string>

    /** The store's invariant, `StoreValid` of the three tables. */
    ghost predicate Valid()
      reads this
    {
      StoreValid(sessions, conversations, escalations)
    }

    constructor (faqs: seq<Faq>, generate: string -> Option<string>)
      ensures Valid()
      ensures sessions == map[] && conversations == [] && escalations == []
      ensures this.faqs == faqs && this.generate == generate
    {
      sessions := map[];
      conversations := [];
      escalations := [];
      this.faqs := faqs;
      this.generate := generate;
    }

    /** An id nothing in the store knows of, as a fresh UUID is. */
    predicate IsFreshId(id: string)
      reads this
    {
      && id !in sessions
      && (forall c :: c in conversations ==> c.sessionId != id)
      && (forall e :: e in escalations ==> e.sessionId != id)
    }

    /** `get_session`. */
    function GetSession(sessionId: string): (r: Option<Session>)
      reads this
      ensures r.Some? <==> sessionId in sessions
      ensures r.Some? ==> r.value == sessions[sessionId]
    {
      if sessionId in sessions then Some(sessions[sessionId]) else None
    }

    /** The session exists and has not been ended, so `process_message` accepts a turn for it. */
    predicate AcceptsTurn(sessionId: string)
      reads this
    {
      sessionId in sessions && sessions[sessionId].isActive
    }

    /** `get_conversation_history`: all turns of a session, oldest first. */
    function ConversationHistory(sessionId: string): (r: seq<Conversation>)
      reads this
      ensures forall i :: 0 <= i < |r| ==> r[i].sessionId == sessionId && r[i] in conversations
      ensures forall c :: c in conversations && c.sessionId == sessionId ==> c in r
    {
      SessionTurns(conversations, sessionId)
    }

    /** `_get_conversation_history`: the last `min(20, n)` turns of a session, oldest first. */
    function RecentTurns(sessionId: string): (r: seq<HistoryEntry>)
      reads this
      ensures var all := ConversationHistory(sessionId);
              && |r| == (if |all| <= ContextWindow then |all| else ContextWindow)
              && forall i :: 0 <= i < |r| ==> r[i] == ToHistoryEntry(all[|all| - |r| + i])
    {
      var recent := LastN(ConversationHistory(sessionId), ContextWindow);
      seq(|recent|, i requires 0 <= i < |recent| => ToHistoryEntry(recent[i]))
    }

    /**
     * The prompt built from the recent turns shows the session's last ten
     * exchanges: reading 20 back and showing the last 10 of those is showing
     * the last 10.
     */
    lemma PromptSeesLastTenTurns(sessionId: string, systemPrompt: string, userMessage: string)
      ensures FullPrompt(systemPrompt, RecentTurns(sessionId), userMessage)
              == FullPrompt(systemPrompt, Histories(LastN(ConversationHistory(sessionId), PromptHistoryLimit)), userMessage)
    {
      var all := ConversationHistory(sessionId);
      var lastTen := LastN(all, PromptHistoryLimit);
      assert RecentTurns(sessionId) == Histories(LastN(all, ContextWindow));
      LastNOfHistories(LastN(all, ContextWindow), PromptHistoryLimit);
      LastNOfLastN(all, ContextWindow, PromptHistoryLimit);
      LastNOfHistories(lastTen, PromptHistoryLimit);
      LastNOfLastN(all, PromptHistoryLimit, PromptHistoryLimit);
      assert LastN(RecentTurns(sessionId), PromptHistoryLimit) == LastN(Histories(lastTen), PromptHistoryLimit);
    }

    /** `get_active_sessions_count`. */
    function ActiveSessionsCount(): (n: nat)
      reads this
      ensures n <= |sessions|
    {
      var active := set sid | sid in sessions && sessions[sid].isActive;
      assert active <= sessions.Keys;
      SubsetCardinality(active, sessions.Keys);
      |active|
    }

    /**
     * `get_session_summary`: none for a session without turns (an unknown
     * id included); otherwise the summary of its last `min(20, n)` turns.
     */
    function GetSessionSummary(sessionId: string): (r: Option<string>)
      reads this
      ensures r.None? <==> ConversationHistory(sessionId) == []
      ensures r.Some? ==> r.value == SummarizeConversation(generate, RecentTurns(sessionId))
    {
      var recent := RecentTurns(sessionId);
      if recent == [] then None else Some(SummarizeConversation(generate, recent))
    }

    /** `start_session` under the fresh id `id` at time `now`. */
    method StartSession(id: string, customerEmail: Option<string>, customerName: Option<string>, now: Timestamp)
      returns (sessionId: string)
      requires Valid() && IsFreshId(id)
      modifies this
      ensures Valid()
      ensures sessionId == id
      ensures sessions == old(sessions)[id := NewSession(id, customerEmail, customerName, now)]
      ensures conversations == old(conversations) && escalations == old(escalations)
    {
      var session := NewSession(id, customerEmail, customerName, now);
      sessions := sessions[id := session];
      assert !HasEscalationLog(escalations, id);
      sessionId := session.id;
    }

    /**
     * `process_message`: one turn of the conversation. An unknown or ended
     * session is refused without writing anything. Otherwise the model is
     * asked with the session's recent turns and `faqListing` (the active
     * FAQs by priority); the conversation row, the escalation record when
     * the reply escalates, and the session's new flag and timestamp are
     * staged, and they are all stored if the commit succeeds and none of
     * them if it fails.
     */
    method ProcessMessage(sessionId: string, userMessage: string, now: Timestamp,
                          faqListing: seq<Faq>, commitSucceeds: bool)
      returns (r: TurnResult)
      requires Valid()
      requires IsActiveFaqListing(faqs, faqListing)
      modifies this
      ensures Valid()
      ensures sessionId !in old(sessions) ==> r == TurnError(SessionNotFound, sessionId)
      ensures sessionId in old(sessions) && !old(sessions)[sessionId].isActive ==>
                r == TurnError(SessionInactive, sessionId)
      ensures old(AcceptsTurn(sessionId)) && !commitSucceeds ==> r == TurnError(ProcessingFailed, sessionId)
      ensures !old(AcceptsTurn(sessionId)) || !commitSucceeds ==>
                sessions == old(sessions) && conversations == old(conversations) && escalations == old(escalations)
      ensures old(AcceptsTurn(sessionId)) && commitSucceeds ==>
                var reply := ReplyFor(generate, userMessage, old(RecentTurns(sessionId)), faqListing);
                && r == TurnReply(reply.text, sessionId, reply.escalate, reply.matchedFaq, now)
                && conversations == old(conversations) + [TurnRow(|old(conversations)| + 1, sessionId, userMessage, reply, now)]
                && escalations == old(escalations) + TurnLogs(|old(escalations)| + 1, sessionId, reply, now)
                && sessions == old(sessions)[sessionId := TurnSession(old(sessions)[sessionId], reply, now)]
      ensures old(AcceptsTurn(sessionId)) && commitSucceeds ==>
                forall other :: other != sessionId ==> ConversationHistory(other) == old(ConversationHistory(other))
    {
      var found := GetSession(sessionId);
      if found.None? {
        return TurnError(SessionNotFound, sessionId);
      }
      var session := found.value;
      if !session.isActive {
        return TurnError(SessionInactive, sessionId);
      }
      var history := RecentTurns(sessionId);
      var reply := GenerateResponse(generate, userMessage, history, faqListing);

      r := CommitReply(sessionId, userMessage, reply, now, commitSucceeds);
    }

    /**
     * The second half of `process_message`, once the reply is known: stage
     * the conversation row, the escalation record if the reply escalates and
     * the session's new flag and timestamp, then commit them all, or on a
     * failed commit roll them all back.
     */
    method CommitReply(sessionId: string, userMessage: string, reply: Reply, now: Timestamp, commitSucceeds: bool)
      returns (r: TurnResult)
      requires Valid() && AcceptsTurn(sessionId)
      modifies this
      ensures Valid()
      ensures !commitSucceeds ==>
                && r == TurnError(ProcessingFailed, sessionId)
                && sessions == old(sessions) && conversations == old(conversations) && escalations == old(escalations)
      ensures commitSucceeds ==>
                && r == TurnReply(reply.text, sessionId, reply.escalate, reply.matchedFaq, now)
                && conversations == old(conversations) + [TurnRow(|old(conversations)| + 1, sessionId, userMessage, reply, now)]
                && escalations == old(escalations) + TurnLogs(|old(escalations)| + 1, sessionId, reply, now)
                && sessions == old(sessions)[sessionId := TurnSession(old(sessions)[sessionId], reply, now)]
      ensures commitSucceeds ==>
                forall other :: other != sessionId ==> ConversationHistory(other) == old(ConversationHistory(other))
    {
      var conversation := TurnRow(|conversations| + 1, sessionId, userMessage, reply, now);
      var stagedLogs := TurnLogs(|escalations| + 1, sessionId, reply, now);
      var session := TurnSession(sessions[sessionId], reply, now);
      if !commitSucceeds {
        // rollback: nothing staged reaches the tables
        return TurnError(ProcessingFailed, sessionId);
      }
      forall other ensures SessionTurns(conversations + [conversation], other)
                           == SessionTurns(conversations, other) + (if sessionId == other then [conversation] else []) {
        SessionTurnsAppend(conversations, conversation, other);
      }
      RecordKeepsValid(sessions, conversations, escalations, session, [conversation], stagedLogs);
      conversations := conversations + [conversation];
      escalations := escalations + stagedLogs;
      sessions := sessions[sessionId := session];
      r := TurnReply(reply.text, sessionId, reply.escalate, reply.matchedFaq, now);
    }

    /**
     * `escalate_manually`: for a known session, whatever its state, record
     * `"Manual escalation: " + reason` and set the flag, in one commit. The
     * row's `updated_at` moves to `now` only when the flag actually changes,
     * since the column's on-update default fires only for a real update.
     */
    method EscalateManually(sessionId: string, reason: string, now: Timestamp, commitSucceeds: bool)
      returns (ok: bool)
      requires Valid()
      modifies this
      ensures Valid()
      ensures ok <==> sessionId in old(sessions) && commitSucceeds
      ensures !ok ==> sessions == old(sessions) && escalations == old(escalations)
      ensures ok ==>
                var s := old(sessions)[sessionId];
                && escalations == old(escalations) +
                     [NewEscalationLog(|old(escalations)| + 1, sessionId, ManualEscalationPrefix + reason, now)]
                && sessions == old(sessions)[sessionId := s.(escalated := true,
                                                            updatedAt := if s.escalated then s.updatedAt else now)]
      ensures conversations == old(conversations)
    {
      var found := GetSession(sessionId);
      if found.None? {
        return false;
      }
      var session := found.value;
      var updated := session.(escalated := true);
      if !session.escalated {
        updated := updated.(updatedAt := now);
      }
      var log := NewEscalationLog(|escalations| + 1, sessionId, ManualEscalationPrefix + reason, now);
      if !commitSucceeds {
        return false;
      }
      RecordKeepsValid(sessions, conversations, escalations, updated, [], [log]);
      assert conversations + [] == conversations;
      escalations := escalations + [log];
      sessions := sessions[sessionId := updated];
      return true;
    }

    /** `end_session`: mark a known session inactive and refresh its timestamp, in one commit. */
    method EndSession(sessionId: string, now: Timestamp, commitSucceeds: bool) returns (ok: bool)
      requires Valid()
      modifies this
      ensures Valid()
      ensures ok <==> sessionId in old(sessions) && commitSucceeds
      ensures !ok ==> sessions == old(sessions)
      ensures ok ==> sessions == old(sessions)[sessionId := old(sessions)[sessionId].(isActive := false, updatedAt := now)]
      ensures conversations == old(conversations) && escalations == old(escalations)
    {
      var found := GetSession(sessionId);
      if found.None? {
        return false;
      }
      var session := found.value.(isActive := false, updatedAt := now);
      if !commitSucceeds {
        return false;
      }
      sessions := sessions[sessionId := session];
      return true;
    }

    /**
     * `cleanup_old_sessions`: delete every ended session whose last update
     * is older than `hours` before `now`, and report how many went. Only the
     * session rows go: their conversations and escalation records stay.
     */
    method CleanupOldSessions(now: Timestamp, hours: int) returns (count: nat)
      requires Valid()
      modifies this
      ensures Valid()
      ensures var cutoff := now - hours * MicrosPerHour;
              forall sid :: sid in sessions <==> sid in old(sessions) && !Stale(old(sessions)[sid], cutoff)
      ensures forall sid :: sid in sessions ==> sessions[sid] == old(sessions)[sid]
      ensures forall sid :: sid in old(sessions) && old(sessions)[sid].isActive ==> sid in sessions
      ensures count == |old(sessions)| - |sessions|
      ensures ActiveSessionsCount() == old(ActiveSessionsCount())
      ensures conversations == old(conversations) && escalations == old(escalations)
    {
      var cutoff := now - hours * MicrosPerHour;
      var stale := set sid | sid in sessions && Stale(sessions[sid], cutoff);
      var kept := map sid | sid in sessions && sid !in stale :: sessions[sid];
      assert sessions.Keys == kept.Keys + stale;
      assert kept.Keys * stale == {};
      ghost var activeBefore := set sid | sid in sessions && sessions[sid].isActive;
      ghost var activeAfter := set sid | sid in kept && kept[sid].isActive;
      assert activeBefore == activeAfter;
      count := |stale|;
      sessions := kept;
    }

    /**
     * `get_escalated_sessions`, with `order` the order in which the database
     * lists the escalated sessions: one entry per escalated session, each
     * with its latest escalation record. In a valid store that record is
     * always found.
     */
    method GetEscalatedSessions(order: seq<string>) returns (result: seq<EscalatedSession>)
      requires forall i, j :: 0 <= i < j < |order| ==> order[i] != order[j]
      requires forall sid :: sid in order <==> sid in sessions && sessions[sid].escalated
      ensures |result| == |order|
      ensures forall i :: 0 <= i < |order| ==>
                result[i] == EscalatedInfo(sessions[order[i]], LatestEscalation(escalations, order[i]))
      ensures Valid() ==> forall i :: 0 <= i < |result| ==> result[i].escalationTime.Some?
    {
      result := [];
      for i := 0 to |order|
        invariant |result| == i
        invariant forall k :: 0 <= k < i ==>
                    result[k] == EscalatedInfo(sessions[order[k]], LatestEscalation(escalations, order[k]))
      {
        var session := sessions[order[i]];
        var latest := LatestEscalation(escalations, order[i]);
        result := result + [EscalatedInfo(session, latest)];
      }
    }
  }

  /** A subset of a finite set is no larger. */
  lemma SubsetCardinality<T>(a: set<T>, b: set<T>)
    requires a <= b
    ensures |a| <= |b|
  {
    assert b == a + (b - a);
  }

  /**
   * Ending a session twice succeeds both times and leaves it inactive; the
   * second call is not free of effects, since it stamps the row again.
   */
  method EndSessionTwice(service: BotService, sessionId: string, first: Timestamp, second: Timestamp)
    returns (once: bool, twice: bool)
    requires service.Valid() && sessionId in service.sessions
    modifies service
    ensures once && twice
    ensures sessionId in service.sessions && !service.sessions[sessionId].isActive
    ensures service.sessions[sessionId].updatedAt == second
  {
    once := service.EndSession(sessionId, first, true);
    twice := service.EndSession(sessionId, second, true);
  }

  /**
   * A committed turn whose message carries an escalation keyword escalates
   * the stored session and leaves an escalation record for it, whatever the
   * model answers.
   */
  method KeywordTurnEscalates(service: BotService, sessionId: string, userMessage: string, now: Timestamp,
                              faqListing: seq<Faq>)
    returns (r: TurnResult)
    requires service.Valid() && service.AcceptsTurn(sessionId)
    requires IsActiveFaqListing(service.faqs, faqListing)
    requires MessageAsksForHuman(userMessage)
    modifies service
    ensures r.TurnReply? && r.escalated
    ensures sessionId in service.sessions && service.sessions[sessionId].escalated
    ensures HasEscalationLog(service.escalations, sessionId)
  {
    r := service.ProcessMessage(sessionId, userMessage, now, faqListing, true);
  }

  /** `cleanup_old_sessions()` with its default retention of 24 hours. */
  method DailyCleanup(service: BotService, now: Timestamp) returns (count: nat)
    requires service.Valid()
    modifies service
    ensures service.Valid()
    ensures forall sid :: sid in service.sessions <==>
              sid in old(service.sessions) && !Stale(old(service.sessions)[sid], now - DefaultCleanupHours * MicrosPerHour)
    ensures count == |old(service.sessions)| - |service.sessions|
  {
    count := service.CleanupOldSessions(now, DefaultCleanupHours);
  }
}
