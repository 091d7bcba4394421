# AI customer support bot — a Dafny model of its core

The support bot runs a chat session for a customer. Each message goes through
a fixed pipeline:

1. The bot reads back the session's recent turns and the active FAQs.
2. It builds a prompt and asks a language model for an answer.
3. It decides whether the exchange must go to a human.
4. It tries to match the message to a FAQ.
5. It stores the turn, plus an escalation record when needed, in one database
   commit.

Sessions can also be escalated by hand, ended, summarised, counted, listed when
escalated, and purged once ended and old.

The model has two layers:

- **The language-model layer** (`LlmService`) holds the text rules of the
  source:
  - the escalation classifier;
  - the keyword FAQ matcher, including its division by zero on a FAQ whose
    question has no words;
  - the exact system, turn and summary prompts;
  - the fail-safe reply.

  The language model itself is a parameter, `generate: string ->
  Option<string>`, where `None` means the client raised.
- **The store** (`Bot.BotService`) is a class over the tables as fields:
  - a map of sessions;
  - append-only sequences of conversations and escalation records.

  Its methods change those fields as `bot_service.py` changes rows. The
  invariant `Valid` ties them together:
  - a session is escalated exactly when some escalation record names it;
  - row ids count up from 1.

  Every method keeps the invariant. The clock (`now`), fresh session ids, the
  outcome of each commit, and the orders the database leaves open are all
  parameters.

The modules are:

- `Wrappers`: `Option`.
- `Text`: the Python string built-ins used here, namely `lower`, `in`, `split()`
  and `str(int)`.
- `Lists`: `xs[-n:]`.
- `Models`: rows and their defaults.
- `LlmService`
- `Bot`

Some behaviour of the code, modelled as written:

- **Escalation reason:** the automatic escalation reason is "LLM determined
  escalation needed" (`bot_service.py:66`).
- **Manual escalation:** it applies to ended sessions too; it looks the
  session up without checking `is_active` (`bot_service.py:148-163`).
- **Cleanup:** it deletes only the session rows, so their conversations and
  escalation records remain (`bot_service.py:190-204`).
- **Session summary:** it covers the last 20 turns, not the whole session
  (`bot_service.py:182-188`, through `_get_conversation_history`).
- **Ending twice:** ending an ended session succeeds again and stamps
  `updated_at` anew (`bot_service.py:171-172`).
- **Literal `\n`:** the FAQ block of the system prompt and the summary
  transcript contain a literal backslash followed by `n`, not a newline.

## Model

| member | source | states |
|---|---|---|
| Models.NewSession | ai-customer-support-bot/backend/models.py:9-18 | a new session is active, not escalated, created and updated at `now`, with optional email and name |
| Models.NewConversation | ai-customer-support-bot/backend/models.py:23-33 | a new conversation row is unescalated, with no FAQ match and no confidence score, stamped `now` |
| Models.NewFaq | ai-customer-support-bot/backend/models.py:38-49 | a new FAQ has priority 1, is active and has no keywords |
| Models.NewEscalationLog | ai-customer-support-bot/backend/models.py:51-59 | a new escalation record is unresolved, has no notes, and is stamped `now` |
| Models.ToHistoryEntry | ai-customer-support-bot/backend/bot_service.py:116-122 | the context view of a turn keeps its message and response |
| Text.Lower | ai-customer-support-bot/backend/llm_service.py:106 | lower-casing keeps the length and maps each character through `LowerChar` |
| Text.LowerIdempotent | ai-customer-support-bot/backend/llm_service.py:106-112 | lower-casing twice is lower-casing once |
| Text.ContainsIff | ai-customer-support-bot/backend/llm_service.py:108 | `sub in s` holds exactly when `sub` occurs at some position of `s` |
| Text.ContainsAnyIff | ai-customer-support-bot/backend/llm_service.py:107-122 | `any(k in s for k in needles)` holds exactly when some needle occurs at some position of `s` |
| Text.AbsentCharExcludes | ai-customer-support-bot/backend/llm_service.py:121 | a needle character missing from the text rules the needle out |
| Text.Words | ai-customer-support-bot/backend/llm_service.py:133 | `split()` yields non-empty words free of whitespace |
| Text.WordsOfBlank | ai-customer-support-bot/backend/llm_service.py:133 | a string of whitespace splits into no words |
| Text.WordsOfJoin | ai-customer-support-bot/backend/llm_service.py:133 | splitting undoes joining non-empty, space-free words with single spaces |
| Text.NatToStringRoundTrip | ai-customer-support-bot/backend/llm_service.py:183 | the decimal rendering of a count reads back as that count |
| Lists.LastN | ai-customer-support-bot/backend/llm_service.py:31 | for `n >= 1`, `xs[-n:]` has length `min(n, len(xs))` and is the tail of `xs` in order |
| Lists.LastNOfLastN | ai-customer-support-bot/backend/bot_service.py:111-114 | the last 10 of the last 20 turns are the last 10 turns |
| Models.Histories | ai-customer-support-bot/backend/bot_service.py:116-122 | the context views of stored turns keep their number and order, each the view of its turn |
| LlmService.ShouldEscalate | ai-customer-support-bot/backend/llm_service.py:95-124 | escalates exactly when some indicator, lower-cased, occurs in the lower-cased response, or some keyword occurs in the lower-cased message |
| LlmService.IndicatorForcesEscalation | ai-customer-support-bot/backend/llm_service.py:98-109 | any indicator in the lower-cased response escalates |
| LlmService.EscalationByKeyword | ai-customer-support-bot/backend/llm_service.py:111-124 | without an indicator, escalation holds exactly when a keyword occurs in the lower-cased message |
| LlmService.ShouldEscalateIgnoresCase | ai-customer-support-bot/backend/llm_service.py:106-112 | the verdict does not change when either input is lower-cased first |
| LlmService.ManagerRequestEscalates | ai-customer-support-bot/backend/llm_service.py:113-122 | "I want to speak to a manager" escalates whatever the response |
| LlmService.RefundRequestEscalates | ai-customer-support-bot/backend/llm_service.py:113-122 | "I'm furious, give me a refund now" escalates whatever the response |
| LlmService.KeywordsNeedLetters | ai-customer-support-bot/backend/llm_service.py:113-118 | a text lacking b, c, f, g, i, m, n and p contains no keyword |
| LlmService.IndicatorsNeedLetters | ai-customer-support-bot/backend/llm_service.py:98-103 | a text lacking `[`, k, f and m contains no lower-cased indicator |
| LlmService.NeutralExchangeDoesNotEscalate | ai-customer-support-bot/backend/llm_service.py:95-124 | an exchange lacking those letters after lower-casing does not escalate |
| LlmService.HoursQuestionDoesNotEscalate | ai-customer-support-bot/backend/llm_service.py:95-124 | "What are your hours?" answered with "Our hours are 9 to 5." does not escalate |
| LlmService.MatchCount | ai-customer-support-bot/backend/llm_service.py:136-139 | the count of long question words found in the message is at most the number of words; it is 0 when none counts and all of them when all count |
| LlmService.FaqVerdict | ai-customer-support-bot/backend/llm_service.py:133-143 | a FAQ raises exactly when its question has no words; it hits exactly when at least 2 words match or more than 30% of them do |
| LlmService.FirstMatch | ai-customer-support-bot/backend/llm_service.py:131-145 | a returned id is the id of some listed FAQ that hit; a division error comes from some listed FAQ whose question has no words |
| LlmService.FirstMatchIsFirstHit | ai-customer-support-bot/backend/llm_service.py:131-143 | a returned id belongs to a FAQ that hit, and every FAQ before it missed |
| LlmService.FirstMatchAt | ai-customer-support-bot/backend/llm_service.py:131-145 | after a run of misses, the next FAQ decides: a hit returns its id, no words raises, and the end of the list gives no match |
| LlmService.NoMatchIffAllMiss | ai-customer-support-bot/backend/llm_service.py:131-145 | no match exactly when every FAQ misses |
| LlmService.ZeroDivisionIffEmptyQuestionFirst | ai-customer-support-bot/backend/llm_service.py:142 | the matcher raises exactly when a FAQ without words comes before any hit |
| LlmService.CountMatches | ai-customer-support-bot/backend/llm_service.py:136-139 | the counting loop computes `MatchCount` |
| LlmService.MatchFaq | ai-customer-support-bot/backend/llm_service.py:126-145 | the matching loop returns the first hit, no match, or the division error, as `FirstMatch` above |
| LlmService.PasswordQuestionWords | ai-customer-support-bot/backend/llm_service.py:133 | "How do I reset my password" splits into its six lower-case words |
| LlmService.PasswordWordsCount | ai-customer-support-bot/backend/llm_service.py:136-139 | in "how do i reset my password?", exactly "reset" and "password" count |
| LlmService.PasswordQuestionMatches | ai-customer-support-bot/backend/llm_service.py:142-143 | that FAQ, listed first, matches "How do I reset my password?" |
| LlmService.BlankQuestionRaises | ai-customer-support-bot/backend/llm_service.py:142 | a first FAQ whose question is all whitespace makes the matcher raise |
| LlmService.FaqBlocksAppend | ai-customer-support-bot/backend/llm_service.py:68-69 | the FAQ section of a concatenated list is the concatenation of the sections |
| LlmService.FaqBlocksInOrder | ai-customer-support-bot/backend/llm_service.py:68-69 | the FAQ section lists the FAQs in the given order |
| LlmService.SystemPrompt | ai-customer-support-bot/backend/llm_service.py:62-93 | every system prompt ends with the `[ESCALATE]`/`[CONTINUE]` instruction |
| LlmService.SystemPromptWithoutFaqs | ai-customer-support-bot/backend/llm_service.py:65-92 | with no FAQs the system prompt is the introduction, the policy list and the marker instruction, with nothing between them |
| LlmService.BuildSystemPrompt | ai-customer-support-bot/backend/llm_service.py:62-93 | the accumulating loop builds `SystemPrompt` |
| LlmService.HistoryLinesAppend | ai-customer-support-bot/backend/llm_service.py:31-32 | the history section of a concatenation is the concatenation of the sections |
| LlmService.FullPromptFrame | ai-customer-support-bot/backend/llm_service.py:28-35 | every turn prompt starts with the system prompt and the history heading and ends with the new message and `Bot:` |
| LlmService.FullPromptIgnoresOlderTurns | ai-customer-support-bot/backend/llm_service.py:31 | turns older than the last 10 do not change the prompt |
| LlmService.BuildFullPrompt | ai-customer-support-bot/backend/llm_service.py:28-35 | the turn prompt is the system prompt, the history heading, the last 10 exchanges in order and the new message |
| LlmService.ReplyFor | ai-customer-support-bot/backend/llm_service.py:17-60 | a keyword in the message always escalates; a failed model call gives the fallback; an unescalated reply is the model's own text with no indicator or keyword; a reply's FAQ id names a listed FAQ that hit |
| LlmService.GenerateResponse | ai-customer-support-bot/backend/llm_service.py:17-60 | `generate_response` computes `ReplyFor` |
| LlmService.ReplyOutcomes | ai-customer-support-bot/backend/llm_service.py:43-60 | a failed model call or a raising matcher gives the escalated apology with no FAQ; otherwise the reply is the model's text with the classifier's verdict and the matcher's id |
| LlmService.ReplyFaqIsFirstHit | ai-customer-support-bot/backend/llm_service.py:54-56 | a reply's FAQ id names the first FAQ of the list that hit |
| LlmService.BlankQuestionForcesFallback | ai-customer-support-bot/backend/llm_service.py:54-60 | a wordless first FAQ turns every reply into the fallback |
| LlmService.SummarizeConversation | ai-customer-support-bot/backend/llm_service.py:147-183 | no turns give the fixed sentence; otherwise the model's answer is the summary, and a failed call gives a text starting with the failure prefix |
| LlmService.SummaryFailureReportsCount | ai-customer-support-bot/backend/llm_service.py:181-183 | on model failure, the summary reports the number of exchanges, which can be read back |
| Bot.SessionTurns | ai-customer-support-bot/backend/bot_service.py:90-94 | a session's turns are exactly the stored conversations naming it |
| Bot.SessionTurnsAppend | ai-customer-support-bot/backend/bot_service.py:54-62 | storing a conversation extends only its own session's history |
| Bot.HasEscalationLogAppend | ai-customer-support-bot/backend/bot_service.py:140-146 | a session has a record after an append exactly when it had one before or the appended records include one |
| Bot.LatestEscalation | ai-customer-support-bot/backend/bot_service.py:220-223 | no latest record exactly when the session has none; otherwise it is that session's last stored record |
| Bot.ActiveFaqs | ai-customer-support-bot/backend/bot_service.py:124-128 | a FAQ is in the list exactly when it is in the table and active |
| Bot.InsertByPriority | ai-customer-support-bot/backend/bot_service.py:128 | inserting into a priority-sorted list keeps it sorted and adds exactly one entry |
| Bot.SortByPriority | ai-customer-support-bot/backend/bot_service.py:128 | ordering by priority yields a sorted permutation |
| Bot.ActiveFaqListingExists | ai-customer-support-bot/backend/bot_service.py:124-138 | a listing of the active FAQs by priority always exists |
| Bot.RecordKeepsValid | ai-customer-support-bot/backend/bot_service.py:54-72 | writing back a session with its new turns and records keeps the invariant when its flag reflects the records |
| Bot.LastNOfHistories | ai-customer-support-bot/backend/bot_service.py:111-122 | the last `n` context views are the views of the last `n` turns |
| Bot.EscalatedInfo | ai-customer-support-bot/backend/bot_service.py:220-233 | an entry copies the session's id, email, name and creation time; it has a time exactly when a record exists, and then takes reason, time and resolution from the latest record; otherwise reason "Unknown" and unresolved |
| Bot.SubsetCardinality | ai-customer-support-bot/backend/bot_service.py:206-210 | helper: a subset of sessions is no larger, so the active count is at most the number of sessions |
| Bot.BotService.constructor | ai-customer-support-bot/backend/bot_service.py:9-12 | a new service has empty tables and a valid store |
| Bot.BotService.GetSession | ai-customer-support-bot/backend/bot_service.py:25-27 | a session is found exactly when its id is stored |
| Bot.BotService.ConversationHistory | ai-customer-support-bot/backend/bot_service.py:90-105 | the history holds exactly the session's stored turns |
| Bot.BotService.RecentTurns | ai-customer-support-bot/backend/bot_service.py:107-122 | the context is the last `min(20, n)` turns, oldest first |
| Bot.BotService.PromptSeesLastTenTurns | ai-customer-support-bot/backend/bot_service.py:107-122 | the prompt built from the 20-turn context is the one built from the session's last 10 turns |
| Bot.BotService.ActiveSessionsCount | ai-customer-support-bot/backend/bot_service.py:206-210 | the active count never exceeds the number of sessions |
| Bot.BotService.GetSessionSummary | ai-customer-support-bot/backend/bot_service.py:182-188 | none exactly when the session has no turns; otherwise the summary of its recent turns |
| Bot.BotService.StartSession | ai-customer-support-bot/backend/bot_service.py:14-23 | adds one fresh default session under the new id and leaves the other tables unchanged |
| Bot.BotService.ProcessMessage | ai-customer-support-bot/backend/bot_service.py:29-88 | an unknown, ended or uncommitted turn returns its error and writes nothing; a committed turn stores one conversation and, when escalating, one record, and sets the flag and timestamp; other sessions' histories are untouched |
| Bot.BotService.CommitReply | ai-customer-support-bot/backend/bot_service.py:54-88 | a failed commit returns the processing error and writes nothing; a committed one appends the turn row and, when escalating, one automatic record, sets the flag and stamp, and leaves other sessions' histories alone |
| Bot.BotService.EscalateManually | ai-customer-support-bot/backend/bot_service.py:148-163 | succeeds exactly for a known session when the commit succeeds; then it appends one record with the manual reason and sets the flag; the timestamp moves only if the flag changed |
| Bot.BotService.EndSession | ai-customer-support-bot/backend/bot_service.py:165-180 | succeeds exactly for a known session when the commit succeeds; then the session is inactive and stamped `now` |
| Bot.BotService.CleanupOldSessions | ai-customer-support-bot/backend/bot_service.py:190-204 | removes exactly the ended sessions last updated before the cutoff and returns their number; active sessions, their count and the other tables stay |
| Bot.BotService.GetEscalatedSessions | ai-customer-support-bot/backend/bot_service.py:212-235 | one entry per escalated session, carrying its latest record; in a valid store a record is always found |
| Bot.EndSessionTwice | ai-customer-support-bot/backend/bot_service.py:165-180 | ending a session a second time succeeds again, leaves it inactive and stamps it with the second time |
| Bot.KeywordTurnEscalates | ai-customer-support-bot/backend/bot_service.py:48-67 | a committed turn with an escalation keyword escalates the stored session and leaves a record for it |
| Bot.DailyCleanup | ai-customer-support-bot/backend/bot_service.py:190-204 | the default 24-hour cleanup removes exactly the ended sessions last updated more than 24 hours ago and returns their number |

## Left out

- **Language model client:** the language-model client and its configuration (model name, token limit, temperature, API key). Generation is an uninterpreted parameter; a raised exception is `None`.
- **Output:** console output (`print`) in the error paths and in the cleanup.
- **HTTP layer:** `main.py`, the FastAPI routes and their request and response shapes, plus the setup and start scripts. They are context outside this core.
- **Dictionary projections:** the dictionaries the methods return are modelled as records; timestamps are not rendered in ISO format.
- **Concurrency:** the database session is modelled as one sequential store.
- **Commit failures:** modelled as the parameter `commitSucceeds`, all or nothing. `start_session` and `cleanup_old_sessions` do not catch commit errors, so their failure is an exception and is not modelled.
- **Conversation order:** turns are ordered by timestamp in the source; the model uses insertion order. Turns stamped in the same microsecond are not distinguished.
- **Latest escalation:** taken as the last one stored, for the same reason.
- **Listing orders:** FAQs of equal priority, and the escalated-session listing (which has no `ORDER BY`), may come in any order; the order is a parameter constrained by `IsActiveFaqListing` or by the listing's contents.
- **Timestamps:** `datetime.utcnow()` is supplied as one `now` per call. The source reads the clock separately for the conversation row and the session update. `datetime` range overflow in the cleanup cutoff is not modelled.
- **Foreign keys:** foreign-key enforcement and cascades are not modelled. Nothing in the source enables them, so deleted sessions leave their turns and records behind.
- **Fresh ids:** `StartSession` takes the fresh id as a parameter (`IsFreshId`) instead of drawing a UUID.
- Text.Lower: lower-cases ASCII letters only. Python's `str.lower()` also folds other Unicode letters. The classifier's needles are ASCII, but a non-ASCII message would lower differently.
- **Float ratio:** the ratio test is the float comparison `matches / len(words) > 0.3`. The model states it as `10 * matches > 3 * words`. The ratio only decides when fewer than 2 words match. With 0 matches neither form holds. With 1 match both hold exactly when `words <= 3`.
- **Relationships:** the `relationship` attributes of the rows are left out; a conversation or escalation record refers to its session only through its `session_id` key.
- **Unused columns:** the `keywords` and `confidence_score` columns, which no operation reads, are carried as plain fields.
- **Deterministic model:** `generate` is a fixed function, so the same prompt always gets the same answer. The real client samples, at temperature 0.7 for replies and 0.5 for summaries, and need not. As a consequence `GetSessionSummary` is a function of the store.
- Lists.LastN: requires `n >= 1`. Python's `xs[-0:]` is all of `xs`; the bot only slices with 10 and 20.
