/**
 * The deterministic text rules around the language model: the escalation
 * classifier, the lexical FAQ matcher, prompt assembly, the fail-safe around
 * generation and the summary fallbacks.
 *
 * The hosted model is an oracle `generate: string -> Option<string>`: it maps
 * the full prompt to the generated text, or to `None` when the client raises
 * (timeout, quota, blocked or malformed response).
 */
module LlmService {
  import opened Wrappers
  import opened Text
  import opened Lists
  import opened Models

  // =====================================================================
  // Escalation classifier
  // =====================================================================

  /** Phrases in the bot's own response that ask for a human (compared lower-cased). */
  const EscalationIndicators: seq<string> :=
    ["[ESCALATE]", "speak with a human", "transfer to agent", "human representative"]

  /** Words in the customer's message that ask for a human (already lower-case). */
  const EscalationKeywords: seq<string> := [
    "angry", "frustrated", "terrible", "awful", "horrible",
    "manager", "supervisor", "human", "agent", "representative",
    "refund", "cancel", "billing", "charge", "payment",
    "security", "hacked", "breach", "unauthorized"]

  function LowerAll(ps: seq<string>): (r: seq<string>)
    ensures |r| == |ps|
    ensures forall k :: 0 <= k < |ps| ==> r[k] == Lower(ps[k])
  {
    seq(|ps|, k requires 0 <= k < |ps| => Lower(ps[k]))
  }

  /** Some indicator, lower-cased, occurs in the lower-cased response. */
  predicate ResponseAsksForHuman(botResponse: string)
  {
    ContainsAny(Lower(botResponse), LowerAll(EscalationIndicators))
  }

  /** Some keyword occurs in the lower-cased message. */
  predicate MessageAsksForHuman(userMessage: string)
  {
    ContainsAny(Lower(userMessage), EscalationKeywords)
  }

  /**
   * `_should_escalate`: the response test first, then the message test. It
   * holds exactly when a lower-cased indicator occurs at some position of the
   * lower-cased response, or a keyword at some position of the lower-cased
   * message.
   */
  predicate ShouldEscalate(userMessage: string, botResponse: string)
    ensures ShouldEscalate(userMessage, botResponse) <==>
            (exists k, i :: 0 <= k < |EscalationIndicators| &&
                            OccursAt(Lower(botResponse), LowerAll(EscalationIndicators)[k], i)) ||
            (exists k, i :: 0 <= k < |EscalationKeywords| &&
                            OccursAt(Lower(userMessage), EscalationKeywords[k], i))
  {
    ContainsAnyIff(Lower(botResponse), LowerAll(EscalationIndicators));
    ContainsAnyIff(Lower(userMessage), EscalationKeywords);
    ResponseAsksForHuman(botResponse) || MessageAsksForHuman(userMessage)
  }

  /** An indicator in the response escalates, whatever the customer wrote. */
  lemma IndicatorForcesEscalation(userMessage: string, botResponse: string, k: nat)
    requires k < |EscalationIndicators|
    requires Contains(Lower(botResponse), Lower(EscalationIndicators[k]))
    ensures ShouldEscalate(userMessage, botResponse)
  {
    assert LowerAll(EscalationIndicators)[k] == Lower(EscalationIndicators[k]);
  }

  /** Without an indicator in the response, escalation is exactly "the message holds a keyword". */
  lemma EscalationByKeyword(userMessage: string, botResponse: string)
    requires !ResponseAsksForHuman(botResponse)
    ensures ShouldEscalate(userMessage, botResponse) <==>
            exists k :: 0 <= k < |EscalationKeywords| && Contains(Lower(userMessage), EscalationKeywords[k])
  {
  }

  /** The classifier ignores case: lower-casing either argument first changes nothing. */
  lemma ShouldEscalateIgnoresCase(userMessage: string, botResponse: string)
    ensures ShouldEscalate(Lower(userMessage), botResponse) == ShouldEscalate(userMessage, botResponse)
    ensures ShouldEscalate(userMessage, Lower(botResponse)) == ShouldEscalate(userMessage, botResponse)
  {
    LowerIdempotent(userMessage);
    LowerIdempotent(botResponse);
  }

  /** "I want to speak to a manager" escalates, whatever the response. */
  lemma ManagerRequestEscalates(botResponse: string)
    ensures ShouldEscalate("I want to speak to a manager", botResponse)
  {
    var m := Lower("I want to speak to a manager");
    ContainsAt(m, "manager", 21);
    assert EscalationKeywords[5] == "manager";
  }

  /** "I'm furious, give me a refund now" escalates, whatever the response. */
  lemma RefundRequestEscalates(botResponse: string)
    ensures ShouldEscalate("I'm furious, give me a refund now", botResponse)
  {
    var m := Lower("I'm furious, give me a refund now");
    ContainsAt(m, "refund", 23);
    assert EscalationKeywords[10] == "refund";
  }

  /**
   * Every keyword holds one of the letters b, c, f, g, i, m, n, p, so a
   * message without any of them triggers no keyword.
   */
  lemma KeywordsNeedLetters(m: string)
    requires 'b' !in m && 'c' !in m && 'f' !in m && 'g' !in m
    requires 'i' !in m && 'm' !in m && 'n' !in m && 'p' !in m
    ensures !ContainsAny(m, EscalationKeywords)
  {
    var absent := "nfifbmpmgpfcbcpccbn";
    forall k | 0 <= k < |EscalationKeywords| ensures !Contains(m, EscalationKeywords[k]) {
      AbsentCharExcludes(m, EscalationKeywords[k], absent[k]);
    }
  }

  /** Every lower-cased indicator holds one of `[`, k, f, m, so a response without them holds no indicator. */
  lemma IndicatorsNeedLetters(r: string)
    requires '[' !in r && 'k' !in r && 'f' !in r && 'm' !in r
    ensures !ContainsAny(r, LowerAll(EscalationIndicators))
  {
    var indicators := LowerAll(EscalationIndicators);
    assert indicators[0][0] == '[';
    assert indicators[1][4] == 'k';
    assert indicators[2][5] == 'f';
    assert indicators[3][2] == 'm';
    var absent := "[kfm";
    forall k | 0 <= k < |indicators| ensures !Contains(r, indicators[k]) {
      AbsentCharExcludes(r, indicators[k], absent[k]);
    }
  }

  /** A message and a response that lack those letters once lower-cased do not escalate. */
  lemma NeutralExchangeDoesNotEscalate(userMessage: string, botResponse: string)
    requires var m := Lower(userMessage);
             'b' !in m && 'c' !in m && 'f' !in m && 'g' !in m && 'i' !in m && 'm' !in m && 'n' !in m && 'p' !in m
    requires var r := Lower(botResponse);
             '[' !in r && 'k' !in r && 'f' !in r && 'm' !in r
    ensures !ShouldEscalate(userMessage, botResponse)
  {
    KeywordsNeedLetters(Lower(userMessage));
    IndicatorsNeedLetters(Lower(botResponse));
  }

  lemma HoursQuestionLetters(userMessage: string)
    requires userMessage == "What are your hours?"
    ensures var m := Lower(userMessage);
            'b' !in m && 'c' !in m && 'f' !in m && 'g' !in m && 'i' !in m && 'm' !in m && 'n' !in m && 'p' !in m
  {
    assert Lower(userMessage) == "what are your hours?";
    HoursLettersLow("what are your hours?");
    HoursLettersHigh("what are your hours?");
  }

  lemma HoursLettersLow(m: string)
    requires m == "what are your hours?"
    ensures 'b' !in m && 'c' !in m && 'f' !in m && 'g' !in m
  {
  }

  lemma HoursLettersHigh(m: string)
    requires m == "what are your hours?"
    ensures 'i' !in m && 'm' !in m && 'n' !in m && 'p' !in m
  {
  }

  lemma HoursAnswerLetters(botResponse: string)
    requires botResponse == "Our hours are 9 to 5."
    ensures var r := Lower(botResponse);
            '[' !in r && 'k' !in r && 'f' !in r && 'm' !in r
  {
    assert Lower(botResponse) == "our hours are 9 to 5.";
    HoursAnswerLowerLetters("our hours are 9 to 5.");
  }

  lemma HoursAnswerLowerLetters(r: string)
    requires r == "our hours are 9 to 5."
    ensures '[' !in r && 'k' !in r && 'f' !in r && 'm' !in r
  {
  }

  /** "What are your hours?" with a neutral answer does not escalate. */
  lemma HoursQuestionDoesNotEscalate(userMessage: string, botResponse: string)
    requires userMessage == "What are your hours?" && botResponse == "Our hours are 9 to 5."
    ensures !ShouldEscalate(userMessage, botResponse)
  {
    HoursQuestionLetters(userMessage);
    HoursAnswerLetters(botResponse);
    NeutralExchangeDoesNotEscalate(userMessage, botResponse);
  }

  // =====================================================================
  // FAQ matcher
  // =====================================================================

  /** The question's words, lower-cased and split on whitespace. */
  function QuestionWords(f: Faq): seq<string>
  {
    Words(Lower(f.question))
  }

  /** A question word counts when it is longer than three characters and occurs in the message. */
  predicate WordCounts(word: string, userLower: string)
  {
    |word| > 3 && Contains(userLower, word)
  }

  /** How many of `words` count against the lower-cased message. */
  function MatchCount(words: seq<string>, userLower: string): (m: nat)
    ensures m <= |words|
    ensures m == 0 <== forall k :: 0 <= k < |words| ==> !WordCounts(words[k], userLower)
    ensures m == |words| <== forall k :: 0 <= k < |words| ==> WordCounts(words[k], userLower)
  {
    if words == [] then 0
    else
      var init := words[..|words| - 1];
      assert forall k :: 0 <= k < |init| ==> init[k] == words[k];
      MatchCount(init, userLower) + (if WordCounts(words[|words| - 1], userLower) then 1 else 0)
  }

  /**
   * What one FAQ does in the scan: `Hit` when the match count reaches two or
   * exceeds 30% of the question's words (`m / n > 0.3` is `10 * m > 3 * n`),
   * `Crash` when the division `m / n` raises because `n` is zero, `Miss` otherwise.
   */
  datatype Verdict = Hit | Miss | Crash

  function FaqVerdict(userLower: string, f: Faq): (v: Verdict)
    ensures v == Crash <==> QuestionWords(f) == []
    ensures v == Hit <==> var n, m := |QuestionWords(f)|, MatchCount(QuestionWords(f), userLower);
                          m >= 2 || (n > 0 && 10 * m > 3 * n)
  {
    var words := QuestionWords(f);
    var m := MatchCount(words, userLower);
    if m >= 2 then Hit
    else if |words| == 0 then Crash
    else if 10 * m > 3 * |words| then Hit
    else Miss
  }

  /** The outcome of `_match_faq`: a FAQ id, `None`, or the `ZeroDivisionError` it raises. */
  datatype MatchResult = Matched(faqId: string) | NoMatch | ZeroDivision

  /** The scan of `_match_faq` over the lower-cased message, stopping at the first non-miss. */
  function FirstMatch(userLower: string, faqs: seq<Faq>): (r: MatchResult)
    ensures r.Matched? ==> exists k :: 0 <= k < |faqs| && faqs[k].id == r.faqId && FaqVerdict(userLower, faqs[k]) == Hit
    ensures r.ZeroDivision? ==> exists k :: 0 <= k < |faqs| && QuestionWords(faqs[k]) == []
  {
    if faqs == [] then NoMatch
    else
      match FaqVerdict(userLower, faqs[0])
      case Hit => Matched(faqs[0].id)
      case Crash => ZeroDivision
      case Miss =>
        var r := FirstMatch(userLower, faqs[1..]);
        assert forall k :: 0 <= k < |faqs| - 1 ==> faqs[1..][k] == faqs[k + 1];
        r
  }

  /** The scan's result is fixed by the first FAQ whose verdict is not a miss, if there is one. */
  lemma {:induction false} FirstMatchAt(userLower: string, faqs: seq<Faq>, k: nat)
    requires k <= |faqs|
    requires forall j :: 0 <= j < k ==> FaqVerdict(userLower, faqs[j]) == Miss
    ensures k == |faqs| ==> FirstMatch(userLower, faqs) == NoMatch
    ensures k < |faqs| && FaqVerdict(userLower, faqs[k]) == Hit ==> FirstMatch(userLower, faqs) == Matched(faqs[k].id)
    ensures k < |faqs| && FaqVerdict(userLower, faqs[k]) == Crash ==> FirstMatch(userLower, faqs) == ZeroDivision
  {
    if k > 0 {
      var rest := faqs[1..];
      FirstMatchSkipsMiss(userLower, faqs);
      forall j | 0 <= j < k - 1
        ensures FaqVerdict(userLower, rest[j]) == Miss
      {
        assert rest[j] == faqs[j + 1];
      }
      FirstMatchAt(userLower, rest, k - 1);
      if k < |faqs| {
        assert rest[k - 1] == faqs[k];
      }
    }
  }

  /** No id comes back exactly when every FAQ misses. */
  lemma {:induction false} NoMatchIffAllMiss(userLower: string, faqs: seq<Faq>)
    ensures FirstMatch(userLower, faqs) == NoMatch <==>
            forall k :: 0 <= k < |faqs| ==> FaqVerdict(userLower, faqs[k]) == Miss
  {
    if faqs != [] {
      NoMatchIffAllMiss(userLower, faqs[1..]);
      if FaqVerdict(userLower, faqs[0]) == Miss {
        assert forall k :: 1 <= k < |faqs| ==> faqs[k] == faqs[1..][k - 1];
      }
    }
  }

  /** The position of the first FAQ whose verdict is not a miss, or `|faqs|` when all miss. */
  lemma {:induction false} FirstNonMiss(userLower: string, faqs: seq<Faq>) returns (k: nat)
    ensures k <= |faqs|
    ensures forall j :: 0 <= j < k ==> FaqVerdict(userLower, faqs[j]) == Miss
    ensures k < |faqs| ==> FaqVerdict(userLower, faqs[k]) != Miss
  {
    k := 0;
    while k < |faqs| && FaqVerdict(userLower, faqs[k]) == Miss
      invariant k <= |faqs|
      invariant forall j :: 0 <= j < k ==> FaqVerdict(userLower, faqs[j]) == Miss
    {
      k := k + 1;
    }
  }

  /** A leading miss is passed over: the scan goes on with the rest. */
  lemma FirstMatchSkipsMiss(userLower: string, faqs: seq<Faq>)
    requires faqs != [] && FaqVerdict(userLower, faqs[0]) == Miss
    ensures FirstMatch(userLower, faqs) == FirstMatch(userLower, faqs[1..])
  {
  }

  /** A matched id belongs to the first FAQ that hits, and every FAQ before it misses. */
  lemma FirstMatchIsFirstHit(userLower: string, faqs: seq<Faq>) returns (k: nat)
    requires FirstMatch(userLower, faqs).Matched?
    ensures k < |faqs| && faqs[k].id == FirstMatch(userLower, faqs).faqId
    ensures FaqVerdict(userLower, faqs[k]) == Hit
    ensures forall j :: 0 <= j < k ==> FaqVerdict(userLower, faqs[j]) == Miss
  {
    k := FirstNonMiss(userLower, faqs);
    FirstMatchAt(userLower, faqs, k);
  }

  /** The matcher raises exactly when a question with no words is reached before any hit. */
  lemma ZeroDivisionIffEmptyQuestionFirst(userLower: string, faqs: seq<Faq>)
    ensures FirstMatch(userLower, faqs) == ZeroDivision <==>
            exists k :: 0 <= k < |faqs| && QuestionWords(faqs[k]) == [] &&
                        forall j :: 0 <= j < k ==> FaqVerdict(userLower, faqs[j]) == Miss
  {
    var k := FirstNonMiss(userLower, faqs);
    FirstMatchAt(userLower, faqs, k);
    if exists k0 :: 0 <= k0 < |faqs| && QuestionWords(faqs[k0]) == [] &&
                    forall j :: 0 <= j < k0 ==> FaqVerdict(userLower, faqs[j]) == Miss {
      var k0 :| 0 <= k0 < |faqs| && QuestionWords(faqs[k0]) == [] &&
                forall j :: 0 <= j < k0 ==> FaqVerdict(userLower, faqs[j]) == Miss;
      assert FaqVerdict(userLower, faqs[k0]) == Crash;
      assert !(k < k0) && !(k0 < k);
    }
  }

  /** Counts the question words that occur in the message, as the inner loop of `_match_faq`. */
  method CountMatches(questionWords: seq<string>, userLower: string) returns (matches: nat)
    ensures matches == MatchCount(questionWords, userLower)
  {
    matches := 0;
    for i := 0 to |questionWords|
      invariant matches == MatchCount(questionWords[..i], userLower)
    {
      var word := questionWords[i];
      assert questionWords[..i + 1][..i] == questionWords[..i];
      if |word| > 3 && Contains(userLower, word) {
        matches := matches + 1;
      }
    }
    assert questionWords[..|questionWords|] == questionWords;
  }

  /** `_match_faq`: the first FAQ, in list order, whose question matches the message. */
  method MatchFaq(userMessage: string, faqs: seq<Faq>) returns (r: MatchResult)
    ensures r == FirstMatch(Lower(userMessage), faqs)
  {
    var userLower := Lower(userMessage);
    for i := 0 to |faqs|
      invariant FirstMatch(userLower, faqs) == FirstMatch(userLower, faqs[i..])
    {
      var f := faqs[i];
      assert faqs[i..][1..] == faqs[i + 1..];
      var questionWords := Words(Lower(f.question));
      var matches := CountMatches(questionWords, userLower);
      if matches >= 2 {
        return Matched(f.id);
      }
      if |questionWords| == 0 {
        // matches / len(question_words) raises ZeroDivisionError
        return ZeroDivision;
      }
      if 10 * matches > 3 * |questionWords| {
        return Matched(f.id);
      }
    }
    return NoMatch;
  }

  /** The words of the password question, lower-cased. */
  lemma PasswordQuestionLower(q: string)
    requires q == "How do I reset my password"
    ensures Lower(q) == "how do i reset my password"
  {
  }

  lemma PasswordWordsJoined(ws: seq<string>)
    requires ws == ["how", "do", "i", "reset", "my", "password"]
    ensures JoinWords(ws) == "how do i reset my password"
  {
    assert JoinWords(["how", "do", "i", "reset", "my", "password"]) == "how do i reset my password";
  }

  lemma PasswordWordsAreWords(ws: seq<string>)
    requires ws == ["how", "do", "i", "reset", "my", "password"]
    ensures forall k :: 0 <= k < |ws| ==> ws[k] != [] && NoSpace(ws[k])
  {
    forall k | 0 <= k < |ws| ensures ws[k] != [] && NoSpace(ws[k]) {
      assert forall i :: 0 <= i < |ws[k]| ==> 'a' <= ws[k][i] <= 'z';
    }
  }

  lemma PasswordQuestionWords(f: Faq, ws: seq<string>)
    requires f.question == "How do I reset my password"
    requires ws == ["how", "do", "i", "reset", "my", "password"]
    ensures QuestionWords(f) == ws
  {
    PasswordQuestionLower(f.question);
    PasswordWordsJoined(ws);
    PasswordWordsAreWords(ws);
    WordsOfJoin(ws);
  }

  /** Two of those words, `reset` and `password`, occur in the message. */
  lemma PasswordWordsCount()
    ensures MatchCount(["how", "do", "i", "reset", "my", "password"], "how do i reset my password?") == 2
  {
    var u := "how do i reset my password?";
    PasswordLongWordsOccur(u);
    assert MatchCount(["how", "do", "i"], u) == 0;
    MatchCountSnoc(["how", "do", "i"], "reset", u);
    assert ["how", "do", "i"] + ["reset"] == ["how", "do", "i", "reset"];
    MatchCountSnoc(["how", "do", "i", "reset"], "my", u);
    assert ["how", "do", "i", "reset"] + ["my"] == ["how", "do", "i", "reset", "my"];
    MatchCountSnoc(["how", "do", "i", "reset", "my"], "password", u);
    assert ["how", "do", "i", "reset", "my"] + ["password"] == ["how", "do", "i", "reset", "my", "password"];
  }

  /** `reset` and `password` both count against the message. */
  lemma PasswordLongWordsOccur(u: string)
    requires u == "how do i reset my password?"
    ensures WordCounts("reset", u) && WordCounts("password", u)
  {
    ContainsAt(u, "reset", 9);
    assert u[18..26] == "password";
    ContainsAt(u, "password", 18);
  }

  /** One more word adds one to the count exactly when it counts. */
  lemma MatchCountSnoc(words: seq<string>, w: string, userLower: string)
    ensures MatchCount(words + [w], userLower) == MatchCount(words, userLower) + (if WordCounts(w, userLower) then 1 else 0)
  {
    assert (words + [w])[..|words|] == words;
  }

  /** "How do I reset my password?" matches the FAQ "How do I reset my password": `reset` and `password` occur. */
  lemma PasswordQuestionMatches(f: Faq, rest: seq<Faq>)
    requires f.question == "How do I reset my password"
    ensures FirstMatch(Lower("How do I reset my password?"), [f] + rest) == Matched(f.id)
  {
    assert Lower("How do I reset my password?") == "how do i reset my password?";
    PasswordQuestionWords(f, ["how", "do", "i", "reset", "my", "password"]);
    PasswordWordsCount();
    assert ([f] + rest)[0] == f;
  }

  /** A question of blanks only (or none at all) raises once the scan reaches it. */
  lemma BlankQuestionRaises(userLower: string, f: Faq, rest: seq<Faq>)
    requires forall i :: 0 <= i < |f.question| ==> IsSpace(f.question[i])
    ensures FirstMatch(userLower, [f] + rest) == ZeroDivision
  {
    var l := Lower(f.question);
    assert forall i :: 0 <= i < |l| ==> IsSpace(l[i]);
    WordsOfBlank(l);
    assert ([f] + rest)[0] == f;
  }

  // =====================================================================
  // Prompt assembly
  // =====================================================================

  /** Everything of the system prompt before the FAQ knowledge. */
  const PromptIntro: string :=
    "You are a helpful customer support assistant. Your goal is to provide accurate, friendly, and efficient support to customers.\n"
    + "\n"
    + "Guidelines:\n"
    + "1. Always be polite and professional\n"
    + "2. Try to resolve customer issues using the provided FAQ knowledge\n"
    + "3. If you cannot answer a question confidently, suggest escalation to a human agent\n"
    + "4. Keep responses concise but complete\n"
    + "5. Ask clarifying questions when needed\n"
    + "6. Show empathy for customer concerns\n"
    + "\n"

  /** The instruction to end every answer with a machine-readable marker. */
  const MarkerInstruction: string :=
    "Always end your response with [ESCALATE] if escalation is needed, otherwise end with [CONTINUE].\n"

  /** The escalation policy, up to the marker instruction. */
  const PolicyList: string :=
    "\n"
    + "\n"
    + "If you encounter any of these situations, indicate that the conversation should be escalated:\n"
    + "- Customer is angry or frustrated beyond what you can handle\n"
    + "- Technical issues that require specialized knowledge\n"
    + "- Billing disputes or refund requests\n"
    + "- Account security concerns\n"
    + "- Complex troubleshooting that hasn't been resolved after 3 attempts\n"
    + "- Customer specifically requests to speak with a human\n"
    + "\n"

  /** The heading of the knowledge block; its `\n` are two characters each, as in the source. */
  const FaqHeading: string := "\\n\\nFrequently Asked Questions:\\n"

  function FaqBlock(f: Faq): string
  {
    "Q: " + f.question + "\\nA: " + f.answer + "\\n\\n"
  }

  /** The blocks of `faqs`, one after another. */
  function FaqBlocks(faqs: seq<Faq>): string
  {
    if faqs == [] then "" else FaqBlocks(faqs[..|faqs| - 1]) + FaqBlock(faqs[|faqs| - 1])
  }

  /** The blocks of two lists are the blocks of the first followed by those of the second. */
  lemma {:induction false} FaqBlocksAppend(a: seq<Faq>, b: seq<Faq>)
    ensures FaqBlocks(a + b) == FaqBlocks(a) + FaqBlocks(b)
    decreases |b|
  {
    if b == [] {
      assert a + b == a;
    } else {
      var b' := b[..|b| - 1];
      var last := b[|b| - 1];
      assert (a + b)[..|a + b| - 1] == a + b';
      assert (a + b)[|a + b| - 1] == last;
      calc {
        FaqBlocks(a + b);
        FaqBlocks(a + b') + FaqBlock(last);
        { FaqBlocksAppend(a, b'); }
        FaqBlocks(a) + FaqBlocks(b') + FaqBlock(last);
        FaqBlocks(a) + (FaqBlocks(b') + FaqBlock(last));
        FaqBlocks(a) + FaqBlocks(b);
      }
    }
  }

  /** So the knowledge block holds one `Q:`/`A:` block per FAQ, in list order. */
  lemma {:induction false} FaqBlocksInOrder(faqs: seq<Faq>)
    ensures faqs != [] ==> FaqBlocks(faqs) == FaqBlock(faqs[0]) + FaqBlocks(faqs[1..])
  {
    if faqs != [] {
      assert faqs == [faqs[0]] + faqs[1..];
      FaqBlocksAppend([faqs[0]], faqs[1..]);
      assert [faqs[0]][..0] == [];
    }
  }

  function FaqKnowledge(faqs: seq<Faq>): string
  {
    if faqs == [] then "" else FaqHeading + FaqBlocks(faqs)
  }

  /**
   * The system prompt for the given FAQs: it always ends with the
   * `[ESCALATE]`/`[CONTINUE]` instruction, FAQs or not.
   */
  function SystemPrompt(faqs: seq<Faq>): (p: string)
    ensures |MarkerInstruction| <= |p| && p[|p| - |MarkerInstruction|..] == MarkerInstruction
  {
    var front := PromptIntro + FaqKnowledge(faqs) + PolicyList;
    SuffixOfConcat(front, MarkerInstruction);
    front + MarkerInstruction
  }

  /** With no FAQs the knowledge block is empty and the intro runs straight into the policy. */
  lemma SystemPromptWithoutFaqs(faqs: seq<Faq>)
    requires faqs == []
    ensures SystemPrompt(faqs) == PromptIntro + PolicyList + MarkerInstruction
  {
    assert FaqKnowledge(faqs) == "";
    assert PromptIntro + FaqKnowledge(faqs) == PromptIntro;
  }

  /** `_build_system_prompt`, accumulating the knowledge block with `+=`. */
  method BuildSystemPrompt(faqs: seq<Faq>) returns (prompt: string)
    ensures prompt == SystemPrompt(faqs)
  {
    var knowledge := "";
    if |faqs| > 0 {
      knowledge := FaqHeading;
      for i := 0 to |faqs|
        invariant knowledge == FaqHeading + FaqBlocks(faqs[..i])
      {
        assert faqs[..i + 1][..i] == faqs[..i];
        knowledge := knowledge + FaqBlock(faqs[i]);
      }
      assert faqs[..|faqs|] == faqs;
    }
    prompt := PromptIntro + knowledge + PolicyList + MarkerInstruction;
  }

  /** How many past exchanges the prompt shows. */
  const PromptHistoryLimit: nat := 10

  const HistoryHeading: string := "\n\nConversation History:\n"

  function HistoryLine(h: HistoryEntry): string
  {
    "User: " + h.userMessage + "\nBot: " + h.botResponse + "\n"
  }

  function HistoryLines(hs: seq<HistoryEntry>): string
  {
    if hs == [] then "" else HistoryLines(hs[..|hs| - 1]) + HistoryLine(hs[|hs| - 1])
  }

  /** The lines of two histories are the lines of the first followed by those of the second. */
  lemma {:induction false} HistoryLinesAppend(a: seq<HistoryEntry>, b: seq<HistoryEntry>)
    ensures HistoryLines(a + b) == HistoryLines(a) + HistoryLines(b)
    decreases |b|
  {
    if b == [] {
      assert a + b == a;
    } else {
      var b' := b[..|b| - 1];
      var last := b[|b| - 1];
      assert (a + b)[..|a + b| - 1] == a + b';
      assert (a + b)[|a + b| - 1] == last;
      assert HistoryLines(a + b) == HistoryLines(a + b') + HistoryLine(last);
      assert HistoryLines(b) == HistoryLines(b') + HistoryLine(last);
      HistoryLinesAppend(a, b');
    }
  }

  /** The tail of the prompt that carries the new message. */
  function MessageTail(userMessage: string): string
  {
    "\nUser: " + userMessage + "\nBot:"
  }

  /** The whole prompt sent to the model (`full_prompt`). */
  function FullPrompt(systemPrompt: string, history: seq<HistoryEntry>, userMessage: string): string
  {
    systemPrompt + HistoryHeading + HistoryLines(LastN(history, PromptHistoryLimit)) + MessageTail(userMessage)
  }

  /**
   * The prompt's frame: the system prompt and the history heading first, the
   * new message last, whatever history lies between.
   */
  lemma FullPromptFrame(systemPrompt: string, history: seq<HistoryEntry>, userMessage: string)
    ensures var p := FullPrompt(systemPrompt, history, userMessage);
            && |systemPrompt + HistoryHeading| + |MessageTail(userMessage)| <= |p|
            && p[..|systemPrompt + HistoryHeading|] == systemPrompt + HistoryHeading
            && p[|p| - |MessageTail(userMessage)|..] == MessageTail(userMessage)
  {
    var head := systemPrompt + HistoryHeading;
    var lines := HistoryLines(LastN(history, PromptHistoryLimit));
    PrefixOfConcat(head, lines + MessageTail(userMessage));
    assert head + lines + MessageTail(userMessage) == head + (lines + MessageTail(userMessage));
    SuffixOfConcat(head + lines, MessageTail(userMessage));
  }

  /**
   * Only the last ten exchanges reach the prompt: turns older than those
   * change nothing.
   */
  lemma FullPromptIgnoresOlderTurns(systemPrompt: string, older: seq<HistoryEntry>,
                                    recent: seq<HistoryEntry>, userMessage: string)
    requires |recent| >= PromptHistoryLimit
    ensures FullPrompt(systemPrompt, older + recent, userMessage) == FullPrompt(systemPrompt, recent, userMessage)
  {
    var a := LastN(older + recent, PromptHistoryLimit);
    var b := LastN(recent, PromptHistoryLimit);
    assert |a| == |b|;
    forall i | 0 <= i < |a| ensures a[i] == b[i] {
      assert (older + recent)[|older + recent| - |a| + i] == recent[|recent| - |b| + i];
    }
    assert a == b;
  }

  /** The history part of `generate_response`'s prompt, built with `+=`. */
  method BuildFullPrompt(systemPrompt: string, history: seq<HistoryEntry>, userMessage: string) returns (prompt: string)
    ensures prompt == FullPrompt(systemPrompt, history, userMessage)
  {
    prompt := systemPrompt + HistoryHeading;
    var recent := LastN(history, PromptHistoryLimit);
    for i := 0 to |recent|
      invariant prompt == systemPrompt + HistoryHeading + HistoryLines(recent[..i])
    {
      assert recent[..i + 1][..i] == recent[..i];
      prompt := prompt + HistoryLine(recent[i]);
    }
    assert recent[..|recent|] == recent;
    prompt := prompt + MessageTail(userMessage);
  }

  // =====================================================================
  // generate_response and its fail-safe
  // =====================================================================

  /** `(response_text, should_escalate, matched_faq_id)`. */
  datatype Reply = Reply(text: string, escalate: bool, matchedFaq: Option<string>)

  const FallbackText: string :=
    "I apologize, but I'm having technical difficulties. Please try again later or speak with a human agent."

  /** What any failure inside the `try` turns into. */
  const Fallback: Reply := Reply(FallbackText, true, None)

  /**
   * What `generate_response` returns for a given model. A keyword in the
   * message always escalates; a failed model call gives the fallback; a reply
   * that does not escalate is the model's own text, which the classifier
   * passed; a returned FAQ id is that of a listed FAQ that hit.
   */
  function ReplyFor(generate: string -> Option<string>, userMessage: string,
                    history: seq<HistoryEntry>, faqs: seq<Faq>): (r: Reply)
    ensures MessageAsksForHuman(userMessage) ==> r.escalate
    ensures generate(FullPrompt(SystemPrompt(faqs), history, userMessage)).None? ==> r == Fallback
    ensures !r.escalate ==>
              var out := generate(FullPrompt(SystemPrompt(faqs), history, userMessage));
              out.Some? && r.text == out.value && !ShouldEscalate(userMessage, out.value)
    ensures r.matchedFaq.Some? ==>
              exists k :: 0 <= k < |faqs| && faqs[k].id == r.matchedFaq.value &&
                          FaqVerdict(Lower(userMessage), faqs[k]) == Hit
  {
    match generate(FullPrompt(SystemPrompt(faqs), history, userMessage))
    case None => Fallback
    case Some(text) =>
      match FirstMatch(Lower(userMessage), faqs)
      case ZeroDivision => Fallback
      case Matched(id) => Reply(text, ShouldEscalate(userMessage, text), Some(id))
      case NoMatch => Reply(text, ShouldEscalate(userMessage, text), None)
  }

  /** `generate_response`: build the prompt, ask the model, classify and match. */
  method GenerateResponse(generate: string -> Option<string>, userMessage: string,
                          history: seq<HistoryEntry>, faqs: seq<Faq>) returns (reply: Reply)
    ensures reply == ReplyFor(generate, userMessage, history, faqs)
  {
    var systemPrompt := BuildSystemPrompt(faqs);
    var prompt := BuildFullPrompt(systemPrompt, history, userMessage);
    var generated := generate(prompt);
    if generated.None? {
      return Fallback;
    }
    var botResponse := generated.value;
    var shouldEscalate := ShouldEscalate(userMessage, botResponse);
    var matched := MatchFaq(userMessage, faqs);
    if matched.ZeroDivision? {
      return Fallback;
    }
    var matchedFaqId := if matched.Matched? then Some(matched.faqId) else None;
    return Reply(botResponse, shouldEscalate, matchedFaqId);
  }

  /**
   * The two outcomes of `generate_response`: either the fixed apology,
   * escalated and unmatched, after a model failure or a raising matcher; or
   * the model's own text with the classifier's verdict and the matcher's id.
   */
  lemma ReplyOutcomes(generate: string -> Option<string>, userMessage: string,
                      history: seq<HistoryEntry>, faqs: seq<Faq>)
    ensures var r := ReplyFor(generate, userMessage, history, faqs);
            var out := generate(FullPrompt(SystemPrompt(faqs), history, userMessage));
            var m := FirstMatch(Lower(userMessage), faqs);
            && (out.None? || m.ZeroDivision? ==> r == Fallback)
            && (out.Some? && !m.ZeroDivision? ==>
                  r.text == out.value && r.escalate == ShouldEscalate(userMessage, out.value) &&
                  r.matchedFaq == (if m.Matched? then Some(m.faqId) else None))
  {
  }

  /** A reply that carries a FAQ id names a FAQ of the list, one that hit with only misses before it. */
  lemma ReplyFaqIsFirstHit(generate: string -> Option<string>, userMessage: string,
                           history: seq<HistoryEntry>, faqs: seq<Faq>)
    requires ReplyFor(generate, userMessage, history, faqs).matchedFaq.Some?
    ensures exists k :: 0 <= k < |faqs| && faqs[k].id == ReplyFor(generate, userMessage, history, faqs).matchedFaq.value
                        && FaqVerdict(Lower(userMessage), faqs[k]) == Hit
                        && forall j :: 0 <= j < k ==> FaqVerdict(Lower(userMessage), faqs[j]) == Miss
  {
    var k := FirstMatchIsFirstHit(Lower(userMessage), faqs);
  }

  /** A FAQ without words ahead of every hit forces the fallback even when the model answers. */
  lemma BlankQuestionForcesFallback(generate: string -> Option<string>, userMessage: string,
                                    history: seq<HistoryEntry>, f: Faq, rest: seq<Faq>)
    requires forall i :: 0 <= i < |f.question| ==> IsSpace(f.question[i])
    ensures ReplyFor(generate, userMessage, history, [f] + rest) == Fallback
  {
    BlankQuestionRaises(Lower(userMessage), f, rest);
  }

  // =====================================================================
  // summarize_conversation
  // =====================================================================

  const SummaryInstructions: string :=
    "Summarize this customer support conversation. Include:\n"
    + "1. Main customer issue or question\n"
    + "2. Key points discussed\n"
    + "3. Resolution status\n"
    + "4. Any unresolved concerns\n"
    + "\n"
    + "Keep the summary concise but comprehensive."

  const NoHistorySummary: string := "No conversation history available."

  /** One exchange in the summary prompt; its `\n` is two characters, as in the source. */
  function SummaryLine(h: HistoryEntry): string
  {
    "User: " + h.userMessage + "\\nBot: " + h.botResponse
  }

  /** `"\\n".join(...)` of the summary lines. */
  function SummaryLines(hs: seq<HistoryEntry>): string
  {
    if hs == [] then ""
    else if |hs| == 1 then SummaryLine(hs[0])
    else SummaryLines(hs[..|hs| - 1]) + "\\n" + SummaryLine(hs[|hs| - 1])
  }

  function SummaryPrompt(hs: seq<HistoryEntry>): string
  {
    SummaryInstructions + "\n\nConversation to summarize:\n" + SummaryLines(hs)
  }

  const SummaryFailedPrefix: string := "Summary generation failed. Conversation had "
  const SummaryFailedSuffix: string := " exchanges."

  /**
   * `summarize_conversation`: the fixed sentence for no exchanges, the model's
   * answer when there is one, and otherwise the failure sentence.
   */
  function SummarizeConversation(generate: string -> Option<string>, hs: seq<HistoryEntry>): (s: string)
    ensures hs == [] ==> s == NoHistorySummary
    ensures hs != [] && generate(SummaryPrompt(hs)).Some? ==> s == generate(SummaryPrompt(hs)).value
    ensures hs != [] && generate(SummaryPrompt(hs)).None? ==> StartsWith(s, SummaryFailedPrefix)
  {
    if hs == [] then NoHistorySummary
    else
      match generate(SummaryPrompt(hs))
      case Some(text) => text
      case None => SummaryFailedPrefix + NatToString(|hs|) + SummaryFailedSuffix
  }

  /**
   * When the model fails on a non-empty conversation, the summary is the
   * failure sentence, and the number in it is the number of exchanges.
   */
  lemma SummaryFailureReportsCount(generate: string -> Option<string>, hs: seq<HistoryEntry>)
    requires hs != [] && generate(SummaryPrompt(hs)).None?
    ensures var s := SummarizeConversation(generate, hs);
            var digits := s[|SummaryFailedPrefix|..|s| - |SummaryFailedSuffix|];
            && |SummaryFailedPrefix| + |SummaryFailedSuffix| < |s|
            && s[..|SummaryFailedPrefix|] == SummaryFailedPrefix
            && s[|s| - |SummaryFailedSuffix|..] == SummaryFailedSuffix
            && (forall i :: 0 <= i < |digits| ==> IsDigit(digits[i]))
            && ParseDecimal(digits) == |hs|
  {
    var s := SummarizeConversation(generate, hs);
    var n := NatToString(|hs|);
    assert s == SummaryFailedPrefix + n + SummaryFailedSuffix;
    assert s[|SummaryFailedPrefix|..|s| - |SummaryFailedSuffix|] == n;
    NatToStringRoundTrip(|hs|);
  }
}
