/** `Negotiator` (services/Negotiator.ts): one chat request per clause
    category, payment, delivery and penalty in that order, each turned into a
    `ClauseSuggestion`; any failure of the chat service becomes a fixed
    degraded suggestion. The chat service is a parameter: a function from the
    request sent to the reply received. */
module Negotiator {
  import opened Types
  import opened Strings

  /** One chat message. */
  datatype Message = Message(role: string, content: string)

  /** `openai.chat.completions.create`'s argument: the model, the messages and
      whether a JSON object is demanded as the response format. */
  datatype ChatRequest = ChatRequest(model: string, messages: seq<Message>, jsonObject: bool)

  /** What the call comes back with, as `generateClauseWithLLM` sees it: the
      call throws, the first choice has no (or empty) content, the content is
      not JSON, or it parses to a suggestions list and a scores list. */
  datatype Reply =
    | CallFailed
    | NoContent
    | Unparseable
    | Parsed(suggestions: seq<string>, scores: seq<int>)

  const ChatModel: string := "gpt-4-turbo"
  const SystemPrompt: string := "You are a contract negotiation expert specializing in legal language optimization."
  const FallbackSuggestion: string := "Error generating suggestions. Please try again."
  const FallbackScore: int := 5

  // The three prompts share their layout; each category fills in its topic,
  // its heading, its aim, its objective and the objective's unit.

  const Intro: string := "\n      Analyze the following contract text and extract the "
  const Provide: string := " clause.\n      Then provide 3 alternative formulations for the "
  const Instructions: string :=
    ".\n      For each alternative, assign a "
    + "risk score from 1-10 (1 being most "
    + "favorable to client, 10 being most "
    + "favorable to provider).\n      Return "
    + "ONLY a JSON object with format: "
    + "{\"suggestions\": [string, string, "
    + "string], \"scores\": [number, number, "
    + "number]}\n    "

  /** The objective a category's prompt is about. */
  function Objective(f: ClauseField, objectives: Objectives): int
  {
    match f
    case Payment => objectives.paymentDays
    case Delivery => objectives.deliveryDays
    case Penalty => objectives.penaltyRate
  }

  /** The common layout, with a category's topic, heading, aim, objective and
      the objective's unit filled in. */
  function PromptOf(topic: string, heading: string, aim: string, objective: int, unit: string): string
  {
    Intro + topic + Provide + heading + " clause, " + aim + IntToString(objective) + unit + Instructions
  }

  /** `generatePaymentClause`'s prompt. */
  function PaymentPrompt(objectives: Objectives): string
  {
    PromptOf("payment terms", "PAYMENT TERMS", "optimizing for payment within ", objectives.paymentDays, " days")
  }

  /** `generateDeliveryClause`'s prompt. */
  function DeliveryPrompt(objectives: Objectives): string
  {
    PromptOf("delivery timeframe", "DELIVERY TIME", "optimizing for delivery within ", objectives.deliveryDays, " days")
  }

  /** `generatePenaltyClause`'s prompt. */
  function PenaltyPrompt(objectives: Objectives): string
  {
    PromptOf("penalties", "PENALTIES", "implementing a ", objectives.penaltyRate, "% penalty rate for late delivery or services")
  }

  function Prompt(f: ClauseField, objectives: Objectives): string
  {
    match f
    case Payment => PaymentPrompt(objectives)
    case Delivery => DeliveryPrompt(objectives)
    case Penalty => PenaltyPrompt(objectives)
  }

  /** The user message: the prompt, a blank line, and the contract text. */
  function UserMessage(prompt: string, contractText: string): string
  {
    prompt + "\n\nContract text: " + contractText
  }

  /** The request `generateClauseWithLLM` sends. */
  function BuildRequest(contractText: string, prompt: string): ChatRequest
  {
    ChatRequest(ChatModel, [Message("system", SystemPrompt), Message("user", UserMessage(prompt, contractText))], true)
  }

  /** The degraded suggestion returned when anything goes wrong. */
  function Fallback(field: ClauseField): (r: ClauseSuggestion)
    ensures r.field == field
    ensures |r.suggestions| == |r.scores| == 1
    ensures r.suggestions[0] == "Error generating suggestions. Please try again." && r.scores[0] == 5
  {
    ClauseSuggestion(field, [FallbackSuggestion], [FallbackScore])
  }

  /** `generateClauseWithLLM`: a parsed reply is copied into the suggestion
      as it is, without checking its shape; every other reply gives the
      fallback. No error leaves the function. The result is the fallback
      exactly when the reply failed (or parsed to the fallback's own content),
      and its suggestions and scores have one common, non-zero length exactly
      when the reply failed or already had such lists. */
  function GenerateClauseWithLLM(field: ClauseField, contractText: string, prompt: string,
                                 service: ChatRequest -> Reply): (r: ClauseSuggestion)
    ensures r.field == field
    ensures var reply := service(BuildRequest(contractText, prompt));
      reply.Parsed? ==> r.suggestions == reply.suggestions && r.scores == reply.scores
    ensures var reply := service(BuildRequest(contractText, prompt));
      r == Fallback(field) <==> !reply.Parsed? || reply == Parsed([FallbackSuggestion], [FallbackScore])
    ensures var reply := service(BuildRequest(contractText, prompt));
      (|r.suggestions| == |r.scores| >= 1) <==> (!reply.Parsed? || |reply.suggestions| == |reply.scores| >= 1)
  {
    match service(BuildRequest(contractText, prompt))
    case Parsed(suggestions, scores) => ClauseSuggestion(field, suggestions, scores)
    case _ => Fallback(field)
  }

  /** `generatePaymentClause`, `generateDeliveryClause` and
      `generatePenaltyClause`: the category's prompt sent through
      `generateClauseWithLLM`. */
  function Suggestion(f: ClauseField, contractText: string, objectives: Objectives,
                      service: ChatRequest -> Reply): (r: ClauseSuggestion)
    ensures r.field == f
  {
    GenerateClauseWithLLM(f, contractText, Prompt(f, objectives), service)
  }

  /** The request sent for one category. */
  function RequestFor(f: ClauseField, contractText: string, objectives: Objectives): ChatRequest
  {
    BuildRequest(contractText, Prompt(f, objectives))
  }

  /** What `generateSuggestions` resolves to: one entry per category, in the
      order payment, delivery, penalty, each tagged with its own category.
      The specification of the method `GenerateSuggestions`. */
  function Suggestions(contractText: string, objectives: Objectives, service: ChatRequest -> Reply)
    : (r: seq<ClauseSuggestion>)
    ensures |r| == 3
    ensures r[0].field == Payment && r[1].field == Delivery && r[2].field == Penalty
  {
    [Suggestion(Payment, contractText, objectives, service),
     Suggestion(Delivery, contractText, objectives, service),
     Suggestion(Penalty, contractText, objectives, service)]
  }

  /** `generateSuggestions`: the three categories, one after the other, each
      through its own `generate...Clause`. */
  method GenerateSuggestions(contractText: string, objectives: Objectives, service: ChatRequest -> Reply)
    returns (results: seq<ClauseSuggestion>)
    ensures |results| == 3
    ensures results[0].field == Payment && results[1].field == Delivery && results[2].field == Penalty
    ensures results == Suggestions(contractText, objectives, service)
  {
    results := [];
    var payment := Suggestion(Payment, contractText, objectives, service);
    results := results + [payment];
    var delivery := Suggestion(Delivery, contractText, objectives, service);
    results := results + [delivery];
    var penalty := Suggestion(Penalty, contractText, objectives, service);
    results := results + [penalty];
  }

  // ---------------------------------------------------------------------------
  // Properties

  /** The user message starts with the prompt and ends with the contract text,
      and the request carries the fixed model, system message and format. */
  lemma RequestShape(contractText: string, prompt: string)
    ensures var q := BuildRequest(contractText, prompt);
      && q.model == "gpt-4-turbo" && q.jsonObject
      && |q.messages| == 2
      && q.messages[0] == Message("system", "You are a contract negotiation expert specializing in legal language optimization.")
      && q.messages[1].role == "user"
      && StartsWith(q.messages[1].content, prompt)
      && EndsWith(q.messages[1].content, contractText)
      && q.messages[1].content[|prompt|..|q.messages[1].content| - |contractText|] == "\n\nContract text: "
  {
    var u := UserMessage(prompt, contractText);
    assert u[..|prompt|] == prompt;
    assert u[|u| - |contractText|..] == contractText;
  }

  /** A nine-part concatenation, seen as its first six parts, the seventh,
      and the last two. */
  lemma Regroup(a1: string, a2: string, a3: string, a4: string, a5: string, a6: string,
                a7: string, a8: string, a9: string)
    ensures a1 + a2 + a3 + a4 + a5 + a6 + a7 + a8 + a9
         == (a1 + a2 + a3 + a4 + a5 + a6) + a7 + (a8 + a9)
  {
  }

  /** The second part of a nine-part concatenation starts right after the first. */
  lemma SecondPart(a1: string, a2: string, a3: string, a4: string, a5: string, a6: string,
                   a7: string, a8: string, a9: string, i: nat)
    requires i < |a2|
    ensures |a1 + a2 + a3 + a4 + a5 + a6 + a7 + a8 + a9| > |a1| + i
    ensures (a1 + a2 + a3 + a4 + a5 + a6 + a7 + a8 + a9)[|a1| + i] == a2[i]
  {
  }

  /** The objective sits between a fixed head and a fixed tail, so the prompt
      contains it and two prompts of one category agree only on equal
      objectives. */
  lemma PromptOfObjective(topic: string, heading: string, aim: string, unit: string, m: int, n: int)
    ensures Contains(PromptOf(topic, heading, aim, m, unit), IntToString(m))
    ensures PromptOf(topic, heading, aim, m, unit) == PromptOf(topic, heading, aim, n, unit) <==> m == n
  {
    var head := Intro + topic + Provide + heading + " clause, " + aim;
    var tail := unit + Instructions;
    var x, y := IntToString(m), IntToString(n);
    Regroup(Intro, topic, Provide, heading, " clause, ", aim, x, unit, Instructions);
    Regroup(Intro, topic, Provide, heading, " clause, ", aim, y, unit, Instructions);
    ContainsMiddle(head, x, tail);
    if head + x + tail == head + y + tail {
      assert |x| == |y|;
      assert (head + x + tail)[|head|..|head| + |x|] == x;
      assert (head + y + tail)[|head|..|head| + |y|] == y;
      IntToStringInjective(m, n);
    }
  }

  /** A category's prompt embeds its own objective, and determines it. */
  lemma PromptDeterminesObjective(f: ClauseField, o1: Objectives, o2: Objectives)
    ensures Contains(Prompt(f, o1), IntToString(Objective(f, o1)))
    ensures Prompt(f, o1) == Prompt(f, o2) <==> Objective(f, o1) == Objective(f, o2)
  {
    match f
    case Payment =>
      PromptOfObjective("payment terms", "PAYMENT TERMS", "optimizing for payment within ", " days", o1.paymentDays, o2.paymentDays);
    case Delivery =>
      PromptOfObjective("delivery timeframe", "DELIVERY TIME", "optimizing for delivery within ", " days", o1.deliveryDays, o2.deliveryDays);
    case Penalty =>
      PromptOfObjective("penalties", "PENALTIES", "implementing a ", "% penalty rate for late delivery or services",
        o1.penaltyRate, o2.penaltyRate);
  }

  /** The topic follows the fixed opening. */
  lemma PromptOfTopic(topic: string, heading: string, aim: string, objective: int, unit: string)
    requires |topic| >= 2
    ensures |PromptOf(topic, heading, aim, objective, unit)| > |Intro| + 1
    ensures PromptOf(topic, heading, aim, objective, unit)[|Intro|] == topic[0]
    ensures PromptOf(topic, heading, aim, objective, unit)[|Intro| + 1] == topic[1]
  {
    SecondPart(Intro, topic, Provide, heading, " clause, ", aim, IntToString(objective), unit, Instructions, 0);
    SecondPart(Intro, topic, Provide, heading, " clause, ", aim, IntToString(objective), unit, Instructions, 1);
  }

  lemma PaymentMarker(o: Objectives)
    ensures |PaymentPrompt(o)| > |Intro| + 1
    ensures PaymentPrompt(o)[|Intro|] == 'p' && PaymentPrompt(o)[|Intro| + 1] == 'a'
  {
    PromptOfTopic("payment terms", "PAYMENT TERMS", "optimizing for payment within ", o.paymentDays, " days");
  }

  lemma DeliveryMarker(o: Objectives)
    ensures |DeliveryPrompt(o)| > |Intro| + 1
    ensures DeliveryPrompt(o)[|Intro|] == 'd' && DeliveryPrompt(o)[|Intro| + 1] == 'e'
  {
    PromptOfTopic("delivery timeframe", "DELIVERY TIME", "optimizing for delivery within ", o.deliveryDays, " days");
  }

  lemma PenaltyMarker(o: Objectives)
    ensures |PenaltyPrompt(o)| > |Intro| + 1
    ensures PenaltyPrompt(o)[|Intro|] == 'p' && PenaltyPrompt(o)[|Intro| + 1] == 'e'
  {
    PromptOfTopic("penalties", "PENALTIES", "implementing a ", o.penaltyRate, "% penalty rate for late delivery or services");
  }

  /** The topic's first two letters tell the categories' prompts apart. */
  lemma PromptMarker(f: ClauseField, o: Objectives)
    ensures |Prompt(f, o)| > |Intro| + 1
    ensures Prompt(f, o)[|Intro|] == (match f case Payment => 'p' case Delivery => 'd' case Penalty => 'p')
    ensures Prompt(f, o)[|Intro| + 1] == (match f case Payment => 'a' case Delivery => 'e' case Penalty => 'e')
  {
    match f
    case Payment => PaymentMarker(o);
    case Delivery => DeliveryMarker(o);
    case Penalty => PenaltyMarker(o);
  }

  /** A request determines the prompt it was built from. */
  lemma BuildRequestInjective(contractText: string, p: string, q: string)
    ensures BuildRequest(contractText, p) == BuildRequest(contractText, q) <==> p == q
  {
    if BuildRequest(contractText, p) == BuildRequest(contractText, q) {
      var u := UserMessage(p, contractText);
      assert u == UserMessage(q, contractText);
      assert u[..|p|] == p;
      assert UserMessage(q, contractText)[..|q|] == q;
    }
  }

  /** The three categories' prompts differ. */
  lemma PromptsDistinct(f: ClauseField, g: ClauseField, objectives: Objectives)
    requires f != g
    ensures Prompt(f, objectives) != Prompt(g, objectives)
  {
    PromptMarker(f, objectives);
    PromptMarker(g, objectives);
  }

  /** The three categories send three different requests. */
  lemma RequestsDistinct(f: ClauseField, g: ClauseField, contractText: string, objectives: Objectives)
    requires f != g
    ensures RequestFor(f, contractText, objectives) != RequestFor(g, contractText, objectives)
  {
    PromptsDistinct(f, g, objectives);
    BuildRequestInjective(contractText, Prompt(f, objectives), Prompt(g, objectives));
  }

  /** Each category's suggestion depends only on the reply to its own request:
      changing the service's answer to one request changes only that
      category's entry. */
  lemma CategoriesIndependent(f: ClauseField, contractText: string, objectives: Objectives,
                              s1: ChatRequest -> Reply, s2: ChatRequest -> Reply)
    requires forall q :: q != RequestFor(f, contractText, objectives) ==> s1(q) == s2(q)
    ensures forall g :: g != f ==> Suggestion(g, contractText, objectives, s1) == Suggestion(g, contractText, objectives, s2)
  {
    forall g | g != f
      ensures Suggestion(g, contractText, objectives, s1) == Suggestion(g, contractText, objectives, s2)
    {
      RequestsDistinct(f, g, contractText, objectives);
    }
  }
}
