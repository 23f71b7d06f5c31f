/**
 * The text-generation gateway: the two prompt templates, the extraction of
 * the first completion choice, and the non-blank check on what comes back.
 * The provider itself is a parameter: a total function from the request the
 * gateway sends to the reply it gets (or the exception it raises).
 */
module Gateway {
  import opened Basics
  import opened Text

  /** The two messages sent per call: a system message and the user prompt. */
  datatype ChatRequest = ChatRequest(system: string, user: string)

  /** The first-choice fields the gateway reads; `toolCalls` counts the tool calls attached. */
  datatype Choice = Choice(content: Option<string>, finishReason: Option<string>, toolCalls: nat)

  datatype ProviderReply = Raised(error: string) | Replied(choices: seq<Choice>)

  type Provider = ChatRequest -> ProviderReply

  const SystemMessage: string := "You are a helpful writing assistant."

  /** Python's message for indexing an empty list, raised by `res.choices[0]`. */
  const NoChoiceError: string := "list index out of range"

  /** `_require_non_empty`: fails with `msg` on missing or blank text, else gives the stripped text. */
  function RequireNonEmpty(text: Option<string>, msg: string): (r: Result<string>)
    ensures r.Err? <==> text.None? || AllWs(text.value)
    ensures r.Err? ==> r.error == msg
    ensures r.Ok? ==> r.value == Strip(text.value)
    ensures r.Ok? ==> r.value != [] && Tight(r.value) && Strip(r.value) == r.value
  {
    if text.None? || Strip(text.value) == [] then Err(msg)
    else
      StripIdempotent(text.value);
      Ok(Strip(text.value))
  }

  // ----- prompts -----

  /** The first line of both templates. */
  const Persona: string := "You are WritePilot," + " an AI writing assistant for English blogs."

  const GenerateIntro: string :=
    Persona + "\n\nWrite an English blog article.\n\nRequirements:\n"
  const GenerateOutro: string :=
    "- Use Markdown\n- Add headings (##) and bullet points where helpful\n- End with a short conclusion\n\nOutput only the article in Markdown."

  const RewriteIntro: string :=
    Persona + "\n\nRewrite the following article in English.\n\nRequirements:\n- Keep the meaning\n- Improve clarity and flow\n"
  const RewriteOutro: string :=
    "- Keep headings (##) if present\n- Output only the rewritten article in Markdown\n\nARTICLE:"

  function TitleLine(title: string): string { "- Title: " + title + "\n" }
  function AudienceLine(audience: string): string { "- Audience: " + audience + "\n" }
  function ToneLine(tone: string): string { "- Tone: " + tone + "\n" }

  /** A triple-quoted template: a newline after the opening quotes and one before the closing ones. */
  function Template(body: string): string { "\n" + body + "\n" }

  function GenerateBody(title: string, audience: string, tone: string): string {
    GenerateIntro + TitleLine(title) + AudienceLine(audience) + ToneLine(tone) + GenerateOutro
  }

  /** The rewrite template up to and including `ARTICLE:`. */
  function RewriteHead(targetTone: string): string {
    RewriteIntro + ToneLine(targetTone) + RewriteOutro
  }

  function RewriteBody(text: string, targetTone: string): string {
    RewriteHead(targetTone) + "\n" + text
  }

  /** `generate_article`'s prompt: the filled-in template, stripped. */
  function GeneratePrompt(title: string, audience: string, tone: string): string {
    Strip(Template(GenerateBody(title, audience, tone)))
  }

  /** `rewrite_article`'s prompt: the filled-in template, stripped. */
  function RewritePrompt(text: string, targetTone: string): string {
    Strip(Template(RewriteBody(text, targetTone)))
  }

  /** A string that starts and ends with a non-whitespace character is tight whatever lies between. */
  lemma TightBetween(x: string, mid: string, y: string)
    requires x != [] && y != [] && !IsWs(x[0]) && !IsWs(y[|y| - 1])
    ensures Tight(x + mid + y)
  {
    var s := x + mid + y;
    assert s == x + (mid + y);
    assert s[0] == x[0];
    assert s[|s| - 1] == y[|y| - 1];
  }

  lemma TemplateEnds()
    ensures GenerateIntro != [] && !IsWs(GenerateIntro[0])
    ensures RewriteIntro != [] && !IsWs(RewriteIntro[0])
    ensures GenerateOutro != [] && !IsWs(GenerateOutro[|GenerateOutro| - 1])
    ensures RewriteOutro != [] && !IsWs(RewriteOutro[|RewriteOutro| - 1])
  {
    assert Persona[0] == 'Y';
    assert GenerateIntro[0] == 'Y';
    assert RewriteIntro[0] == 'Y';
    assert GenerateOutro[|GenerateOutro| - 1] == '.';
    assert RewriteOutro[|RewriteOutro| - 1] == ':';
  }

  /**
   * Stripping the generate template only removes its outer newlines: the
   * prompt carries title, audience and tone verbatim on their own lines.
   */
  lemma GeneratePromptLines(title: string, audience: string, tone: string)
    ensures GeneratePrompt(title, audience, tone)
         == GenerateIntro + TitleLine(title) + AudienceLine(audience) + ToneLine(tone) + GenerateOutro
  {
    var mid := TitleLine(title) + AudienceLine(audience) + ToneLine(tone);
    var body := GenerateBody(title, audience, tone);
    assert body == GenerateIntro + mid + GenerateOutro;
    TemplateEnds();
    TightBetween(GenerateIntro, mid, GenerateOutro);
    assert AllWs("\n");
    StripFramed("\n", body, "\n");
  }

  /**
   * The rewrite prompt carries the target tone on its `- Tone:` line and,
   * after `ARTICLE:`, the source text; stripping the template trims only the
   * source text's trailing whitespace (and a blank source text entirely).
   */
  lemma RewritePromptLines(text: string, targetTone: string)
    ensures !AllWs(text) ==>
      RewritePrompt(text, targetTone) == RewriteHead(targetTone) + "\n" + TrimEnd(text)
    ensures AllWs(text) ==>
      RewritePrompt(text, targetTone) == RewriteHead(targetTone)
  {
    TemplateEnds();
    TightBetween(RewriteIntro, ToneLine(targetTone), RewriteOutro);
    StripHeadedText(RewriteHead(targetTone), text);
  }

  // ----- the diagnostic for an empty completion -----

  const EmptyHead: string := "Empty LLM content (finish_reason="
  const ToolCallsLabel: string := ", has_tool_calls="

  /** An f-string rendering of an optional string: `None` prints as "None". */
  function ReasonText(finishReason: Option<string>): string {
    if finishReason.Some? then finishReason.value else "None"
  }

  function BoolText(b: bool): string { if b then "True" else "False" }

  /** The failure message when the first choice carries no usable text. */
  function EmptyContentMessage(finishReason: Option<string>, hasToolCalls: bool): string {
    EmptyHead + ReasonText(finishReason) + ToolCallsLabel + BoolText(hasToolCalls) + ")"
  }

  /** Whether a diagnostic says tool calls were present (it ends in "True)"). */
  function ReportedToolCalls(msg: string): bool {
    |msg| >= 5 && msg[|msg| - 5..] == "True)"
  }

  /** The finish reason a diagnostic reports: what lies between its head and its tool-call tail. */
  function ReportedFinishReason(msg: string): string {
    var tail := |ToolCallsLabel + BoolText(ReportedToolCalls(msg)) + ")"|;
    if |EmptyHead| + tail <= |msg| then msg[|EmptyHead|..|msg| - tail] else ""
  }

  /**
   * The diagnostic reports both the finish reason and whether tool calls
   * were present: each can be read back from the message unambiguously.
   */
  lemma EmptyContentMessageReports(finishReason: Option<string>, hasToolCalls: bool)
    ensures ReportedToolCalls(EmptyContentMessage(finishReason, hasToolCalls)) == hasToolCalls
    ensures ReportedFinishReason(EmptyContentMessage(finishReason, hasToolCalls)) == ReasonText(finishReason)
  {
    var r := ReasonText(finishReason);
    var b := BoolText(hasToolCalls);
    var tail := ToolCallsLabel + b + ")";
    var msg := EmptyContentMessage(finishReason, hasToolCalls);
    assert msg == (EmptyHead + r) + tail;
    assert |tail| >= 5;
    assert msg[|msg| - 5..] == tail[|tail| - 5..];
    assert tail[|tail| - 5..] == (if hasToolCalls then "True)" else "alse)");
    assert msg[|EmptyHead|..|msg| - |tail|] == r;
  }

  // ----- one completion round-trip -----

  /**
   * Reads the text of the first choice of a reply: a raised exception and a
   * reply with no choices fail; missing content counts as "", is stripped,
   * and must not be blank.
   */
  function FirstChoiceText(reply: ProviderReply): (r: Result<string>)
    ensures reply.Raised? ==> r == Err(reply.error)
    ensures reply.Replied? && reply.choices == [] ==> r == Err(NoChoiceError)
    ensures reply.Replied? && reply.choices != [] ==>
      var c := reply.choices[0];
      && (r.Ok? <==> c.content.Some? && !AllWs(c.content.value))
      && (r.Ok? ==> r.value == Strip(c.content.value))
      && (r.Err? ==> r.error == EmptyContentMessage(c.finishReason, c.toolCalls > 0))
    ensures r.Ok? ==> r.value != [] && Tight(r.value) && Strip(r.value) == r.value
  {
    match reply
    case Raised(e) => Err(e)
    case Replied(choices) =>
      if choices == [] then Err(NoChoiceError)
      else
        var c := choices[0];
        var content := Strip(c.content.GetOr(""));
        StripIdempotent(c.content.GetOr(""));
        RequireNonEmpty(Some(content), EmptyContentMessage(c.finishReason, c.toolCalls > 0))
  }

  /** One call: send the system message and `prompt`, read back the first choice's text. */
  function Complete(prompt: string, provider: Provider): (r: Result<string>)
    ensures r.Ok? ==> !AllWs(r.value) && Strip(r.value) == r.value
  {
    FirstChoiceText(provider(ChatRequest(SystemMessage, prompt)))
  }

  /** `generate_article`: sends the generate prompt and returns the non-blank, stripped text. */
  function GenerateArticle(title: string, audience: string, tone: string, provider: Provider)
    : (r: Result<string>)
    ensures r.Ok? ==> !AllWs(r.value) && Strip(r.value) == r.value
  {
    Complete(GeneratePrompt(title, audience, tone), provider)
  }

  /** `rewrite_article`: sends the rewrite prompt and returns the non-blank, stripped text. */
  function RewriteArticle(text: string, targetTone: string, provider: Provider): (r: Result<string>)
    ensures r.Ok? ==> !AllWs(r.value) && Strip(r.value) == r.value
  {
    Complete(RewritePrompt(text, targetTone), provider)
  }

  /**
   * What generation sends: the fixed system message, and a user message
   * carrying title, audience and tone verbatim on their own lines; the
   * answer is read from the provider's reply to exactly that request.
   */
  lemma GenerateArticleSends(title: string, audience: string, tone: string, provider: Provider)
    ensures GenerateArticle(title, audience, tone, provider)
         == FirstChoiceText(provider(ChatRequest(SystemMessage,
              GenerateIntro + TitleLine(title) + AudienceLine(audience) + ToneLine(tone) + GenerateOutro)))
  {
    GeneratePromptLines(title, audience, tone);
  }

  /**
   * What a rewrite sends: the fixed system message, and a user message with
   * the target tone and, after `ARTICLE:`, the article without its trailing
   * whitespace (nothing after `ARTICLE:` when the article is blank).
   */
  lemma RewriteArticleSends(text: string, targetTone: string, provider: Provider)
    ensures !AllWs(text) ==>
      RewriteArticle(text, targetTone, provider)
        == FirstChoiceText(provider(ChatRequest(SystemMessage, RewriteHead(targetTone) + "\n" + TrimEnd(text))))
    ensures AllWs(text) ==>
      RewriteArticle(text, targetTone, provider)
        == FirstChoiceText(provider(ChatRequest(SystemMessage, RewriteHead(targetTone))))
  {
    RewritePromptLines(text, targetTone);
  }
}
