/** `getGeminiResponse`: build the prompt from the retrieved context and the
    user's query, ask the model, and fall back or wrap the provider's error. */
module Gemini {
  import opened Wrappers
  import opened JsStrings

  const ModelName: string := "gemini-2.0-flash-001"
  /** The answer used when the provider returns no text. */
  const NoResponseText: string := "No response generated"
  /** The prefix of the message of the error raised on a provider failure. */
  const ErrorPrefix: string := "Gemini API error: "

  /** The request handed to the generation SDK. */
  datatype GenerateRequest = GenerateRequest(model: string, contents: string)
  /** The SDK's answer: a response whose `text` may be missing, or a thrown
      error and its message. */
  datatype ProviderReply = Replied(text: Option<string>) | Raised(message: string)

  /** The prompt template: context, a blank line, the user turn and the open
      bot turn. */
  function Prompt(context: string, query: string): string {
    "Context:\n" + context + "\n\nUser: " + query + "\nBot:"
  }

  /** The answer, or the message of the error the function throws. */
  function GetGeminiResponse(context: string, query: string,
                             generate: GenerateRequest -> ProviderReply): (r: Result<string, string>)
    ensures var reply := generate(GenerateRequest(ModelName, Prompt(context, query)));
      && (r.Failure? <==> reply.Raised?)
      && (reply.Raised? ==> r.error == ErrorPrefix + reply.message)
      && (reply.Replied? && reply.text.Some? && reply.text.value != "" ==> r.value == reply.text.value)
      && (reply.Replied? && (reply.text.None? || reply.text.value == "") ==> r.value == NoResponseText)
    ensures r.Success? ==> r.value != ""
  {
    match generate(GenerateRequest(ModelName, Prompt(context, query)))
    case Raised(message) => Failure(ErrorPrefix + message)
    case Replied(text) =>
      if text.Some? && text.value != "" then Success(text.value) else Success(NoResponseText)
  }

  /** Where the parts sit in the prompt. */
  lemma PromptLayout(context: string, query: string)
    ensures var p, c := Prompt(context, query), |context|;
      && |p| == 9 + c + 8 + |query| + 5
      && p[..9] == "Context:\n"
      && p[9..9 + c] == context
      && p[9 + c..9 + c + 8] == "\n\nUser: "
      && p[9 + c + 8..|p| - 5] == query
      && p[|p| - 5..] == "\nBot:"
  {
  }

  /** For a query without a line break the prompt determines both the
      context and the query: the last blank line before the bot turn ends
      the context, whatever the context contains. */
  lemma PromptInjective(context1: string, query1: string, context2: string, query2: string)
    requires '\n' !in query1 && '\n' !in query2
    requires Prompt(context1, query1) == Prompt(context2, query2)
    ensures context1 == context2 && query1 == query2
  {
    var head1, head2 := "Context:\n" + context1 + "\n", "Context:\n" + context2 + "\n";
    var turn1, turn2 := "User: " + query1, "User: " + query2;
    assert Prompt(context1, query1) == (head1 + ['\n'] + turn1) + "\nBot:";
    assert Prompt(context2, query2) == (head2 + ['\n'] + turn2) + "\nBot:";
    CancelSuffix(head1 + ['\n'] + turn1, head2 + ['\n'] + turn2, "\nBot:");
    assert '\n' !in "User: ";
    SplitAtLastSeparator(head1, turn1, head2, turn2, '\n');
    CancelPrefix("User: ", query1, query2);
    CancelSuffix("Context:\n" + context1, "Context:\n" + context2, "\n");
    CancelPrefix("Context:\n", context1, context2);
  }
}
