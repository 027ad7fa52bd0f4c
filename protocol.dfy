/** Where the two halves meet: the client POSTs `{ messages: chatHistory }`
    to `/api/chat` (public/chat.js, lines 87-91) and the worker reads it back
    as an array of message objects. */
module Protocol {
  import opened Messages
  import opened Worker

  /** The history as the worker sees it after `JSON.stringify` and
      `request.json()`: one object per message, in order. */
  function AsEntries(history: seq<Message>): (es: seq<Entry>)
    ensures |es| == |history|
    ensures forall i :: 0 <= i < |history| ==> es[i] == Object(history[i])
  {
    seq(|history|, i requires 0 <= i < |history| => Object(history[i]))
  }

  /** The body of the client's request. */
  function AsBody(history: seq<Message>): RequestBody {
    JsonValue(ArrayOf(AsEntries(history)))
  }

  /** How many entries are system messages. */
  function SystemCount(es: seq<Entry>): (n: nat)
    ensures n <= |es|
  {
    if es == [] then 0 else (if IsSystem(es[0]) then 1 else 0) + SystemCount(es[1..])
  }

  lemma {:induction false} NoSystemCountsZero(es: seq<Entry>)
    requires forall i :: 0 <= i < |es| ==> !IsSystem(es[i])
    ensures SystemCount(es) == 0
    decreases |es|
  {
    if es != [] {
      NoSystemCountsZero(es[1..]);
    }
  }

  /** The client never keeps a system message, so every request it sends is
      routed to the chat handler and reaches the model with exactly one
      system message, the prompt, at its head, followed by the history. */
  lemma ClientRequestGetsOnePrompt(history: seq<Message>, prompt: string, ai: AiRequest -> AiResult)
    requires NoSystemRole(history)
    ensures Fetch(ChatPath, "POST", AsBody(history), prompt, ai) == HandleChatRequest(AsBody(history), prompt, ai)
    ensures InjectSystemPrompt(prompt, AsEntries(history)) == Some([SystemEntry(prompt)] + AsEntries(history))
    ensures SystemCount([SystemEntry(prompt)] + AsEntries(history)) == 1
    ensures HandleChatRequest(AsBody(history), prompt, ai).ModelStream?
      <==> ai(AiRequest(ModelId, [SystemEntry(prompt)] + AsEntries(history), MaxTokens)).AiStream?
  {
    var es := AsEntries(history);
    InjectWhenAbsent(prompt, es);
    assert [SystemEntry(prompt)] + es == InjectSystemPrompt(prompt, es).value;
    NoSystemCountsZero(es);
    assert ([SystemEntry(prompt)] + es)[1..] == es;
  }
}
