/** The browser client of public/chat.js: the module state `chatHistory` and
    `isProcessing`, and `sendMessage`, an async function, modelled as a class
    whose methods are the stretches of `sendMessage` that run between two
    `await`s. `phase` records where the suspended call waits; the fields
    `responseText`, `displayedText` and `typingTimeout` are the locals of the
    call in flight. Timer ticks are explicit steps (`TimerFires`), fired
    whenever the caller chooses, as the event loop may. */
module ChatClient {
  import opened Messages
  import opened JsText
  import opened ChatStream

  /** Where the current call of `sendMessage` is suspended. */
  datatype Phase =
    | Idle              // no exchange in flight
    | AwaitingResponse  // at `await fetch(...)` (line 87)
    | Streaming         // in the read loop, at `await reader.read()` (line 112)

  class ChatSession {
    /** The assistant's opening line, the first entry of the history. */
    const greeting: string

    var chatHistory: seq<Message>
    var isProcessing: bool
    /** `userInput.value`. */
    var inputText: string
    /** `userInput.disabled`, which `sendButton.disabled` always equals. */
    var controlsDisabled: bool
    var phase: Phase

    // Locals of the call in flight (lines 97-99).
    var responseText: string
    var displayedText: string
    /** The `typingTimeout` handle; 0 stands for `null`. */
    var typingTimeout: nat
    /** Whether a `setTimeout(updateTyping, ...)` is scheduled and not yet run. */
    var tickPending: bool
    /** Timers created so far; a new timer's handle is the next number, so
        handles are never 0. */
    var timersCreated: nat

    /** The typing state of the exchange in flight: the shown text is a
        prefix of the received text, and the handle is still `null` exactly
        while nothing is shown, with no tick scheduled. */
    ghost predicate RevealValid()
      reads this
    {
      && displayedText <= responseText
      && (typingTimeout == 0 <==> displayedText == "")
      && (typingTimeout == 0 ==> !tickPending)
    }

    /** The session invariant: `Consistent()`, and during the read loop the
        reveal has started as soon as any text has been received. */
    ghost predicate Valid()
      reads this
    {
      && Consistent()
      && (phase == Streaming && typingTimeout == 0 ==> responseText == "")
    }

    /** Everything the session keeps at every step, also in the middle of a
        line, after the text is appended and before `updateTyping` runs. */
    ghost predicate Consistent()
      reads this
    {
      && |chatHistory| >= 1
      && chatHistory[0] == Message(AssistantRole, greeting)
      && NoSystemRole(chatHistory)
      && (isProcessing <==> phase != Idle)
      && controlsDisabled == isProcessing
      && (phase == Streaming ==> RevealValid())
      && (phase != Streaming ==> !tickPending)
      && typingTimeout <= timersCreated
    }

    /** Page load (lines 20-23): the history holds the greeting alone. */
    constructor (greeting: string)
      ensures Valid()
      ensures this.greeting == greeting
      ensures chatHistory == [Message(AssistantRole, greeting)]
      ensures !isProcessing && phase == Idle && inputText == ""
    {
      this.greeting := greeting;
      chatHistory := [Message(AssistantRole, greeting)];
      isProcessing := false;
      inputText := "";
      controlsDisabled := false;
      phase := Idle;
      responseText, displayedText := "", "";
      typingTimeout, tickPending, timersCreated := 0, false, 0;
    }

    /** The user edits the text area. */
    method EditInput(text: string)
      requires Valid()
      modifies this`inputText
      ensures Valid() && inputText == text
    {
      inputText := text;
    }

    /** Lines 46-59 and 90: the submission guard, then the user's turn. A
        blank input, or a call while another exchange is in flight, returns at
        once and changes nothing. Otherwise the trimmed input is appended to
        the history as a user message, the input is cleared and locked, and
        the whole history is what the request carries. */
    method Submit() returns (accepted: bool, request: seq<Message>)
      requires Valid()
      modifies this
      ensures Valid()
      ensures accepted <==> Trim(old(inputText)) != "" && !old(isProcessing)
      ensures !accepted ==> unchanged(this) && request == []
      ensures accepted ==> chatHistory == old(chatHistory) + [Message(UserRole, Trim(old(inputText)))]
      ensures accepted ==> request == chatHistory && request[0] == Message(AssistantRole, greeting) && NoSystemRole(request)
      ensures accepted ==> isProcessing && controlsDisabled && inputText == "" && phase == AwaitingResponse
      ensures accepted ==> tickPending == old(tickPending) && responseText == old(responseText) && displayedText == old(displayedText)
    {
      var message := Trim(inputText);
      if message == "" || isProcessing {
        return false, [];
      }
      isProcessing := true;
      controlsDisabled := true;
      inputText := "";
      chatHistory := chatHistory + [Message(UserRole, message)];
      phase := AwaitingResponse;
      accepted, request := true, chatHistory;
    }

    /** The `catch` and `finally` blocks (lines 141-150), reached when `fetch`
        throws, on a non-ok status, or when a read throws. The error notice
        goes to the page only: the history keeps just the user's message. */
    method Fail()
      requires Valid() && phase != Idle
      modifies this
      ensures Valid()
      ensures chatHistory == old(chatHistory)
      ensures !isProcessing && !controlsDisabled && phase == Idle
      ensures inputText == old(inputText)
    {
      tickPending := false;
      isProcessing := false;
      controlsDisabled := false;
      phase := Idle;
    }

    /** `fetch` resolved (line 93 onwards). A non-ok status throws into the
        `catch`; an ok one starts the read loop with empty buffers and no
        typing timer. */
    method ResponseArrived(ok: bool)
      requires Valid() && phase == AwaitingResponse
      modifies this
      ensures Valid()
      ensures chatHistory == old(chatHistory) && inputText == old(inputText)
      ensures !ok ==> !isProcessing && phase == Idle
      ensures ok ==> phase == Streaming && isProcessing
      ensures ok ==> responseText == "" && displayedText == "" && typingTimeout == 0 && !tickPending
    {
      if !ok {
        Fail();
        return;
      }
      responseText, displayedText := "", "";
      typingTimeout := 0;
      tickPending := false;
      phase := Streaming;
    }

    /** `updateTyping` (lines 102-109): when fewer characters are shown than
        received, show the next one and schedule another run under a fresh
        handle; otherwise do nothing, leaving the old handle in place. */
    method UpdateTyping()
      requires Consistent() && phase == Streaming && !tickPending
      modifies this
      ensures Valid() && phase == Streaming
      ensures displayedText == Reveal(old(displayedText), responseText)
      ensures |old(displayedText)| < |responseText| ==> tickPending && typingTimeout != 0 && typingTimeout != old(typingTimeout)
      ensures |old(displayedText)| >= |responseText| ==> unchanged(this)
      ensures responseText == old(responseText) && chatHistory == old(chatHistory)
      ensures isProcessing == old(isProcessing) && inputText == old(inputText)
      ensures old(typingTimeout) != 0 ==> typingTimeout != 0
    {
      if |displayedText| < |responseText| {
        displayedText := displayedText + [responseText[|displayedText|]];
        timersCreated := timersCreated + 1;
        typingTimeout := timersCreated;
        tickPending := true;
      }
    }

    /** The event loop runs a scheduled `updateTyping`, if there is one. */
    method TimerFires()
      requires Valid() && phase == Streaming
      modifies this
      ensures Valid() && phase == Streaming
      ensures !old(tickPending) ==> unchanged(this)
      ensures old(tickPending) ==> displayedText == Reveal(old(displayedText), responseText)
      ensures old(tickPending) ==> (tickPending <==> |old(displayedText)| < |responseText|)
      ensures old(displayedText) <= displayedText
      ensures typingTimeout != 0 || typingTimeout == old(typingTimeout)
      ensures responseText == old(responseText) && chatHistory == old(chatHistory)
      ensures isProcessing == old(isProcessing) && inputText == old(inputText)
    {
      if tickPending {
        tickPending := false;
        UpdateTyping();
      }
    }

    /** The event loop runs `n` timer callbacks while the read loop waits.
        A scheduled reveal keeps rescheduling itself (line 107), so the `n`
        runs show `n` more received characters, or all of them; with nothing
        scheduled nothing happens. */
    method FireTicks(n: nat)
      requires Valid() && phase == Streaming
      modifies this
      ensures Valid() && phase == Streaming
      ensures !old(tickPending) ==> unchanged(this)
      ensures old(tickPending) ==> displayedText == RevealTicks(old(displayedText), responseText, n)
      ensures old(tickPending) ==> displayedText == responseText[..Min(|old(displayedText)| + n, |responseText|)]
      ensures old(tickPending) ==> (tickPending <==> n == 0 || |old(displayedText)| + n <= |responseText|)
      ensures old(displayedText) <= displayedText
      ensures typingTimeout != 0 || typingTimeout == old(typingTimeout)
      ensures responseText == old(responseText) && chatHistory == old(chatHistory)
      ensures isProcessing == old(isProcessing) && inputText == old(inputText)
    {
      for t := 0 to n
        invariant Valid() && phase == Streaming
        invariant !old(tickPending) ==> unchanged(this)
        invariant old(tickPending) ==> displayedText == RevealTicks(old(displayedText), responseText, t)
        invariant old(tickPending) && !tickPending ==> displayedText == responseText
        invariant old(tickPending) ==> displayedText == responseText[..Min(|old(displayedText)| + t, |responseText|)]
        invariant old(tickPending) ==> (tickPending <==> t == 0 || |old(displayedText)| + t <= |responseText|)
        invariant old(displayedText) <= displayedText
        invariant typingTimeout != 0 || typingTimeout == old(typingTimeout)
        invariant responseText == old(responseText) && chatHistory == old(chatHistory)
        invariant isProcessing == old(isProcessing) && inputText == old(inputText)
      {
        TimerFires();
        if old(tickPending) {
          RevealTicksShows(old(displayedText), responseText, t + 1);
        }
      }
      if old(tickPending) {
        RevealTicksShows(old(displayedText), responseText, n);
      }
    }

    /** One line of the read loop (lines 119-128): a blank line is skipped, a
        parse failure is swallowed, and a truthy `response` is appended, with
        `updateTyping` called only while the handle is still `null`. */
    method ReceiveLine(parse: Parser, line: string)
      requires Valid() && phase == Streaming
      modifies this
      ensures Valid() && phase == Streaming
      ensures responseText == old(responseText) + LineDelta(parse, line)
      ensures Ignored(parse, line) ==> unchanged(this)
      ensures old(typingTimeout) == 0 ==> (typingTimeout != 0 <==> LineDelta(parse, line) != "")
      ensures old(typingTimeout) == 0 && LineDelta(parse, line) != "" ==> displayedText == responseText[..1] && tickPending
      ensures old(displayedText) <= displayedText
      ensures old(typingTimeout) != 0 ==> typingTimeout == old(typingTimeout) && displayedText == old(displayedText) && tickPending == old(tickPending)
      ensures chatHistory == old(chatHistory) && isProcessing == old(isProcessing) && inputText == old(inputText)
    {
      TrimEmptyIff(line);
      if Trim(line) == "" {
        return;
      }
      match parse(line) {
        case NotJson =>
        case Json(truthy, text) =>
          if truthy {
            responseText := responseText + text;
            if typingTimeout == 0 {
              UpdateTyping();
            }
          }
      }
    }

    /** One pass of the read loop over a decoded chunk (lines 115-129): each
        `"\n"`-separated line on its own, in order. Once the reveal has
        started the loop no longer touches the shown text. */
    method ReceiveChunk(parse: Parser, chunk: string)
      requires Valid() && phase == Streaming
      modifies this
      ensures Valid() && phase == Streaming
      ensures responseText == old(responseText) + ChunkDelta(parse, chunk)
      ensures old(typingTimeout) == 0 ==> (typingTimeout != 0 <==> ChunkDelta(parse, chunk) != "")
      ensures old(typingTimeout) == 0 && ChunkDelta(parse, chunk) != "" ==> displayedText == responseText[..1] && tickPending
      ensures old(displayedText) <= displayedText
      ensures old(typingTimeout) != 0 ==> typingTimeout == old(typingTimeout) && displayedText == old(displayedText) && tickPending == old(tickPending)
      ensures chatHistory == old(chatHistory) && isProcessing == old(isProcessing) && inputText == old(inputText)
    {
      var lines := SplitLines(chunk);
      for k := 0 to |lines|
        invariant Valid() && phase == Streaming
        invariant responseText == old(responseText) + LinesDeltaUpTo(parse, lines, k)
        invariant old(typingTimeout) == 0 ==> (typingTimeout != 0 <==> LinesDeltaUpTo(parse, lines, k) != "")
        invariant old(typingTimeout) == 0 && typingTimeout != 0 ==> displayedText == responseText[..1] && tickPending
        invariant old(displayedText) <= displayedText
        invariant old(typingTimeout) != 0 ==> typingTimeout == old(typingTimeout) && displayedText == old(displayedText) && tickPending == old(tickPending)
        invariant chatHistory == old(chatHistory) && isProcessing == old(isProcessing) && inputText == old(inputText)
      {
        ghost var before := responseText;
        ReceiveLine(parse, lines[k]);
        assert LinesDeltaUpTo(parse, lines, k + 1) == LinesDeltaUpTo(parse, lines, k) + LineDelta(parse, lines[k]);
        AppendAssoc(old(responseText), LinesDeltaUpTo(parse, lines, k), LineDelta(parse, lines[k]));
        if before != "" {
          assert responseText[..1] == before[..1];
        }
      }
    }

    /** The stream ended (lines 132-139, then `finally`): the pending tick is
        cancelled, the whole received text is shown, and it joins the history
        as the assistant's message, even when empty. */
    method Finish()
      requires Valid() && phase == Streaming
      modifies this
      ensures Valid()
      ensures displayedText == responseText == old(responseText)
      ensures chatHistory == old(chatHistory) + [Message(AssistantRole, old(responseText))]
      ensures !isProcessing && !controlsDisabled && phase == Idle && !tickPending
      ensures inputText == old(inputText)
    {
      tickPending := false;
      displayedText := responseText;
      chatHistory := chatHistory + [Message(AssistantRole, responseText)];
      isProcessing := false;
      controlsDisabled := false;
      phase := Idle;
    }

    /** One whole call of `sendMessage`, with `parse` for `JSON.parse`,
        `transport` for how the request ends and `ticks[i]` the number of
        timer runs the event loop interleaves while the read after chunk `i`
        is awaited. Whatever the ticks, a completed exchange shows exactly
        the text it received and adds it to the history after the user's
        message; a failed one adds the user's message only. */
    method SendMessage(parse: Parser, transport: Transport, ticks: seq<nat>) returns (accepted: bool, request: seq<Message>)
      requires Valid()
      modifies this
      ensures Valid()
      ensures accepted <==> Trim(old(inputText)) != "" && !old(isProcessing)
      ensures !accepted ==> unchanged(this)
      ensures accepted ==> request == old(chatHistory) + [Message(UserRole, Trim(old(inputText)))]
      ensures accepted ==> chatHistory == ExchangeHistory(parse, old(chatHistory), Trim(old(inputText)), transport)
      ensures accepted ==> !isProcessing && !controlsDisabled && phase == Idle && inputText == ""
      ensures accepted && Succeeds(transport) ==> displayedText == responseText == StreamText(parse, transport.chunks)
    {
      accepted, request := Submit();
      if !accepted {
        return;
      }
      match transport {
        case FetchRejected =>
          Fail();
        case NotOk =>
          ResponseArrived(false);
        case Body(chunks, readFails) =>
          ResponseArrived(true);
          var i := 0;
          while i < |chunks|
            invariant 0 <= i <= |chunks|
            invariant Valid() && phase == Streaming
            invariant chatHistory == request && inputText == ""
            invariant responseText == StreamTextUpTo(parse, chunks, i)
          {
            ReceiveChunk(parse, chunks[i]);
            FireTicks(if i < |ticks| then ticks[i] else 0);
            i := i + 1;
          }
          if readFails {
            Fail();
          } else {
            Finish();
          }
      }
    }

    /** A series of sends (lines 32-41), each after the previous one has
        finished: the user types `turns[n].input`, then presses Enter or the
        send button, and the request ends as `turns[n].transport`, with
        `ticks[n]` the timer runs during its reads. The history is the one
        `SessionHistory` describes, so it only grows at its end, by one
        message per accepted turn and one more per completed one. */
    method RunSession(parse: Parser, turns: seq<Turn>, ticks: seq<seq<nat>>)
      requires Valid() && !isProcessing
      modifies this
      ensures Valid() && !isProcessing
      ensures chatHistory == SessionHistory(parse, old(chatHistory), turns, |turns|)
      ensures old(chatHistory) <= chatHistory
      ensures |chatHistory| == |old(chatHistory)| + Accepted(turns, |turns|) + Completed(turns, |turns|)
    {
      var n := 0;
      while n < |turns|
        invariant 0 <= n <= |turns|
        invariant Valid() && !isProcessing
        invariant chatHistory == SessionHistory(parse, old(chatHistory), turns, n)
      {
        EditInput(turns[n].input);
        var accepted, request := SendMessage(parse, turns[n].transport, if n < |ticks| then ticks[n] else []);
        n := n + 1;
      }
      SessionGrowth(parse, old(chatHistory), turns, |turns|);
    }
  }
}
