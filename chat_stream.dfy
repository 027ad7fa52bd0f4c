/** What one exchange of the browser client (public/chat.js, `sendMessage`)
    computes, stated as functions on values: the text each decoded chunk adds
    to `responseText`, the one-character typing reveal, and the history an
    exchange leaves behind. The class in ChatClient is proved against these. */
module ChatStream {
  import opened Messages
  import opened JsText

  /** What `JSON.parse(line)` tells the read loop: it threw, or it produced a
      value whose `response` field is truthy or not and, appended to a string
      with `+=`, contributes `responseString`. */
  datatype ParsedLine = NotJson | Json(responseTruthy: bool, responseString: string)

  /** `JSON.parse` together with the `response` lookup, kept abstract. */
  type Parser = string -> ParsedLine

  /** A line the read loop skips: blank after trimming, not JSON, or JSON
      without a truthy `response`. */
  predicate Ignored(parse: Parser, line: string) {
    AllWhitespace(line) || parse(line).NotJson? || !parse(line).responseTruthy
  }

  /** The text one line appends to `responseText`. The blank test is
      `!line.trim()`, which holds exactly for all-whitespace lines
      (JsText.TrimEmptyIff). */
  function LineDelta(parse: Parser, line: string): (d: string)
    ensures Ignored(parse, line) ==> d == ""
    ensures !Ignored(parse, line) ==> d == parse(line).responseString
  {
    if AllWhitespace(line) then ""
    else match parse(line)
      case NotJson => ""
      case Json(truthy, text) => if truthy then text else ""
  }

  /** The text the first `n` lines of a run append, line after line. */
  function LinesDeltaUpTo(parse: Parser, lines: seq<string>, n: nat): string
    requires n <= |lines|
  {
    if n == 0 then "" else LinesDeltaUpTo(parse, lines, n - 1) + LineDelta(parse, lines[n - 1])
  }

  /** The text a whole run of lines appends. */
  function LinesDelta(parse: Parser, lines: seq<string>): string {
    LinesDeltaUpTo(parse, lines, |lines|)
  }

  /** The text one decoded chunk appends: its `"\n"`-separated lines, each on
      its own. Nothing is carried over from the previous chunk. */
  function ChunkDelta(parse: Parser, chunk: string): (d: string)
    ensures '\n' !in chunk ==> d == LineDelta(parse, chunk)
  {
    assert '\n' !in chunk ==> LinesDelta(parse, SplitLines(chunk)) == LineDelta(parse, chunk) by {
      if '\n' !in chunk {
        SplitSingleLine(chunk);
        OneLineDelta(parse, chunk);
      }
    }
    LinesDelta(parse, SplitLines(chunk))
  }

  /** The text each chunk appends, chunk by chunk. */
  function ChunkDeltas(parse: Parser, chunks: seq<string>): seq<string> {
    seq(|chunks|, i requires 0 <= i < |chunks| => ChunkDelta(parse, chunks[i]))
  }

  /** The pieces `i` up to `j` of `parts`, one after the other. */
  function ConcatRange(parts: seq<string>, i: nat, j: nat): string
    requires i <= j <= |parts|
    decreases j - i
  {
    if i == j then "" else ConcatRange(parts, i, j - 1) + parts[j - 1]
  }

  /** Concatenating a range is concatenating its two halves. */
  lemma {:induction false} ConcatRangeSplit(parts: seq<string>, i: nat, k: nat, j: nat)
    requires i <= k <= j <= |parts|
    ensures ConcatRange(parts, i, j) == ConcatRange(parts, i, k) + ConcatRange(parts, k, j)
    decreases j - k
  {
    if k == j {
      assert ConcatRange(parts, i, k) + "" == ConcatRange(parts, i, k);
    } else {
      ConcatRangeSplit(parts, i, k, j - 1);
      var left := ConcatRange(parts, i, k);
      var mid := ConcatRange(parts, k, j - 1);
      assert (left + mid) + parts[j - 1] == left + (mid + parts[j - 1]);
    }
  }

  /** `responseText` after the read loop has consumed the first `n` chunks. */
  function StreamTextUpTo(parse: Parser, chunks: seq<string>, n: nat): string
    requires n <= |chunks|
  {
    ConcatRange(ChunkDeltas(parse, chunks), 0, n)
  }

  /** `responseText` once the read loop has consumed every chunk: what it
      held after any number of chunks is a prefix of it. */
  function StreamText(parse: Parser, chunks: seq<string>): (r: string)
    ensures forall n :: 0 <= n <= |chunks| ==> StreamTextUpTo(parse, chunks, n) <= r
  {
    assert forall n :: 0 <= n <= |chunks| ==> StreamTextUpTo(parse, chunks, n) <= StreamTextUpTo(parse, chunks, |chunks|) by {
      forall n | 0 <= n <= |chunks| {
        ConcatRangeSplit(ChunkDeltas(parse, chunks), 0, n, |chunks|);
      }
    }
    StreamTextUpTo(parse, chunks, |chunks|)
  }

  /** Two runs that agree on their first `n` lines agree on the text those
      lines append. */
  lemma {:induction false} LinesDeltaAgree(parse: Parser, x: seq<string>, y: seq<string>, n: nat)
    requires n <= |x| && n <= |y|
    requires forall i :: 0 <= i < n ==> x[i] == y[i]
    ensures LinesDeltaUpTo(parse, x, n) == LinesDeltaUpTo(parse, y, n)
  {
    if n > 0 {
      LinesDeltaAgree(parse, x, y, n - 1);
    }
  }

  lemma {:induction false} LinesDeltaAppendUpTo(parse: Parser, a: seq<string>, b: seq<string>, k: nat)
    requires k <= |b|
    ensures LinesDeltaUpTo(parse, a + b, |a| + k) == LinesDelta(parse, a) + LinesDeltaUpTo(parse, b, k)
  {
    if k == 0 {
      LinesDeltaAgree(parse, a + b, a, |a|);
      assert LinesDelta(parse, a) + "" == LinesDelta(parse, a);
    } else {
      LinesDeltaAppendUpTo(parse, a, b, k - 1);
      assert (a + b)[|a| + k - 1] == b[k - 1];
      var x, y, z := LinesDelta(parse, a), LinesDeltaUpTo(parse, b, k - 1), LineDelta(parse, b[k - 1]);
      assert (x + y) + z == x + (y + z);
    }
  }

  /** The lines of two runs contribute the text of the first run followed by
      that of the second. */
  lemma LinesDeltaAppend(parse: Parser, a: seq<string>, b: seq<string>)
    ensures LinesDelta(parse, a + b) == LinesDelta(parse, a) + LinesDelta(parse, b)
  {
    LinesDeltaAppendUpTo(parse, a, b, |b|);
  }

  /** A blank, non-JSON or falsy line neither adds text nor disturbs the lines
      around it: dropping it changes nothing. */
  lemma IgnoredLineIsInvisible(parse: Parser, a: seq<string>, line: string, b: seq<string>)
    requires Ignored(parse, line)
    ensures LinesDelta(parse, a + [line] + b) == LinesDelta(parse, a + b)
  {
    LinesDeltaAppend(parse, a + [line], b);
    LinesDeltaAppend(parse, a, [line]);
    LinesDeltaAppend(parse, a, b);
    OneLineDelta(parse, line);
  }

  /** A chunk made of one frame per line yields the frames' texts in order. */
  lemma ChunkOfFrames(parse: Parser, frames: seq<string>)
    requires frames != []
    requires forall i :: 0 <= i < |frames| ==> '\n' !in frames[i]
    ensures ChunkDelta(parse, JoinLines(frames)) == LinesDelta(parse, frames)
  {
    SplitJoin(frames);
  }

  /** The text chunks `i` up to `j` add, in order. */
  function ChunksDelta(parse: Parser, chunks: seq<string>, i: nat, j: nat): string
    requires i <= j <= |chunks|
  {
    ConcatRange(ChunkDeltas(parse, chunks), i, j)
  }

  /** `responseText` only grows by appending: the text after `j` chunks is
      the text after `i` chunks followed by what chunks `i` to `j` add. */
  lemma StreamTextGrows(parse: Parser, chunks: seq<string>, i: nat, j: nat)
    requires i <= j <= |chunks|
    ensures StreamTextUpTo(parse, chunks, j) == StreamTextUpTo(parse, chunks, i) + ChunksDelta(parse, chunks, i, j)
  {
    ConcatRangeSplit(ChunkDeltas(parse, chunks), 0, i, j);
  }

  /** Chunks are split on their own: a frame that arrives cut in two pieces
      across two reads yields nothing, although the whole frame would have
      yielded its text. */
  lemma SplitFrameIsLost(parse: Parser, head: string, tail: string, text: string)
    requires '\n' !in head && '\n' !in tail
    requires parse(head + tail) == Json(true, text) && !AllWhitespace(head + tail)
    requires Ignored(parse, head) && Ignored(parse, tail)
    ensures StreamText(parse, [head + tail]) == text
    ensures StreamText(parse, [head, tail]) == ""
  {
    assert '\n' !in head + tail by {
      forall c | c in head + tail ensures c != '\n' {
        assert c in head || c in tail;
      }
    }
    SplitSingleLine(head + tail);
    SplitSingleLine(head);
    SplitSingleLine(tail);
    OneLineDelta(parse, head + tail);
    OneLineDelta(parse, head);
    OneLineDelta(parse, tail);
    assert StreamTextUpTo(parse, [head, tail], 1) == ChunkDelta(parse, head);
    assert StreamTextUpTo(parse, [head + tail], 1) == ChunkDelta(parse, head + tail);
  }

  lemma OneLineDelta(parse: Parser, line: string)
    ensures LinesDelta(parse, [line]) == LineDelta(parse, line)
  {
    assert LinesDeltaUpTo(parse, [line], 0) == "";
  }

  /** One `updateTyping` step: when fewer characters are shown than received,
      show one more, the next one received; otherwise change nothing. */
  function Reveal(displayed: string, response: string): (r: string)
    ensures |displayed| < |response| ==> |r| == |displayed| + 1 && displayed <= r && r[|displayed|] == response[|displayed|]
    ensures |displayed| >= |response| ==> r == displayed
    ensures displayed <= response ==> r <= response
  {
    if |displayed| < |response| then displayed + [response[|displayed|]] else displayed
  }

  /** `ticks` successive reveal steps. */
  function RevealTicks(displayed: string, response: string, ticks: nat): string
    decreases ticks
  {
    if ticks == 0 then displayed else Reveal(RevealTicks(displayed, response, ticks - 1), response)
  }

  function Min(a: int, b: int): int { if a <= b then a else b }

  /** Starting from a prefix of the received text, `k` reveal steps show
      exactly the first `|displayed| + k` received characters, or all of them. */
  lemma {:induction false} RevealTicksShows(displayed: string, response: string, k: nat)
    requires displayed <= response
    ensures RevealTicks(displayed, response, k) == response[..Min(|displayed| + k, |response|)]
    decreases k
  {
    if k > 0 {
      RevealTicksShows(displayed, response, k - 1);
      var shown := RevealTicks(displayed, response, k - 1);
      if |shown| < |response| {
        assert Reveal(shown, response) == response[..|shown| + 1];
      }
    }
  }

  /** How the request for one exchange ends, seen from the client. */
  datatype Transport =
    | FetchRejected                                // `fetch` threw
    | NotOk                                        // a non-2xx status (line 93)
    | Body(chunks: seq<string>, readFails: bool)   // decoded chunks, then end of stream or a read error

  predicate Succeeds(transport: Transport) {
    transport.Body? && !transport.readFails
  }

  /** The history an accepted exchange leaves behind: the user's message,
      then, only if the stream ended normally, the assistant's full text. */
  function ExchangeHistory(parse: Parser, history: seq<Message>, message: string, transport: Transport): (h: seq<Message>)
    ensures history + [Message(UserRole, message)] <= h
    ensures |h| == |history| + (if Succeeds(transport) then 2 else 1)
    ensures Succeeds(transport) ==> h[|h| - 1] == Message(AssistantRole, StreamText(parse, transport.chunks))
  {
    var sent := history + [Message(UserRole, message)];
    if Succeeds(transport) then sent + [Message(AssistantRole, StreamText(parse, transport.chunks))] else sent
  }

  /** One click on send (or Enter) with the text in the input box, and how its
      request ends. */
  datatype Turn = Turn(input: string, transport: Transport)

  /** The history after the first `n` of a series of turns, each starting
      when the previous one has finished. Blank input is rejected and leaves
      the history as it is. */
  function SessionHistory(parse: Parser, history: seq<Message>, turns: seq<Turn>, n: nat): seq<Message>
    requires n <= |turns|
  {
    if n == 0 then history
    else
      var before := SessionHistory(parse, history, turns, n - 1);
      var message := Trim(turns[n - 1].input);
      if message == "" then before
      else ExchangeHistory(parse, before, message, turns[n - 1].transport)
  }

  /** Among the first `n` turns, those whose input is not blank. */
  function Accepted(turns: seq<Turn>, n: nat): nat
    requires n <= |turns|
  {
    if n == 0 then 0
    else Accepted(turns, n - 1) + (if Trim(turns[n - 1].input) == "" then 0 else 1)
  }

  /** Among the first `n` turns, the accepted ones whose stream ended normally. */
  function Completed(turns: seq<Turn>, n: nat): nat
    requires n <= |turns|
  {
    if n == 0 then 0
    else Completed(turns, n - 1) + (if Trim(turns[n - 1].input) != "" && Succeeds(turns[n - 1].transport) then 1 else 0)
  }

  /** An exchange appends only user and assistant messages. */
  lemma ExchangeAddsNoSystem(parse: Parser, history: seq<Message>, message: string, transport: Transport)
    requires NoSystemRole(history)
    ensures NoSystemRole(ExchangeHistory(parse, history, message, transport))
  {
    var sent := history + [Message(UserRole, message)];
    assert NoSystemRole(sent);
  }

  /** Over a session the history only grows at its end, by one message per
      accepted turn and one more per completed one, and never gains a system
      message. */
  lemma {:induction false} SessionGrowth(parse: Parser, history: seq<Message>, turns: seq<Turn>, n: nat)
    requires n <= |turns|
    ensures history <= SessionHistory(parse, history, turns, n)
    ensures |SessionHistory(parse, history, turns, n)| == |history| + Accepted(turns, n) + Completed(turns, n)
    ensures NoSystemRole(history) ==> NoSystemRole(SessionHistory(parse, history, turns, n))
  {
    if n > 0 {
      var before := SessionHistory(parse, history, turns, n - 1);
      SessionGrowth(parse, history, turns, n - 1);
      var message := Trim(turns[n - 1].input);
      if message != "" {
        var after := ExchangeHistory(parse, before, message, turns[n - 1].transport);
        assert SessionHistory(parse, history, turns, n) == after;
        assert after[..|history|] == history;
        if NoSystemRole(history) {
          ExchangeAddsNoSystem(parse, before, message, turns[n - 1].transport);
        }
      }
    }
  }
}
