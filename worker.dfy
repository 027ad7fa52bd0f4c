/** The Cloudflare worker of src/index.ts: the router of `fetch` and
    `handleChatRequest`, which makes sure the conversation starts with a
    system prompt before handing it to the model. The asset server and the
    model (`env.ASSETS`, `env.AI`) are outside; the model is a parameter. */
module Worker {
  import opened Messages
  import opened JsText

  datatype Option<T> = None | Some(value: T)

  const ApiPrefix: string := "/api/"
  const ChatPath: string := "/api/chat"
  const ModelId: string := "@cf/meta/llama-3.3-70b-instruct-fp8-fast"
  const MaxTokens: nat := 1024
  /** The content type `new Response(text)` gets when none is given. */
  const TextPlain: string := "text/plain;charset=UTF-8"
  const JsonType: string := "application/json"

  /** What a request turns into. */
  datatype Response =
    | Asset                                               // answered by `env.ASSETS.fetch`
    | ModelStream(handle: nat)                            // the model's raw streaming response, passed through
    | Reply(status: nat, body: string, contentType: string)

  const MethodNotAllowed: Response := Reply(405, "Method not allowed", TextPlain)
  const NotFound: Response := Reply(404, "Not found", TextPlain)
  /** The catch-all answer of `handleChatRequest` (lines 100-109). */
  const ServerError: Response := Reply(500, "{\"error\":\"Failed to process request\"}", JsonType)

  /** The four ways `fetch` can dispatch a request. */
  datatype Route = ToAssets | ToChat | ToMethodNotAllowed | ToNotFound

  /** The dispatch of `fetch` (lines 40-59) on the URL's pathname and the
      request method. Anything outside `/api/` is a static asset, whatever the
      method; `/api/chat` accepts POST only; the rest of `/api/` is unknown. */
  function RouteOf(path: string, verb: string): (r: Route)
    ensures r == ToAssets <==> !StartsWith(path, ApiPrefix)
    ensures r == ToChat <==> path == ChatPath && verb == "POST"
    ensures r == ToMethodNotAllowed <==> path == ChatPath && verb != "POST"
    ensures r == ToNotFound <==> StartsWith(path, ApiPrefix) && path != ChatPath
  {
    if path == "/" || !StartsWith(path, ApiPrefix) then ToAssets
    else if path == ChatPath then (if verb == "POST" then ToChat else ToMethodNotAllowed)
    else ToNotFound
  }

  /** The method matters on `/api/chat` only. */
  lemma MethodOnlyMattersForChat(path: string, m1: string, m2: string)
    requires path != ChatPath
    ensures RouteOf(path, m1) == RouteOf(path, m2)
  {
  }

  /** One element of the `messages` array as `request.json()` produced it:
      an object, read through its `role` and `content`, or `null`. */
  datatype Entry = Object(msg: Message) | Nullish

  /** The `messages` property of the parsed body: missing, something without
      a callable `some` (`null`, a number, a string, a plain object), or an
      array. */
  datatype MessagesField = Absent | NotArray | ArrayOf(entries: seq<Entry>)

  /** The outcome of `await request.json()`: it rejects, it yields `null`
      (so destructuring it throws), or it yields a value. */
  datatype RequestBody = Malformed | JsonNull | JsonValue(messages: MessagesField)

  /** The arguments of `env.AI.run`. */
  datatype AiRequest = AiRequest(model: string, messages: seq<Entry>, maxTokens: nat)

  /** What `env.AI.run` does: resolve with a raw response, or throw. */
  datatype AiResult = AiStream(handle: nat) | AiError

  predicate IsSystem(e: Entry) {
    e.Object? && e.msg.role == SystemRole
  }

  function SystemEntry(prompt: string): (e: Entry)
    ensures IsSystem(e)
  {
    Object(Message(SystemRole, prompt))
  }

  /** Every entry before index `i` is an object. */
  predicate ObjectsBefore(es: seq<Entry>, i: nat)
    requires i <= |es|
  {
    forall j :: 0 <= j < i ==> es[j].Object?
  }

  /** Every entry is an object, and none is a system message. */
  predicate PlainObjects(es: seq<Entry>) {
    forall i :: 0 <= i < |es| ==> es[i].Object? && !IsSystem(es[i])
  }

  /** A system message comes before any `null` entry. */
  predicate SystemBeforeNull(es: seq<Entry>) {
    exists i :: 0 <= i < |es| && IsSystem(es[i]) && ObjectsBefore(es, i)
  }

  /** A `null` entry comes before any system message. */
  predicate NullBeforeSystem(es: seq<Entry>) {
    exists i :: 0 <= i < |es| && es[i].Nullish? && forall j :: 0 <= j < i ==> !IsSystem(es[j])
  }

  /** `messages.some((msg) => msg.role === "system")`, read left to right:
      `None` when it reaches a `null` element and throws. */
  function SystemScan(es: seq<Entry>): (r: Option<bool>)
    ensures PlainObjects(es) ==> r == Some(false)
    ensures r == Some(true) ==> exists i :: 0 <= i < |es| && IsSystem(es[i])
    ensures r == None ==> exists i :: 0 <= i < |es| && es[i].Nullish?
    decreases |es|
  {
    if es == [] then Some(false)
    else match es[0]
      case Nullish => None
      case Object(m) =>
        if m.role == SystemRole then
          assert IsSystem(es[0]);
          Some(true)
        else
          assert PlainObjects(es) ==> PlainObjects(es[1..]);
          var r := SystemScan(es[1..]);
          assert r != Some(false) ==> exists i :: 0 < i < |es| && (IsSystem(es[i]) || es[i].Nullish?) by {
            if r == Some(true) {
              var i :| 0 <= i < |es[1..]| && IsSystem(es[1..][i]);
              assert es[i + 1] == es[1..][i];
            } else if r == None {
              var i :| 0 <= i < |es[1..]| && es[1..][i].Nullish?;
              assert es[i + 1] == es[1..][i];
            }
          }
          r
  }

  /** The scan finds a system message exactly when one comes before any
      `null`, answers false exactly when every element is an object and none
      is a system message, and throws exactly when a `null` comes first. */
  lemma {:induction false} SystemScanSpec(es: seq<Entry>)
    ensures SystemScan(es) == Some(false) <==> PlainObjects(es)
    ensures SystemScan(es) == Some(true) <==> SystemBeforeNull(es)
    ensures SystemScan(es) == None <==> NullBeforeSystem(es)
    decreases |es|
  {
    if es == [] {
    } else if es[0].Nullish? {
      assert !PlainObjects(es);
      assert !SystemBeforeNull(es);
      assert NullBeforeSystem(es) by {
        assert es[0].Nullish?;
      }
    } else if IsSystem(es[0]) {
      assert !PlainObjects(es);
      assert SystemBeforeNull(es) by {
        assert IsSystem(es[0]) && ObjectsBefore(es, 0);
      }
      assert !NullBeforeSystem(es);
    } else {
      var tail := es[1..];
      SystemScanSpec(tail);
      assert SystemScan(es) == SystemScan(tail);
      assert PlainObjects(es) <==> PlainObjects(tail) by {
        if PlainObjects(tail) {
          forall i | 0 <= i < |es| ensures es[i].Object? && !IsSystem(es[i]) {
            if i > 0 {
              assert es[i] == tail[i - 1];
            }
          }
        }
      }
      assert SystemBeforeNull(es) <==> SystemBeforeNull(tail) by {
        if SystemBeforeNull(tail) {
          var i :| 0 <= i < |tail| && IsSystem(tail[i]) && ObjectsBefore(tail, i);
          assert IsSystem(es[i + 1]);
          assert ObjectsBefore(es, i + 1) by {
            forall j | 0 <= j < i + 1 ensures es[j].Object? {
              if j > 0 {
                assert es[j] == tail[j - 1];
              }
            }
          }
        }
        if SystemBeforeNull(es) {
          var i :| 0 <= i < |es| && IsSystem(es[i]) && ObjectsBefore(es, i);
          assert i > 0;
          assert IsSystem(tail[i - 1]);
          assert ObjectsBefore(tail, i - 1) by {
            forall j | 0 <= j < i - 1 ensures tail[j].Object? {
              assert tail[j] == es[j + 1];
            }
          }
        }
      }
      assert NullBeforeSystem(es) <==> NullBeforeSystem(tail) by {
        if NullBeforeSystem(tail) {
          var i :| 0 <= i < |tail| && tail[i].Nullish? && forall j :: 0 <= j < i ==> !IsSystem(tail[j]);
          assert es[i + 1].Nullish?;
          forall j | 0 <= j < i + 1 ensures !IsSystem(es[j]) {
            if j > 0 {
              assert es[j] == tail[j - 1];
            }
          }
        }
        if NullBeforeSystem(es) {
          var i :| 0 <= i < |es| && es[i].Nullish? && forall j :: 0 <= j < i ==> !IsSystem(es[j]);
          assert i > 0;
          assert tail[i - 1].Nullish?;
          forall j | 0 <= j < i - 1 ensures !IsSystem(tail[j]) {
            assert tail[j] == es[j + 1];
          }
        }
      }
    }
  }

  /** Lines 77-79: put the system prompt in front unless the list already has
      a system message (`unshift` on the array). `None` when the check throws. */
  function InjectSystemPrompt(prompt: string, es: seq<Entry>): (r: Option<seq<Entry>>)
    ensures r.Some? <==> SystemScan(es).Some?
    ensures r.Some? ==> |es| <= |r.value| <= |es| + 1 && r.value[|r.value| - |es|..] == es
    ensures r.Some? ==> exists i :: 0 <= i < |r.value| && IsSystem(r.value[i])
  {
    match SystemScan(es)
    case None => None
    case Some(present) =>
      if present then Some(es)
      else
        var out := [SystemEntry(prompt)] + es;
        assert out[|out| - |es|..] == es && IsSystem(out[0]);
        Some(out)
  }

  /** Without a system message the prompt lands at index 0, followed by the
      input unchanged and in order. */
  lemma InjectWhenAbsent(prompt: string, es: seq<Entry>)
    requires PlainObjects(es)
    ensures InjectSystemPrompt(prompt, es).Some?
    ensures var out := InjectSystemPrompt(prompt, es).value;
      |out| == |es| + 1 && out[0] == SystemEntry(prompt) && out[1..] == es
  {
    SystemScanSpec(es);
    assert ([SystemEntry(prompt)] + es)[1..] == es;
  }

  /** With a system message ahead of any `null`, the list goes on unchanged:
      two system messages stay two. */
  lemma InjectWhenPresent(prompt: string, es: seq<Entry>, i: nat)
    requires i < |es| && IsSystem(es[i]) && ObjectsBefore(es, i)
    ensures InjectSystemPrompt(prompt, es) == Some(es)
  {
    SystemScanSpec(es);
  }

  /** Whatever list comes out carries a system message, and injecting again
      leaves it as it is. */
  lemma InjectIdempotent(prompt: string, es: seq<Entry>)
    requires InjectSystemPrompt(prompt, es).Some?
    ensures var out := InjectSystemPrompt(prompt, es).value;
      (exists i :: 0 <= i < |out| && IsSystem(out[i])) && InjectSystemPrompt(prompt, out) == Some(out)
  {
    var out := InjectSystemPrompt(prompt, es).value;
    SystemScanSpec(es);
    if SystemScan(es) == Some(false) {
      assert IsSystem(out[0]) && ObjectsBefore(out, 0);
      InjectWhenPresent(prompt, out, 0);
    } else {
      var i :| 0 <= i < |es| && IsSystem(es[i]) && ObjectsBefore(es, i);
      InjectWhenPresent(prompt, out, i);
    }
  }

  /** The list `handleChatRequest` works on (line 72): the `messages`
      property, `[]` when it is missing; `None` when reading it throws. */
  function MessagesOf(body: RequestBody): (r: Option<seq<Entry>>)
    ensures body == JsonValue(Absent) ==> r == Some([])
    ensures body.JsonValue? && body.messages.ArrayOf? ==> r == Some(body.messages.entries)
    ensures r.Some? <==> body.JsonValue? && !body.messages.NotArray?
  {
    match body
    case Malformed => None
    case JsonNull => None
    case JsonValue(field) =>
      match field
      case Absent => Some([])
      case NotArray => None
      case ArrayOf(es) => Some(es)
  }

  /** `handleChatRequest` (lines 66-110): the model gets the messages with the
      system prompt injected, `ModelId` and 1024 tokens at most, and its raw
      response goes back as it is. Any throw on the way, from the body, the
      system check or the model, ends in the one 500 reply. */
  function HandleChatRequest(body: RequestBody, prompt: string, ai: AiRequest -> AiResult): (r: Response)
    ensures r == ServerError || r.ModelStream?
    ensures r.ModelStream? <==>
      && MessagesOf(body).Some?
      && InjectSystemPrompt(prompt, MessagesOf(body).value).Some?
      && ai(AiRequest(ModelId, InjectSystemPrompt(prompt, MessagesOf(body).value).value, MaxTokens)).AiStream?
    ensures r.ModelStream? ==>
      ai(AiRequest(ModelId, InjectSystemPrompt(prompt, MessagesOf(body).value).value, MaxTokens)) == AiStream(r.handle)
  {
    match MessagesOf(body)
    case None => ServerError
    case Some(es) =>
      match InjectSystemPrompt(prompt, es)
      case None => ServerError
      case Some(messages) =>
        match ai(AiRequest(ModelId, messages, MaxTokens))
        case AiError => ServerError
        case AiStream(handle) => ModelStream(handle)
  }

  /** A body without `messages` reaches the model as the system prompt alone. */
  lemma MissingMessagesGetPromptOnly(prompt: string, ai: AiRequest -> AiResult)
    ensures var r := HandleChatRequest(JsonValue(Absent), prompt, ai);
      r.ModelStream? <==> ai(AiRequest(ModelId, [SystemEntry(prompt)], MaxTokens)).AiStream?
  {
    InjectWhenAbsent(prompt, []);
    assert [SystemEntry(prompt)] + [] == [SystemEntry(prompt)];
  }

  /** The worker's `fetch`: every request gets exactly one of the four
      routes; only POST on `/api/chat` reaches the model. */
  function Fetch(path: string, verb: string, body: RequestBody, prompt: string, ai: AiRequest -> AiResult): (r: Response)
    ensures r == Asset <==> !StartsWith(path, ApiPrefix)
    ensures r == MethodNotAllowed <==> path == ChatPath && verb != "POST"
    ensures r == NotFound <==> StartsWith(path, ApiPrefix) && path != ChatPath
    ensures path == ChatPath && verb == "POST" ==> r == HandleChatRequest(body, prompt, ai)
  {
    match RouteOf(path, verb)
    case ToAssets => Asset
    case ToChat => HandleChatRequest(body, prompt, ai)
    case ToMethodNotAllowed => MethodNotAllowed
    case ToNotFound => NotFound
  }
}
