/** The two relay endpoints: `chat` (backend.py:124-136, 154-167), which wraps the
    user's text in a fixed prompt for the local model and cleans its reply, and
    `eleven_tts` (backend.py:199-243), which checks its input and its credential
    before forwarding the text to the speech service. The services themselves are
    parameters: `ask` is the model server, `synth` the speech service. */
module Relays {
  import opened Wrappers
  import opened PyText
  import opened Think

  /** A JSON value as far as the endpoints look at it: a string, or anything else
      together with its Python truthiness. */
  datatype Json = JString(s: string) | JOther(truthy: bool)

  type JsonObject = map<string, Json>

  // ---------- chat ----------

  const SystemPrompt: string :=
    "You are Adan AI. Be concise, helpful, and reply in English. "
    + "Avoid hallucinations; ask a brief question if context is missing."

  const PromptHead: string := SystemPrompt + "\n\nUser: "
  const PromptTail: string := "\nAssistant:"

  /** `text = body.get("text", "")`, stripped if it is a string, "" otherwise. */
  function ChatText(body: JsonObject): (t: string)
    ensures Trimmed(t)
    ensures t == "" <==> "text" !in body || !body["text"].JString? || AllSpace(body["text"].s)
  {
    if "text" in body && body["text"].JString? then Strip(body["text"].s) else ""
  }

  /** The prompt: the system text, a blank line, the user's turn and the cue for
      the assistant's turn. */
  function BuildPrompt(text: string): string
  {
    PromptHead + text + PromptTail
  }

  /** The user's text sits unchanged between the fixed head and tail, so
      different texts give different prompts. */
  lemma PromptCarriesText(text: string)
    ensures |BuildPrompt(text)| == |PromptHead| + |text| + |PromptTail|
    ensures BuildPrompt(text)[..|PromptHead|] == PromptHead
    ensures BuildPrompt(text)[|PromptHead|..|PromptHead| + |text|] == text
    ensures BuildPrompt(text)[|PromptHead| + |text|..] == PromptTail
  {
  }

  lemma PromptInjective(a: string, b: string)
    requires BuildPrompt(a) == BuildPrompt(b)
    ensures a == b
  {
    PromptCarriesText(a);
    PromptCarriesText(b);
  }

  /** What the model server gave back: the `response` field of its JSON reply
      (`None` when the reply is falsy, so that `data or {}` reads it as `{}`, or
      the field is missing), or the exception the call raised, including the one
      `.get` raises on a truthy reply that is not an object. */
  datatype ModelReply = Answered(response: Option<Json>) | Failed(cause: string)

  /** `ollama_generate`: the response, "" when missing or falsy, with its
      reasoning spans removed and trimmed; any exception, including `strip_think`
      refusing a truthy non-string, becomes a 500. `typeError` is the message of
      that refusal. */
  function OllamaGenerate(reply: ModelReply, typeError: string): (r: Result<string, HttpError>)
    ensures r.Success? ==> Trimmed(r.value)
    ensures r.Failure? ==> r.error.status == 500
    ensures reply.Answered? && reply.response == Some(JString("")) ==> r == Success("")
    ensures reply.Answered? && reply.response.Some? && reply.response.value.JString? ==>
      r == Success(StripThink(Some(reply.response.value.s)))
    ensures reply.Answered? && (reply.response.None? || reply.response == Some(JOther(false))) ==> r == Success("")
    ensures reply == Answered(Some(JOther(true))) ==> r == Failure(HttpError(500, "Ollama error: " + typeError))
    ensures reply.Failed? ==> r == Failure(HttpError(500, "Ollama error: " + reply.cause))
  {
    if reply.Failed? then Failure(HttpError(500, "Ollama error: " + reply.cause))
    else if reply.response.None? then Success(StripThink(Some("")))
    else if reply.response.value.JString? then Success(StripThink(Some(reply.response.value.s)))
    else if reply.response.value.truthy then Failure(HttpError(500, "Ollama error: " + typeError))
    else Success(StripThink(None))
  }

  /** `chat(body)`: the reply text, or the error of the model call. Without usable
      text the reply is ""; a reply has no surrounding whitespace; an error is a
      500. */
  function Chat(body: JsonObject, ask: string -> ModelReply, typeError: string): (r: Result<string, HttpError>)
    ensures ChatText(body) == "" ==> r == Success("")
    ensures r.Success? ==> Trimmed(r.value)
    ensures r.Failure? ==> r.error.status == 500
  {
    var text := ChatText(body);
    if text == "" then Success("") else OllamaGenerate(ask(BuildPrompt(text)), typeError)
  }

  /** Without usable text the reply is "" and the model is not consulted: the
      outcome is the same whatever the model would say. */
  lemma ChatFastPath(body: JsonObject, ask: string -> ModelReply, other: string -> ModelReply, e: string)
    requires "text" !in body || !body["text"].JString? || AllSpace(body["text"].s)
    ensures Chat(body, ask, e) == Chat(body, other, e) == Success("")
  {
  }

  /** With usable text the model is asked exactly the prompt built from the
      stripped text, and the reply is its response cleaned by `strip_think`. */
  lemma ChatAsksModel(body: JsonObject, ask: string -> ModelReply, e: string, s: string)
    requires "text" in body && body["text"].JString? && !AllSpace(body["text"].s)
    requires ask(BuildPrompt(Strip(body["text"].s))) == Answered(Some(JString(s)))
    ensures Chat(body, ask, e) == Success(StripThink(Some(s)))
  {
  }

  /** A failing model call surfaces as a 500 naming the cause. */
  lemma ChatModelFails(body: JsonObject, ask: string -> ModelReply, e: string, cause: string)
    requires "text" in body && body["text"].JString? && !AllSpace(body["text"].s)
    requires ask(BuildPrompt(Strip(body["text"].s))) == Failed(cause)
    ensures Chat(body, ask, e) == Failure(HttpError(500, "Ollama error: " + cause))
  {
  }

  // ---------- tts ----------

  const DefaultVoice: string := "21m00Tcm4TlvDq8ikWAM"
  const TtsEndpoint: string := "https://api.elevenlabs.io/v1/text-to-speech/"
  const TtsModel: string := "eleven_monolingual_v1"

  /** The text to speak: the form field when it is non-empty, else the JSON body's
      `text` when the body is a non-empty object; `None` when there is neither. */
  function TtsText(form: Option<string>, body: Option<JsonObject>): (t: Option<Json>)
    ensures form.Some? && form.value != "" ==> t == Some(JString(form.value))
    ensures (form.None? || form == Some("")) && body.Some? && "text" in body.value ==>
      t == Some(body.value["text"])
  {
    if form.Some? && form.value != "" then Some(JString(form.value))
    else if body.Some? && |body.value| > 0 then
      (if "text" in body.value then Some(body.value["text"]) else None)
    else if form.Some? then Some(JString(form.value))
    else None
  }

  /** The text that passes `not text or not isinstance(text, str) or not
      text.strip()`, passed on as received, not stripped; `None` when the check
      fails. */
  function SpeakableText(t: Option<Json>): (r: Option<string>)
    ensures r.Some? <==> t.Some? && t.value.JString? && t.value.s != "" && Strip(t.value.s) != ""
    ensures r.Some? ==> t == Some(JString(r.value))
  {
    if t.Some? && t.value.JString? && !AllSpace(t.value.s) then Some(t.value.s) else None
  }

  /** `ELEVEN_VOICE_ID or "21m00Tcm4TlvDq8ikWAM"`. */
  function VoiceId(voiceEnv: Option<string>): (v: string)
    ensures v != ""
    ensures voiceEnv.Some? && voiceEnv.value != "" ==> v == voiceEnv.value
    ensures voiceEnv.None? || voiceEnv == Some("") ==> v == DefaultVoice
  {
    if voiceEnv.Some? && voiceEnv.value != "" then voiceEnv.value else DefaultVoice
  }

  /** The request sent to the speech service. */
  datatype TtsRequest = TtsRequest(url: string, apiKey: string, text: string, modelId: string)

  /** The speech service's answer, or the transport exception of the call. */
  datatype Upstream = Responded(status: int, body: string, content: seq<bv8>) | TransportError(cause: string)

  /** The endpoint's answer: the audio stream, an HTTP error, or an exception the
      endpoint does not catch. */
  datatype TtsOutcome = Audio(bytes: seq<bv8>) | Rejected(error: HttpError) | Unhandled(cause: string)

  const MissingText: HttpError := HttpError(400, "Missing 'text'.")
  const MissingKey: HttpError := HttpError(500, "ELEVEN_API_KEY not set in environment.")

  /** A relayed service error never reads like one of the endpoint's own. */
  lemma UpstreamErrorDistinct(detail: string)
    ensures "ElevenLabs error: " + detail != MissingText.detail
    ensures "ElevenLabs error: " + detail != MissingKey.detail
  {
    var d := "ElevenLabs error: " + detail;
    assert d[0] == 'E' && d[1] == 'l';
    assert MissingText.detail[0] == 'M';
    assert MissingKey.detail[1] == 'L';
  }

  /** `eleven_tts(text_form, body)`. */
  function Tts(form: Option<string>, body: Option<JsonObject>, apiKey: Option<string>,
               voiceEnv: Option<string>, synth: TtsRequest -> Upstream): (r: TtsOutcome)
    ensures SpeakableText(TtsText(form, body)).None? <==> r == Rejected(MissingText)
    ensures r == Rejected(MissingKey) ==> apiKey.None? || apiKey == Some("")
  {
    match SpeakableText(TtsText(form, body))
    case None => Rejected(MissingText)
    case Some(text) =>
      if apiKey.None? || apiKey.value == "" then Rejected(MissingKey)
      else
        var request := TtsRequest(TtsEndpoint + VoiceId(voiceEnv), apiKey.value, text, TtsModel);
        match synth(request)
        case TransportError(cause) => Unhandled(cause)
        case Responded(status, detail, content) =>
          UpstreamErrorDistinct(detail);
          if status != 200 then Rejected(HttpError(status, "ElevenLabs error: " + detail))
          else Audio(content)
  }

  /** A non-empty form field wins over the JSON body, whatever the body holds. */
  lemma FormTakesPrecedence(s: string, body: Option<JsonObject>, other: Option<JsonObject>,
                            apiKey: Option<string>, voiceEnv: Option<string>, synth: TtsRequest -> Upstream)
    requires s != ""
    ensures Tts(Some(s), body, apiKey, voiceEnv, synth) == Tts(Some(s), other, apiKey, voiceEnv, synth)
  {
    assert TtsText(Some(s), body) == TtsText(Some(s), other) == Some(JString(s));
  }

  /** A form field of blanks is not empty, so it is used, and refused, even when
      the JSON body carries good text. */
  lemma BlankFormShadowsBody(s: string, body: Option<JsonObject>,
                             apiKey: Option<string>, voiceEnv: Option<string>, synth: TtsRequest -> Upstream)
    requires s != "" && AllSpace(s)
    ensures Tts(Some(s), body, apiKey, voiceEnv, synth) == Rejected(MissingText)
  {
  }

  /** Without a form field, the body's `text` is spoken. */
  lemma BodyTextUsed(form: Option<string>, body: JsonObject, s: string)
    requires form.None? || form == Some("")
    requires "text" in body && body["text"] == JString(s) && !AllSpace(s)
    ensures SpeakableText(TtsText(form, Some(body))) == Some(s)
  {
  }

  /** The text is checked before the key: bad text is a 400 whether or not a key
      is configured, and without ever calling the service. */
  lemma TextCheckedFirst(form: Option<string>, body: Option<JsonObject>, apiKey: Option<string>,
                         voiceEnv: Option<string>, synth: TtsRequest -> Upstream)
    requires SpeakableText(TtsText(form, body)).None?
    ensures Tts(form, body, apiKey, voiceEnv, synth) == Rejected(MissingText)
    ensures Tts(form, body, apiKey, voiceEnv, synth) == Tts(form, body, None, voiceEnv, synth)
  {
  }

  /** Good text without a key is a 500, and the service is not called. */
  lemma KeyCheckedSecond(form: Option<string>, body: Option<JsonObject>, apiKey: Option<string>,
                         voiceEnv: Option<string>, synth: TtsRequest -> Upstream, other: TtsRequest -> Upstream)
    requires SpeakableText(TtsText(form, body)).Some?
    requires apiKey.None? || apiKey == Some("")
    ensures Tts(form, body, apiKey, voiceEnv, synth) == Tts(form, body, apiKey, voiceEnv, other) == Rejected(MissingKey)
  {
  }

  /** With good text and a key, the service receives the text as given (not
      stripped) at the voice's URL; a non-200 answer is passed on with its status
      and body, a 200 answer's bytes are streamed unchanged. */
  lemma UpstreamRelayed(form: Option<string>, body: Option<JsonObject>, key: string,
                        voiceEnv: Option<string>, synth: TtsRequest -> Upstream, text: string)
    requires SpeakableText(TtsText(form, body)) == Some(text) && key != ""
    ensures var request := TtsRequest(TtsEndpoint + VoiceId(voiceEnv), key, text, TtsModel);
      match synth(request)
      case Responded(status, detail, content) =>
        Tts(form, body, Some(key), voiceEnv, synth)
          == (if status == 200 then Audio(content) else Rejected(HttpError(status, "ElevenLabs error: " + detail)))
      case TransportError(cause) => Tts(form, body, Some(key), voiceEnv, synth) == Unhandled(cause)
  {
  }
}
