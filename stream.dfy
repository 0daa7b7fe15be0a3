/** The WebSocket side of app/main.py: `ws_transcribe`. A session reads an
    optional first configuration frame, refuses to start without a model,
    then answers every binary frame with one transcript (or error) and every
    text frame with a configuration update (or error). */
module Stream {
  import opened Wrappers
  import opened Text
  import opened Audio
  import opened Transcription

  // ---------------------------------------------------------------------------
  // Frames and replies
  // ---------------------------------------------------------------------------

  /** The text of a frame after `json.loads`: malformed, or a JSON value. */
  datatype TextPayload = Malformed | Parsed(value: Json)

  /** What the short initial `receive_text` produced: nothing before the
      timeout, a disconnect, a text frame, or a frame that is not text (it
      is consumed and dropped). */
  datatype InitialRead = TimedOut | Disconnected | TextFrame(payload: TextPayload) | OtherFrame

  /** A message of the main loop: a disconnect, or a frame whose `bytes` and
      `text` entries may each be present. */
  datatype Frame = Disconnect | Receive(bytes: Option<Bytes>, text: Option<TextPayload>)

  /** The JSON objects the session sends: {"ok": true, transcript...},
      {"ok": false, "error": ...} and {"ok": true, "msg": "config updated"}. */
  datatype Reply = Transcript(response: Response) | Failed(error: string) | ConfigUpdated

  datatype Phase = AwaitingConfig | Active | Closed

  /** The session's `language` and `initial_prompt`: any JSON value the
      client sent, JNull when unset. */
  datatype StreamConfig = StreamConfig(language: Json, initialPrompt: Json)

  const DEFAULT_CONFIG := StreamConfig(JNull, JNull)
  const INVALID_TEXT_FRAME := "invalid text frame"
  /** WebSocket close code 1013, "try again later". */
  const TRY_AGAIN_LATER: nat := 1013
  /** Every binary frame is written to a temporary file with this suffix. */
  const FRAME_SUFFIX := ".webm"

  // ---------------------------------------------------------------------------
  // Configuration
  // ---------------------------------------------------------------------------

  /** `d.get(key)`: the value, or None when the key is absent. */
  function GetOrNull(fields: map<string, Json>, key: string): (v: Json)
    ensures key in fields ==> v == fields[key]
    ensures key !in fields ==> v == JNull
  {
    if key in fields then fields[key] else JNull
  }

  /** The configuration after the initial read: a JSON object sets both
      fields from its entries (an absent key gives None); anything else
      (timeout, disconnect, malformed text, a non-object such as a list,
      whose missing `.get` raises) leaves the defaults. */
  function InitialConfig(first: InitialRead): (c: StreamConfig)
    ensures !(first.TextFrame? && first.payload.Parsed? && first.payload.value.JObject?) ==> c == DEFAULT_CONFIG
    ensures first.TextFrame? && first.payload.Parsed? && first.payload.value.JObject? ==>
      var fields := first.payload.value.fields;
      c.language == GetOrNull(fields, "language") && c.initialPrompt == GetOrNull(fields, "initial_prompt")
  {
    match first
    case TextFrame(Parsed(JObject(fields))) =>
      StreamConfig(GetOrNull(fields, "language"), GetOrNull(fields, "initial_prompt"))
    case _ => DEFAULT_CONFIG
  }

  /** Python's `key in value` for a parsed JSON value: a key of an object,
      an element of a list, a substring of a string; None when `in` raises
      (numbers, booleans, null). */
  function Mentions(value: Json, key: string): (r: Option<bool>)
    ensures r.None? <==> !(value.JObject? || value.JArray? || value.JString?)
    ensures value.JObject? ==> (r == Some(true) <==> key in value.fields)
    ensures value.JArray? ==> (r == Some(true) <==> exists k :: 0 <= k < |value.items| && value.items[k] == JString(key))
    ensures value.JString? ==> (r == Some(true) <==> exists i: nat :: OccursAt(value.s, key, i))
  {
    match value
    case JObject(fields) => Some(key in fields)
    case JArray(items) => Some(JString(key) in items)
    case JString(s) => Some(Contains(s, key))
    case _ => None
  }

  /** A mid-session text frame. A JSON object overwrites exactly the keys it
      has (a null value included). Any other value either passes both `in`
      tests untouched, giving "config updated" with nothing changed, or
      raises at the first test or at the subscript that follows a true
      test, giving "invalid text frame" (None) with nothing changed. */
  function ConfigUpdate(config: StreamConfig, payload: TextPayload): (r: Option<StreamConfig>)
    ensures payload.Malformed? ==> r.None?
    ensures payload.Parsed? && payload.value.JObject? ==> r.Some?
    ensures r.Some? && !(payload.Parsed? && payload.value.JObject?) ==> r.value == config
    ensures payload.Parsed? && payload.value.JObject? && "language" in payload.value.fields ==>
      r.value.language == payload.value.fields["language"]
    ensures payload.Parsed? && payload.value.JObject? && "initial_prompt" in payload.value.fields ==>
      r.value.initialPrompt == payload.value.fields["initial_prompt"]
    ensures payload.Parsed? && !payload.value.JObject? ==>
      (r.Some? <==> Mentions(payload.value, "language") == Some(false) &&
                    Mentions(payload.value, "initial_prompt") == Some(false))
    ensures r.Some? ==> payload.Parsed? && Mentions(payload.value, "language") == Some(false) ==>
      r.value.language == config.language
    ensures r.Some? ==> payload.Parsed? && Mentions(payload.value, "initial_prompt") == Some(false) ==>
      r.value.initialPrompt == config.initialPrompt
  {
    match payload
    case Malformed => None
    case Parsed(JObject(fields)) =>
      Some(StreamConfig(
        if "language" in fields then fields["language"] else config.language,
        if "initial_prompt" in fields then fields["initial_prompt"] else config.initialPrompt))
    case Parsed(v) =>
      match (Mentions(v, "language"), Mentions(v, "initial_prompt"))
      case (Some(false), Some(false)) => Some(config)
      case _ => None
  }

  /** The initial read and a mid-session update agree when started from the
      defaults: `cfg.get` on an absent key gives the default None, and a
      frame the initial read ignores either fails or changes nothing. */
  lemma InitialIsUpdateOfDefaults(p: TextPayload)
    ensures InitialConfig(TextFrame(p)) == ConfigUpdate(DEFAULT_CONFIG, p).GetOr(DEFAULT_CONFIG)
  {
  }

  /** Sending the same update twice is the same as sending it once. */
  lemma ConfigUpdateIdempotent(config: StreamConfig, p: TextPayload)
    requires ConfigUpdate(config, p).Some?
    ensures ConfigUpdate(ConfigUpdate(config, p).value, p) == ConfigUpdate(config, p)
  {
  }

  /** An object naming both keys determines the configuration whatever it
      was before. */
  lemma ConfigUpdateOverwrites(a: StreamConfig, b: StreamConfig, fields: map<string, Json>)
    requires "language" in fields && "initial_prompt" in fields
    ensures ConfigUpdate(a, Parsed(JObject(fields))) == ConfigUpdate(b, Parsed(JObject(fields)))
    ensures ConfigUpdate(a, Parsed(JObject(fields))).value ==
      StreamConfig(fields["language"], fields["initial_prompt"])
  {
  }

  /** {"initial_prompt": "hello"} keeps the language; {"language": null}
      switches back to auto-detection. */
  lemma PartialUpdateExamples(config: StreamConfig)
    ensures ConfigUpdate(config, Parsed(JObject(map["initial_prompt" := JString("hello")]))) ==
      Some(StreamConfig(config.language, JString("hello")))
    ensures ConfigUpdate(config, Parsed(JObject(map["language" := JNull]))) ==
      Some(StreamConfig(JNull, config.initialPrompt))
  {
    var m := map["initial_prompt" := JString("hello")];
    assert "language" !in m;
  }

  /** A list naming a key raises at the subscript; a number raises at the
      `in` test. */
  lemma NonObjectUpdateExamples(config: StreamConfig)
    ensures ConfigUpdate(config, Parsed(JArray([JString("language")]))) == None
    ensures ConfigUpdate(config, Parsed(JArray([]))) == Some(config)
    ensures ConfigUpdate(config, Parsed(JNumber(1.0))) == None
  {
  }

  /** A JSON string is searched as text: one that contains neither key name
      is accepted with nothing changed, one that contains a key name is an
      invalid text frame. */
  lemma StringUpdateExamples(config: StreamConfig, s: string)
    ensures !Contains(s, "language") && !Contains(s, "initial_prompt") ==>
      ConfigUpdate(config, Parsed(JString(s))) == Some(config)
    ensures Contains(s, "language") ==> ConfigUpdate(config, Parsed(JString(s))) == None
  {
  }

  // ---------------------------------------------------------------------------
  // Binary frames
  // ---------------------------------------------------------------------------

  /** The reply to a binary frame: the transcript, or the exception's text. */
  function CycleReply(c: Cycle): (r: Reply)
    ensures r.Transcript? <==> c.result.Success?
    ensures r.Transcript? ==> r.response == c.result.value
    ensures r.Failed? ==> c.result.Failure? && r.error == c.result.error.message
    ensures !r.ConfigUpdated?
  {
    match c.result
    case Success(resp) => Transcript(resp)
    case Failure(e) => Failed(e.message)
  }

  /** A failed conversion reaches the client with ffmpeg's own message. */
  lemma FormatErrorReply(inPath: string, ffmpeg: seq<string> -> Process, engine: Engine, config: StreamConfig)
    requires var proc := ffmpeg(FfmpegCommand(inPath)); proc.Exited? && proc.returncode != 0
    ensures CycleReply(ConvertAndTranscribe(inPath, ffmpeg, engine, config.language, config.initialPrompt)) ==
      Failed(CONVERSION_FAILED_PREFIX + ffmpeg(FfmpegCommand(inPath)).stderr)
  {
  }

  /** The body of the loop for a binary frame: write the bytes to a fresh
      temporary file (the session names it `stem + ".webm"`), run one cycle with the session's settings, and in
      the `finally` remove both temporary paths. */
  method TranscribeFrame(fs: FileSystem, raw: Bytes, path: string, ffmpeg: seq<string> -> Process,
                         engine: Engine, config: StreamConfig)
    returns (reply: Reply)
    requires path !in fs.files
    modifies fs`files
    ensures reply == CycleReply(ConvertAndTranscribe(path, ffmpeg, engine, config.language, config.initialPrompt))
    ensures fs.files == CycleFiles(old(fs.files), path, raw, ffmpeg(FfmpegCommand(path)), fs.undeletable)
  {
    var inPath: Option<string> := None;
    var outWav: Option<string> := None;
    fs.Create(path);
    fs.Append(path, raw);
    ghost var written := old(fs.files)[path := raw];
    assert fs.files == written by { assert [] + raw == raw; }
    inPath := Some(path);
    var out, result := RunCycle(fs, path, ffmpeg, engine, config.language, config.initialPrompt);
    outWav := out;
    reply := CycleReply(Cycle(out, result));
    ghost var converted := fs.files;
    CleanupPaths(fs, [inPath, outWav]);
    assert fs.files == AfterCleanup(converted, [Some(path), ConvertedPath(path, ffmpeg(FfmpegCommand(path)))], fs.undeletable);
  }

  // ---------------------------------------------------------------------------
  // The session
  // ---------------------------------------------------------------------------

  /** One accepted WebSocket connection. */
  class Session {
    var language: Json
    var initialPrompt: Json
    var phase: Phase

    /** `websocket.accept()`, with both settings None. */
    constructor Accept()
      ensures language == JNull && initialPrompt == JNull && phase == AwaitingConfig
    {
      language := JNull;
      initialPrompt := JNull;
      phase := AwaitingConfig;
    }

    function Config(): StreamConfig
      reads this
    {
      StreamConfig(language, initialPrompt)
    }

    /** The initial read and the model check. A disconnect ends the session
        silently; without a model the client gets "Model not ready" and the
        socket is closed with code 1013; otherwise the loop starts. */
    method Start(first: InitialRead, modelReady: bool) returns (reply: Option<Reply>, closeCode: Option<nat>)
      requires phase == AwaitingConfig
      modifies this
      ensures Config() == InitialConfig(first)
      ensures first.Disconnected? ==> phase == Closed && reply.None? && closeCode.None?
      ensures !first.Disconnected? && !modelReady ==>
        phase == Closed && reply == Some(Failed(MODEL_NOT_READY)) && closeCode == Some(TRY_AGAIN_LATER)
      ensures !first.Disconnected? && modelReady ==> phase == Active && reply.None? && closeCode.None?
    {
      language := JNull;
      initialPrompt := JNull;
      match first {
        case Disconnected =>
          phase := Closed;
          return None, None;
        case TextFrame(Parsed(JObject(cfg))) =>
          language := GetOrNull(cfg, "language");
          initialPrompt := GetOrNull(cfg, "initial_prompt");
        case _ =>
      }
      if !modelReady {
        phase := Closed;
        return Some(Failed(MODEL_NOT_READY)), Some(TRY_AGAIN_LATER);
      }
      phase := Active;
      reply, closeCode := None, None;
    }

    /** One turn of the main loop. A disconnect ends it. A frame with bytes
        is transcribed (bytes win over text): the bytes go to a fresh
        `stem + ".webm"`, one cycle runs with the current settings, exactly
        one reply is sent and both temporary paths are cleaned up. A text
        frame updates the settings. A frame with neither is ignored. */
    method Step(frame: Frame, fs: FileSystem, stem: string, ffmpeg: seq<string> -> Process, engine: Engine)
      returns (reply: Option<Reply>)
      requires phase == Active
      requires frame.Receive? && frame.bytes.Some? ==> stem + FRAME_SUFFIX !in fs.files
      modifies this, fs`files
      ensures frame.Disconnect? ==>
        phase == Closed && reply.None? && Config() == old(Config()) && fs.files == old(fs.files)
      ensures frame.Receive? ==> phase == Active
      ensures frame.Receive? && frame.bytes.Some? ==>
        var inPath := stem + FRAME_SUFFIX;
        reply == Some(CycleReply(ConvertAndTranscribe(inPath, ffmpeg, engine, old(language), old(initialPrompt)))) &&
        Config() == old(Config()) &&
        fs.files == CycleFiles(old(fs.files), inPath, frame.bytes.value, ffmpeg(FfmpegCommand(inPath)), fs.undeletable)
      ensures frame.Receive? && frame.bytes.None? && frame.text.Some? ==>
        fs.files == old(fs.files) &&
        var update := ConfigUpdate(old(Config()), frame.text.value);
        (update.Some? ==> reply == Some(ConfigUpdated) && Config() == update.value) &&
        (update.None? ==> reply == Some(Failed(INVALID_TEXT_FRAME)) && Config() == old(Config()))
      ensures frame.Receive? && frame.bytes.None? && frame.text.None? ==>
        reply.None? && Config() == old(Config()) && fs.files == old(fs.files)
    {
      match frame {
        case Disconnect =>
          phase := Closed;
          reply := None;
        case Receive(Some(raw), _) =>
          var r := TranscribeFrame(fs, raw, stem + FRAME_SUFFIX, ffmpeg, engine, Config());
          reply := Some(r);
        case Receive(None, Some(payload)) =>
          var update := ConfigUpdate(Config(), payload);
          match update {
            case Some(c) =>
              language, initialPrompt := c.language, c.initialPrompt;
              reply := Some(ConfigUpdated);
            case None =>
              reply := Some(Failed(INVALID_TEXT_FRAME));
          }
        case Receive(None, None) =>
          reply := None;
      }
    }
  }
}
