/** What the HTTP endpoint and the WebSocket session share in app/main.py:
    the Whisper engine as an oracle, the filtering of its segments and the
    assembly of the transcript (written twice in the source, once per
    endpoint), and one convert-then-transcribe cycle with its cleanup. */
module Transcription {
  import opened Wrappers
  import opened Text
  import opened Audio

  /** Segment offsets and the duration are floats the service only copies. */
  type Seconds

  datatype Segment = Segment(start: Seconds, end: Seconds, text: string)

  /** A JSON value as `json.loads` returns it; JNull is Python's None. */
  datatype Json =
    | JNull
    | JBool(b: bool)
    | JNumber(n: real)
    | JString(s: string)
    | JArray(items: seq<Json>)
    | JObject(fields: map<string, Json>)

  /** An optional text parameter as the JSON value Python passes on. */
  function OptionalText(o: Option<string>): Json {
    match o
    case None => JNull
    case Some(s) => JString(s)
  }

  // ---------------------------------------------------------------------------
  // The engine
  // ---------------------------------------------------------------------------

  /** The attributes the service reads from the engine's info object; None
      when the attribute is missing (the `getattr` default applies). */
  datatype Info = Info(language: Option<string>, duration: Option<Seconds>)

  /** The arguments of `MODEL.transcribe`. */
  datatype TranscribeRequest = TranscribeRequest(
    audioPath: string, language: Json, initialPrompt: Json,
    vadFilter: bool, beamSize: nat, conditionOnPreviousText: bool)

  /** Both endpoints use the same inference policy: voice-activity filter on,
      beam width 5, no conditioning on earlier text. */
  function EngineRequest(audioPath: string, language: Json, initialPrompt: Json): (req: TranscribeRequest)
    ensures req.audioPath == audioPath && req.language == language && req.initialPrompt == initialPrompt
    ensures req.vadFilter && req.beamSize == 5 && !req.conditionOnPreviousText
  {
    TranscribeRequest(audioPath, language, initialPrompt, true, 5, false)
  }

  /** The engine either raises or yields its segments and info. */
  datatype EngineResult =
    | EngineFailed(message: string)
    | Transcribed(segments: seq<Segment>, info: Info)

  type Engine = TranscribeRequest -> EngineResult

  // ---------------------------------------------------------------------------
  // Segment filtering and the transcript
  // ---------------------------------------------------------------------------

  /** A segment whose text is not blank once stripped. */
  predicate Spoken(s: Segment) {
    Strip(s.text) != ""
  }

  /** The output form of a segment: same offsets, stripped text. */
  function Trimmed(s: Segment): Segment {
    Segment(s.start, s.end, Strip(s.text))
  }

  /** The spoken segments, trimmed, in their original order. */
  function KeptSegments(segs: seq<Segment>): (kept: seq<Segment>)
    ensures |kept| <= |segs|
    ensures forall k :: 0 <= k < |kept| ==> kept[k].text != "" && IsStripped(kept[k].text)
  {
    if segs == [] then []
    else
      var last := segs[|segs| - 1];
      var rest := KeptSegments(segs[..|segs| - 1]);
      if Spoken(last) then
        var t := Trimmed(last);
        assert t.text != "" && IsStripped(t.text);
        rest + [t]
      else rest
  }

  function Texts(segs: seq<Segment>): (texts: seq<string>)
    ensures |texts| == |segs|
    ensures forall k :: 0 <= k < |segs| ==> texts[k] == segs[k].text
  {
    seq(|segs|, k requires 0 <= k < |segs| => segs[k].text)
  }

  lemma TextsAppend(segs: seq<Segment>, s: Segment)
    ensures Texts(segs + [s]) == Texts(segs) + [s.text]
  {
  }

  /** Filtering distributes over concatenation: what is kept of a + b is what
      is kept of a followed by what is kept of b, so the order is preserved. */
  lemma {:induction false} KeptAppend(a: seq<Segment>, b: seq<Segment>)
    ensures KeptSegments(a + b) == KeptSegments(a) + KeptSegments(b)
    decreases |b|
  {
    if b != [] {
      var b' := b[..|b| - 1];
      assert (a + b)[..|a + b| - 1] == a + b';
      KeptAppend(a, b');
    } else {
      assert a + b == a;
    }
  }

  /** Each input segment contributes, in its place, its trimmed self when it
      is spoken and nothing otherwise ... */
  lemma KeptInPlace(before: seq<Segment>, s: Segment, after: seq<Segment>)
    ensures KeptSegments(before + [s] + after) ==
      KeptSegments(before) + (if Spoken(s) then [Trimmed(s)] else []) + KeptSegments(after)
  {
    KeptAppend(before + [s], after);
    KeptAppend(before, [s]);
    KeptSingle(s);
  }

  lemma KeptSingle(s: Segment)
    ensures KeptSegments([s]) == if Spoken(s) then [Trimmed(s)] else []
  {
    assert [s][..0] == [];
  }

  /** ... and every output segment is a trimmed spoken input segment. */
  lemma {:induction false} KeptOnlySpoken(segs: seq<Segment>, s: Segment) returns (i: nat)
    requires s in KeptSegments(segs)
    ensures i < |segs| && Spoken(segs[i]) && s == Trimmed(segs[i])
  {
    var init := segs[..|segs| - 1];
    if s in KeptSegments(init) {
      i := KeptOnlySpoken(init, s);
      assert init[i] == segs[i];
    } else {
      i := |segs| - 1;
    }
  }

  /** The loop that both endpoints run over the engine's segments: append the
      stripped text and the segment to `parts` and `segs_out` when the
      stripped text is not empty. */
  method AssembleSegments(segments: seq<Segment>) returns (parts: seq<string>, segsOut: seq<Segment>)
    ensures segsOut == KeptSegments(segments)
    ensures parts == Texts(segsOut)
  {
    parts, segsOut := [], [];
    for i := 0 to |segments|
      invariant segsOut == KeptSegments(segments[..i])
      invariant parts == Texts(segsOut)
    {
      var seg := segments[i];
      assert segments[..i + 1][..i] == segments[..i];
      assert segments[..i + 1][i] == seg;
      var txt := Strip(seg.text);
      if txt != "" {
        TextsAppend(segsOut, Segment(seg.start, seg.end, txt));
        parts := parts + [txt];
        segsOut := segsOut + [Segment(seg.start, seg.end, txt)];
      }
    }
    assert segments[..|segments|] == segments;
  }

  // ---------------------------------------------------------------------------
  // The response
  // ---------------------------------------------------------------------------

  /** The successful result of a cycle (the HTTP body, or the WebSocket reply
      without its "ok" field). */
  datatype Response = Response(language: Json, duration: Option<Seconds>, transcript: string, segments: seq<Segment>)

  /** `getattr(info, "language", language)`: the engine's language if it has
      one, else the requested one. */
  function ReportedLanguage(info: Info, requested: Json): (l: Json)
    ensures info.language.Some? ==> l == JString(info.language.value)
    ensures info.language.None? ==> l == requested
  {
    match info.language
    case Some(l) => JString(l)
    case None => requested
  }

  /** The response built from the engine's segments. Its transcript is the
      kept texts joined by single spaces (the source's final `strip()` changes
      nothing), and it is empty exactly when no segment was kept. */
  function BuildResponse(segments: seq<Segment>, info: Info, requested: Json): (r: Response)
    ensures r.segments == KeptSegments(segments)
    ensures r.transcript == JoinOn(Texts(r.segments), ' ')
    ensures r.transcript == "" <==> r.segments == []
    ensures IsStripped(r.transcript)
    ensures info.language.Some? ==> r.language == JString(info.language.value)
    ensures info.language.None? ==> r.language == requested
    ensures r.duration == info.duration
  {
    var kept := KeptSegments(segments);
    JoinOfStrippedParts(Texts(kept));
    Response(ReportedLanguage(info, requested), info.duration, Strip(JoinOn(Texts(kept), ' ')), kept)
  }

  // ---------------------------------------------------------------------------
  // One convert-then-transcribe cycle
  // ---------------------------------------------------------------------------

  /** The detail of the 503 reply and the WebSocket error when no model is
      loaded. */
  const MODEL_NOT_READY := "Model not ready"

  /** Why a cycle failed: the RuntimeError of a failed conversion, or any
      other exception (ffmpeg not startable, the engine raising). */
  datatype CycleError = FormatError(message: string) | Fault(message: string)

  /** The outcome of a cycle: the value `out_wav` ends with, and the result. */
  datatype Cycle = Cycle(outWav: Option<string>, result: Result<Response, CycleError>)

  /** The path `out_wav` holds after the conversion: set only when it returned. */
  function ConvertedPath(inPath: string, proc: Process): (out: Option<string>)
    ensures out.Some? <==> ConversionOutcome(inPath, proc).Converted?
    ensures out.Some? ==> out.value == OutputPath(inPath)
  {
    match ConversionOutcome(inPath, proc)
    case Converted(p) => Some(p)
    case _ => None
  }

  /** Convert `inPath`, then transcribe the canonical audio. A conversion
      that exits non-zero is a FormatError carrying ffmpeg's stderr; ffmpeg
      that cannot start, or an engine that raises, is a Fault; otherwise the
      response is built from the engine's segments. */
  function ConvertAndTranscribe(inPath: string, ffmpeg: seq<string> -> Process, engine: Engine,
                                language: Json, initialPrompt: Json): (c: Cycle)
    ensures c.outWav == ConvertedPath(inPath, ffmpeg(FfmpegCommand(inPath)))
    ensures c.result.Failure? && c.result.error.FormatError? <==>
      var proc := ffmpeg(FfmpegCommand(inPath));
      proc.Exited? && proc.returncode != 0
    ensures c.result.Failure? && c.result.error.FormatError? ==>
      c.result.error.message == CONVERSION_FAILED_PREFIX + ffmpeg(FfmpegCommand(inPath)).stderr
    ensures c.result.Failure? && c.result.error.Fault? && ffmpeg(FfmpegCommand(inPath)).SpawnFailed? ==>
      c.result.error.message == ffmpeg(FfmpegCommand(inPath)).message
    ensures c.result.Failure? && c.result.error.Fault? && !ffmpeg(FfmpegCommand(inPath)).SpawnFailed? ==>
      c.outWav.Some? &&
      engine(EngineRequest(c.outWav.value, language, initialPrompt)) == EngineFailed(c.result.error.message)
    ensures c.result.Success? <==>
      c.outWav.Some? && engine(EngineRequest(c.outWav.value, language, initialPrompt)).Transcribed?
    ensures c.result.Success? ==>
      var res := engine(EngineRequest(c.outWav.value, language, initialPrompt));
      c.result.value == BuildResponse(res.segments, res.info, language)
  {
    match ConversionOutcome(inPath, ffmpeg(FfmpegCommand(inPath)))
    case SpawnError(m) => Cycle(None, Failure(Fault(m)))
    case ConversionFailed(m) => Cycle(None, Failure(FormatError(m)))
    case Converted(out) =>
      match engine(EngineRequest(out, language, initialPrompt))
      case EngineFailed(m) => Cycle(Some(out), Failure(Fault(m)))
      case Transcribed(segs, info) => Cycle(Some(out), Success(BuildResponse(segs, info, language)))
  }

  /** The part of both endpoints' `try` blocks after the input file exists:
      convert, transcribe, assemble. `outWav` is what the caller's `finally`
      hands to `cleanup_paths`. */
  method RunCycle(fs: FileSystem, inPath: string, ffmpeg: seq<string> -> Process, engine: Engine,
                  language: Json, initialPrompt: Json)
    returns (outWav: Option<string>, result: Result<Response, CycleError>)
    modifies fs`files
    ensures Cycle(outWav, result) == ConvertAndTranscribe(inPath, ffmpeg, engine, language, initialPrompt)
    ensures fs.files == FfmpegEffect(old(fs.files), inPath, ffmpeg(FfmpegCommand(inPath)))
  {
    outWav := None;
    var conv := ConvertToWav16kMono(fs, inPath, ffmpeg);
    match conv {
      case SpawnError(m) =>
        result := Failure(Fault(m));
      case ConversionFailed(m) =>
        result := Failure(FormatError(m));
      case Converted(out) =>
        outWav := Some(out);
        var res := engine(EngineRequest(out, language, initialPrompt));
        match res {
          case EngineFailed(m) =>
            result := Failure(Fault(m));
          case Transcribed(segments, info) =>
            var parts, segsOut := AssembleSegments(segments);
            var response := Response(ReportedLanguage(info, language), info.duration,
                                     Strip(JoinOn(parts, ' ')), segsOut);
            assert response == BuildResponse(segments, info, language);
            result := Success(response);
        }
    }
  }

  /** The file system after a cycle whose input `inPath` was written with
      `data`: ffmpeg's effect, then `cleanup_paths(in_path, out_wav)`. */
  function CycleFiles(files: map<string, Bytes>, inPath: string, data: Bytes, proc: Process,
                      undeletable: set<string>): (after: map<string, Bytes>)
    ensures inPath != "" && inPath !in undeletable ==> inPath !in after
    ensures forall p :: p != inPath && p != OutputPath(inPath) ==> (p in after <==> p in files)
    ensures forall p :: p in after && p != inPath && p != OutputPath(inPath) ==> after[p] == files[p]
  {
    var paths := [Some(inPath), ConvertedPath(inPath, proc)];
    CycleTargets(inPath, proc, undeletable);
    AfterCleanup(FfmpegEffect(files[inPath := data], inPath, proc), paths, undeletable)
  }

  /** The finally removes the input (when removable) and at most its output. */
  lemma CycleTargets(inPath: string, proc: Process, undeletable: set<string>)
    ensures var targets := CleanupTargets([Some(inPath), ConvertedPath(inPath, proc)], undeletable);
      (inPath != "" && inPath !in undeletable ==> inPath in targets) &&
      forall q :: q in targets ==> q == inPath || q == OutputPath(inPath)
  {
    var paths := [Some(inPath), ConvertedPath(inPath, proc)];
    assert paths[0] == Some(inPath);
  }

  /** A cycle on a fresh input path removes every file it created, except one:
      when ffmpeg exits non-zero after writing part of its output, `out_wav`
      was never set, so `inPath + ".wav"` is left behind. Nothing else in the
      file system changes. */
  lemma CycleCleanup(files: map<string, Bytes>, inPath: string, data: Bytes, proc: Process,
                     undeletable: set<string>)
    requires inPath != "" && inPath !in files && OutputPath(inPath) !in files
    requires inPath !in undeletable && OutputPath(inPath) !in undeletable
    ensures var after := CycleFiles(files, inPath, data, proc, undeletable);
      after.Keys == files.Keys +
        (if proc.Exited? && proc.returncode != 0 && proc.output.Some? then {OutputPath(inPath)} else {}) &&
      forall p :: p in files ==> after[p] == files[p]
  {
    var out := OutputPath(inPath);
    var written := FfmpegEffect(files[inPath := data], inPath, proc);
    var paths := [Some(inPath), ConvertedPath(inPath, proc)];
    var targets := CleanupTargets(paths, undeletable);
    assert paths[0] == Some(inPath) && Removable(paths[0], undeletable);
    assert inPath in targets;
    if ConvertedPath(inPath, proc).Some? {
      assert Removable(paths[1], undeletable) && paths[1].value == out;
      assert out in targets;
      assert targets == {inPath, out};
    } else {
      assert targets == {inPath};
    }
  }
}
