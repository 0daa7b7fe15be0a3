/** The HTTP side of app/main.py: the body-size middleware, and the
    `POST /webhook/audio` handler `transcribe_audio` with its temp-file
    suffix rule, status mapping and unconditional cleanup. */
module Http {
  import opened Wrappers
  import opened Text
  import opened Audio
  import opened Transcription

  // ---------------------------------------------------------------------------
  // BodySizeLimitMiddleware
  // ---------------------------------------------------------------------------

  /** The default of `settings.MAX_UPLOAD_MB` (app/core/config.py). */
  const MAX_UPLOAD_MB: nat := 25

  /** The middleware's `self.max`: the setting in MiB, as a byte count. */
  function MaxBodyBytes(maxUploadMb: nat): (limit: nat)
    ensures limit % (1024 * 1024) == 0 && limit / (1024 * 1024) == maxUploadMb
    ensures maxUploadMb > 0 ==> limit >= 1024 * 1024
  {
    maxUploadMb * 1024 * 1024
  }

  /** The middleware either answers itself or calls the next handler. */
  datatype Gate = Reject(status: nat, detail: string) | CallNext

  /** The 413 detail names the same setting the limit is computed from. */
  function TooLargeDetail(maxUploadMb: nat): string {
    "Request too large. Max " + DecimalString(maxUploadMb) + " MB"
  }

  /** `BodySizeLimitMiddleware.dispatch` with `max_body_size_mb` set to
      `settings.MAX_UPLOAD_MB`: a `content-length` header that is present,
      all digits and larger than the limit is answered with 413 before the
      body is read; anything else is passed on. */
  function Dispatch(maxUploadMb: nat, contentLength: Option<string>): (g: Gate)
    ensures g.Reject? ==> g.status == 413 && g.detail == TooLargeDetail(maxUploadMb)
  {
    if contentLength.Some? && IsDigits(contentLength.value) && DecimalValue(contentLength.value) > MaxBodyBytes(maxUploadMb)
    then Reject(413, TooLargeDetail(maxUploadMb))
    else CallNext
  }

  /** For a declared length n, written as a client writes it, the gate
      rejects exactly when n exceeds the limit: a length equal to the limit
      passes. */
  lemma DispatchDeclaredLength(maxUploadMb: nat, n: nat)
    ensures Dispatch(maxUploadMb, Some(DecimalString(n))).Reject? <==> n > MaxBodyBytes(maxUploadMb)
  {
    DecimalRoundTrip(n);
  }

  /** Rejection is monotone in the declared value, and a missing or
      non-numeric header always passes. */
  lemma DispatchMonotone(maxUploadMb: nat, a: string, b: string)
    requires IsDigits(a) && IsDigits(b) && DecimalValue(a) <= DecimalValue(b)
    ensures Dispatch(maxUploadMb, Some(a)).Reject? ==> Dispatch(maxUploadMb, Some(b)).Reject?
    ensures Dispatch(maxUploadMb, None) == CallNext
    ensures forall s :: !IsDigits(s) ==> Dispatch(maxUploadMb, Some(s)) == CallNext
  {
  }

  /** With the default 25 MB: 26214400 bytes pass, one byte more does not,
      and a declared 30 MB upload is refused with "Request too large. Max 25
      MB". */
  lemma DefaultLimitExamples()
    ensures MaxBodyBytes(MAX_UPLOAD_MB) == 26214400
    ensures Dispatch(MAX_UPLOAD_MB, Some(DecimalString(26214400))) == CallNext
    ensures Dispatch(MAX_UPLOAD_MB, Some(DecimalString(26214401))).Reject?
    ensures Dispatch(MAX_UPLOAD_MB, Some(DecimalString(31457280))) == Reject(413, "Request too large. Max 25 MB")
  {
    DispatchDeclaredLength(MAX_UPLOAD_MB, 26214400);
    DispatchDeclaredLength(MAX_UPLOAD_MB, 26214401);
    DispatchDeclaredLength(MAX_UPLOAD_MB, 31457280);
    DefaultDetail();
  }

  lemma DefaultDetail()
    ensures TooLargeDetail(MAX_UPLOAD_MB) == "Request too large. Max 25 MB"
  {
    assert DecimalString(25) == "25";
  }

  // ---------------------------------------------------------------------------
  // The temporary file's suffix
  // ---------------------------------------------------------------------------

  /** `"." + filename.split(".")[-1]` when the filename is non-empty and has a
      '.', otherwise "". A non-empty suffix starts with its only '.', and the
      filename ends with it. */
  function TempSuffix(filename: Option<string>): (suffix: string)
    ensures suffix == "" <==> filename.None? || '.' !in filename.value
    ensures suffix != "" ==> suffix[0] == '.' && '.' !in suffix[1..] && EndsWith(filename.value, suffix)
  {
    if filename.Some? && filename.value != "" && '.' in filename.value then
      var name := filename.value;
      SplitLast(name, '.');
      var ext := Last(SplitOn(name, '.'));
      assert ext != name;
      assert ("." + ext)[1..] == ext;
      "." + ext
    else ""
  }

  /** The suffix is the only one with those properties: the shortest ending
      of the filename that starts with '.'. */
  lemma TempSuffixUnique(filename: string, x: string)
    requires x != "" && x[0] == '.' && '.' !in x[1..] && EndsWith(filename, x)
    ensures TempSuffix(Some(filename)) == x
  {
    assert '.' in filename by { assert filename[|filename| - |x|] == '.'; }
    var t := TempSuffix(Some(filename));
    ShorterDotSuffix(filename, t, x);
    ShorterDotSuffix(filename, x, t);
  }

  /** Of two endings of a string that start with '.', the longer one has a
      '.' after its first character unless they have the same length. */
  lemma ShorterDotSuffix(s: string, a: string, b: string)
    requires a != "" && a[0] == '.' && EndsWith(s, a)
    requires b != "" && '.' !in b[1..] && EndsWith(s, b)
    ensures |b| <= |a| && (|a| == |b| ==> a == b)
  {
  }

  // ---------------------------------------------------------------------------
  // transcribe_audio
  // ---------------------------------------------------------------------------

  /** The handler's answer: the JSON body, or an HTTP error with its detail. */
  datatype HttpReply = Ok(body: Response) | Error(status: nat, detail: string)

  const RATE_LIMITED_DETAIL := "Rate limit exceeded. Please slow down."
  const UNSUPPORTED_FORMAT := "Unsupported or invalid audio format"
  const TRANSCRIPTION_FAILED_PREFIX := "Transcription failed: "

  /** The reply of `transcribe_audio`. The rate limiter answers 429 first; a
      missing model gives 503; a failed conversion gives 415; every other
      failure inside the `try` (saving the upload, ffmpeg not starting, the
      engine) gives 400 with the exception's text. The content type plays no
      part: it is only logged. */
  function TranscribeReply(rateAllowed: bool, modelReady: bool, saveError: Option<string>, inPath: string,
                           ffmpeg: seq<string> -> Process, engine: Engine,
                           language: Option<string>, initialPrompt: Option<string>): (reply: HttpReply)
    ensures reply.Error? && reply.status == 429 <==> !rateAllowed
    ensures reply.Error? && reply.status == 503 <==> rateAllowed && !modelReady
    ensures reply.Error? && reply.status == 415 <==>
      rateAllowed && modelReady && saveError.None? &&
      var proc := ffmpeg(FfmpegCommand(inPath));
      proc.Exited? && proc.returncode != 0
    ensures reply.Error? && reply.status == 400 <==>
      rateAllowed && modelReady &&
      (saveError.Some? ||
       var c := ConvertAndTranscribe(inPath, ffmpeg, engine, OptionalText(language), OptionalText(initialPrompt));
       c.result.Failure? && c.result.error.Fault?)
    ensures reply.Error? && reply.status == 400 ==>
      reply.detail == TRANSCRIPTION_FAILED_PREFIX +
        if saveError.Some? then saveError.value
        else ConvertAndTranscribe(inPath, ffmpeg, engine, OptionalText(language), OptionalText(initialPrompt)).result.error.message
    ensures reply.Error? ==> reply.status in {400, 415, 429, 503}
    ensures reply.Error? && reply.status == 429 ==> reply.detail == RATE_LIMITED_DETAIL
    ensures reply.Error? && reply.status == 503 ==> reply.detail == MODEL_NOT_READY
    ensures reply.Error? && reply.status == 415 ==> reply.detail == UNSUPPORTED_FORMAT
    ensures reply.Ok? <==>
      rateAllowed && modelReady && saveError.None? &&
      ConvertAndTranscribe(inPath, ffmpeg, engine, OptionalText(language), OptionalText(initialPrompt)).result.Success?
    ensures reply.Ok? ==>
      reply.body == ConvertAndTranscribe(inPath, ffmpeg, engine, OptionalText(language), OptionalText(initialPrompt)).result.value
  {
    if !rateAllowed then Error(429, RATE_LIMITED_DETAIL)
    else if !modelReady then Error(503, MODEL_NOT_READY)
    else if saveError.Some? then Error(400, TRANSCRIPTION_FAILED_PREFIX + saveError.value)
    else CycleHttpReply(ConvertAndTranscribe(inPath, ffmpeg, engine, OptionalText(language), OptionalText(initialPrompt)).result)
  }

  /** The `except` clauses around a cycle: the RuntimeError of a conversion
      becomes 415, any other exception 400 with its text. */
  function CycleHttpReply(result: Result<Response, CycleError>): (reply: HttpReply)
    ensures reply.Ok? <==> result.Success?
    ensures reply.Ok? ==> reply.body == result.value
    ensures reply.Error? ==> reply.status == (if result.error.FormatError? then 415 else 400)
    ensures reply.Error? && result.error.Fault? ==> reply.detail == TRANSCRIPTION_FAILED_PREFIX + result.error.message
    ensures reply.Error? && result.error.FormatError? ==> reply.detail == UNSUPPORTED_FORMAT
  {
    match result
    case Success(body) => Ok(body)
    case Failure(FormatError(_)) => Error(415, UNSUPPORTED_FORMAT)
    case Failure(Fault(m)) => Error(400, TRANSCRIPTION_FAILED_PREFIX + m)
  }

  /** The file system after `transcribe_audio`: untouched when it never got
      to the `try`; when saving raised, `in_path` was never assigned, so the
      temporary file stays with what had been written; otherwise the cycle's
      effect and `cleanup_paths(in_path, out_wav)`. */
  function TranscribeFiles(files: map<string, Bytes>, rateAllowed: bool, modelReady: bool,
                           data: Bytes, saveError: Option<string>, inPath: string, proc: Process,
                           undeletable: set<string>): (after: map<string, Bytes>)
    ensures forall p :: p != inPath && p != OutputPath(inPath) ==> (p in after <==> p in files)
    ensures forall p :: p in after && p != inPath && p != OutputPath(inPath) ==> after[p] == files[p]
  {
    if !rateAllowed || !modelReady then files
    else if saveError.Some? then files[inPath := data]
    else CycleFiles(files, inPath, data, proc, undeletable)
  }

  /** A refused request (429, 503) creates no temporary file. A save that
      raised leaves its temporary file behind. */
  lemma TranscribeFilesOnEarlyExit(files: map<string, Bytes>, rateAllowed: bool, modelReady: bool,
                                   data: Bytes, saveError: Option<string>, inPath: string, proc: Process,
                                   undeletable: set<string>)
    ensures !rateAllowed || !modelReady ==>
      TranscribeFiles(files, rateAllowed, modelReady, data, saveError, inPath, proc, undeletable) == files
    ensures rateAllowed && modelReady && saveError.Some? ==>
      var after := TranscribeFiles(files, rateAllowed, modelReady, data, saveError, inPath, proc, undeletable);
      inPath in after && after[inPath] == data
  {
  }

  /** On fresh temporary names, a request leaves the file system exactly as
      it found it, except in two cases: a save that raised leaves the input
      file, and an ffmpeg run that exits non-zero after writing output
      leaves `inPath + ".wav"`. */
  lemma TranscribeLeavesNothingElse(files: map<string, Bytes>, rateAllowed: bool, modelReady: bool,
                                    data: Bytes, saveError: Option<string>, inPath: string, proc: Process,
                                    undeletable: set<string>)
    requires inPath != "" && inPath !in files && OutputPath(inPath) !in files
    requires inPath !in undeletable && OutputPath(inPath) !in undeletable
    ensures var after := TranscribeFiles(files, rateAllowed, modelReady, data, saveError, inPath, proc, undeletable);
      after.Keys <= files.Keys + {inPath, OutputPath(inPath)} &&
      (after == files <==>
         !rateAllowed || !modelReady ||
         (saveError.None? && !(proc.Exited? && proc.returncode != 0 && proc.output.Some?)))
  {
    var after := TranscribeFiles(files, rateAllowed, modelReady, data, saveError, inPath, proc, undeletable);
    if rateAllowed && modelReady {
      if saveError.Some? {
        assert inPath in after;
      } else {
        CycleCleanup(files, inPath, data, proc, undeletable);
        if proc.Exited? && proc.returncode != 0 && proc.output.Some? {
          assert OutputPath(inPath) in after;
        } else {
          assert after.Keys == files.Keys;
        }
      }
    }
  }

  /** `transcribe_audio` step by step: the rate limiter and the model
      check, the suffix, then the `try` block. The temporary name
      `stem + suffix` is the operating system's fresh choice. */
  method TranscribeAudio(fs: FileSystem, upload: Upload, rateAllowed: bool, modelReady: bool,
                         language: Option<string>, initialPrompt: Option<string>,
                         stem: string, ffmpeg: seq<string> -> Process, engine: Engine)
    returns (reply: HttpReply)
    requires upload.Valid()
    requires stem + TempSuffix(upload.filename) !in fs.files
    modifies fs`files, upload`pos
    ensures reply == TranscribeReply(rateAllowed, modelReady, upload.readError, stem + TempSuffix(upload.filename),
                                     ffmpeg, engine, language, initialPrompt)
    ensures fs.files == TranscribeFiles(old(fs.files), rateAllowed, modelReady, old(upload.Remaining()),
                                        upload.readError, stem + TempSuffix(upload.filename),
                                        ffmpeg(FfmpegCommand(stem + TempSuffix(upload.filename))), fs.undeletable)
    ensures upload.pos == if rateAllowed && modelReady then |upload.content| else old(upload.pos)
  {
    if !rateAllowed {
      return Error(429, RATE_LIMITED_DETAIL);
    }
    // The handler computes ContentTypeOk(upload.contentType) here only to log
    // a warning; nothing below depends on it.
    if !modelReady {
      return Error(503, MODEL_NOT_READY);
    }
    var suffix := TempSuffix(upload.filename);
    reply := SaveAndTranscribe(fs, upload, stem, suffix, ffmpeg, engine, language, initialPrompt);
  }

  /** The `try`/`except`/`finally` of `transcribe_audio`: save, convert,
      transcribe, and in every case `cleanup_paths(in_path, out_wav)`. */
  method SaveAndTranscribe(fs: FileSystem, upload: Upload, stem: string, suffix: string,
                           ffmpeg: seq<string> -> Process, engine: Engine,
                           language: Option<string>, initialPrompt: Option<string>)
    returns (reply: HttpReply)
    requires upload.Valid()
    requires stem + suffix !in fs.files
    modifies fs`files, upload`pos
    ensures reply == TranscribeReply(true, true, upload.readError, stem + suffix, ffmpeg, engine, language, initialPrompt)
    ensures fs.files == TranscribeFiles(old(fs.files), true, true, old(upload.Remaining()), upload.readError,
                                        stem + suffix, ffmpeg(FfmpegCommand(stem + suffix)), fs.undeletable)
    ensures upload.pos == |upload.content|
  {
    var inPath: Option<string> := None;
    var outWav: Option<string> := None;

    var saved;
    ghost var chunks;
    saved, chunks := SaveUploadToTemp(fs, upload, stem, suffix);
    if saved.Failure? {
      reply := Error(400, TRANSCRIPTION_FAILED_PREFIX + saved.error);
      assert CleanupTargets([inPath, outWav], fs.undeletable) == {};
    } else {
      var path := saved.value;
      assert path == stem + suffix;
      inPath := Some(path);
      var out, result := RunCycle(fs, path, ffmpeg, engine, OptionalText(language), OptionalText(initialPrompt));
      outWav := out;
      reply := CycleHttpReply(result);
      assert outWav == ConvertedPath(path, ffmpeg(FfmpegCommand(path)));
    }
    CleanupPaths(fs, [inPath, outWav]);
  }
}
