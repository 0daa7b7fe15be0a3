# Speech-to-text service: request and session logic in Dafny

This project models the decision logic of a small speech-to-text web
service. The service has two endpoints, and each converts an uploaded audio
clip to 16 kHz mono WAV with ffmpeg and transcribes it with a Whisper engine:

- `POST /webhook/audio` (`transcribe_audio`) answers one upload with a JSON
  transcript or an HTTP error.
- `/ws/transcribe` (`ws_transcribe`) is a WebSocket session. It answers each
  binary frame with one transcript and each text frame with a configuration
  update.

What is modelled:

- `app/utils/audio.py`:
  - the content-type normaliser and its tolerant validator;
  - the chunked copy of an upload into a temporary file;
  - the ffmpeg command, output path and failure rule;
  - `cleanup_paths`.
- `app/main.py`:
  - the body-size middleware and the temporary-file suffix rule;
  - the segment filtering and transcript assembly that both endpoints share;
  - the HTTP status mapping, with its `try`/`finally` cleanup;
  - the WebSocket session as a state machine.

ffmpeg and the engine are oracles: function parameters that map the argument
vector (or the engine request) to an outcome. The file system is a class
holding a map from path to contents.

Modules:

- `Wrappers` (wrappers.dfy): `Option` and `Result`.
- `Text` (text.dfy): the Python string operations the code relies on, over
  ASCII. They are `strip`, `lower`, `split`, `join`, `isdigit` with `int`,
  `startswith`, `endswith` and substring `in`.
- `Audio` (audio.dfy): `app/utils/audio.py`, plus the `FileSystem` and
  `Upload` classes.
- `Transcription` (transcription.dfy): the engine interface, segment
  filtering, the response, and one convert-then-transcribe cycle with its
  cleanup.
- `Http` (http.dfy): `BodySizeLimitMiddleware` and `transcribe_audio`.
- `Stream` (stream.dfy): `ws_transcribe` as the `Session` class.

### Behaviour of the code worth knowing

- **Partial ffmpeg output can leak.** When ffmpeg exits non-zero, `out_wav`
  is still None, so cleanup never removes `in_path + ".wav"`
  (app/main.py:164, 208). If ffmpeg wrote part of that file, it stays on
  disk (`Transcription.CycleCleanup`, `Http.TranscribeLeavesNothingElse`).
- **Conversion success depends on the exit code alone.** A zero exit code is
  success even when no output file appears (app/utils/audio.py:56-59).
- **Failures other than conversion are 400.** Saving, ffmpeg failing to
  start, and the engine raising all give status 400 with
  "Transcription failed: ..." (app/main.py:202-205).
- **ffmpeg failing to start is 400, not 415.** It raises `OSError`, not
  `RuntimeError`, so the `except RuntimeError` at app/main.py:165 does not
  catch it.
- **A save that raises leaks its temporary file.** `in_path` was never
  assigned (app/main.py:160), so cleanup skips the file.
- **The first frame of a session can be lost.** A binary frame consumed by
  the initial configuration read is dropped and never transcribed
  (app/main.py:227-239, `Stream.InitialRead.OtherFrame`).

## Model

| member | source | states |
|---|---|---|
| Text.TrimStart | app/utils/audio.py:25 | `lstrip`: the result is a suffix of the input that does not start with whitespace, and everything removed is whitespace |
| Text.TrimEnd | app/utils/audio.py:25 | `rstrip`: the result is a prefix of the input that does not end with whitespace, and everything removed is whitespace |
| Text.Strip | app/utils/audio.py:25 | `str.strip`: the result is no longer than the input and neither of its ends is whitespace |
| Text.StripExact | app/main.py:183 | the stripped text is the unique slice that has no whitespace at its ends and has only whitespace around it |
| Text.StripIdempotent | app/main.py:192 | stripping twice is stripping once |
| Text.LowerProperties | app/utils/audio.py:25 | `str.lower` leaves no upper-case letter, is idempotent and keeps whitespace where it was |
| Text.Lower | app/utils/audio.py:25 | `str.lower` over ASCII: same length, each upper-case letter replaced by its lower-case partner, every other character kept |
| Text.SplitOn | app/utils/audio.py:25 | `str.split(sep)`: at least one part, no part contains the separator, one part exactly when the separator is absent |
| Text.JoinSplit | app/main.py:156 | joining the parts of a split with the separator gives back the original string |
| Text.SplitJoin | app/main.py:192 | splitting a join of separator-free parts gives back the parts |
| Text.SplitFirst | app/utils/audio.py:25 | the first part of a split is a prefix of the string, followed by the separator when it is shorter |
| Text.SplitLast | app/main.py:156 | the last part of a split is a suffix of the string, preceded by the separator when it is shorter |
| Text.JoinOn | app/main.py:192 | `sep.join(parts)`: "" for no parts; otherwise it starts with the first part and ends with the last |
| Text.JoinOfStrippedParts | app/main.py:192 | `" ".join(parts).strip()` of non-empty stripped parts is the join itself, and it is empty exactly when there are no parts |
| Text.DecimalString | app/main.py:73 | the decimal rendering of n is all digits and starts with '0' only for zero |
| Text.DecimalRoundTrip | app/main.py:71-73 | `int()` of the decimal rendering of n is n |
| Text.IsDigits | app/main.py:71 | `isdigit()`: a digit string is non-empty and has no sign and no surrounding whitespace, which `int()` would accept |
| Text.DecimalValue | app/main.py:71 | `int()` of a digit string has at most as many digits as the string, and exactly as many when there is no leading zero |
| Text.DigitsRoundTrip | app/main.py:71 | the decimal rendering of `int(s)` is `s` for a digit string without a leading zero |
| Text.Contains | app/main.py:298-300 | `needle in s` on strings holds exactly when the needle occurs at some offset of `s` |
| Audio.NormalizeContentType | app/utils/audio.py:22-25 | a missing or empty type gives ""; otherwise the base is stripped, has no ';' and no upper-case letter (its value is pinned by the two lemmas below) |
| Audio.NormalizeIdempotent | app/utils/audio.py:25 | normalising a normalised base changes nothing |
| Audio.NormalizeDropsParameters | app/utils/audio.py:25 | everything after the first ';' is dropped; the rest is stripped and lower-cased |
| Audio.NormalizeWithoutParameters | app/utils/audio.py:25 | a non-empty type without ';' is stripped and lower-cased as a whole |
| Audio.NormalizeExample | app/utils/audio.py:25 | "Audio/WebM;codecs=opus" normalises to "audio/webm" |
| Audio.NormalizeOfNormal | app/utils/audio.py:22-25 | a non-empty, stripped, lower-case type without ';' is its own base |
| Audio.EnumeratedAudioTypes | app/utils/audio.py:8-20 | every enumerated type except "application/octet-stream" is an `audio/...` type |
| Audio.ContentTypeOk | app/utils/audio.py:8-32 | `content_type_ok` accepts exactly an empty base, "application/octet-stream" and any `audio/...` base, and depends only on the normalised base |
| Audio.ContentTypeAccepts | app/utils/audio.py:27-32 | no type, an empty type and "Audio/WebM;codecs=opus" are accepted |
| Audio.ContentTypeFlags | app/utils/audio.py:27-32 | a normal base that is neither octet-stream nor `audio/...` is flagged |
| Audio.VideoWebmFlagged | app/utils/audio.py:27-32 | "video/webm" is flagged |
| Audio.TextPlainFlagged | app/utils/audio.py:27-32 | "text/plain" is flagged |
| Audio.FileSystem.Remove | app/utils/audio.py:64-67 | `os.remove` removes the path, or raises and changes nothing |
| Audio.FileSystem.Create | app/utils/audio.py:41 | `NamedTemporaryFile(delete=False)` adds the fresh path with empty contents and changes nothing else |
| Audio.FileSystem.Append | app/utils/audio.py:43 | `tmp.write(chunk)` appends the chunk to that file and changes nothing else |
| Audio.Upload.Read | app/utils/audio.py:42 | a read returns the next at most n bytes; at the end it returns b"" or raises the stream's error |
| Audio.SaveUploadToTemp | app/utils/audio.py:40-44 | the new file holds exactly the upload's remaining bytes, as the concatenation of non-empty reads of at most 1 MiB; it returns the name, which ends with the suffix, or propagates the read error with the file left behind; either way the upload ends fully read |
| Audio.CopyChunks | app/utils/audio.py:42-43 | the read-and-write loop appends every remaining byte of the upload to the empty file, in non-empty reads of at most 1 MiB, reads the upload to its end, and reports the stream's error exactly when it has one |
| Audio.OutputPath | app/utils/audio.py:47 | the output path is the input path plus ".wav", so it differs from the input |
| Audio.OutputPathInjective | app/utils/audio.py:47 | different inputs have different output paths |
| Audio.FfmpegCommand | app/utils/audio.py:48-55 | the command is exactly `ffmpeg -y -i in -ar 16000 -ac 1 -c:a pcm_s16le in.wav` |
| Audio.ConversionOutcome | app/utils/audio.py:56-59 | conversion fails iff the exit code is non-zero, with "ffmpeg conversion failed: " + stderr; on exit code 0 it returns the output path; a process that cannot start propagates its error |
| Audio.FfmpegEffect | app/utils/audio.py:48-56 | ffmpeg touches only the output path: it holds what ffmpeg wrote, and every other path keeps its presence and contents |
| Audio.ConvertToWav16kMono | app/utils/audio.py:46-59 | the method's result and its effect on the file system are the conversion outcome and ffmpeg's output |
| Audio.AfterCleanup | app/utils/audio.py:61-67 | exactly the given, non-empty, existing and removable paths disappear; every other file keeps its contents |
| Audio.CleanupTargetsStep | app/utils/audio.py:62-67 | each loop iteration adds at most the current path to the removed set |
| Audio.CleanupPaths | app/utils/audio.py:61-67 | the loop leaves the file system as `AfterCleanup` says, and never fails |
| Audio.CleanupOnlyNamedAndIdempotent | app/utils/audio.py:61-67 | paths not passed keep their contents, and a second call with the same paths changes nothing |
| Transcription.KeptSegments | app/main.py:180-190 | kept segments are no more than the input, and each has non-empty stripped text |
| Transcription.KeptAppend | app/main.py:182-190 | filtering distributes over concatenation, so the original order is kept |
| Transcription.KeptInPlace | app/main.py:182-190 | each input segment contributes, in its own position, itself with start and end unchanged and its text stripped when that text is non-empty, and nothing otherwise |
| Transcription.KeptOnlySpoken | app/main.py:182-190 | every kept segment is the stripped form of an input segment with non-empty stripped text |
| Transcription.AssembleSegments | app/main.py:180-190 | the loop builds exactly the kept segments and their texts |
| Transcription.BuildResponse | app/main.py:180-198 | the segments are the kept ones; the transcript is their texts joined by single spaces, is stripped, and is empty exactly when no segment is kept; the language is the engine's when it reports one, else the requested one; the duration is the engine's |
| Transcription.EngineRequest | app/main.py:171-178 | both endpoints (also app/main.py:265-272) give the engine the converted path and the requested language and prompt, with the VAD filter on, beam size 5 and no conditioning on earlier text |
| Transcription.ReportedLanguage | app/main.py:194 | `getattr(info, "language", language)` (also app/main.py:286): the engine's language when it has one, else the requested one |
| Transcription.ConvertedPath | app/main.py:164 | `out_wav` is set exactly when the conversion returned, and then it is the output path |
| Transcription.ConvertAndTranscribe | app/main.py:163-198 | a non-zero exit is a format error carrying ffmpeg's message; any other failure carries ffmpeg's start error or, when the conversion returned, the engine's message; success means the conversion returned and the engine produced segments, and the response is built from them |
| Transcription.RunCycle | app/main.py:163-198 | the method's outcome is the cycle's, and ffmpeg's output is its only effect on files |
| Transcription.CycleFiles | app/main.py:163-208 | after a cycle and its `finally` (also app/main.py:290-292), the input path is gone when removable, and every path other than the input and its output keeps its presence and contents |
| Transcription.CycleCleanup | app/main.py:157-208 | on fresh, removable names, a cycle leaves only what existed before, plus the partial ffmpeg output exactly when ffmpeg exited non-zero after writing it |
| Http.MaxBodyBytes | app/main.py:67 | the limit is the setting in MiB as a byte count: a multiple of 1048576 from which the setting is recovered |
| Http.Dispatch | app/main.py:69-76 | a rejection is 413 with "Request too large. Max {MB} MB" for the same setting the limit comes from |
| Http.DispatchDeclaredLength | app/main.py:67-76 | a declared length is rejected iff it exceeds MB·1024·1024; the limit itself passes |
| Http.DispatchMonotone | app/main.py:70-76 | rejection is monotone in the declared value; a missing or non-numeric header passes |
| Http.DefaultLimitExamples | app/main.py:67-78 | with 25 MB, 26214400 bytes pass, 26214401 is rejected, and 31457280 gets 413 with "Request too large. Max 25 MB" |
| Http.TempSuffix | app/main.py:154-156 | the suffix is "" iff the filename is missing or has no '.'; otherwise it starts with its only '.' and ends the filename |
| Http.TempSuffixUnique | app/main.py:154-156 | the suffix is the one ending of the filename that starts with '.' and has no other '.' |
| Http.TranscribeReply | app/main.py:132-205 | 429 iff rate-limited, with "Rate limit exceeded. Please slow down."; 503 iff the model is missing, with "Model not ready"; 415 iff ffmpeg exits non-zero, with "Unsupported or invalid audio format"; 400 iff the save, ffmpeg's start or the engine raised, with "Transcription failed: " + the message; the body iff the cycle succeeded; no other status |
| Http.CycleHttpReply | app/main.py:163-205 | a cycle's success is the body; a conversion failure is 415 with "Unsupported or invalid audio format"; any other failure is 400 with "Transcription failed: " + its message |
| Http.TranscribeFiles | app/main.py:150-208 | whatever happens, every path other than the temporary input and its output keeps its presence and contents |
| Http.TranscribeFilesOnEarlyExit | app/main.py:150-160 | a 429 or 503 creates no file; a save that raised leaves its temporary file |
| Http.TranscribeLeavesNothingElse | app/main.py:157-208 | on fresh, removable names, a request adds at most the two temporary paths, and leaves the file system unchanged except after a failed save or ffmpeg's partial output |
| Http.TranscribeAudio | app/main.py:133-208 | the handler's reply and its effect on files are those of `TranscribeReply` and `TranscribeFiles`; the upload is read to the end exactly when both gates pass, and is otherwise untouched |
| Http.SaveAndTranscribe | app/main.py:157-208 | past the gates, the `try` block's reply and its effect on files, `finally` included, are those of `TranscribeReply` and `TranscribeFiles`, and the upload ends fully read |
| Stream.GetOrNull | app/main.py:230-231 | `dict.get`: the value, or None for an absent key |
| Stream.Mentions | app/main.py:298-300 | Python's `key in data`: key of an object, element of a list, substring of a string; it raises for numbers, booleans and null |
| Stream.InitialConfig | app/main.py:222-239 | a JSON object in the first text frame sets each setting to `cfg.get` of its key (None when absent); anything else leaves both None |
| Stream.ConfigUpdate | app/main.py:295-304 | malformed text fails; an object always succeeds and sets each key it holds, a null value included, and keeps the other setting; a non-object is accepted iff it mentions neither key, and then changes nothing |
| Stream.InitialIsUpdateOfDefaults | app/main.py:226-231 | the initial read is the mid-session update applied to (None, None) |
| Stream.ConfigUpdateIdempotent | app/main.py:297-302 | sending the same update twice is sending it once |
| Stream.ConfigUpdateOverwrites | app/main.py:298-301 | an object with both keys sets both settings, whatever they were |
| Stream.PartialUpdateExamples | app/main.py:298-302 | {"initial_prompt": "hello"} keeps the language; {"language": null} clears it |
| Stream.NonObjectUpdateExamples | app/main.py:297-304 | ["language"] and 1 are invalid text frames; [] is accepted with no change |
| Stream.StringUpdateExamples | app/main.py:297-304 | a JSON string naming neither key is accepted with no change; one containing "language" is invalid |
| Stream.CycleReply | app/main.py:281-289 | a binary frame is answered with the transcript on success, otherwise with the exception's text |
| Stream.FormatErrorReply | app/main.py:263-289 | a failed conversion reaches the client as "ffmpeg conversion failed: " + stderr |
| Stream.TranscribeFrame | app/main.py:253-292 | the frame's bytes go to a fresh file; the reply is the cycle's; files end as the cycle with cleanup leaves them |
| Stream.Session.Accept | app/main.py:221-223 | an accepted session starts with both settings None, waiting for its initial read |
| Stream.Session.Start | app/main.py:221-244 | the settings are the initial read's; a disconnect ends silently; a missing model sends "Model not ready" and closes with 1013; otherwise the loop starts |
| Stream.Session.Step | app/main.py:247-304 | a disconnect closes; bytes win over text and get exactly one reply with settings unchanged; a text frame replies "config updated" and applies the update, or "invalid text frame" and changes nothing; an empty frame is ignored |

## Left out

- Framework wiring is not modelled. This covers FastAPI routing, CORS, the
  static mount, the health, version and metrics endpoints, and the global
  500 handler.
- Prometheus counters and histograms and logging are left out. They are
  side effects that never change control flow. For the same reason the
  `content_type_ok` call in `transcribe_audio` is not modelled: it only
  decides whether a warning is logged.
- Rate limiting is reduced to one boolean. The model covers only "a denied
  request gets 429 with its fixed detail". The slowapi limiter and its
  per-minute window are library code.
- The Whisper model is an oracle. Its loading and inference are not
  modelled. Segment times and the duration are an opaque type, because the
  service only copies them. `Info.language` is None when the attribute is
  missing; an attribute that exists but holds None is not distinguished.
- ffmpeg is an oracle from argument vector to outcome: exit code, decoded
  stderr, and what it wrote, or a failure to start. The stderr UTF-8 decode
  and `ensure_ffmpeg_available` are not modelled, because they are external
  processes.
- The operating system chooses temporary names. Those names are parameters
  (`stem`) that the caller guarantees are not in use.
- Write errors other than a failing upload read are not modelled, because
  the source does not handle them separately. This includes a temporary
  file that cannot be created: a filename such as "a.b/c" gives the suffix
  ".b/c", `NamedTemporaryFile` raises, and the source answers 400, while
  `FileSystem.Create` always succeeds.
- JSON parsing and serialisation (`json.loads`, `json.dumps`) are not
  modelled. Text frames arrive already parsed, or as malformed.
- The initial read's 0.05 s timeout and async scheduling are not modelled.
  The initial read is given as its outcome (`Stream.InitialRead`).
- Concurrency across requests and sessions is not modelled. One request or
  one session is modelled at a time.
- The outer WebSocket handler (app/main.py:306-316) is not modelled: it
  sends a best-effort "server error" reply and closes on unexpected
  transport failures. A reply whose send fails is also not modelled.
- Text.Strip, Text.Lower and Text.IsDigits: these cover ASCII whitespace,
  letters and digits only. Python's `str.strip`, `str.lower` and
  `str.isdigit` also handle the rest of Unicode.
- Settings loading and log setup (app/core/config.py, app/core/logging.py)
  are not part of this model. Only the default `MAX_UPLOAD_MB = 25` is used.
