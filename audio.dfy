/** app/utils/audio.py: the content-type normaliser and its tolerant check,
    the ffmpeg conversion contract, the chunked copy of an upload into a
    temporary file, and best-effort cleanup of temporary paths. The file
    system is a class holding a map from path to contents; ffmpeg is an
    oracle that receives the argument vector and answers with what the
    process did. */
module Audio {
  import opened Wrappers
  import opened Text

  type Bytes = seq<bv8>

  // ---------------------------------------------------------------------------
  // Content types
  // ---------------------------------------------------------------------------

  /** The enumerated base types; any other `audio/...` is accepted as well. */
  const SUPPORTED_RAW_TYPES: set<string> := {
    "audio/wav", "audio/x-wav", "audio/webm", "audio/ogg", "audio/mpeg",
    "audio/mp3", "audio/mp4", "audio/x-m4a", "audio/aac", "audio/flac",
    "application/octet-stream"
  }

  /** `normalize_content_type`: None and "" give ""; otherwise the text
      before the first ';', stripped and lower-cased. The result never holds
      a ';', has no whitespace at either end and no upper-case letter. */
  function NormalizeContentType(ct: Option<string>): (base: string)
    ensures ';' !in base
    ensures IsStripped(base)
    ensures forall k :: 0 <= k < |base| ==> !IsUpper(base[k])
    ensures ct.None? || ct.value == "" ==> base == ""
  {
    if ct.None? || ct.value == "" then ""
    else
      var head := SplitOn(ct.value, ';')[0];
      var stripped := Strip(head);
      LowerProperties(stripped);
      Lower(stripped)
  }

  /** Normalising a normalised type changes nothing. */
  lemma NormalizeIdempotent(ct: Option<string>)
    ensures NormalizeContentType(Some(NormalizeContentType(ct))) == NormalizeContentType(ct)
  {
    var base := NormalizeContentType(ct);
    if base != "" {
      SplitWithoutSeparator(base, ';');
      StripOfStripped(base);
      LowerProperties(base);
      assert Lower(base) == base by {
        forall k | 0 <= k < |base| ensures Lower(base)[k] == base[k] {
          assert !IsUpper(base[k]);
        }
      }
    }
  }

  /** Everything from the first ';' on is dropped: only the part before it
      is stripped and lower-cased. */
  lemma NormalizeDropsParameters(p: string, t: string)
    requires ';' !in p
    ensures NormalizeContentType(Some(p + [';'] + t)) == Lower(Strip(p))
  {
    SplitAfterPart(p, t, ';');
  }

  /** A type without parameters is stripped and lower-cased as a whole:
      " Audio/WAV " becomes "audio/wav". */
  lemma NormalizeWithoutParameters(s: string)
    requires s != "" && ';' !in s
    ensures NormalizeContentType(Some(s)) == Lower(Strip(s))
  {
    SplitWithoutSeparator(s, ';');
  }

  lemma NormalizeExample()
    ensures NormalizeContentType(Some("Audio/WebM;codecs=opus")) == "audio/webm"
  {
    assert "Audio/WebM;codecs=opus" == "Audio/WebM" + [';'] + "codecs=opus";
    NormalizeDropsParameters("Audio/WebM", "codecs=opus");
    LowerOfWebm();
  }

  lemma LowerOfWebm()
    ensures Lower(Strip("Audio/WebM")) == "audio/webm"
  {
    StripOfStripped("Audio/WebM");
    var r := Lower("Audio/WebM");
    forall k | 0 <= k < 10 ensures r[k] == "audio/webm"[k] {
    }
  }

  /** A type without ';', whitespace or upper case is its own normal form. */
  lemma NormalizeOfNormal(t: string)
    requires t != "" && ';' !in t && IsStripped(t)
    requires forall k :: 0 <= k < |t| ==> !IsUpper(t[k])
    ensures NormalizeContentType(Some(t)) == t
  {
    SplitWithoutSeparator(t, ';');
    StripOfStripped(t);
    var r := Lower(t);
    forall k | 0 <= k < |t| ensures r[k] == t[k] {
      assert !IsUpper(t[k]);
    }
  }

  /** `content_type_ok`: deliberately tolerant, ffmpeg being the real judge.
      Every enumerated type but one is an `audio/...` type, so the check
      accepts exactly: no type, "application/octet-stream", or any `audio/...`
      base. It depends on the type only through its normalised base. */
  function ContentTypeOk(ct: Option<string>): (ok: bool)
    ensures ok <==>
      var base := NormalizeContentType(ct);
      base == "" || base == "application/octet-stream" || StartsWith(base, "audio/")
  {
    EnumeratedAudioTypes();
    var base := NormalizeContentType(ct);
    base == "" || base in SUPPORTED_RAW_TYPES || StartsWith(base, "audio/")
  }

  /** Every enumerated type except "application/octet-stream" starts with
      "audio/". */
  lemma EnumeratedAudioTypes()
    ensures forall t :: t in SUPPORTED_RAW_TYPES && t != "application/octet-stream" ==> StartsWith(t, "audio/")
  {
    forall t | t in SUPPORTED_RAW_TYPES && t != "application/octet-stream"
      ensures StartsWith(t, "audio/")
    {
      assert t[..6] == "audio/";
    }
  }

  /** A browser's "Audio/WebM;codecs=opus" is accepted, as is a missing type. */
  lemma ContentTypeAccepts()
    ensures ContentTypeOk(None) && ContentTypeOk(Some(""))
    ensures ContentTypeOk(Some("Audio/WebM;codecs=opus"))
  {
    NormalizeExample();
    assert "audio/webm"[..6] == "audio/";
  }

  /** A type already in normal form that is neither "application/octet-stream"
      nor an `audio/...` type is flagged. */
  lemma ContentTypeFlags(t: string)
    requires t != "" && ';' !in t && IsStripped(t)
    requires forall k :: 0 <= k < |t| ==> !IsUpper(t[k])
    requires t != "application/octet-stream" && !StartsWith(t, "audio/")
    ensures !ContentTypeOk(Some(t))
  {
    NormalizeOfNormal(t);
  }

  lemma VideoWebmFlagged()
    ensures !ContentTypeOk(Some("video/webm"))
  {
    assert "video/webm"[0] != "audio/"[0];
    ContentTypeFlags("video/webm");
  }

  lemma TextPlainFlagged()
    ensures !ContentTypeOk(Some("text/plain"))
  {
    assert "text/plain"[0] != "audio/"[0];
    ContentTypeFlags("text/plain");
  }

  // ---------------------------------------------------------------------------
  // File system
  // ---------------------------------------------------------------------------

  /** The part of the file system the service touches: existing paths and
      their contents. Removing a path in `undeletable` raises (a directory,
      a permission error). */
  class FileSystem {
    var files: map<string, Bytes>
    const undeletable: set<string>

    constructor (initial: map<string, Bytes>, undeletable: set<string>)
      ensures files == initial && this.undeletable == undeletable
    {
      files := initial;
      this.undeletable := undeletable;
    }

    /** `os.path.exists` */
    predicate Exists(path: string)
      reads this
    {
      path in files
    }

    /** Create a new empty file (`NamedTemporaryFile(delete=False)`). */
    method Create(path: string)
      requires path !in files
      modifies this`files
      ensures files == old(files)[path := []]
    {
      files := files[path := []];
    }

    /** Append to an open file. */
    method Append(path: string, data: Bytes)
      requires path in files
      modifies this`files
      ensures files == old(files)[path := old(files)[path] + data]
    {
      files := files[path := files[path] + data];
    }

    /** What an external process leaves at `path` (ffmpeg's `-y` overwrites). */
    method Put(path: string, data: Bytes)
      modifies this`files
      ensures files == old(files)[path := data]
    {
      files := files[path := data];
    }

    /** `os.remove`; `raised` when the removal throws. */
    method Remove(path: string) returns (raised: bool)
      requires path in files
      modifies this`files
      ensures raised <==> path in undeletable
      ensures files == if raised then old(files) else old(files) - {path}
    {
      raised := path in undeletable;
      if !raised {
        files := files - {path};
      }
    }
  }

  // ---------------------------------------------------------------------------
  // save_upload_to_temp
  // ---------------------------------------------------------------------------

  const CHUNK_SIZE: nat := 1024 * 1024

  /** The upload's file object: its bytes and a read position. A read at the
      end returns b"" unless the stream is broken, in which case it raises
      `readError` (an upload that failed part-way). */
  class Upload {
    const filename: Option<string>
    const contentType: Option<string>
    const content: Bytes
    const readError: Option<string>
    var pos: nat

    ghost predicate Valid()
      reads this
    {
      pos <= |content|
    }

    constructor (filename: Option<string>, contentType: Option<string>,
                 content: Bytes, readError: Option<string>)
      ensures Valid() && pos == 0
      ensures this.filename == filename && this.contentType == contentType
      ensures this.content == content && this.readError == readError
    {
      this.filename, this.contentType := filename, contentType;
      this.content, this.readError := content, readError;
      pos := 0;
    }

    /** The bytes not read yet. */
    ghost function Remaining(): Bytes
      reads this
      requires Valid()
    {
      content[pos..]
    }

    /** `file.read(n)`: the next at most n bytes. */
    method Read(n: nat) returns (r: Result<Bytes, string>)
      requires Valid() && n > 0
      modifies this`pos
      ensures Valid()
      ensures old(pos) < |content| ==>
        pos == (if old(pos) + n <= |content| then old(pos) + n else |content|) &&
        r == Success(content[old(pos)..pos])
      ensures old(pos) == |content| ==>
        pos == old(pos) &&
        r == if readError.None? then Success([]) else Failure(readError.value)
    {
      if pos < |content| {
        var end := if pos + n <= |content| then pos + n else |content|;
        r := Success(content[pos..end]);
        pos := end;
      } else if readError.None? {
        r := Success([]);
      } else {
        r := Failure(readError.value);
      }
    }
  }

  function Flatten(chunks: seq<Bytes>): Bytes {
    if chunks == [] then [] else Flatten(chunks[..|chunks| - 1]) + Last(chunks)
  }

  lemma FlattenAppend(chunks: seq<Bytes>, c: Bytes)
    ensures Flatten(chunks + [c]) == Flatten(chunks) + c
  {
    assert (chunks + [c])[..|chunks|] == chunks;
  }

  /** Updating a key twice keeps the second value. */
  lemma UpdateTwice(m: map<string, Bytes>, k: string, a: Bytes, b: Bytes)
    ensures m[k := a][k := b] == m[k := b]
  {
  }

  /** A slice is its two halves around any inner point. */
  lemma SliceSplit(data: Bytes, i: nat, j: nat, k: nat)
    requires i <= j <= k <= |data|
    ensures data[i..k] == data[i..j] + data[j..k]
  {
  }

  /** `save_upload_to_temp`: create the temporary file `stem + suffix` (the
      operating system picks a name not in use) and copy the upload into it
      in reads of at most one MiB until the first empty read. The file then
      holds exactly the bytes the upload had left, in order; a read that
      raises propagates, and the file created so far stays behind. */
  method SaveUploadToTemp(fs: FileSystem, upload: Upload, stem: string, suffix: string)
    returns (r: Result<string, string>, ghost chunks: seq<Bytes>)
    requires upload.Valid()
    requires stem + suffix !in fs.files
    modifies fs`files, upload`pos
    ensures upload.Valid()
    ensures fs.files == old(fs.files)[stem + suffix := old(upload.Remaining())]
    ensures Flatten(chunks) == old(upload.Remaining())
    ensures forall k :: 0 <= k < |chunks| ==> 0 < |chunks[k]| <= CHUNK_SIZE
    ensures r == if upload.readError.None? then Success(stem + suffix) else Failure(upload.readError.value)
    ensures r.Success? ==> EndsWith(r.value, suffix)
    ensures upload.pos == |upload.content|
  {
    var name := stem + suffix;
    fs.Create(name);
    var failure;
    failure, chunks := CopyChunks(fs, upload, name);
    if failure.Some? {
      return Failure(failure.value), chunks;
    }
    r := Success(name);
  }

  /** The loop of `save_upload_to_temp`: read chunks of at most one MiB and
      append each to the empty file `name` until the first empty read, or
      until a read raises. Either way the upload has been read to its end. */
  method CopyChunks(fs: FileSystem, upload: Upload, name: string)
    returns (failure: Option<string>, ghost chunks: seq<Bytes>)
    requires upload.Valid()
    requires name in fs.files && fs.files[name] == []
    modifies fs`files, upload`pos
    ensures upload.Valid() && upload.pos == |upload.content|
    ensures fs.files == old(fs.files)[name := old(upload.Remaining())]
    ensures Flatten(chunks) == old(upload.Remaining())
    ensures forall k :: 0 <= k < |chunks| ==> 0 < |chunks[k]| <= CHUNK_SIZE
    ensures failure == upload.readError
  {
    chunks := [];
    ghost var start := upload.pos;
    assert upload.content[start..upload.pos] == [];
    assert fs.files == old(fs.files)[name := []];
    while true
      invariant upload.Valid() && start <= upload.pos
      invariant fs.files == old(fs.files)[name := upload.content[start..upload.pos]]
      invariant Flatten(chunks) == upload.content[start..upload.pos]
      invariant forall k :: 0 <= k < |chunks| ==> 0 < |chunks[k]| <= CHUNK_SIZE
      decreases |upload.content| - upload.pos
    {
      ghost var before := upload.pos;
      var chunk := upload.Read(CHUNK_SIZE);
      if chunk.Failure? || chunk.value == [] {
        assert before == upload.pos == |upload.content|;
        assert upload.content[start..upload.pos] == upload.content[start..];
        failure := if chunk.Failure? then Some(chunk.error) else None;
        return;
      }
      assert before < |upload.content| && chunk.value == upload.content[before..upload.pos];
      ghost var written := upload.content[start..before];
      fs.Append(name, chunk.value);
      UpdateTwice(old(fs.files), name, written, written + chunk.value);
      SliceSplit(upload.content, start, before, upload.pos);
      FlattenAppend(chunks, chunk.value);
      chunks := chunks + [chunk.value];
    }
  }

  // ---------------------------------------------------------------------------
  // convert_to_wav_16k_mono
  // ---------------------------------------------------------------------------

  /** What running ffmpeg did: it exited with a return code, its decoded
      standard error and what it left at the output path (None if nothing),
      or it could not be started at all (`subprocess.run` raised an OSError). */
  datatype Process =
    | Exited(returncode: int, stderr: string, output: Option<Bytes>)
    | SpawnFailed(message: string)

  /** The outcome of `convert_to_wav_16k_mono`: the output path, the
      RuntimeError it raises on a non-zero exit, or the OSError it lets through. */
  datatype Conversion =
    | Converted(outPath: string)
    | ConversionFailed(message: string)
    | SpawnError(message: string)

  /** The canonical audio lands next to the input, with ".wav" appended. */
  function OutputPath(inPath: string): (out: string)
    ensures out != inPath
    ensures StartsWith(out, inPath) && EndsWith(out, ".wav")
  {
    inPath + ".wav"
  }

  /** Distinct inputs never share an output path. */
  lemma OutputPathInjective(a: string, b: string)
    requires OutputPath(a) == OutputPath(b)
    ensures a == b
  {
    assert a == OutputPath(a)[..|a|];
    assert b == OutputPath(b)[..|b|];
  }

  /** The ffmpeg argument vector: overwrite (-y), read `inPath`, resample to
      16000 Hz, one channel, signed 16-bit little-endian PCM, write
      `OutputPath(inPath)`. */
  function FfmpegCommand(inPath: string): (cmd: seq<string>)
    ensures |cmd| == 11 && cmd[0] == "ffmpeg" && cmd[1] == "-y"
    ensures cmd[2] == "-i" && cmd[3] == inPath
    ensures cmd[4..10] == ["-ar", "16000", "-ac", "1", "-c:a", "pcm_s16le"]
    ensures Last(cmd) == OutputPath(inPath) && Last(cmd) != inPath
  {
    ["ffmpeg", "-y", "-i", inPath, "-ar", "16000", "-ac", "1", "-c:a", "pcm_s16le", OutputPath(inPath)]
  }

  const CONVERSION_FAILED_PREFIX := "ffmpeg conversion failed: "

  /** Only the return code decides: 0 yields the output path (whether or not
      a file is there), anything else the RuntimeError carrying stderr. */
  function ConversionOutcome(inPath: string, proc: Process): (r: Conversion)
    ensures r.Converted? <==> proc.Exited? && proc.returncode == 0
    ensures r.Converted? ==> r.outPath == OutputPath(inPath)
    ensures r.ConversionFailed? <==> proc.Exited? && proc.returncode != 0
    ensures r.ConversionFailed? ==> r.message == CONVERSION_FAILED_PREFIX + proc.stderr
    ensures r.SpawnError? ==> proc == SpawnFailed(r.message)
  {
    match proc
    case SpawnFailed(m) => SpawnError(m)
    case Exited(code, err, _) =>
      if code != 0 then ConversionFailed(CONVERSION_FAILED_PREFIX + err)
      else Converted(OutputPath(inPath))
  }

  /** The file system after ffmpeg ran: whatever it wrote at the output path,
      on success or failure alike. */
  function FfmpegEffect(files: map<string, Bytes>, inPath: string, proc: Process): (after: map<string, Bytes>)
    ensures forall p :: p != OutputPath(inPath) ==> (p in after <==> p in files)
    ensures forall p :: p in after && p != OutputPath(inPath) ==> after[p] == files[p]
    ensures OutputPath(inPath) in after <==> OutputPath(inPath) in files || (proc.Exited? && proc.output.Some?)
    ensures proc.Exited? && proc.output.Some? ==> after[OutputPath(inPath)] == proc.output.value
  {
    if proc.Exited? && proc.output.Some? then files[OutputPath(inPath) := proc.output.value] else files
  }

  /** `convert_to_wav_16k_mono`: run ffmpeg on the fixed argument vector and
      decide by its return code. */
  method ConvertToWav16kMono(fs: FileSystem, inPath: string, ffmpeg: seq<string> -> Process)
    returns (r: Conversion)
    modifies fs`files
    ensures r == ConversionOutcome(inPath, ffmpeg(FfmpegCommand(inPath)))
    ensures fs.files == FfmpegEffect(old(fs.files), inPath, ffmpeg(FfmpegCommand(inPath)))
  {
    var outPath := OutputPath(inPath);
    var cmd := ["ffmpeg", "-y", "-i", inPath, "-ar", "16000", "-ac", "1", "-c:a", "pcm_s16le", outPath];
    var res := ffmpeg(cmd);
    match res {
      case SpawnFailed(m) =>
        r := SpawnError(m);
      case Exited(code, err, output) =>
        if output.Some? {
          fs.Put(outPath, output.value);
        }
        if code != 0 {
          r := ConversionFailed(CONVERSION_FAILED_PREFIX + err);
        } else {
          r := Converted(outPath);
        }
    }
  }

  // ---------------------------------------------------------------------------
  // cleanup_paths
  // ---------------------------------------------------------------------------

  /** A path `cleanup_paths` tries to remove and can: given, non-empty, and
      not one whose removal raises. */
  predicate Removable(p: Option<string>, undeletable: set<string>) {
    p.Some? && p.value != "" && p.value !in undeletable
  }

  function CleanupTargets(paths: seq<Option<string>>, undeletable: set<string>): set<string> {
    set k | 0 <= k < |paths| && Removable(paths[k], undeletable) :: paths[k].value
  }

  /** The file system after `cleanup_paths(*paths)`. */
  function AfterCleanup(files: map<string, Bytes>, paths: seq<Option<string>>, undeletable: set<string>)
    : (after: map<string, Bytes>)
    ensures forall p :: p in after <==> p in files && p !in CleanupTargets(paths, undeletable)
    ensures forall p :: p in after ==> after[p] == files[p]
  {
    files - CleanupTargets(paths, undeletable)
  }

  lemma CleanupTargetsStep(paths: seq<Option<string>>, undeletable: set<string>, i: nat)
    requires i < |paths|
    ensures CleanupTargets(paths[..i + 1], undeletable) ==
      CleanupTargets(paths[..i], undeletable) +
      (if Removable(paths[i], undeletable) then {paths[i].value} else {})
  {
    var a, b := paths[..i + 1], paths[..i];
    forall p | p in CleanupTargets(a, undeletable)
      ensures p in CleanupTargets(b, undeletable) || (Removable(paths[i], undeletable) && p == paths[i].value)
    {
      var k :| 0 <= k < |a| && Removable(a[k], undeletable) && a[k].value == p;
      if k < i {
        assert b[k] == a[k];
      }
    }
    forall p | p in CleanupTargets(b, undeletable) ensures p in CleanupTargets(a, undeletable) {
      var k :| 0 <= k < |b| && Removable(b[k], undeletable) && b[k].value == p;
      assert a[k] == b[k];
    }
    if Removable(paths[i], undeletable) {
      assert a[i] == paths[i];
    }
  }

  /** `cleanup_paths`: skip None, empty and non-existent paths, remove the
      others, swallow removal errors. Nothing it was not given is touched,
      and it never fails. */
  method CleanupPaths(fs: FileSystem, paths: seq<Option<string>>)
    modifies fs`files
    ensures fs.files == AfterCleanup(old(fs.files), paths, fs.undeletable)
  {
    for i := 0 to |paths|
      invariant fs.files == AfterCleanup(old(fs.files), paths[..i], fs.undeletable)
    {
      CleanupTargetsStep(paths, fs.undeletable, i);
      var p := paths[i];
      if p.Some? && p.value != "" && fs.Exists(p.value) {
        var raised := fs.Remove(p.value);
      }
    }
    assert paths[..|paths|] == paths;
  }

  /** A path not handed to `cleanup_paths` keeps its contents, and a second
      call with the same paths changes nothing. */
  lemma CleanupOnlyNamedAndIdempotent(files: map<string, Bytes>, paths: seq<Option<string>>,
                                     undeletable: set<string>)
    ensures forall p :: p in files && Some(p) !in paths ==>
      p in AfterCleanup(files, paths, undeletable) && AfterCleanup(files, paths, undeletable)[p] == files[p]
    ensures AfterCleanup(AfterCleanup(files, paths, undeletable), paths, undeletable) ==
      AfterCleanup(files, paths, undeletable)
  {
  }
}
