/**
 * Model of the decision skeleton of `transcribe_audio` in src/transcribe.py.
 * The file system is a map from paths to files; the file-type sniffer, the
 * ffmpeg conversion, the HTTP transcription service, ffprobe and the local
 * Whisper model are oracles handed in with the call; the progress callback
 * is the list of fractions it is called with.
 */
module TranscribeAudio {
  import opened Strings
  import opened Transcribe

  // ---------------------------------------------------------------------
  // The world the function runs in
  // ---------------------------------------------------------------------

  /** A file whose bytes decode as UTF-8 text, or any other file. */
  datatype FileEntry = TextFile(content: string) | BinaryFile

  type Files = map<string, FileEntry>

  /**
   * What reading a file in text mode gives: universal newlines turn each
   * `\r\n` and each lone `\r` into `\n`.
   */
  function NormalizeNewlines(s: string): string {
    if s == [] then []
    else if s[0] == '\r' then "\n" + NormalizeNewlines(if 1 < |s| && s[1] == '\n' then s[2..] else s[1..])
    else [s[0]] + NormalizeNewlines(s[1..])
  }

  /** Text read back never holds a carriage return. */
  lemma {:induction false} NormalizedHasNoCarriageReturn(s: string)
    ensures '\r' !in NormalizeNewlines(s)
  {
    if s != [] {
      if s[0] == '\r' {
        NormalizedHasNoCarriageReturn(if 1 < |s| && s[1] == '\n' then s[2..] else s[1..]);
      } else {
        NormalizedHasNoCarriageReturn(s[1..]);
      }
    }
  }

  /** Text without carriage returns reads back unchanged. */
  lemma {:induction false} NormalizeWithoutCarriageReturn(s: string)
    requires '\r' !in s
    ensures NormalizeNewlines(s) == s
  {
    if s != [] {
      assert '\r' !in s[1..];
      NormalizeWithoutCarriageReturn(s[1..]);
    }
  }

  /** Reading back what was read changes nothing more. */
  lemma NormalizeIdempotent(s: string)
    ensures NormalizeNewlines(NormalizeNewlines(s)) == NormalizeNewlines(s)
  {
    NormalizedHasNoCarriageReturn(s);
    NormalizeWithoutCarriageReturn(NormalizeNewlines(s));
  }

  /** The arguments of `transcribe_audio`; `hasCallback` is `progress_callback is not None`. */
  datatype Request = Request(
    audioPath: string,
    outputFile: string,
    outputFormat: string,
    mode: string,
    apiUrl: Option<string>,
    hasCallback: bool)

  /**
   * What `convert_to_supported_format` does: fail, possibly after ffmpeg has
   * already written a file at `leftover` (the validation or the second
   * ffmpeg run raises), or write an mp3 file at `path`.
   */
  datatype Conversion = ConversionFailed(leftover: Option<string>) | Converted(path: string)

  /** The path the conversion writes, if any. */
  function ConversionPath(c: Conversion): Option<string> {
    match c
    case ConversionFailed(leftover) => leftover
    case Converted(path) => Some(path)
  }

  /** The body of a reply read as JSON: not a JSON object, or an object with or without a `text` string. */
  datatype JsonBody = NotJsonObject | JsonObject(text: Option<string>)

  /** The outcome of the POST: a request exception (including an HTTP error status), or a reply. */
  datatype Reply = RequestFailed | Replied(body: string, json: JsonBody)

  /** One segment yielded by the model, with the seconds elapsed since transcription started. */
  datatype Step = Step(segment: Segment, elapsed: real)

  /** The local backend: whether the model loads, what ffprobe reports, and the segments (None if transcription raises). */
  datatype LocalRun = LocalRun(modelLoads: bool, duration: Option<real>, steps: Option<seq<Step>>)

  /** Everything outside the function that decides its course. */
  datatype Oracles = Oracles(detected: Option<string>, conversion: Conversion, reply: Reply, local: LocalRun)

  /** The exceptions raised inside the `try` block. */
  datatype Failure =
    | UnknownFileType
    | UnsupportedFileType(extension: string)
    | MissingApiUrl
    | ConversionError
    | ApiRequestFailed
    | MalformedReply
    | ModelLoadFailed
    | DurationUnavailable
    | LocalTranscriptionFailed
    | ZeroDuration

  /** How a call ends: `FileNotFoundError`, a returned transcript, the returned 5-tuple, or a re-raised failure. */
  datatype Outcome =
    | AudioNotFound
    | Returned(content: string)
    | Info(outputPath: string, outputFile: string, outputFormat: string, mode: string, apiUrl: Option<string>)
    | Failed(failure: Failure)

  /** The outcome of a call, the file system after it, and the fractions passed to the callback. */
  datatype Run = Run(outcome: Outcome, files: Files, progress: seq<real>)

  /** What a backend leaves behind: its callback fractions, the file system, and its transcript or failure. */
  datatype Result = Produced(content: string) | Raised(failure: Failure)
  datatype Attempt = Attempt(progress: seq<real>, files: Files, result: Result)

  // ---------------------------------------------------------------------
  // Constants and small decisions
  // ---------------------------------------------------------------------

  const SupportedApiFormats: seq<string> :=
    ["flac", "m4a", "mp3", "mp4", "mpeg", "mpga", "oga", "ogg", "wav", "webm"]

  const OutputDir: string := "transcript_files"

  /** `os.path.join("transcript_files", output_file)`: an absolute name replaces the directory. */
  function OutputPath(outputFile: string): string {
    if StartsWith(outputFile, "/") then outputFile else OutputDir + "/" + outputFile
  }

  /** The `format_mapping` lookup on the lower-cased output format, defaulting to `text`. */
  function ResponseFormat(outputFormat: string): string {
    var f := LowerAscii(outputFormat);
    if f == "txt" then "text"
    else if f == "srt" then "srt"
    else if f == "vtt" then "vtt"
    else if f == "json" then "json"
    else "text"
  }

  /** The fraction reported after a segment: `min(0.2 + 0.7 * elapsed / duration, 0.9)`. */
  function StepProgress(elapsed: real, duration: real): real
    requires duration != 0.0
  {
    var p := 0.2 + 0.7 * (elapsed / duration);
    if 0.9 < p then 0.9 else p
  }

  /** The segments the loop collects, in order. */
  function SegmentsOf(steps: seq<Step>): seq<Segment> {
    seq(|steps|, k requires 0 <= k < |steps| => steps[k].segment)
  }

  /** The fractions the loop reports, one per segment. */
  function StepReports(steps: seq<Step>, duration: real): seq<real>
    requires duration != 0.0
  {
    seq(|steps|, k requires 0 <= k < |steps| => StepProgress(steps[k].elapsed, duration))
  }

  /** The local transcript: SubRip when the lower-cased format is `srt`, plain text otherwise. */
  function LocalContent(outputFormat: string, segs: seq<Segment>): string {
    if LowerAscii(outputFormat) == "srt" then Srt(segs) else GenerateTxt(segs)
  }

  // ---------------------------------------------------------------------
  // The two backends and the whole call, as functions
  // ---------------------------------------------------------------------

  /** The `mode == 'api'` branch of the `try` block. */
  function ApiAttempt(files: Files, req: Request, o: Oracles): Attempt {
    if o.detected.None? then Attempt([], files, Raised(UnknownFileType))
    else
      var ext := o.detected.value;
      if ext !in SupportedApiFormats then Attempt([], files, Raised(UnsupportedFileType(ext)))
      else if req.apiUrl.None? || req.apiUrl.value == "" then Attempt([], files, Raised(MissingApiUrl))
      else if ext != "mp3" && o.conversion.ConversionFailed? then
        var left := if o.conversion.leftover.Some? then files[o.conversion.leftover.value := BinaryFile] else files;
        Attempt([0.1], left, Raised(ConversionError))
      else
        var converted := ext != "mp3";
        var sent := if converted then files[o.conversion.path := BinaryFile] else files;
        match o.reply
        case RequestFailed => Attempt([0.1, 0.3], sent, Raised(ApiRequestFailed))
        case Replied(body, json) =>
          if ResponseFormat(req.outputFormat) == "srt" then
            Attempt([0.1, 0.3], if converted then sent - {o.conversion.path} else sent, Produced(body))
          else if json.NotJsonObject? then Attempt([0.1, 0.3], sent, Raised(MalformedReply))
          else
            var content := if json.text.Some? then json.text.value else "";
            Attempt([0.1, 0.3], if converted then sent - {o.conversion.path} else sent, Produced(content))
  }

  /** The local branch of the `try` block. */
  function LocalAttempt(files: Files, req: Request, run: LocalRun): Attempt {
    if !run.modelLoads then Attempt([0.1], files, Raised(ModelLoadFailed))
    else if run.duration.None? then Attempt([0.1, 0.2], files, Raised(DurationUnavailable))
    else if run.steps.None? then Attempt([0.1, 0.2], files, Raised(LocalTranscriptionFailed))
    else
      var d := run.duration.value;
      var steps := run.steps.value;
      if steps != [] && d == 0.0 then Attempt([0.1, 0.2], files, Raised(ZeroDuration))
      else
        var reports := if d == 0.0 then [] else StepReports(steps, d);
        Attempt([0.1, 0.2] + reports + [0.9], files, Produced(LocalContent(req.outputFormat, SegmentsOf(steps))))
  }

  /** A transcript at the output path that reads as text. */
  predicate Cached(files: Files, req: Request) {
    OutputPath(req.outputFile) in files && files[OutputPath(req.outputFile)].TextFile?
  }

  /** `transcribe_audio`. */
  function Transcription(files: Files, req: Request, o: Oracles): Run {
    var out := OutputPath(req.outputFile);
    if req.audioPath !in files then Run(AudioNotFound, files, [])
    else if Cached(files, req) then Run(Returned(NormalizeNewlines(files[out].content)), files, [])
    else if !req.hasCallback then
      Run(Info(out, req.outputFile, req.outputFormat, req.mode, req.apiUrl), files, [])
    else
      var a := if req.mode == "api" then ApiAttempt(files, req, o) else LocalAttempt(files, req, o.local);
      match a.result
      case Produced(content) => Run(Returned(content), a.files[out := TextFile(content)], a.progress + [1.0])
      case Raised(failure) => Run(Failed(failure), a.files - {out}, a.progress)
  }

  // ---------------------------------------------------------------------
  // What the function promises
  // ---------------------------------------------------------------------

  /**
   * The response format is one of the four the service accepts; it is `srt`
   * exactly for the format `srt` in any case; `srt`, `vtt` and `json` map to
   * themselves, and `txt` and every other format to `text`.
   */
  lemma ResponseFormatValues(outputFormat: string)
    ensures ResponseFormat(outputFormat) in ["text", "srt", "vtt", "json"]
    ensures ResponseFormat(outputFormat) == "srt" <==> LowerAscii(outputFormat) == "srt"
    ensures LowerAscii(outputFormat) in ["srt", "vtt", "json"] ==> ResponseFormat(outputFormat) == LowerAscii(outputFormat)
    ensures LowerAscii(outputFormat) !in ["srt", "vtt", "json"] ==> ResponseFormat(outputFormat) == "text"
  {
  }

  /** A relative output name lands in `transcript_files/`; an absolute one is used as it is. */
  lemma OutputPathPlacement(outputFile: string)
    ensures StartsWith(outputFile, "/") ==> OutputPath(outputFile) == outputFile
    ensures !StartsWith(outputFile, "/") ==>
      StartsWith(OutputPath(outputFile), "transcript_files/")
      && OutputPath(outputFile)[|"transcript_files/"|..] == outputFile
  {
    if !StartsWith(outputFile, "/") {
      assert OutputPath(outputFile) == "transcript_files/" + outputFile;
    }
  }

  /** A missing audio file is reported before anything else, and nothing changes. */
  lemma MissingAudioFirst(files: Files, req: Request, o: Oracles)
    ensures req.audioPath !in files <==> Transcription(files, req, o).outcome == AudioNotFound
    ensures req.audioPath !in files ==> Transcription(files, req, o) == Run(AudioNotFound, files, [])
  {
  }

  /**
   * A readable transcript at the output path is returned as text mode reads
   * it, with no callback call and no write; without carriage returns that is
   * the stored text itself.
   */
  lemma CachedTranscript(files: Files, req: Request, o: Oracles)
    requires req.audioPath in files && Cached(files, req)
    ensures var stored := files[OutputPath(req.outputFile)].content;
      Transcription(files, req, o) == Run(Returned(NormalizeNewlines(stored)), files, [])
    ensures var stored := files[OutputPath(req.outputFile)].content;
      '\r' !in stored ==> Transcription(files, req, o) == Run(Returned(stored), files, [])
  {
    if '\r' !in files[OutputPath(req.outputFile)].content {
      NormalizeWithoutCarriageReturn(files[OutputPath(req.outputFile)].content);
    }
  }

  /** Without a callback and a readable transcript, the call only describes itself. */
  lemma InfoWithoutCallback(files: Files, req: Request, o: Oracles)
    requires req.audioPath in files && !req.hasCallback
    requires !Cached(files, req)
    ensures var r := Transcription(files, req, o);
      r.outcome == Info(OutputPath(req.outputFile), req.outputFile, req.outputFormat, req.mode, req.apiUrl)
      && r.files == files && r.progress == []
  {
  }

  /** The conditions under which a call reaches a backend. */
  predicate ReachesBackend(files: Files, req: Request) {
    req.audioPath in files && req.hasCallback && !Cached(files, req)
  }

  /**
   * In API mode the file type, the supported list and the server URL are
   * checked in that order, each before any callback call, conversion or
   * request; failing any of them only removes the output path.
   */
  lemma ApiChecksFirst(files: Files, req: Request, o: Oracles)
    requires ReachesBackend(files, req) && req.mode == "api"
    ensures var r := Transcription(files, req, o);
      (r.outcome == Failed(UnknownFileType) <==> o.detected.None?)
      && (o.detected.Some? && o.detected.value !in SupportedApiFormats
          <==> r.outcome.Failed? && r.outcome.failure.UnsupportedFileType?)
      && (o.detected.Some? && o.detected.value in SupportedApiFormats && (req.apiUrl.None? || req.apiUrl.value == "")
          <==> r.outcome == Failed(MissingApiUrl))
      && (r.outcome in {Failed(UnknownFileType), Failed(MissingApiUrl)} || (r.outcome.Failed? && r.outcome.failure.UnsupportedFileType?)
          ==> r.progress == [] && r.files == files - {OutputPath(req.outputFile)})
  {
  }

  /**
   * Whenever a transcript is returned, a text file is at the output path: a
   * fresh transcript is written there exactly, and a cached one is returned
   * as text mode reads that file.
   */
  lemma ReturnedIsOnDisk(files: Files, req: Request, o: Oracles)
    ensures var r := Transcription(files, req, o);
      r.outcome.Returned? ==>
        OutputPath(req.outputFile) in r.files && r.files[OutputPath(req.outputFile)].TextFile?
    ensures var r := Transcription(files, req, o);
      r.outcome.Returned? && !Cached(files, req) ==>
        r.files[OutputPath(req.outputFile)] == TextFile(r.outcome.content)
    ensures var r := Transcription(files, req, o);
      r.outcome.Returned? && Cached(files, req) ==>
        r.outcome.content == NormalizeNewlines(r.files[OutputPath(req.outputFile)].content)
  {
  }

  /** A failure inside the `try` block leaves no file at the output path. */
  lemma FailureRemovesOutput(files: Files, req: Request, o: Oracles)
    ensures var r := Transcription(files, req, o);
      r.outcome.Failed? ==> OutputPath(req.outputFile) !in r.files
  {
  }

  /**
   * Apart from the output path, a call changes at most the file the
   * conversion writes, and that only in API mode for a type other than mp3.
   */
  lemma OnlyOutputAndConversionChange(files: Files, req: Request, o: Oracles, p: string)
    requires p != OutputPath(req.outputFile)
    requires !(req.mode == "api" && o.detected.Some? && o.detected.value != "mp3"
               && ConversionPath(o.conversion) == Some(p))
    ensures var r := Transcription(files, req, o);
      (p in r.files <==> p in files) && (p in files ==> r.files[p] == files[p])
  {
  }

  /** After a successful API call on converted audio, the converted file is removed. */
  lemma ConvertedFileRemovedOnSuccess(files: Files, req: Request, o: Oracles)
    requires ReachesBackend(files, req) && req.mode == "api"
    requires o.detected.Some? && o.detected.value != "mp3" && o.conversion.Converted?
    requires o.conversion.path != OutputPath(req.outputFile)
    ensures var r := Transcription(files, req, o);
      r.outcome.Returned? ==> o.conversion.path !in r.files
  {
  }

  /** In API mode, a reply for `srt` is returned as its raw body; for any other format the JSON `text` field, or `""`. */
  lemma ApiContent(files: Files, req: Request, o: Oracles)
    requires ReachesBackend(files, req) && req.mode == "api"
    requires o.reply.Replied?
    ensures var r := Transcription(files, req, o);
      (r.outcome.Returned? && LowerAscii(req.outputFormat) == "srt" ==> r.outcome.content == o.reply.body)
      && (r.outcome.Returned? && LowerAscii(req.outputFormat) != "srt" ==>
            o.reply.json.JsonObject?
            && r.outcome.content == (if o.reply.json.text.Some? then o.reply.json.text.value else ""))
  {
    ResponseFormatValues(req.outputFormat);
  }

  /** In local mode, a successful call returns the SubRip or the plain text of the model's segments. */
  lemma LocalContentOfRun(files: Files, req: Request, o: Oracles)
    requires ReachesBackend(files, req) && req.mode != "api"
    requires o.local.modelLoads && o.local.duration.Some? && o.local.steps.Some?
    requires o.local.steps.value == [] || o.local.duration.value != 0.0
    ensures Transcription(files, req, o).outcome == Returned(LocalContent(req.outputFormat, SegmentsOf(o.local.steps.value)))
  {
  }

  /** Elapsed times that are never negative, and never decrease from one segment to the next. */
  predicate SteadyClock(steps: seq<Step>) {
    (forall k :: 0 <= k < |steps| ==> 0.0 <= steps[k].elapsed)
    && (forall k :: 0 < k < |steps| ==> steps[k - 1].elapsed <= steps[k].elapsed)
  }

  /** Each reported fraction of a segment lies between 0.2 and 0.9. */
  lemma StepProgressBounds(elapsed: real, duration: real)
    requires duration > 0.0 && elapsed >= 0.0
    ensures 0.2 <= StepProgress(elapsed, duration) <= 0.9
  {
    assert elapsed / duration >= 0.0;
  }

  /** A later segment is reported no lower than an earlier one. */
  lemma StepProgressMonotone(e1: real, e2: real, duration: real)
    requires duration > 0.0 && e1 <= e2
    ensures StepProgress(e1, duration) <= StepProgress(e2, duration)
  {
    assert e2 / duration - e1 / duration == (e2 - e1) / duration;
    assert (e2 - e1) / duration >= 0.0;
  }

  /** Non-decreasing fractions. */
  predicate NonDecreasing(ps: seq<real>) {
    forall k :: 0 < k < |ps| ==> ps[k - 1] <= ps[k]
  }

  /** The fractions of a successful local run, the final 1.0 included, lie in [0.1, 1.0] and never decrease. */
  lemma LocalProgressBoundsAndOrder(steps: seq<Step>, d: real)
    requires d > 0.0 && SteadyClock(steps)
    ensures var ps := [0.1, 0.2] + StepReports(steps, d) + [0.9] + [1.0];
      (forall k :: 0 <= k < |ps| ==> 0.1 <= ps[k] <= 1.0) && NonDecreasing(ps)
  {
    var reports := StepReports(steps, d);
    forall k | 0 <= k < |reports|
      ensures 0.2 <= reports[k] <= 0.9
    {
      StepProgressBounds(steps[k].elapsed, d);
    }
    forall k | 0 < k < |reports|
      ensures reports[k - 1] <= reports[k]
    {
      StepProgressMonotone(steps[k - 1].elapsed, steps[k].elapsed, d);
    }
    var ps := [0.1, 0.2] + reports + [0.9] + [1.0];
    forall k | 0 < k < |ps|
      ensures ps[k - 1] <= ps[k]
    {
      if 2 < k < |reports| + 2 {
        assert ps[k - 1] == reports[k - 3] && ps[k] == reports[k - 2];
      }
    }
  }

  /**
   * With a positive duration and a steady clock, every fraction passed to
   * the callback lies in [0.1, 1.0], and the fractions never decrease.
   */
  lemma ProgressBoundsAndOrder(files: Files, req: Request, o: Oracles)
    requires o.local.duration.Some? ==> o.local.duration.value > 0.0
    requires o.local.steps.Some? ==> SteadyClock(o.local.steps.value)
    ensures var ps := Transcription(files, req, o).progress;
      (forall k :: 0 <= k < |ps| ==> 0.1 <= ps[k] <= 1.0) && NonDecreasing(ps)
  {
    if ReachesBackend(files, req) && req.mode != "api" && o.local.modelLoads
       && o.local.duration.Some? && o.local.steps.Some? {
      var steps := o.local.steps.value;
      var d := o.local.duration.value;
      LocalProgressBoundsAndOrder(steps, d);
      var a := LocalAttempt(files, req, o.local);
      assert a.result.Produced? ==> a.progress == [0.1, 0.2] + (if d == 0.0 then [] else StepReports(steps, d)) + [0.9];
    }
  }

  /**
   * Once a transcript has been returned, running the same request again
   * returns it from the cache as text mode reads it, whatever the backends
   * would do: the same transcript when it holds no carriage return, and a
   * third run returns the same as the second.
   */
  lemma RerunHitsCache(files: Files, req: Request, o: Oracles, o2: Oracles)
    requires var r := Transcription(files, req, o); r.outcome.Returned? && req.audioPath in r.files
    ensures var r := Transcription(files, req, o);
      Transcription(r.files, req, o2) == Run(Returned(NormalizeNewlines(r.outcome.content)), r.files, [])
    ensures var r := Transcription(files, req, o);
      '\r' !in r.outcome.content ==> Transcription(r.files, req, o2) == Run(r.outcome, r.files, [])
  {
    ReturnedIsOnDisk(files, req, o);
    var r := Transcription(files, req, o);
    if '\r' !in r.outcome.content {
      NormalizeWithoutCarriageReturn(r.outcome.content);
    }
    if Cached(files, req) {
      NormalizeIdempotent(files[OutputPath(req.outputFile)].content);
    }
  }

  // ---------------------------------------------------------------------
  // The file system and the imperative function
  // ---------------------------------------------------------------------

  class FileSystem {
    var files: Files

    constructor(initial: Files)
      ensures files == initial
    {
      files := initial;
    }

    /**
     * `open(path, "r").read()` when the file exists: its text with universal
     * newlines applied, or None when it does not decode and reading raises.
     */
    method Read(path: string) returns (r: Option<string>)
      requires path in files
      ensures r.Some? <==> files[path].TextFile?
      ensures r.Some? ==> r.value == NormalizeNewlines(files[path].content) && '\r' !in r.value
    {
      r := if files[path].TextFile? then Some(NormalizeNewlines(files[path].content)) else None;
      if r.Some? {
        NormalizedHasNoCarriageReturn(files[path].content);
      }
    }

    method Write(path: string, content: string)
      modifies this
      ensures files == old(files)[path := TextFile(content)]
    {
      files := files[path := TextFile(content)];
    }

    method WriteBinary(path: string)
      modifies this
      ensures files == old(files)[path := BinaryFile]
    {
      files := files[path := BinaryFile];
    }

    method Remove(path: string)
      modifies this
      ensures files == old(files) - {path}
    {
      files := files - {path};
    }
  }

  /**
   * The segment loop: collects the segments and the fraction reported after
   * each; `ok` is false when a segment arrives while the duration is zero,
   * where the division raises.
   */
  method CollectSegments(steps: seq<Step>, duration: real)
    returns (ok: bool, processed: seq<Segment>, reports: seq<real>)
    ensures ok <==> steps == [] || duration != 0.0
    ensures ok ==> processed == SegmentsOf(steps)
    ensures ok && duration != 0.0 ==> reports == StepReports(steps, duration)
    ensures ok && duration == 0.0 ==> reports == []
  {
    processed := [];
    reports := [];
    var i := 0;
    while i < |steps|
      invariant 0 <= i <= |steps|
      invariant processed == SegmentsOf(steps[..i])
      invariant i > 0 ==> duration != 0.0
      invariant duration != 0.0 ==> reports == StepReports(steps[..i], duration)
      invariant duration == 0.0 ==> reports == []
    {
      processed := processed + [steps[i].segment];
      if duration == 0.0 {
        return false, processed, reports;
      }
      reports := reports + [StepProgress(steps[i].elapsed, duration)];
      i := i + 1;
    }
    assert steps[..i] == steps;
    ok := true;
  }

  method ApiTranscribe(fs: FileSystem, req: Request, o: Oracles) returns (progress: seq<real>, result: Result)
    modifies fs
    ensures Attempt(progress, fs.files, result) == ApiAttempt(old(fs.files), req, o)
  {
    progress := [];
    if o.detected.None? {
      return progress, Raised(UnknownFileType);
    }
    var ext := o.detected.value;
    if ext !in SupportedApiFormats {
      return progress, Raised(UnsupportedFileType(ext));
    }
    if req.apiUrl.None? || req.apiUrl.value == "" {
      return progress, Raised(MissingApiUrl);
    }
    progress := progress + [0.1];
    var converted := ext != "mp3";
    if converted {
      if o.conversion.ConversionFailed? {
        if o.conversion.leftover.Some? {
          fs.WriteBinary(o.conversion.leftover.value);
        }
        return progress, Raised(ConversionError);
      }
      fs.WriteBinary(o.conversion.path);
    }
    progress := progress + [0.3];
    var content: string;
    match o.reply {
      case RequestFailed =>
        return progress, Raised(ApiRequestFailed);
      case Replied(body, json) =>
        if ResponseFormat(req.outputFormat) == "srt" {
          content := body;
        } else if json.NotJsonObject? {
          return progress, Raised(MalformedReply);
        } else {
          content := if json.text.Some? then json.text.value else "";
        }
    }
    if converted {
      fs.Remove(o.conversion.path);
    }
    result := Produced(content);
  }

  method LocalTranscribe(fs: FileSystem, req: Request, run: LocalRun) returns (progress: seq<real>, result: Result)
    ensures Attempt(progress, fs.files, result) == LocalAttempt(fs.files, req, run)
  {
    progress := [0.1];
    if !run.modelLoads {
      return progress, Raised(ModelLoadFailed);
    }
    progress := progress + [0.2];
    if run.duration.None? {
      return progress, Raised(DurationUnavailable);
    }
    if run.steps.None? {
      return progress, Raised(LocalTranscriptionFailed);
    }
    var ok, processed, reports := CollectSegments(run.steps.value, run.duration.value);
    if !ok {
      return progress, Raised(ZeroDuration);
    }
    progress := progress + reports + [0.9];
    var content: string;
    if LowerAscii(req.outputFormat) == "srt" {
      content := GenerateSrt(processed);
    } else {
      content := GenerateTxt(processed);
    }
    assert content == LocalContent(req.outputFormat, SegmentsOf(run.steps.value));
    result := Produced(content);
  }

  method TranscribeAudioFile(fs: FileSystem, req: Request, o: Oracles) returns (outcome: Outcome, progress: seq<real>)
    modifies fs
    ensures Run(outcome, fs.files, progress) == Transcription(old(fs.files), req, o)
  {
    var out := OutputPath(req.outputFile);
    progress := [];
    if req.audioPath !in fs.files {
      return AudioNotFound, progress;
    }
    if out in fs.files {
      var cached := fs.Read(out);
      if cached.Some? {
        return Returned(cached.value), progress;
      }
    }
    if !req.hasCallback {
      return Info(out, req.outputFile, req.outputFormat, req.mode, req.apiUrl), progress;
    }
    var result: Result;
    if req.mode == "api" {
      progress, result := ApiTranscribe(fs, req, o);
    } else {
      progress, result := LocalTranscribe(fs, req, o.local);
    }
    match result {
      case Produced(content) =>
        progress := progress + [1.0];
        fs.Write(out, content);
        outcome := Returned(content);
      case Raised(failure) =>
        fs.Remove(out);
        outcome := Failed(failure);
    }
  }
}
