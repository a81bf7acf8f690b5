# PodcastAnalyzer core, modelled in Dafny

PodcastAnalyzer downloads a podcast episode, transcribes it, has a language
model analyse the transcript, and uploads the analysis to a Notion
database. This project models the parts of that pipeline that make
decisions or produce text, and proves what they promise:

- **Notion block compiler** (`src/notion_utils.py`). The inline tokenizer
  `parse_markdown_text` turns `**bold**`, `*italic*` and `` `code` `` into a
  rich-text array. The line classifier `convert_markdown_to_notion_blocks`
  turns each stripped line into a heading, divider, numbered item or
  paragraph block. It holds `- ` items in a pending buffer, which only a
  blank line, a paragraph or the end of the input flushes. Both are modelled
  as the loops the source runs (`NotionUtils.ParseMarkdownText`,
  `NotionUtils.ConvertMarkdownToNotionBlocks`). Each loop is proved equal to
  a specification function (`ParseInline`, `Compile`), and the lemmas are
  stated about those functions.
- **Transcript formats** (`src/transcribe.py`). `format_timestamp` is modelled
  on whole milliseconds, including the day prefix that `timedelta` writes
  from 24 hours on. `generate_srt` is a loop proved against `Srt`, and
  `generate_txt` is the join of the stripped texts.
- **`transcribe_audio`** (`src/transcribe.py`). It runs over a `FileSystem`
  class whose `files` map stands for the disk. The file-type sniffer, the
  ffmpeg conversion, the HTTP service, ffprobe and the Whisper model are
  oracles passed in with the call (`Oracles`). The progress callback is the
  list of fractions it receives. The imperative method
  `TranscribeAudioFile` is proved equal to the function `Transcription`, and
  the promises are lemmas about that function. They cover the cache, the
  5-tuple returned without a callback, the order of the API checks, cleanup
  after a failure, the content written and the progress fractions.
- **`format_duration`** (`src/utils.py`). The `XhYmZs` string is proved to
  read back as the number of seconds it came from.
- **Session state** (`src/state_manager.py`). `st.session_state` is a class
  whose field is a map. Its two methods are proved against `WithDefaults`
  and `Reset`.
- **Batch driver** (`src/auto_process.py`). Covered: the line filter of
  `read_podcast_urls`, `missing_vars`, the success count of `main` (with
  `process_podcast` as an oracle) and the output file name.

`Strings` holds the Python string operations the core relies on: `strip`,
`startswith`, `find`, `split` and `join` on one separator, ASCII `lower`,
and printing and reading decimal numbers.

Behaviour of the code that a reader might not expect, which the model keeps:

- An unmatched `**`, `*` or backtick is dropped, not kept as a literal
  character. The scan resumes one character after it
  (`UnmatchedMarkerDropped`, `UnclosedBoldDropped`).
- The converted audio file is deleted only when the API call succeeds. A
  failed request leaves it on disk, and so does a conversion that fails
  after ffmpeg has written its output.
- A cached transcript is read in text mode, so it comes back with `\r\n`
  and lone `\r` turned into `\n`. A transcript that holds carriage returns,
  such as an SRT reply with CRLF line endings, is therefore not returned
  byte for byte on the next call (`RerunHitsCache`).
- From one day on, `format_timestamp` writes `N day, H:MM:SS,mmm` (or
  `N days, ` from two days on), which is not the `H:MM:SS,mmm` shape
  (`FormatTimestampFromOneDay`).
- A heading, divider or numbered item does not flush pending `- ` items, so
  those items are emitted after it (`HeadingOvertakesPendingBullet`).

## Model

| member | source | states |
|---|---|---|
| `NotionUtils.ParseInline` | src/notion_utils.py:4-74 | the rich-text runs of a text, as the scan from position 0 produces them; its properties are the lemmas below |
| `NotionUtils.ParseMarkdownText` | src/notion_utils.py:4-74 | the `while` loop over `current_pos` returns exactly `ParseInline(text)` |
| `NotionUtils.ScanOnce` | src/notion_utils.py:18-72 | one pass of the loop body: the plain run before the nearest marker, then the marker branch, and the position the scan resumes at |
| `NotionUtils.ScanMarker` | src/notion_utils.py:36-72 | a closed `**`, `*` or backtick pair appends one styled run and resumes after the closer; anything else appends nothing and resumes one character later |
| `NotionUtils.NextMarkerSpec` | src/notion_utils.py:19-27 | the nearest of the three `find` results is the first `*` or backtick from the current position, or the end of the text when there is none |
| `NotionUtils.RunsAreOrderedSlices` | src/notion_utils.py:17-74 | every run is cut from the input, in input order and without overlap, and every input character outside all runs is a marker |
| `NotionUtils.PlainRuns` | src/notion_utils.py:29-34 | an unannotated run is never empty and never contains `*` or a backtick |
| `NotionUtils.NoMarkers` | src/notion_utils.py:17-34 | text without markers gives one unannotated run holding all of it, and empty text gives none |
| `NotionUtils.BoldPair` | src/notion_utils.py:38-48 | a `**` followed later by `**` yields one bold run of exactly the text between them, and the scan resumes after the closer |
| `NotionUtils.ItalicPair` | src/notion_utils.py:49-59 | a single `*` followed later by `*` yields one italic run of the text between them |
| `NotionUtils.CodePair` | src/notion_utils.py:60-70 | a backtick followed later by a backtick yields one code run of the text between them |
| `NotionUtils.UnmatchedMarkerDropped` | src/notion_utils.py:37-72 | a marker with no closer adds nothing, and the result is that of the text from one character later |
| `NotionUtils.UnclosedBoldDropped` | src/notion_utils.py:38-72 | a `**` with no later `*` loses both of its stars |
| `NotionUtils.UnterminatedBold` | src/notion_utils.py:38-72 | `**` followed by marker-free text gives that text alone, unannotated |
| `NotionUtils.Classify` | src/notion_utils.py:89-155 | the kind of one input line, decided on its stripped form by the `if`/`elif` chain |
| `NotionUtils.ClassifyRender` | src/notion_utils.py:89-155 | a line's kind is the first match among `# `, `## `, `### `, `---`, `- ` and `1. ` on the stripped line; putting the prefix back gives the stripped line; only blank lines are blank |
| `NotionUtils.AppendBulletedItems` | src/notion_utils.py:92-108 | flushing the buffer appends one bulleted item per pending item, in order |
| `NotionUtils.CompileStripped` | src/notion_utils.py:90-182 | the loop body appends the blocks of the line's kind and leaves the buffer as `Pending` says: a blank line flushes it, a `- ` item extends it, a paragraph flushes it and follows it |
| `NotionUtils.CompileOther` | src/notion_utils.py:137-182 | the divider, `- `, `1. ` and paragraph branches of the loop body |
| `NotionUtils.CompileParagraph` | src/notion_utils.py:155-182 | a paragraph emits the pending items first, then itself, and empties the buffer |
| `NotionUtils.FeedNextLine` | src/notion_utils.py:89-90 | the loop state after one more line is the state before it, fed with that line's kind |
| `NotionUtils.Compile` | src/notion_utils.py:76-202 | the blocks of a whole analysis: the lines' kinds fed in order through the pending-item buffer, then the final flush |
| `NotionUtils.ConvertMarkdownToNotionBlocks` | src/notion_utils.py:76-202 | the loop over the lines, then the final flush, returns exactly `Compile(analysis)` |
| `NotionUtils.CompileKeepsOrder` | src/notion_utils.py:89-200 | the output holds every `- ` item in input order, and every other non-blank line in input order; no block comes from a blank line |
| `NotionUtils.CompileBlockCount` | src/notion_utils.py:89-200 | there is exactly one block per non-blank line |
| `NotionUtils.HeadingOvertakesPendingBullet` | src/notion_utils.py:113-146 | a heading right after a `- ` item is emitted before that item |
| `NotionUtils.BlankLineFlushesBullet` | src/notion_utils.py:91-110 | a blank line between them emits the item first |
| `Utils.FormatDuration` | src/utils.py:1-21 | the `XhYmZs` string of a whole number of seconds; its read-back is `Utils.ParseDuration` |
| `Utils.ToClock` | src/utils.py:11-13 | `divmod` by 3600 and then by 60 gives fields that recombine to the total, with minutes and seconds below 60 |
| `Utils.FormatDurationRoundTrip` | src/utils.py:11-21 | the `XhYmZs` string reads back as the number of seconds it was made from |
| `Utils.FormatClockRoundTrip` | src/utils.py:15-21 | the joined parts read back as hours·3600 + minutes·60 + seconds |
| `Utils.FormatDurationEndsWithSeconds` | src/utils.py:20-21 | the string always ends with the seconds field, `total % 60` followed by `s` |
| `Utils.HoursShownIff` | src/utils.py:16-17 | `h` appears exactly when the duration is at least one hour |
| `Utils.MinutesShownIff` | src/utils.py:18-19 | `m` appears exactly when the duration is at least one minute |
| `Utils.ShortDuration` | src/utils.py:15-21 | under a minute, only the seconds field is written |
| `Utils.ZeroDuration` | src/utils.py:11-21 | zero seconds is written `0s` |
| `Transcribe.FormatTimestamp` | src/transcribe.py:18-21 | `str(timedelta(seconds=...))` without its fraction, then `,` and the three-digit milliseconds |
| `Transcribe.FormatTimestampRoundTrip` | src/transcribe.py:18-21 | below one day, the timestamp is read back as the milliseconds it was made from by a parser that accepts only the canonical `H:MM:SS,mmm`: hours without a leading zero (except `0`), minutes and seconds from 00 to 59 |
| `Transcribe.FormatTimestampCanonical` | src/transcribe.py:18-21 | below one day, the timestamp is the hour digits, `:`, two digits with a tens digit 0-5, `:`, two such digits, `,` and three digits; it starts with `0` only under one hour |
| `Transcribe.NonCanonicalRejected` | src/transcribe.py:18-21 | the timestamp parser refuses two-digit hours such as `00:00:05,000` and minutes past 59 such as `0:75:99,000` |
| `Transcribe.FormatTimestampFromOneDay` | src/transcribe.py:18-21 | from one day on, the timestamp is not of the form `H:MM:SS,mmm` |
| `Transcribe.NoNewlineInTimestamp` | src/transcribe.py:18-21 | a timestamp never contains a newline |
| `Transcribe.Srt` | src/transcribe.py:23-31 | the cues, numbered from 1, joined by newlines |
| `Transcribe.GenerateTxt` | src/transcribe.py:33-35 | the stripped segment texts joined by newlines |
| `Transcribe.CuesSnoc` | src/transcribe.py:26-30 | one more segment appends its cue, numbered one past the cues before it |
| `Transcribe.GenerateSrt` | src/transcribe.py:23-31 | the loop builds cue `i` from segment `i`, numbered from 1, and returns the cues joined by newlines |
| `Transcribe.CueIsItsLines` | src/transcribe.py:30 | a cue is its number, its timing line, its stripped text and an empty line, joined by newlines |
| `Transcribe.SrtIsItsLines` | src/transcribe.py:23-31 | the SubRip text is all the cue lines joined by newlines, so consecutive cues are separated by an empty line |
| `Transcribe.SrtLinesAt` | src/transcribe.py:26-31 | line `4i + m` of all cue lines is line `m` of cue `i + 1` |
| `Transcribe.SrtSplitsIntoLines` | src/transcribe.py:23-31 | split on newlines, the SubRip text gives back the cue lines when every text is a single line |
| `Transcribe.SrtLineStructure` | src/transcribe.py:23-31 | read line by line, the SubRip text has four lines per segment: its number, its `START --> END` line, its stripped text and an empty line |
| `Transcribe.TxtLineStructure` | src/transcribe.py:33-35 | read line by line, the plain text is the stripped segment texts in order |
| `Transcribe.NoSegments` | src/transcribe.py:23-35 | with no segments, both formats are the empty string |
| `TranscribeAudio.Transcription` | src/transcribe.py:84-213 | the outcome, the files afterwards and the callback fractions of one call, as a function of the files and the oracles |
| `TranscribeAudio.ApiAttempt` | src/transcribe.py:112-162 | what the API branch leaves: fractions, files, and transcript or failure |
| `TranscribeAudio.LocalAttempt` | src/transcribe.py:164-192 | what the local branch leaves: fractions and transcript or failure, with the files untouched |
| `TranscribeAudio.ResponseFormat` | src/transcribe.py:129-136 | `format_mapping.get(output_format.lower(), 'text')` |
| `TranscribeAudio.OutputPath` | src/transcribe.py:89-90 | `os.path.join("transcript_files", output_file)` |
| `TranscribeAudio.StepProgress` | src/transcribe.py:184-186 | the fraction reported after a segment |
| `TranscribeAudio.NormalizeNewlines` | src/transcribe.py:101-102 | the text a text-mode `read()` returns for stored text |
| `TranscribeAudio.NormalizedHasNoCarriageReturn` | src/transcribe.py:101-102 | text read in text mode never holds a carriage return |
| `TranscribeAudio.NormalizeWithoutCarriageReturn` | src/transcribe.py:101-102 | text without carriage returns reads back unchanged |
| `TranscribeAudio.NormalizeIdempotent` | src/transcribe.py:101-102 | reading back text that was read back changes nothing |
| `TranscribeAudio.TranscribeAudioFile` | src/transcribe.py:84-213 | the imperative function leaves the outcome, the files and the callback calls that `Transcription` describes, including the text-mode read of a cached transcript |
| `TranscribeAudio.ApiTranscribe` | src/transcribe.py:112-162 | the API branch: the checks, the conversion, the request, the choice of content and the removal of the converted file, as `ApiAttempt` describes |
| `TranscribeAudio.LocalTranscribe` | src/transcribe.py:164-192 | the local branch: model load, duration, segment loop and choice of format, as `LocalAttempt` describes, with the file system untouched |
| `TranscribeAudio.CollectSegments` | src/transcribe.py:180-186 | the segment loop collects the segments in order, with the fraction `min(0.2 + 0.7·elapsed/duration, 0.9)` after each; it fails exactly when a segment arrives while the duration is zero |
| `TranscribeAudio.FileSystem.Read` | src/transcribe.py:98-105 | reading the output path succeeds exactly for a text file, and gives its content with universal newlines applied, so it holds no carriage return |
| `TranscribeAudio.FileSystem.Write` | src/transcribe.py:196-198 | writing replaces the file at the path with the text and changes nothing else |
| `TranscribeAudio.FileSystem.WriteBinary` | src/transcribe.py:66-82 | the conversion leaves a non-text file at its output path, whether or not it then fails |
| `TranscribeAudio.FileSystem.Remove` | src/transcribe.py:204-205 | removing a path deletes it and nothing else |
| `TranscribeAudio.ResponseFormatValues` | src/transcribe.py:129-136 | the response format is one of `text`, `srt`, `vtt` and `json`; it is `srt` exactly for a format that lower-cases to `srt`; `srt`, `vtt` and `json` map to themselves, and `txt` and every other format to `text` |
| `TranscribeAudio.OutputPathPlacement` | src/transcribe.py:89-90 | a relative output name lands under `transcript_files/`, and an absolute one is used as it is |
| `TranscribeAudio.MissingAudioFirst` | src/transcribe.py:94-95 | a missing audio file is reported before anything else, with no file change and no callback call |
| `TranscribeAudio.CachedTranscript` | src/transcribe.py:97-105 | a readable transcript at the output path is returned as a text-mode read gives it, with no write and no callback call; without carriage returns that is the stored text itself |
| `TranscribeAudio.InfoWithoutCallback` | src/transcribe.py:107-109 | without a callback and without a usable cache, the call returns the 5-tuple and changes nothing |
| `TranscribeAudio.ApiChecksFirst` | src/transcribe.py:112-127 | in API mode, an unknown type, an unsupported extension and a missing URL are each reported exactly when they apply, in that order, before any callback call, conversion or request; only the output path is removed |
| `TranscribeAudio.ReturnedIsOnDisk` | src/transcribe.py:97-201 | whenever a transcript is returned, the output path holds a text file: a new transcript exactly, and a cached one whose text-mode read is the returned text |
| `TranscribeAudio.FailureRemovesOutput` | src/transcribe.py:203-213 | after a failure inside the `try`, there is no file at the output path |
| `TranscribeAudio.OnlyOutputAndConversionChange` | src/transcribe.py:111-213 | no path other than the output path and the file the conversion writes changes, whether the conversion succeeds or fails |
| `TranscribeAudio.ConvertedFileRemovedOnSuccess` | src/transcribe.py:125-162 | after a successful API call on converted audio, the converted file is gone |
| `TranscribeAudio.ApiContent` | src/transcribe.py:129-157 | an `srt` request returns the raw reply body; any other format returns the JSON `text` field, or `""` when it is absent |
| `TranscribeAudio.LocalContentOfRun` | src/transcribe.py:164-192 | a successful local run returns the SubRip text of the segments when the format lower-cases to `srt`, and their plain text otherwise |
| `TranscribeAudio.StepProgressBounds` | src/transcribe.py:184-186 | with a positive duration and a non-negative elapsed time, a segment's fraction lies between 0.2 and 0.9 |
| `TranscribeAudio.StepProgressMonotone` | src/transcribe.py:184-186 | a later elapsed time never gives a smaller fraction |
| `TranscribeAudio.LocalProgressBoundsAndOrder` | src/transcribe.py:168-195 | a successful local run reports 0.1, 0.2, the segment fractions, 0.9 and 1.0, all in [0.1, 1.0] and never decreasing |
| `TranscribeAudio.ProgressBoundsAndOrder` | src/transcribe.py:125-195 | in every call, the fractions passed to the callback lie in [0.1, 1.0] and never decrease |
| `TranscribeAudio.RerunHitsCache` | src/transcribe.py:97-201 | after a transcript is returned, repeating the request returns its text-mode read from the cache, whatever the backends would do, with no write and no callback call; that is the same transcript when it holds no carriage return |
| `StateManager.WithDefaults` | src/state_manager.py:18-20 | the state with each missing default key added with its default |
| `StateManager.Reset` | src/state_manager.py:22-36 | the state updated with all the defaults |
| `StateManager.DefaultValues` | src/state_manager.py:4-16 | there are eleven defaults; the three flags are `False` and the rest `None` |
| `StateManager.DefaultKeysAreTheDefaults` | src/state_manager.py:4-18 | the loop visits exactly the keys of the defaults |
| `StateManager.FillMissingStep` | src/state_manager.py:18-20 | one turn of the loop adds the key with its default only when the key is missing |
| `StateManager.SessionState.InitSessionState` | src/state_manager.py:3-20 | the loop leaves the state described by `WithDefaults` |
| `StateManager.SessionState.ResetSessionState` | src/state_manager.py:22-36 | the update leaves the state described by `Reset` |
| `StateManager.InitAddsAllDefaults` | src/state_manager.py:4-20 | after initialisation, every default key is present, and each key that was missing holds its default |
| `StateManager.InitKeepsExisting` | src/state_manager.py:18-20 | initialisation changes no key that was present and adds no key outside the defaults |
| `StateManager.InitIdempotent` | src/state_manager.py:18-20 | initialising twice is the same as initialising once |
| `StateManager.ResetRestoresDefaults` | src/state_manager.py:23-36 | after a reset, every default key holds its default whatever it held before, and other keys are untouched |
| `StateManager.InitAfterReset` | src/state_manager.py:3-36 | initialising after a reset changes nothing |
| `StateManager.InitFresh` | src/state_manager.py:3-20 | initialising an empty session gives exactly the defaults |
| `AutoProcess.FilterUrls` | src/auto_process.py:20-23 | the stripped lines that are non-empty and do not start with `#`, in order |
| `AutoProcess.MissingVars` | src/auto_process.py:121-122 | the required names that are unset or empty, in order |
| `AutoProcess.MainSpec` | src/auto_process.py:117-146 | how `main` ends, given the environment, the URL file and the oracle's answers |
| `AutoProcess.OutputFileName` | src/auto_process.py:47-48 | `f"{podcast_title}.{output_format}"` with the format from the environment |
| `AutoProcess.ReadPodcastUrls` | src/auto_process.py:17-24 | the loop returns `FilterUrls` of the file's lines |
| `AutoProcess.FilterUrlsSnoc` | src/auto_process.py:20-23 | one more line adds its stripped text exactly when that text is non-empty and does not start with `#` |
| `AutoProcess.UrlsAreClean` | src/auto_process.py:20-23 | every URL is stripped, non-empty, and does not start with `#` |
| `AutoProcess.FilterUrlsAppend` | src/auto_process.py:20-24 | the filter works line by line, so order and duplicates are kept |
| `AutoProcess.FilterUrlsOne` | src/auto_process.py:21-23 | a single line gives its stripped text when it is kept, and nothing otherwise |
| `AutoProcess.IndentedCommentDropped` | src/auto_process.py:21-22 | comments are detected after stripping, so an indented `#` line is dropped |
| `AutoProcess.MissingFromSpec` | src/auto_process.py:121-122 | a name is reported missing exactly when it is required and unset or empty; the list is empty exactly when all are set |
| `AutoProcess.MissingVarsOrder` | src/auto_process.py:121-122 | the missing names come in declared order |
| `AutoProcess.CountTrue` | src/auto_process.py:133-140 | the success count never exceeds the number of URLs |
| `AutoProcess.CountTrueExtremes` | src/auto_process.py:133-146 | the count equals the total exactly when every URL succeeds, and is zero exactly when none does |
| `AutoProcess.RunBatch` | src/auto_process.py:117-146 | the URLs are processed only when no variable is missing and the list is not empty; then each is processed once, in order, and the successes are counted |
| `AutoProcess.MainEarlyReturns` | src/auto_process.py:123-131 | a missing variable stops `main` before the URL file is read, and an empty URL list stops it before any processing |
| `AutoProcess.CompletedCounts` | src/auto_process.py:133-146 | a completed batch reports a positive total equal to the number of URLs, and at most that many successes |
| `AutoProcess.OutputFileNameParts` | src/auto_process.py:47-48 | the output file name is the title, a dot and the format, which is `txt` when `OUTPUT_FORMAT` is unset |

## Left out

- I/O, Streamlit and printing. Console messages, tqdm bars, `time.sleep`,
  and `makedirs` for the output directory are not modelled. The callback's
  message strings are not modelled; only its fractions are.
- External programs and services are oracles: `filetype.guess`, ffmpeg and
  ffprobe, `requests.post`, `WhisperModel` and `model.transcribe`. `validate_audio_file` and
  `convert_to_supported_format` are modelled only as "writes a file, and
  may fail before or after writing it". The path `Path.with_suffix(".mp3")` computes is taken from the
  oracle.
- Floating point. Segment times are whole milliseconds, so the float
  truncations `int(seconds)` and `int(frac * 1000)` of `format_timestamp` are
  not modelled. `round` in `format_duration` is applied before the model's
  input (a whole number of seconds). Progress fractions and durations are
  real numbers, so NaN and infinity are out of scope.
- `format_duration` on negative inputs: the model takes a natural number.
- `transcribe_audio` details:
  - the device and compute type only configure the model;
  - failures while writing the output file, and a callback that raises, are
    not modelled;
  - the segment generator failing part-way is modelled only as failing
    before any segment;
  - a `text` field that is not a string is not modelled;
  - a `requests` JSON decoding error is modelled as `MalformedReply`,
    whatever exception class `requests` raises for it;
  - the extra diagnostics printed for "Invalid file format" are not
    modelled.
- `TranscribeAudio.ProgressBoundsAndOrder` assumes a positive duration and
  elapsed times that are non-negative and non-decreasing. The source does
  not guarantee these, since they come from ffprobe and the clock.
- `str.lower` is modelled as ASCII lower-casing. No non-ASCII character
  lower-cases into `txt`, `srt`, `vtt` or `json`.
- `for line in f` is modelled as splitting the file text on `\n`. A lone
  `\r`, which Python's universal newlines also treat as a line break, is
  not.
- `str.strip` uses Python's whitespace set for the characters listed in
  `Strings.IsSpace`.
- `upload_to_notion`, `process_podcast` beyond its output file name, and
  all UI modules are not part of this model. In `main`, `process_podcast`
  is an oracle that returns `True` or `False` per URL.
- Session-state values other than `None` and booleans are abstract
  (`StrValue`, `OtherValue`). Streamlit's own session-state semantics, such
  as widget keys and reruns, are not modelled.
