# clip_audio_samples in Dafny

`clip_audio_samples.py` cuts one fixed-length audio clip out of each media file in a
directory. The media engine (ffmpeg) does the probing and cutting. This project models
the script's own logic and proves properties of it:

- **Prober** (`prober.dfy`): reads the whole-second duration and the audio codec of one
  language track from the text the engine printed. Each field has its default (0 seconds,
  `"aac"`).
- **Selector** (`selector.dfy`): picks the clip window. A random start is clamped by
  `min(draw, duration - length)`. A fixed start is `minutes * 60` and is never clamped.
- **Extractor** (`extractor.dfy`): builds the clip file name
  `file[:-4] + "_s<start>_e<end>." + codec`. A parser reads the name back.
- **Orchestrator** (`orchestrator.dfy`): keeps the directory entries whose last three
  characters are `mp4`, `mkv`, `mp3` or `aac`. It then processes them one at a time, in
  order. A failed extraction only marks its own file. `randrange(0)` raises an exception
  that nothing catches, so the first random-mode file with duration 0 ends the whole run.
- `text.dfy` holds Python's `\d`, `\w` and `\s` classes on ASCII, Python's `str(int)`
  with its inverse, and last-occurrence search. `wrappers.dfy` holds `Option`.

The loops that change state are methods proved against specification functions:

- `FilterValid` against `ValidFiles`.
- `RunBatch` and its loop body `ClipFile` against `Batch` and `ProcessFile`.
- `ProbeOutput`, which adds up the duration field by field as the script does, against
  `DurationSeconds` and `Codec`.

The engine is an oracle. For the i-th valid file, `texts[i]` is the text its probe
printed and `extracted[i]` is whether the cut exited with status 0. The random generator
is a stream `draws`, read once per `randrange` call. This text must be in range:
`0 <= draw < duration`.

How the two regular expressions are modelled, as Python's `re.search` evaluates them:

- **Duration.** The match is the first `"Duration: HH:MM:SS.ff"` token that follows a
  whitespace character. Each field is exactly two digits. The engine's duration comes out
  as `H*3600 + M*60 + S`; the hundredths are truncated.
- **Codec.** The match is the leftmost `"Stream"` that follows whitespace and has the
  marker `"(<lang>): Audio: "` plus a word character later on the same line. Greedy `.*`
  then picks the LAST such marker on that line. The codec is the longest run of word
  characters after it.

The code and the design intent disagree on one point. The design intent is that
only configuration errors end a run, and that a file whose probe fails still gets a clip
with duration 0. As written, in random mode `random.randrange(0)` raises `ValueError`
outside the `try`, so the run stops at that file. The model follows the code
(`Orchestrator.BatchAbortsIff`). When a file is shorter than the clip, the random start
is negative. The model keeps this as written and proves it (`Selector.ShortFileNegativeStart`).

## Model

| member | source | states |
|---|---|---|
| `Text.IntToString` | clip_audio_samples.py:91 | `str(int)` is non-empty and holds neither `_` nor `.` |
| `Text.IntToStringRoundTrip` | clip_audio_samples.py:91 | reading back what `str(i)` printed gives `i` (negatives included) |
| `Text.IntToStringInjective` | clip_audio_samples.py:91 | distinct offsets print differently |
| `Prober.FindDuration` | clip_audio_samples.py:59 | returns the first position where `\s+Duration: \d\d:\d\d:\d\d\.\d\d` matches, or none when no position matches |
| `Prober.DurationSeconds` | clip_audio_samples.py:114-119 | the duration is at most 99*3600+99*60+99, the most that two-digit fields can express |
| `Prober.DurationOfFirstMatch` | clip_audio_samples.py:114-118 | with the first match at p, the duration is hour*3600 + minute*60 + second of that token |
| `Prober.DurationTruncates` | clip_audio_samples.py:116-119 | the duration is the exact hundredths of the token divided by 100, rounded down (fraction dropped, never rounded) |
| `Prober.DurationDefault` | clip_audio_samples.py:107-121 | no match gives duration 0 |
| `Prober.LastAudio` | clip_audio_samples.py:60 | the last position in a range where the marker and a word character occur, or none |
| `Prober.CodecAfter` | clip_audio_samples.py:60 | for a `Stream` at q, greedy `.*` settles on the last marker reachable without crossing a line feed; none when no marker is reachable |
| `Prober.FindCodec` | clip_audio_samples.py:123 | the leftmost `Stream` with a reachable marker, and on it the last such marker; none when the pattern matches nowhere |
| `Prober.WordRun` | clip_audio_samples.py:60 | `\w+`: the longest run of word characters at a position |
| `Prober.Codec` | clip_audio_samples.py:123-125 | the codec is always a non-empty run of word characters |
| `Prober.CodecOfFirstMatch` | clip_audio_samples.py:123-125 | with the leftmost `Stream` q and its last marker k, the codec is the word run after that marker |
| `Prober.CodecDefault` | clip_audio_samples.py:108-127 | no match gives `"aac"` |
| `Prober.CodecHasNoDot` | clip_audio_samples.py:60 | the codec never holds a dot |
| `Prober.ProbeOutput` | clip_audio_samples.py:105-129 | starting from the defaults and adding the fields with `+=`, it returns `DurationSeconds` and `Codec` of the text; either lookup defaults on its own |
| `Prober.ExampleDurationOnly` | clip_audio_samples.py:114-127 | `" Duration: 01:02:03.99"` gives 3723 seconds and codec `"aac"`: duration found, codec defaulted |
| `Prober.ExampleCodecOnly` | clip_audio_samples.py:114-127 | `" Stream #0:1(jpn): Audio: opus"` gives codec `"opus"` and duration 0: codec found, duration defaulted |
| `Selector.ClipLengthSeconds` | clip_audio_samples.py:52 | the clip length in seconds is a whole number of minutes |
| `Selector.Min` | clip_audio_samples.py:88 | `min(a, b)` is at most both and equal to one of them |
| `Selector.SelectWindow` | clip_audio_samples.py:84-88 | none exactly when random mode meets duration 0 (`randrange(0)` raises); otherwise end - start is the clip length; fixed start = minutes*60; random start is at most the draw and at most duration - length |
| `Selector.RandomWindowInside` | clip_audio_samples.py:85-88 | duration at least the length implies 0 <= start and end <= duration |
| `Selector.RandomStartIsClamp` | clip_audio_samples.py:86-88 | the start is the draw when the clip fits after it, otherwise duration - length, with the clip ending at the end of the file |
| `Selector.ShortFileNegativeStart` | clip_audio_samples.py:88 | duration below the length gives start = duration - length < 0, whatever the draw |
| `Selector.FixedIgnoresDuration` | clip_audio_samples.py:84-85 | the fixed window depends neither on the duration nor on any draw |
| `Selector.ExampleFixedPastEnd` | clip_audio_samples.py:84 | a 10-minute fixed start on a 30-second file is window (600, 660) |
| `Selector.ExampleShortFile` | clip_audio_samples.py:86-88 | a 30-second file and a 60-second clip give window (-30, 30) for every draw |
| `Extractor.Stem` | clip_audio_samples.py:92 | `file[:-4]` drops the last four characters and is empty for names shorter than four |
| `Extractor.OutputName` | clip_audio_samples.py:91-92 | the name starts with the stem and ends with `"." + codec` |
| `Extractor.NameRoundTrip` | clip_audio_samples.py:91-92 | parsing the name from the right gives back the stem, start, end and codec, for any codec without a dot |
| `Extractor.OutputNameInjective` | clip_audio_samples.py:91-92 | equal names imply equal stems, windows and codecs |
| `Extractor.ExampleShortFileName` | clip_audio_samples.py:91-92 | `b.mkv` with window (-30, 30) and codec `aac` is named `b_s-30_e30.aac` |
| `Orchestrator.LastThree` | clip_audio_samples.py:69 | `file[-3:]` is the last three characters, or the whole name when it is shorter |
| `Orchestrator.MediaFileIff` | clip_audio_samples.py:69 | a name is kept exactly when it has at least three characters and ends in mp4, mkv, mp3 or aac |
| `Orchestrator.ValidFiles` | clip_audio_samples.py:67-70 | every kept entry is a media file from the listing, and there are no more entries than in the listing |
| `Orchestrator.ValidFilesMembership` | clip_audio_samples.py:67-70 | a name is kept exactly when it is in the listing and is a media file |
| `Orchestrator.ValidFilesAppend` | clip_audio_samples.py:67-70 | filtering a concatenation filters each part in turn, so listing order is kept |
| `Orchestrator.ValidFilesIdempotent` | clip_audio_samples.py:67-70 | filtering the kept list again changes nothing |
| `Orchestrator.FilterValid` | clip_audio_samples.py:67-70 | the appending loop produces exactly `ValidFiles(listing)`, so membership holds both ways |
| `Orchestrator.ProcessFile` | clip_audio_samples.py:80-100 | none exactly when random mode meets duration 0; otherwise the result names the file, uses `SelectWindow` on the probed duration, is a produced clip exactly when the extraction succeeded, and carries the probed codec's `OutputName` |
| `Orchestrator.ProcessFileResult` | clip_audio_samples.py:84-92 | a file that does not abort gets window (start, start + length), with start from the mode, and a name when extracted |
| `Orchestrator.ProcessFileDrawIgnored` | clip_audio_samples.py:84-85 | in fixed mode no draw influences a file's result |
| `Orchestrator.Batch` | clip_audio_samples.py:79-100 | a complete run has one result per file; an aborted run stops at a file whose probe found no duration in random mode |
| `Orchestrator.BatchInOrder` | clip_audio_samples.py:79-100 | the i-th result is that of the i-th valid file, with the i-th probe text, draw and extraction outcome |
| `Orchestrator.BatchAbortStable` | clip_audio_samples.py:86 | after the exception no later file is reached |
| `Orchestrator.BatchAbortsIff` | clip_audio_samples.py:85-86 | the run aborts exactly when some file has duration 0 in random mode, and no file before the stop has |
| `Orchestrator.ExtractionFailureIsolated` | clip_audio_samples.py:95-100 | extraction outcomes never change which files are reached or their windows |
| `Orchestrator.BatchStep` | clip_audio_samples.py:79-100 | one more file adds its result to the outcome, or aborts the run |
| `Orchestrator.BatchAdvance` | clip_audio_samples.py:79-100 | what the loop body computes for file i extends the outcome of i files to i + 1 |
| `Orchestrator.ProducedNames` | clip_audio_samples.py:98 | the names of produced clips, never more than there are results |
| `Orchestrator.ProducedNamesSnoc` | clip_audio_samples.py:98 | one more result adds its name only when it was produced |
| `Orchestrator.ProducedNamesAppend` | clip_audio_samples.py:98 | the names keep result order across concatenation |
| `Orchestrator.ProducedNamesMembership` | clip_audio_samples.py:98 | a name is listed exactly when some produced result carries it |
| `Orchestrator.ProducedNameRecordsWindow` | clip_audio_samples.py:91-98 | the i-th result is produced exactly when its extraction succeeded, and its name parses back to the file's stem, its window and the probed codec |
| `Orchestrator.ClipFile` | clip_audio_samples.py:80-100 | the loop body returns `ProcessFile` of its file and reads one draw only in random mode, and only when it does not abort |
| `Orchestrator.RunBatch` | clip_audio_samples.py:79-100 | the loop returns `Batch` of the valid files; the printed names are `ProducedNames` of the results; random mode uses exactly one draw per processed file and fixed mode uses none |
| `Orchestrator.ExampleMixedDurations` | clip_audio_samples.py:84-92 | files of 600 s and 30 s with one-minute random clips: both are processed, the first window lies inside its file and the second is (-30, 30) |

## Left out

- Command-line parsing (`getopt`, `-h`, exit status 2) and `print_usage` are not modelled. The configuration is given as a `Config` value.
- `os.listdir` is not modelled. The listing is an input sequence.
- The ffmpeg calls through `subprocess.run`, the shell strings passed to them (with their `\` path joining and unescaped quotes) and the stream copy itself are not modelled. Probe output and extraction success come from oracle sequences.
- Python's Mersenne Twister, its seed 1337 and the rejection sampling inside `randrange` are not modelled. Draws are given values, required to be in range.
- `print` output is not modelled. The printed clip names are returned as `outputs`.
- `Prober.FindDuration`, `Prober.FindCodec`: `\d`, `\w` and `\s` are restricted to ASCII. Python also matches Unicode digits, letters and spaces, and `int()` reads Unicode digits.
- `Prober.FindCodec`: the language tag is taken as literal text. The script interpolates it into the pattern unescaped, so regex metacharacters in the tag are not interpreted here.
- `Prober.ProbeOutput`: the text is the record's string form, given as is. Python builds it with `str(CompletedProcess)`, which escapes the engine's newlines; that conversion is not modelled.
- An uncaught exception is modelled as `aborted`. The traceback and exit status are not modelled.
