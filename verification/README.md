# SRT serializer of insanely-fast-whisper, in Dafny

`insanely-fast-whisper.py` is a command-line speech recognizer. After recognition it writes
the transcript chunks to a SubRip (`.srt`) subtitle file. This project models that
serializer and proves its properties. It has three parts:

- **`seconds_to_srt_time_format`**. It splits a non-negative second count into hours,
  minutes, whole seconds and truncated milliseconds, then renders them as
  `HH:MM:SS,mmm`.
- **The writing loop** of `asr_cli`. Chunk `k` (from 0), in order, becomes the block
  `"<k+1>\n<start> --> <end>\n<text.strip()>\n\n"`, and the file is these blocks one
  after the other.
- **The output file name**. It is the base name of the audio path with its last
  extension removed, followed by `.srt`.

Modules, one per file:

- `Wrappers`: an `Option` type.
- `Decimal`: `{n}` and `{n:0Wd}` formatting, with the digit-string value as its inverse.
- `Search`: `str.find` / `str.rfind` for one character.
- `Whitespace`: `str.strip()`. It uses the characters `str.isspace` accepts. `IsStripOf`
  describes a stripped string independently of the algorithm, and `Strip` is proved to
  be its unique solution.
- `SrtTime`: the timestamp formatter. It comes with `ParseFields`, a parser that inverts
  it, and both round trips are proved.
- `SrtDocument`: cues, cue blocks and the document, with `ParseCue` (the inverse of a
  block, both directions) and the writing loop `WriteSrt`.
- `OutputName`: POSIX `os.path.basename` / `os.path.splitext` and the `.srt` name.

Input seconds are exact non-negative reals. Python's float `//`, `%=` and `int()` become
`Floor` on exact reals. `SecondsToSrtTimeFormat` replays the source's steps one by one.
It is proved to print exactly the decomposition of the input truncated to whole
milliseconds (`TruncatedMillis`, `Decompose`).

## Model

| member | source | states |
|---|---|---|
| `Decimal.Digits` | insanely-fast-whisper.py:61 | `{index + 1}` is a non-empty digit string with no superfluous leading zero, and its value is the number |
| `Decimal.DigitsCanonical` | insanely-fast-whisper.py:61 | a digit string without a superfluous leading zero is exactly the decimal form of its value, so number lines are canonical |
| `Decimal.ZeroPad` | insanely-fast-whisper.py:74 | `{n:0Wd}` yields digits whose value is `n`; its length is `W` when the decimal form is shorter, otherwise the full decimal form |
| `Decimal.ZeroPadWidth` | insanely-fast-whisper.py:74 | below 10^W the field is exactly W characters; from 10^W on it is the whole decimal form, longer than W, never truncated |
| `Decimal.ZeroPadCanonical` | insanely-fast-whisper.py:74 | every W-digit string is what `{v:0Wd}` prints for its value v |
| `Decimal.DigitsLength` | insanely-fast-whisper.py:74 | the decimal form of n fits in k characters exactly when n < 10^k |
| `SrtTime.TruncatedMillis` | insanely-fast-whisper.py:66-70 | the millisecond count t satisfies t <= 1000*seconds < t+1: truncation, never rounding |
| `SrtTime.Decompose` | insanely-fast-whisper.py:66-73 | minutes and seconds are below 60 and milliseconds below 1000 (hours unbounded), and h*3600000 + m*60000 + s*1000 + ms is the truncated total |
| `SrtTime.Render` | insanely-fast-whisper.py:74 | the f-string `{hours:02d}:{minutes:02d}:{seconds:02d},{milliseconds:03d}` on the four fields; `ParseRender` and `RenderParse` prove that `ParseFields` inverts it and `RenderLayout` gives its shape |
| `SrtTime.FormatMillis` | insanely-fast-whisper.py:66-74 | the timestamp of a whole millisecond count: its decomposition, rendered; `ParseFormatMillis` and `FormatMillisInjective` prove the count can be read back from it |
| `SrtTime.FormatSeconds` | insanely-fast-whisper.py:65-74 | the timestamp of a second count, through its truncated milliseconds; `SecondsToSrtTimeFormat` proves the source's steps compute exactly it |
| `SrtTime.DecomposeUnique` | insanely-fast-whisper.py:66-73 | any normal field set is the decomposition of its own total, so the decomposition is the only one |
| `SrtTime.SecondsToSrtTimeFormat` | insanely-fast-whisper.py:65-74 | the source's `//`, `%=` and `int()` steps on the real input print a timestamp that parses back to the decomposition of the input truncated to milliseconds |
| `SrtTime.ParseRender` | insanely-fast-whisper.py:74 | parsing the rendering of normal fields gives back those fields |
| `SrtTime.RenderParse` | insanely-fast-whisper.py:74 | any string that parses is exactly the rendering of what it parses to |
| `SrtTime.RenderLayout` | insanely-fast-whisper.py:74 | a timestamp is an hour field of at least 2 digits, then `:MM:SS,mmm` with 2, 2 and 3 digits, and only digits, ':' and ',' |
| `SrtTime.ParseFormatMillis` | insanely-fast-whisper.py:65-74 | the truncated millisecond count is recovered exactly from the printed timestamp |
| `SrtTime.FormatMillisInjective` | insanely-fast-whisper.py:65-74 | distinct millisecond counts print distinct timestamps |
| `SrtTime.FormatWidth` | insanely-fast-whisper.py:74 | below 100 hours the timestamp is 12 characters; from 100 hours on the hour field is the full decimal hour count |
| `SrtTime.TruncatedMillisMonotone` | insanely-fast-whisper.py:70 | a later time never yields a smaller millisecond count |
| `SrtTime.ExampleZero` | insanely-fast-whisper.py:65-74 | 0 s prints `00:00:00,000` |
| `SrtTime.ExampleHourMinuteSecond` | insanely-fast-whisper.py:65-74 | 3661.5 s prints `01:01:01,500` |
| `SrtTime.ExampleQuarter` | insanely-fast-whisper.py:65-74 | 1.25 s prints `00:00:01,250` |
| `SrtTime.ExampleTruncation` | insanely-fast-whisper.py:70 | 0.0009 s prints `00:00:00,000`: 0.9 ms is truncated to 0 |
| `SrtTime.ExampleLastMillisecond` | insanely-fast-whisper.py:65-74 | 59.999 s prints `00:00:59,999` on exact reals |
| `SrtTime.ExampleOneMillisecond` | insanely-fast-whisper.py:65-74 | 1.001 s prints `00:00:01,001` on exact reals |
| `SrtTime.ExampleHundredHours` | insanely-fast-whisper.py:74 | 360000 s prints `100:00:00,000`: the hour field widens |
| `Whitespace.IsSpace` | insanely-fast-whisper.py:63 | the characters `str.isspace` accepts, which are the ones `str.strip()` removes; `Strip`, `StripUnique` and `StripShape` are stated over it |
| `Whitespace.Strip` | insanely-fast-whisper.py:63 | `text.strip()` is a contiguous piece of the text with no whitespace at either end, and everything cut off is whitespace |
| `Whitespace.StripUnique` | insanely-fast-whisper.py:63 | only one string satisfies that description, so `Strip` is exactly `str.strip()` |
| `Whitespace.StripShape` | insanely-fast-whisper.py:63 | the text is leading whitespace, then the stripped text unchanged, then trailing whitespace |
| `Whitespace.StripOfPadded` | insanely-fast-whisper.py:63 | whitespace around already-trimmed text is exactly what strip removes |
| `Whitespace.StripIdempotent` | insanely-fast-whisper.py:63 | stripping twice is stripping once |
| `Whitespace.StripAllSpace` | insanely-fast-whisper.py:63 | a whitespace-only text strips to the empty string |
| `SrtDocument.CueOf` | insanely-fast-whisper.py:59-63 | the cue of chunk `index - 1`: its number, both times truncated to milliseconds, and its text stripped; `DocumentBlock` proves chunk k's block in the file reads back as this cue with number k+1 |
| `SrtDocument.CueText` | insanely-fast-whisper.py:61-63 | the three writes of one iteration: number line, `start --> end` line, text line, blank line; `WrittenBlock` proves one iteration appends exactly this |
| `SrtDocument.RenderCue` | insanely-fast-whisper.py:61-63 | a cue's block, with its number as `{index + 1}` and its times as timestamps; `ParseRenderCue` and `RenderParseCue` prove `ParseCue` inverts it in both directions |
| `SrtDocument.ParseRenderCue` | insanely-fast-whisper.py:61-63 | a cue block reads back as its number, both millisecond times and its text |
| `SrtDocument.RenderParseCue` | insanely-fast-whisper.py:61-63 | any string that reads as a cue is exactly that cue's block, so the layout is fixed |
| `SrtDocument.CuesFrom` | insanely-fast-whisper.py:58-63 | `enumerate` over the chunks: one cue per chunk, in order, numbered on from `first`; `DocumentAppend` and `DocumentBlock` prove what this numbering gives in the written text |
| `SrtDocument.JoinSlice` | insanely-fast-whisper.py:61-63 | in written-out blocks, block k lies exactly between the end of the blocks before it and the end of the blocks up to it |
| `SrtDocument.Document` | insanely-fast-whisper.py:57-63 | the whole file: the cue blocks numbered from 1, one after another; `DocumentBlock` proves block k reads back as chunk k's cue, and `WriteSrt` proves the loop writes exactly this |
| `SrtDocument.DocumentAppend` | insanely-fast-whisper.py:58-63 | the document of two chunk runs is the first run's document followed by the second's blocks, numbered on from the first |
| `SrtDocument.DocumentBlock` | insanely-fast-whisper.py:58-63 | the slice of the document between the prefixes for chunks k and k+1 reads back as chunk k's cue, numbered k+1 |
| `SrtDocument.WriteSrt` | insanely-fast-whisper.py:57-63 | the loop's three writes per chunk produce the concatenation of the cue blocks, and nothing for no chunks |
| `SrtDocument.WrittenBlock` | insanely-fast-whisper.py:59-63 | one iteration appends exactly the next chunk's block to the document of the chunks before it |
| `SrtDocument.ExampleTwoChunks` | insanely-fast-whisper.py:57-63 | two chunks give `1\n00:00:00,000 --> 00:00:01,250\nHi\n\n2\n00:00:01,250 --> 00:00:02,000\nBye\n\n` |
| `OutputName.ComponentStart` | insanely-fast-whisper.py:55 | `basename`'s `p.rfind('/') + 1`: no '/' from there on, and a '/' just before it when it is not 0 |
| `OutputName.Basename` | insanely-fast-whisper.py:55 | `os.path.basename` is a suffix of the path with no '/', preceded by '/' when shorter |
| `OutputName.SplitExt` | insanely-fast-whisper.py:55 | root + extension is the input, and the extension is empty or one dot followed by neither '.' nor '/' |
| `OutputName.SrtFileName` | insanely-fast-whisper.py:55-56 | the file name ends in `.srt` and holds no '/' |
| `OutputName.IgnoresDirectory` | insanely-fast-whisper.py:55-56 | the directory part of the audio path never reaches the file name |
| `OutputName.ReplacesExtension` | insanely-fast-whisper.py:55-56 | `stem.ext` becomes `stem.srt`; only the last extension goes |
| `OutputName.NoExtension` | insanely-fast-whisper.py:55-56 | a name without a dot simply gains `.srt` |
| `OutputName.HiddenFile` | insanely-fast-whisper.py:55-56 | leading dots do not start an extension: `.bashrc` becomes `.bashrc.srt` |
| `OutputName.ExampleRecording` | insanely-fast-whisper.py:55-56 | `recordings/talk.mp3` becomes `talk.srt` |
| `OutputName.ExampleDoubleExtension` | insanely-fast-whisper.py:55-56 | `archive.tar.gz` becomes `archive.tar.srt` |
| `OutputName.ExampleDottedDirectory` | insanely-fast-whisper.py:55-56 | a dot in a directory name is not an extension: `take.2/clip` becomes `clip.srt` |

## Left out

- Command-line parsing with click and the `asr_cli` argument plumbing (lines 15-25, 76-78): framework wiring.
- Model loading, BetterTransformer conversion and inference through `transformers.pipeline` and `torch` (lines 27-45): foreign library calls. The chunks are a parameter of `WriteSrt`.
- The `log` helper, `click.echo` and `time.perf_counter` timing (lines 8-13, 43-52): I/O and the clock.
- Opening and writing the file (line 57): `WriteSrt` returns the text the three `write` calls would put in the file, and `SrtFileName` the name it would be opened under.
- IEEE double rounding: the input is an exact real. On doubles, `(seconds - int(seconds)) * 1000` can fall just below a whole number, and `int` then drops one millisecond that the exact value keeps. For example, 1.001 is stored as 1.000999999999999889…, so `(seconds - 1) * 1000` is 0.99999999999989… and the source's arithmetic gives `00:00:01,000`, where the model gives `00:00:01,001` (`SrtTime.ExampleOneMillisecond`).
- Negative and `None` timestamps: the source does not handle them, so every chunk is required to have start and end >= 0 (`Timestamped`).
- Windows path rules (`ntpath`): `os.path` is taken to be POSIX, with '/' as the only separator.
- Unicode handling beyond characters: strings are sequences of Unicode scalar values (a Dafny `char` cannot hold the lone surrogates a Python `str` can carry), and `str.strip()` uses the fixed `str.isspace` character set listed in `Whitespace.IsSpace`.
