/**
  The SRT writer of `asr_cli`: each transcript chunk, in order, becomes a
  four-line cue block (number, time range, stripped text, blank line) and the
  document is the concatenation of the blocks.
 */
module SrtDocument {
  import opened Wrappers
  import opened Decimal
  import opened Search
  import opened Whitespace
  import opened SrtTime

  /** One transcript chunk: its text and its `timestamp` pair in seconds. */
  datatype Chunk = Chunk(text: string, start: real, end: real)

  /** One cue as a subtitle reader sees it: times in whole milliseconds. */
  datatype Cue = Cue(index: nat, start: nat, end: nat, text: string)

  /** Both timestamps are present and non-negative, as the writer assumes. */
  predicate Timestamped(c: Chunk) {
    0.0 <= c.start && 0.0 <= c.end
  }

  predicate AllTimestamped(chunks: seq<Chunk>) {
    forall k :: 0 <= k < |chunks| ==> Timestamped(chunks[k])
  }

  /** What the cue numbered `index` shows for chunk `c`. */
  function CueOf(index: nat, c: Chunk): Cue
    requires Timestamped(c)
  {
    Cue(index, TruncatedMillis(c.start), TruncatedMillis(c.end), Strip(c.text))
  }

  /** The block layout: number line, time line, text line, blank line. */
  function CueText(number: string, start: string, end: string, text: string): string {
    number + "\n" + start + " --> " + end + "\n" + text + "\n\n"
  }

  /** The text block of a cue. */
  function RenderCue(q: Cue): string {
    CueText(Digits(q.index), FormatMillis(q.start), FormatMillis(q.end), q.text)
  }

  /**
    Reads one cue block back: a number line without superfluous leading zeros,
    a `start --> end` line of two timestamps, then the text up to a final blank line.
   */
  function ParseCue(b: string): Option<Cue> {
    match IndexOf(b, '\n')
    case None => None
    case Some(i) => ParseCueAfterNumber(b[..i], b[i + 1..])
  }

  /** The lines after the number line: the time line, then the text. */
  function ParseCueAfterNumber(number: string, rest: string): Option<Cue> {
    match IndexOf(rest, '\n')
    case None => None
    case Some(j) => ParseCueLines(number, rest[..j], rest[j + 1..])
  }

  /** The three parts of a block, once its first two lines are split off. */
  function ParseCueLines(number: string, timing: string, body: string): Option<Cue> {
    match IndexOf(timing, ' ')
    case None => None
    case Some(k) =>
      if NumberLine(number) && k + 5 <= |timing| && timing[k..k + 5] == " --> "
         && 2 <= |body| && body[|body| - 2..] == "\n\n"
      then
        match (ParseFields(timing[..k]), ParseFields(timing[k + 5..]))
        case (Some(a), Some(z)) => Some(Cue(Value(number), a.Total(), z.Total(), body[..|body| - 2]))
        case _ => None
      else None
  }

  /** Neither a line break nor a space occurs in `s`. */
  predicate NoBreakOrSpace(s: string) {
    forall p :: 0 <= p < |s| ==> s[p] != '\n' && s[p] != ' '
  }

  /** A number line is a canonical decimal number. */
  predicate NumberLine(s: string) {
    1 <= |s| && AllDigits(s) && (s[0] != '0' || |s| == 1)
  }

  /** Reading back a block assembled from a number, two timestamps and any text. */
  lemma ParseCueText(number: string, start: string, end: string, text: string, fa: Fields, fz: Fields)
    requires NumberLine(number)
    requires NoBreakOrSpace(start) && NoBreakOrSpace(end)
    requires ParseFields(start) == Some(fa) && ParseFields(end) == Some(fz)
    ensures ParseCue(CueText(number, start, end, text)) == Some(Cue(Value(number), fa.Total(), fz.Total(), text))
  {
    var rest := start + " --> " + end + "\n" + text + "\n\n";
    var b := CueText(number, start, end, text);
    assert b == number + "\n" + rest;
    IndexOfAt(b, '\n', |number|);
    assert b[..|number|] == number && b[|number| + 1..] == rest;
    ParseAfterNumberText(number, start, end, text, fa, fz);
  }

  lemma ParseAfterNumberText(number: string, start: string, end: string, text: string, fa: Fields, fz: Fields)
    requires NumberLine(number)
    requires NoBreakOrSpace(start) && NoBreakOrSpace(end)
    requires ParseFields(start) == Some(fa) && ParseFields(end) == Some(fz)
    ensures ParseCueAfterNumber(number, start + " --> " + end + "\n" + text + "\n\n")
      == Some(Cue(Value(number), fa.Total(), fz.Total(), text))
  {
    var timing := start + " --> " + end;
    var body := text + "\n\n";
    var rest := start + " --> " + end + "\n" + text + "\n\n";
    assert rest == timing + "\n" + body;
    IndexOfAt(rest, '\n', |timing|);
    assert rest[..|timing|] == timing && rest[|timing| + 1..] == body;
    ParseLinesText(number, start, end, body, fa, fz);
    assert body[..|body| - 2] == text;
  }

  lemma ParseLinesText(number: string, start: string, end: string, body: string, fa: Fields, fz: Fields)
    requires NumberLine(number)
    requires NoBreakOrSpace(start)
    requires ParseFields(start) == Some(fa) && ParseFields(end) == Some(fz)
    requires 2 <= |body| && body[|body| - 2..] == "\n\n"
    ensures ParseCueLines(number, start + " --> " + end, body)
      == Some(Cue(Value(number), fa.Total(), fz.Total(), body[..|body| - 2]))
  {
    var timing := start + " --> " + end;
    IndexOfAt(timing, ' ', |start|);
    assert timing[..|start|] == start && timing[|start|..|start| + 5] == " --> " && timing[|start| + 5..] == end;
  }

  /** A block that reads back is assembled from a number line, two timestamps and its text. */
  lemma ParsedCueText(b: string, q: Cue) returns (number: string, start: string, end: string, fa: Fields, fz: Fields)
    requires ParseCue(b) == Some(q)
    ensures b == CueText(number, start, end, q.text)
    ensures NumberLine(number) && q.index == Value(number)
    ensures ParseFields(start) == Some(fa) && q.start == fa.Total()
    ensures ParseFields(end) == Some(fz) && q.end == fz.Total()
  {
    var i := IndexOf(b, '\n').value;
    number := b[..i];
    var rest := b[i + 1..];
    SplitAround(b, i);
    start, end, fa, fz := ParsedAfterNumber(number, rest, q);
    CueTextSplit(number, start, end, q.text);
  }

  /** A string is the text before a line break, the break, and the text after it. */
  lemma SplitAround(s: string, i: nat)
    requires i < |s| && s[i] == '\n'
    ensures s == s[..i] + "\n" + s[i + 1..]
  {
    assert s == s[..i] + [s[i]] + s[i + 1..];
  }

  lemma CueTextSplit(number: string, start: string, end: string, text: string)
    ensures CueText(number, start, end, text) == number + "\n" + (start + " --> " + end + "\n" + text + "\n\n")
  {
  }

  lemma ParsedAfterNumber(number: string, rest: string, q: Cue) returns (start: string, end: string, fa: Fields, fz: Fields)
    requires ParseCueAfterNumber(number, rest) == Some(q)
    ensures rest == start + " --> " + end + "\n" + q.text + "\n\n"
    ensures NumberLine(number) && q.index == Value(number)
    ensures ParseFields(start) == Some(fa) && q.start == fa.Total()
    ensures ParseFields(end) == Some(fz) && q.end == fz.Total()
  {
    var j := IndexOf(rest, '\n').value;
    var timing := rest[..j];
    var body := rest[j + 1..];
    SplitAround(rest, j);
    start, end, fa, fz := ParsedLines(number, timing, body, q);
  }

  lemma ParsedLines(number: string, timing: string, body: string, q: Cue) returns (start: string, end: string, fa: Fields, fz: Fields)
    requires ParseCueLines(number, timing, body) == Some(q)
    ensures timing == start + " --> " + end && body == q.text + "\n\n"
    ensures NumberLine(number) && q.index == Value(number)
    ensures ParseFields(start) == Some(fa) && q.start == fa.Total()
    ensures ParseFields(end) == Some(fz) && q.end == fz.Total()
  {
    var k := IndexOf(timing, ' ').value;
    start := timing[..k];
    end := timing[k + 5..];
    fa := ParseFields(start).value;
    fz := ParseFields(end).value;
    assert timing == start + " --> " + end by {
      assert timing == timing[..k] + timing[k..k + 5] + timing[k + 5..];
    }
    assert body == q.text + "\n\n" by {
      assert body == body[..|body| - 2] + body[|body| - 2..];
    }
  }

  /** A rendered timestamp holds neither line breaks nor spaces. */
  lemma TimestampHasNoBreak(t: nat)
    ensures NoBreakOrSpace(FormatMillis(t))
  {
    RenderLayout(Decompose(t));
  }

  /** Parsing a rendered cue block gives back the cue. */
  lemma ParseRenderCue(q: Cue)
    ensures ParseCue(RenderCue(q)) == Some(q)
  {
    var number := Digits(q.index);
    var start := FormatMillis(q.start);
    var end := FormatMillis(q.end);
    TimestampHasNoBreak(q.start);
    TimestampHasNoBreak(q.end);
    ParseFormatMillis(q.start);
    ParseFormatMillis(q.end);
    ParseCueText(number, start, end, q.text, Decompose(q.start), Decompose(q.end));
  }

  /** A string that parses as a cue is exactly that cue's block. */
  lemma RenderParseCue(b: string, q: Cue)
    requires ParseCue(b) == Some(q)
    ensures RenderCue(q) == b
  {
    var number, start, end, fa, fz := ParsedCueText(b, q);
    DigitsCanonical(number);
    RenderParse(start, fa);
    RenderParse(end, fz);
    DecomposeUnique(fa);
    DecomposeUnique(fz);
  }

  /**
    The cues for `chunks`, numbered from `first` on: one per chunk, in the
    chunks' order, with nothing sorted, merged or dropped.
   */
  function CuesFrom(first: nat, chunks: seq<Chunk>): seq<Cue>
    requires AllTimestamped(chunks)
  {
    seq(|chunks|, k requires 0 <= k < |chunks| => CueOf(first + k, chunks[k]))
  }

  /** The texts `f` gives for the items of `xs`, written one after the other. */
  function Join<T>(f: T -> string, xs: seq<T>): string {
    if |xs| == 0 then "" else Join(f, xs[..|xs| - 1]) + f(xs[|xs| - 1])
  }

  /** Joining one more item appends its text. */
  lemma JoinSnoc<T>(f: T -> string, xs: seq<T>, x: T)
    ensures Join(f, xs + [x]) == Join(f, xs) + f(x)
  {
    assert (xs + [x])[..|xs|] == xs;
  }

  /** Joining two items writes the first text, then the second. */
  lemma JoinPair<T>(f: T -> string, a: T, b: T)
    ensures Join(f, [a, b]) == f(a) + f(b)
  {
    assert [a, b] == [a] + [b];
    assert [a] == [] + [a];
    JoinSnoc(f, [], a);
    JoinSnoc(f, [a], b);
  }

  /** Joining two runs joins their concatenation. */
  lemma {:induction false} JoinAppend<T>(f: T -> string, xs: seq<T>, ys: seq<T>)
    ensures Join(f, xs + ys) == Join(f, xs) + Join(f, ys)
    decreases |ys|
  {
    if |ys| == 0 {
      assert xs + ys == xs;
    } else {
      var n := |ys| - 1;
      assert xs + ys == (xs + ys[..n]) + [ys[n]];
      assert ys == ys[..n] + [ys[n]];
      JoinSnoc(f, xs + ys[..n], ys[n]);
      JoinSnoc(f, ys[..n], ys[n]);
      JoinAppend(f, xs, ys[..n]);
    }
  }

  /**
    The text of item k lies exactly between the end of the texts of the items
    before it and the end of the texts up to and including it.
   */
  lemma JoinSlice<T>(f: T -> string, xs: seq<T>, k: nat)
    requires k < |xs|
    ensures |Join(f, xs[..k])| <= |Join(f, xs[..k + 1])| <= |Join(f, xs)|
    ensures Join(f, xs)[|Join(f, xs[..k])|..|Join(f, xs[..k + 1])|] == f(xs[k])
  {
    assert xs[..k + 1] == xs[..k] + [xs[k]];
    JoinSnoc(f, xs[..k], xs[k]);
    assert xs == xs[..k + 1] + xs[k + 1..];
    JoinAppend(f, xs[..k + 1], xs[k + 1..]);
  }

  /** The blocks of `cues`, written one after the other. */
  function RenderAll(cues: seq<Cue>): string {
    Join(RenderCue, cues)
  }

  /** The whole SRT file for a transcript: its cue blocks, numbered from 1, one after another. */
  function Document(chunks: seq<Chunk>): string
    requires AllTimestamped(chunks)
  {
    RenderAll(CuesFrom(1, chunks))
  }

  /** The cues of a prefix of the transcript are the prefix of its cues. */
  lemma CuesPrefix(chunks: seq<Chunk>, k: nat)
    requires AllTimestamped(chunks) && k <= |chunks|
    ensures AllTimestamped(chunks[..k])
    ensures CuesFrom(1, chunks[..k]) == CuesFrom(1, chunks)[..k]
  {
  }

  /** Numbering continues across a concatenation of chunk runs. */
  lemma CuesAppend(a: seq<Chunk>, b: seq<Chunk>)
    requires AllTimestamped(a) && AllTimestamped(b)
    ensures AllTimestamped(a + b)
    ensures CuesFrom(1, a + b) == CuesFrom(1, a) + CuesFrom(|a| + 1, b)
  {
    assert AllTimestamped(a + b);
  }

  /**
    Writing two runs of chunks one after the other writes the document of
    their concatenation; the second run's numbering continues the first's.
   */
  lemma DocumentAppend(a: seq<Chunk>, b: seq<Chunk>)
    requires AllTimestamped(a) && AllTimestamped(b)
    ensures AllTimestamped(a + b)
    ensures Document(a + b) == Document(a) + RenderAll(CuesFrom(|a| + 1, b))
  {
    CuesAppend(a, b);
    JoinAppend(RenderCue, CuesFrom(1, a), CuesFrom(|a| + 1, b));
  }

  /**
    The k-th chunk (from 0) is written as the block numbered k + 1, between the
    end of the document of the chunks before it and the end of the document of
    the chunks up to it, and that block reads back as the chunk's cue:
    timestamps truncated to milliseconds, text stripped.
   */
  lemma DocumentBlock(chunks: seq<Chunk>, k: nat)
    requires AllTimestamped(chunks) && k < |chunks|
    ensures AllTimestamped(chunks[..k]) && AllTimestamped(chunks[..k + 1])
    ensures |Document(chunks[..k])| <= |Document(chunks[..k + 1])| <= |Document(chunks)|
    ensures ParseCue(Document(chunks)[|Document(chunks[..k])|..|Document(chunks[..k + 1])|])
      == Some(CueOf(k + 1, chunks[k]))
  {
    var cues := CuesFrom(1, chunks);
    CuesPrefix(chunks, k);
    CuesPrefix(chunks, k + 1);
    JoinSlice(RenderCue, cues, k);
    ParseRenderCue(cues[k]);
  }

  /** An empty transcript produces an empty file. */
  lemma DocumentEmpty()
    ensures Document([]) == ""
  {
  }

  /**
    The loop over `enumerate(outputs['chunks'])`: for each chunk it formats
    both timestamps and makes the three writes of one cue block, so that
    after the chunks before `index` the file holds their document.
   */
  method WriteSrt(chunks: seq<Chunk>) returns (doc: string)
    requires AllTimestamped(chunks)
    ensures doc == Document(chunks)
    ensures |chunks| == 0 ==> doc == ""
  {
    doc := "";
    for index := 0 to |chunks|
      invariant AllTimestamped(chunks[..index])
      invariant doc == Document(chunks[..index])
    {
      var chunk := chunks[index];
      var startTime := SecondsToSrtTimeFormat(chunk.start);
      var endTime := SecondsToSrtTimeFormat(chunk.end);
      ghost var before := doc;
      doc := doc + Digits(index + 1) + "\n";
      doc := doc + startTime + " --> " + endTime + "\n";
      doc := doc + Strip(chunk.text) + "\n\n";
      WrittenBlock(chunks, index, before, startTime, endTime, doc);
    }
    assert chunks[..|chunks|] == chunks;
  }

  /** The three writes of one iteration put down, in order, the pieces of one block. */
  lemma ThreeWrites(before: string, number: string, start: string, end: string, text: string)
    ensures before + number + "\n" + start + " --> " + end + "\n" + text + "\n\n"
      == before + CueText(number, start, end, text)
  {
  }

  /** The cues of one more chunk are the cues before it and the chunk's own cue. */
  lemma CuesSnoc(chunks: seq<Chunk>, index: nat)
    requires AllTimestamped(chunks) && index < |chunks|
    ensures AllTimestamped(chunks[..index]) && AllTimestamped(chunks[..index + 1])
    ensures CuesFrom(1, chunks[..index + 1]) == CuesFrom(1, chunks[..index]) + [CueOf(index + 1, chunks[index])]
  {
  }

  /** One iteration of the writing loop appends exactly the next cue block. */
  lemma WrittenBlock(chunks: seq<Chunk>, index: nat, before: string, startTime: string, endTime: string, after: string)
    requires AllTimestamped(chunks) && index < |chunks|
    requires AllTimestamped(chunks[..index]) && before == Document(chunks[..index])
    requires startTime == FormatSeconds(chunks[index].start)
    requires endTime == FormatSeconds(chunks[index].end)
    requires after == before + Digits(index + 1) + "\n" + startTime + " --> " + endTime + "\n"
      + Strip(chunks[index].text) + "\n\n"
    ensures AllTimestamped(chunks[..index + 1])
    ensures after == Document(chunks[..index + 1])
  {
    var q := CueOf(index + 1, chunks[index]);
    ThreeWrites(before, Digits(index + 1), startTime, endTime, Strip(chunks[index].text));
    assert RenderCue(q) == CueText(Digits(index + 1), startTime, endTime, Strip(chunks[index].text));
    CuesSnoc(chunks, index);
    JoinSnoc(RenderCue, CuesFrom(1, chunks[..index]), q);
  }

  lemma ExampleCues()
    ensures CuesFrom(1, [Chunk("Hi", 0.0, 1.25), Chunk(" Bye\n", 1.25, 2.0)])
      == [Cue(1, 0, 1250, "Hi"), Cue(2, 1250, 2000, "Bye")]
  {
    ExampleFirstCue();
    ExampleSecondCue();
  }

  lemma ExampleFirstCue()
    ensures CueOf(1, Chunk("Hi", 0.0, 1.25)) == Cue(1, 0, 1250, "Hi")
  {
    assert TruncatedMillis(1.25) == 1250;
    StripOfPadded("", "Hi", "");
    assert "" + "Hi" + "" == "Hi";
  }

  lemma ExampleSecondCue()
    ensures CueOf(2, Chunk(" Bye\n", 1.25, 2.0)) == Cue(2, 1250, 2000, "Bye")
  {
    assert TruncatedMillis(1.25) == 1250;
    assert TruncatedMillis(2.0) == 2000;
    ExampleStripBye();
  }

  lemma ExampleStripBye()
    ensures Strip(" Bye\n") == "Bye"
  {
    StripOfPadded(" ", "Bye", "\n");
    assert " " + "Bye" + "\n" == " Bye\n";
  }

  lemma ExampleTimes()
    ensures FormatMillis(0) == "00:00:00,000"
    ensures FormatMillis(1250) == "00:00:01,250"
    ensures FormatMillis(2000) == "00:00:02,000"
  {
    ExampleZero();
    assert TruncatedMillis(0.0) == 0;
    ExampleQuarter();
    assert TruncatedMillis(1.25) == 1250;
    ExampleTwoSeconds();
    assert TruncatedMillis(2.0) == 2000;
  }

  lemma ExampleFirstText()
    ensures CueText("1", "00:00:00,000", "00:00:01,250", "Hi") == "1\n00:00:00,000 --> 00:00:01,250\nHi\n\n"
  {
    calc {
      CueText("1", "00:00:00,000", "00:00:01,250", "Hi");
      "1" + "\n" + "00:00:00,000" + " --> " + "00:00:01,250" + "\n" + "Hi" + "\n\n";
      "1\n00:00:00,000" + " --> " + "00:00:01,250" + "\n" + "Hi" + "\n\n";
      "1\n00:00:00,000 --> 00:00:01,250" + "\n" + "Hi" + "\n\n";
      "1\n00:00:00,000 --> 00:00:01,250\nHi" + "\n\n";
      "1\n00:00:00,000 --> 00:00:01,250\nHi\n\n";
    }
  }

  lemma ExampleSecondText()
    ensures CueText("2", "00:00:01,250", "00:00:02,000", "Bye") == "2\n00:00:01,250 --> 00:00:02,000\nBye\n\n"
  {
    calc {
      CueText("2", "00:00:01,250", "00:00:02,000", "Bye");
      "2" + "\n" + "00:00:01,250" + " --> " + "00:00:02,000" + "\n" + "Bye" + "\n\n";
      "2\n00:00:01,250" + " --> " + "00:00:02,000" + "\n" + "Bye" + "\n\n";
      "2\n00:00:01,250 --> 00:00:02,000" + "\n" + "Bye" + "\n\n";
      "2\n00:00:01,250 --> 00:00:02,000\nBye" + "\n\n";
      "2\n00:00:01,250 --> 00:00:02,000\nBye\n\n";
    }
  }

  lemma ExampleFirstBlock()
    ensures RenderCue(Cue(1, 0, 1250, "Hi")) == "1\n00:00:00,000 --> 00:00:01,250\nHi\n\n"
  {
    ExampleTimes();
    assert Digits(1) == "1";
    assert RenderCue(Cue(1, 0, 1250, "Hi")) == CueText("1", "00:00:00,000", "00:00:01,250", "Hi");
    ExampleFirstText();
  }

  lemma ExampleSecondBlock()
    ensures RenderCue(Cue(2, 1250, 2000, "Bye")) == "2\n00:00:01,250 --> 00:00:02,000\nBye\n\n"
  {
    ExampleTimes();
    assert Digits(2) == "2";
    assert RenderCue(Cue(2, 1250, 2000, "Bye")) == CueText("2", "00:00:01,250", "00:00:02,000", "Bye");
    ExampleSecondText();
  }

  /** A two-chunk transcript, byte for byte; the second text loses its surrounding whitespace. */
  lemma ExampleTwoChunks()
    ensures Document([Chunk("Hi", 0.0, 1.25), Chunk(" Bye\n", 1.25, 2.0)])
      == "1\n00:00:00,000 --> 00:00:01,250\nHi\n\n2\n00:00:01,250 --> 00:00:02,000\nBye\n\n"
  {
    var first := Cue(1, 0, 1250, "Hi");
    var second := Cue(2, 1250, 2000, "Bye");
    ExampleCues();
    JoinPair(RenderCue, first, second);
    ExampleFirstBlock();
    ExampleSecondBlock();
    ExampleDocumentText();
  }

  lemma ExampleDocumentText()
    ensures "1\n00:00:00,000 --> 00:00:01,250\nHi\n\n" + "2\n00:00:01,250 --> 00:00:02,000\nBye\n\n"
      == "1\n00:00:00,000 --> 00:00:01,250\nHi\n\n2\n00:00:01,250 --> 00:00:02,000\nBye\n\n"
  {
  }
}
