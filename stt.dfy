/** The speech-to-text side of the pipeline: Whisper's word timings turned into numbered
    subtitles, and the running time offset that keeps chunk transcripts on one timeline. Times
    are whole milliseconds. */
module Stt {
  import opened PyText

  /** One timed word of a Whisper transcript (its confidence is not modelled). */
  datatype Word = Word(text: string, start: nat, end: nat)

  /** One transcript segment: its words, in order. */
  type Segment = seq<Word>

  /** One subtitle record of get_transcript_v2 (the mean confidence is not modelled). */
  datatype Subtitle = Subtitle(number: nat, startTime: nat, endTime: nat, text: string)

  // ---------------------------------------------------------------- calc_chunks_size

  /** Fifteen minutes, in milliseconds. */
  const CHUNK_MILLIS: nat := 900000

  /** calc_chunks_size: one audio chunk per whole fifteen minutes of audio, and at least one. */
  function CalcChunksSize(durationMs: nat): (size: nat)
    ensures size >= 1
    ensures size == 1 <==> durationMs < 2 * CHUNK_MILLIS
    ensures size > 1 ==> size * CHUNK_MILLIS <= durationMs < (size + 1) * CHUNK_MILLIS
  {
    var q := durationMs / CHUNK_MILLIS;
    DivModOf(durationMs, CHUNK_MILLIS, q, durationMs % CHUNK_MILLIS);
    Max(1, q)
  }

  // ---------------------------------------------------------------- word chunks

  /** A run of words that becomes one subtitle; range() never yields an empty one. */
  type Chunk = c: seq<Word> | |c| > 0 witness [Word("", 0, 0)]

  /** words[i:i+n] for i in range(0, len(words), n): runs of n words, the last one shorter. */
  function Chunks(words: seq<Word>, n: nat): seq<Chunk>
    requires n > 0
    decreases |words|
  {
    if |words| == 0 then []
    else if |words| <= n then [words]
    else [words[..n]] + Chunks(words[n..], n)
  }

  /** Python's ceil(m / n) for positive n. */
  function CeilDiv(m: nat, n: nat): nat
    requires n > 0
  {
    (m + n - 1) / n
  }

  /** The chunks put back together are the word list, in order. */
  lemma {:induction false} ChunksConcat(words: seq<Word>, n: nat)
    requires n > 0
    ensures Concat(Chunks(words, n)) == words
    decreases |words|
  {
    if |words| == 0 {
    } else if |words| <= n {
      assert Concat([words]) == Concat([words][..0]) + words;
    } else {
      var head, rest := words[..n], Chunks(words[n..], n);
      ChunksConcat(words[n..], n);
      ConcatAppend([head], rest);
      assert Concat([head]) == Concat([head][..0]) + head;
      assert head + words[n..] == words;
    }
  }

  /** Every chunk holds between one and n words, and all but the last hold exactly n. */
  lemma {:induction false} ChunksSizes(words: seq<Word>, n: nat)
    requires n > 0
    ensures var cs := Chunks(words, n);
      forall i :: 0 <= i < |cs| ==> 1 <= |cs[i]| <= n && (i < |cs| - 1 ==> |cs[i]| == n)
    decreases |words|
  {
    if |words| > n {
      ChunksSizes(words[n..], n);
      var cs := Chunks(words, n);
      forall i | 0 <= i < |cs|
        ensures 1 <= |cs[i]| <= n && (i < |cs| - 1 ==> |cs[i]| == n)
      {
        if i > 0 { assert cs[i] == Chunks(words[n..], n)[i - 1]; }
      }
    }
  }

  /** A segment of m words yields ceil(m / n) chunks. */
  lemma {:induction false} ChunksCount(words: seq<Word>, n: nat)
    requires n > 0
    ensures |Chunks(words, n)| == CeilDiv(|words|, n)
    decreases |words|
  {
    var m := |words|;
    if m == 0 {
      DivModOf(n - 1, n, 0, n - 1);
    } else if m <= n {
      DivModOf(m + n - 1, n, 1, m - 1);
    } else {
      ChunksCount(words[n..], n);
      var q := (m - n + n - 1) / n;
      DivModOf(m - n + n - 1, n, q, (m - n + n - 1) % n);
      DivModOf(m + n - 1, n, q + 1, (m - n + n - 1) % n);
    }
  }

  /** The chunk that starts at word i of a segment, and the ones after it. */
  lemma ChunksStep(words: seq<Word>, i: nat, n: nat)
    requires n > 0 && i < |words|
    ensures Chunks(words[i..], n) == [Slice(words, i, i + n)] + Chunks(Rest(words, i + n), n)
  {
    if i + n < |words| {
      assert words[i..][..n] == words[i..i + n];
      assert words[i..][n..] == words[i + n..];
    } else {
      assert words[i..] == words[i..|words|];
    }
  }

  /** words[i:], for any i >= 0. */
  function Rest(words: seq<Word>, i: nat): seq<Word>
  {
    if i < |words| then words[i..] else []
  }

  // ---------------------------------------------------------------- numbered subtitles

  /** [x['text'] for x in words]. */
  function Texts(words: seq<Word>): (texts: seq<string>)
    ensures |texts| == |words|
  {
    if |words| == 0 then [] else Texts(words[..|words| - 1]) + [words[|words| - 1].text]
  }

  /** The subtitle of one chunk: the first word's start, the last word's end, and the words
      joined by single spaces. */
  function ChunkSubtitle(number: nat, chunk: Chunk): Subtitle
  {
    Subtitle(number, chunk[0].start, chunk[|chunk| - 1].end, Join(" ", Texts(chunk)))
  }

  /** The subtitles of the chunks, numbered from first on. */
  function Numbered(chunks: seq<Chunk>, first: nat): (subs: seq<Subtitle>)
    ensures |subs| == |chunks|
  {
    if |chunks| == 0 then []
    else [ChunkSubtitle(first, chunks[0])] + Numbered(chunks[1..], first + 1)
  }

  /** The chunks of every segment, segment after segment. */
  function TranscriptChunks(segments: seq<Segment>, n: nat): seq<Chunk>
    requires n > 0
  {
    if |segments| == 0 then [] else Chunks(segments[0], n) + TranscriptChunks(segments[1..], n)
  }

  /** The number of chunks the segments yield, ceil(m / n) for each segment of m words. */
  function ChunkTotal(segments: seq<Segment>, n: nat): nat
    requires n > 0
  {
    if |segments| == 0 then 0 else CeilDiv(|segments[0]|, n) + ChunkTotal(segments[1..], n)
  }

  /** Subtitle i is chunk i's subtitle under number first + i. */
  lemma {:induction false} NumberedAt(chunks: seq<Chunk>, first: nat, i: nat)
    requires i < |chunks|
    ensures Numbered(chunks, first)[i] == ChunkSubtitle(first + i, chunks[i])
    decreases i
  {
    if i > 0 {
      NumberedAt(chunks[1..], first + 1, i - 1);
    }
  }

  lemma {:induction false} NumberedAppend(a: seq<Chunk>, b: seq<Chunk>, first: nat)
    ensures Numbered(a + b, first) == Numbered(a, first) + Numbered(b, first + |a|)
    decreases |a|
  {
    if |a| > 0 {
      assert (a + b)[1..] == a[1..] + b;
      NumberedAppend(a[1..], b, first + 1);
    } else {
      assert a + b == b;
    }
  }

  lemma {:induction false} TranscriptChunksAppend(a: seq<Segment>, b: seq<Segment>, n: nat)
    requires n > 0
    ensures TranscriptChunks(a + b, n) == TranscriptChunks(a, n) + TranscriptChunks(b, n)
    decreases |a|
  {
    if |a| > 0 {
      assert (a + b)[0] == a[0];
      assert (a + b)[1..] == a[1..] + b;
      TranscriptChunksAppend(a[1..], b, n);
    } else {
      assert a + b == b;
    }
  }

  /** The chunks of all segments put back together are all the words, in order. */
  lemma {:induction false} TranscriptChunksWords(segments: seq<Segment>, n: nat)
    requires n > 0
    ensures Concat(TranscriptChunks(segments, n)) == Concat(segments)
    decreases |segments|
  {
    if |segments| > 0 {
      var last := segments[|segments| - 1];
      var init := segments[..|segments| - 1];
      assert segments == init + [last];
      TranscriptChunksAppend(init, [last], n);
      assert [last][1..] == [];
      assert TranscriptChunks([last], n) == Chunks(last, n);
      TranscriptChunksWords(init, n);
      ConcatAppend(TranscriptChunks(init, n), Chunks(last, n));
      ChunksConcat(last, n);
    }
  }

  /** Every segment contributes ceil(m / n) subtitles. */
  lemma {:induction false} TranscriptChunksCount(segments: seq<Segment>, n: nat)
    requires n > 0
    ensures |TranscriptChunks(segments, n)| == ChunkTotal(segments, n)
    decreases |segments|
  {
    if |segments| > 0 {
      ChunksCount(segments[0], n);
      TranscriptChunksCount(segments[1..], n);
    }
  }

  /** What get_transcript_v2 returns for a chunk size n > 0: subtitle i is chunk i's, numbered
      i + 1, so the numbers run 1, 2, 3, ... across all segments. */
  lemma TranscriptV2At(segments: seq<Segment>, n: nat, i: nat)
    requires n > 0 && i < |TranscriptChunks(segments, n)|
    ensures var chunks := TranscriptChunks(segments, n); var sub := Numbered(chunks, 1)[i];
      && sub.number == i + 1
      && sub.startTime == chunks[i][0].start && sub.endTime == chunks[i][|chunks[i]| - 1].end
      && sub.text == Join(" ", Texts(chunks[i]))
  {
    NumberedAt(TranscriptChunks(segments, n), 1, i);
  }

  /** Numbering the chunks of the first s + 1 segments: those of segment s come last, numbered
      on from the ones before them. */
  lemma SegmentNext(segments: seq<Segment>, s: nat, n: nat)
    requires n > 0 && s < |segments|
    ensures Numbered(TranscriptChunks(segments[..s + 1], n), 1)
            == Numbered(TranscriptChunks(segments[..s], n), 1)
               + Numbered(Chunks(segments[s], n), 1 + |TranscriptChunks(segments[..s], n)|)
  {
    var before := segments[..s];
    assert segments[..s + 1] == before + [segments[s]];
    TranscriptChunksAppend(before, [segments[s]], n);
    assert [segments[s]][1..] == [];
    assert Chunks(segments[s], n) + [] == Chunks(segments[s], n);
    NumberedAppend(TranscriptChunks(before, n), Chunks(segments[s], n), 1);
  }

  /** One pass of the inner loop: the subtitles from word i on are the subtitle of the chunk
      at word i, numbered number, then those from word i + n on. */
  lemma WordStep(words: seq<Word>, i: nat, n: nat, number: nat)
    requires n > 0 && i < |words|
    ensures |Slice(words, i, i + n)| > 0
    ensures Numbered(Chunks(Rest(words, i), n), number)
            == [ChunkSubtitle(number, Slice(words, i, i + n))]
               + Numbered(Chunks(Rest(words, i + n), n), number + 1)
  {
    ChunksStep(words, i, n);
    assert Rest(words, i) == words[i..];
  }

  /** One pass of the inner loop, against the list of all the segment's subtitles: the k-th
      one is the subtitle of the chunk at word i, and the rest follow from word i + n on. */
  lemma SubtitleStep(words: seq<Word>, i: nat, n: nat, number: nat, total: seq<Subtitle>, k: nat)
    requires n > 0 && i < |words| && k <= |total|
    requires Numbered(Chunks(Rest(words, i), n), number) == total[k..]
    ensures |Slice(words, i, i + n)| > 0 && k < |total|
    ensures total[..k + 1] == total[..k] + [ChunkSubtitle(number, Slice(words, i, i + n))]
    ensures Numbered(Chunks(Rest(words, i + n), n), number + 1) == total[k + 1..]
  {
    WordStep(words, i, n, number);
    DropCons(total, k, ChunkSubtitle(number, Slice(words, i, i + n)),
             Numbered(Chunks(Rest(words, i + n), n), number + 1));
  }

  /** range(0, m, 0) raises ValueError. */
  datatype ChunkError = ZeroChunkSize

  /** get_transcript_v2 on a Whisper transcript, given as its segments. A negative chunk size
      makes every range empty; a zero one raises at the first segment. */
  method GetTranscriptV2(segments: seq<Segment>, nWordsChunk: int)
    returns (r: Result<seq<Subtitle>, ChunkError>)
    ensures r.Err? <==> nWordsChunk == 0 && |segments| > 0
    ensures nWordsChunk < 0 ==> r == Ok([])
    ensures nWordsChunk > 0 ==> r == Ok(Numbered(TranscriptChunks(segments, nWordsChunk), 1))
  {
    var result: seq<Subtitle> := [];
    var subtitleNumber: nat := 1;
    for s := 0 to |segments|
      invariant nWordsChunk > 0 ==> result == Numbered(TranscriptChunks(segments[..s], nWordsChunk), 1)
      invariant subtitleNumber == |result| + 1
      invariant nWordsChunk <= 0 ==> result == []
      invariant nWordsChunk == 0 ==> s == 0
    {
      if nWordsChunk == 0 {
        return Err(ZeroChunkSize);
      }
      if nWordsChunk > 0 {
        var subtitles := SegmentSubtitles(segments[s], nWordsChunk, subtitleNumber);
        SegmentNext(segments, s, nWordsChunk);
        result := result + subtitles;
        subtitleNumber := subtitleNumber + |subtitles|;
      }
    }
    assert segments[..|segments|] == segments;
    r := Ok(result);
  }

  /** The inner loop of get_transcript_v2 over one segment's words: a subtitle per chunk of n
      words, numbered on from number. */
  method SegmentSubtitles(words: seq<Word>, n: nat, number: nat) returns (subtitles: seq<Subtitle>)
    requires n > 0
    ensures subtitles == Numbered(Chunks(words, n), number)
  {
    ghost var total := Numbered(Chunks(words, n), number);
    subtitles := [];
    var subtitleNumber := number;
    var wordIndex: nat := 0;
    ghost var k: nat := 0;
    assert Rest(words, 0) == words;
    while wordIndex < |words|
      invariant k == |subtitles| <= |total| && subtitles == total[..k]
      invariant Numbered(Chunks(Rest(words, wordIndex), n), subtitleNumber) == total[k..]
      invariant subtitleNumber == number + k
      decreases |words| - wordIndex
    {
      ghost var wi0 := wordIndex;
      SubtitleStep(words, wordIndex, n, subtitleNumber, total, k);
      var wordChunk := Slice(words, wordIndex, wordIndex + n);
      var subtitle := ChunkSubtitle(subtitleNumber, wordChunk);
      subtitles := subtitles + [subtitle];
      subtitleNumber := subtitleNumber + 1;
      wordIndex := wordIndex + n;
      k := k + 1;
      assert Rest(words, wordIndex) == Rest(words, wi0 + n);
    }
    assert Rest(words, wordIndex) == [];
    assert total[..|total|] == total;
  }

  // ---------------------------------------------------------------- timeline offset

  /** One line of clean_transcript: the chunk's audio path, the segment's words joined by
      spaces, and its word start and end times shifted onto the whole recording's timeline. */
  datatype Line = Line(path: string, text: string, starts: seq<nat>, ends: seq<nat>)

  /** [x['start'] + offset for x in words]. */
  function Starts(words: seq<Word>, offset: nat): (times: seq<nat>)
    ensures |times| == |words|
  {
    if |words| == 0 then [] else Starts(words[..|words| - 1], offset) + [words[|words| - 1].start + offset]
  }

  /** [x['end'] + offset for x in words]. */
  function Ends(words: seq<Word>, offset: nat): (times: seq<nat>)
    ensures |times| == |words|
  {
    if |words| == 0 then [] else Ends(words[..|words| - 1], offset) + [words[|words| - 1].end + offset]
  }

  /** Every start time is the word's own start moved by the offset. */
  lemma {:induction false} StartsAt(words: seq<Word>, offset: nat)
    ensures forall i :: 0 <= i < |words| ==> Starts(words, offset)[i] == words[i].start + offset
  {
    if |words| > 0 {
      StartsAt(words[..|words| - 1], offset);
    }
  }

  /** Every end time is the word's own end moved by the offset. */
  lemma {:induction false} EndsAt(words: seq<Word>, offset: nat)
    ensures forall i :: 0 <= i < |words| ==> Ends(words, offset)[i] == words[i].end + offset
  {
    if |words| > 0 {
      EndsAt(words[..|words| - 1], offset);
    }
  }

  function CleanLine(path: string, segment: Segment, offset: nat): Line
  {
    Line(path, Join(" ", Texts(segment)), Starts(segment, offset), Ends(segment, offset))
  }

  /** The lines of clean_transcript: one per segment, in order, all under one offset. */
  function Cleaned(path: string, segments: seq<Segment>, offset: nat): (lines: seq<Line>)
    ensures |lines| == |segments|
  {
    if |segments| == 0 then []
    else Cleaned(path, segments[..|segments| - 1], offset) + [CleanLine(path, segments[|segments| - 1], offset)]
  }

  /** The offset clean_transcript moves to: when the lines so far number more than one, the
      duration of the audio file of the last of them is added. */
  function NextOffset(offset: nat, previous: seq<Line>, audioDuration: string -> nat): nat
  {
    if |previous| > 1 then offset + audioDuration(previous[|previous| - 1].path) else offset
  }

  /** Line i of clean_transcript belongs to segment i: its text is the segment's words joined by
      spaces and every word time is moved by the offset. */
  lemma {:induction false} CleanedAt(path: string, segments: seq<Segment>, offset: nat, i: nat)
    requires i < |segments|
    ensures var line := Cleaned(path, segments, offset)[i];
      && line.path == path && line.text == Join(" ", Texts(segments[i]))
      && |line.starts| == |segments[i]| && |line.ends| == |segments[i]|
      && (forall j :: 0 <= j < |segments[i]| ==> line.starts[j] == segments[i][j].start + offset)
      && (forall j :: 0 <= j < |segments[i]| ==> line.ends[j] == segments[i][j].end + offset)
    decreases |segments|
  {
    if i < |segments| - 1 {
      CleanedAt(path, segments[..|segments| - 1], offset, i);
      assert segments[..|segments| - 1][i] == segments[i];
    } else {
      StartsAt(segments[i], offset);
      EndsAt(segments[i], offset);
    }
  }

  /** A line whose first start and last end can be read (start[0] and end[-1]). */
  predicate Worded(line: Line)
  {
    |line.starts| > 0 && |line.ends| > 0
  }

  predicate AllWorded(lines: seq<Line>)
  {
    forall i :: 0 <= i < |lines| ==> Worded(lines[i])
  }

  /** f"{text}: {start[0]} - {end[-1]}\n". */
  function LineText(line: Line): string
    requires Worded(line)
  {
    line.text + ": " + SecondsText(line.starts[0]) + " - " + SecondsText(line.ends[|line.ends| - 1]) + "\n"
  }

  /** The result string of get_transcript: the lines' texts, one after the other. */
  function LinesText(lines: seq<Line>): string
    requires AllWorded(lines)
  {
    if |lines| == 0 then "" else LinesText(lines[..|lines| - 1]) + LineText(lines[|lines| - 1])
  }


  /** The audio file of one chunk, and the Whisper segments of that file. */
  datatype AudioChunk = AudioChunk(path: string, segments: seq<Segment>)

  /** What get_transcript has accumulated: its result list, its result string, and the offset. */
  datatype Progress = Progress(lines: seq<Line>, text: string, offset: nat)

  /** One chunk of get_transcript: its lines at the next offset are appended to the result
      and their text to the result string, unless one of them has no words, which raises an
      IndexError at that offset. */
  function Step(p: Progress, chunk: AudioChunk, audioDuration: string -> nat): Result<Progress, nat>
  {
    var offset := NextOffset(p.offset, p.lines, audioDuration);
    var lines := Cleaned(chunk.path, chunk.segments, offset);
    if !AllWorded(lines) then Err(offset)
    else Ok(Progress(p.lines + lines, p.text + LinesText(lines), offset))
  }

  /** get_transcript's fold over the chunks from the offset start; an error carries the offset
      reached when it was raised. */
  function Transcribe(chunks: seq<AudioChunk>, audioDuration: string -> nat, start: nat)
    : Result<Progress, nat>
  {
    if |chunks| == 0 then Ok(Progress([], "", start))
    else
      match Transcribe(chunks[..|chunks| - 1], audioDuration, start)
      case Err(offset) => Err(offset)
      case Ok(p) => Step(p, chunks[|chunks| - 1], audioDuration)
  }

  /** An IndexError from start[0] or end[-1] on a line without words. */
  datatype TranscriptError = NoWords

  lemma CleanedSnoc(path: string, segments: seq<Segment>, offset: nat, k: nat)
    requires k < |segments|
    ensures Cleaned(path, segments[..k + 1], offset)
            == Cleaned(path, segments[..k], offset) + [CleanLine(path, segments[k], offset)]
  {
    assert segments[..k + 1][..k] == segments[..k];
  }

  lemma WordedSnoc(lines: seq<Line>, line: Line)
    requires AllWorded(lines) && Worded(line)
    ensures AllWorded(lines + [line])
  {
    assert forall i :: 0 <= i < |lines| ==> (lines + [line])[i] == lines[i];
  }

  lemma LinesTextSnoc(lines: seq<Line>, line: Line)
    requires AllWorded(lines) && Worded(line)
    ensures AllWorded(lines + [line])
    ensures LinesText(lines + [line]) == LinesText(lines) + LineText(line)
  {
    WordedSnoc(lines, line);
    assert (lines + [line])[..|lines|] == lines;
  }

  /** The result string after line j of a chunk is the one before it and that line's text. */
  lemma LinesTextNext(base: string, lines: seq<Line>, j: nat)
    requires j < |lines| && AllWorded(lines[..j]) && Worded(lines[j])
    ensures AllWorded(lines[..j + 1])
    ensures base + LinesText(lines[..j]) + lines[j].text + ": " + SecondsText(lines[j].starts[0])
            + " - " + SecondsText(lines[j].ends[|lines[j].ends| - 1]) + "\n"
            == base + LinesText(lines[..j + 1])
  {
    var line := lines[j];
    PrefixSnoc(lines, j);
    LinesTextSnoc(lines[..j], line);
    LineTextAppend(base + LinesText(lines[..j]), line);
  }

  lemma LineTextAppend(text: string, line: Line)
    requires Worded(line)
    ensures text + line.text + ": " + SecondsText(line.starts[0]) + " - "
            + SecondsText(line.ends[|line.ends| - 1]) + "\n" == text + LineText(line)
  {
  }

  /** The fold over the first c + 1 chunks is the fold over the first c and one more step. */
  lemma TranscribeNext(chunks: seq<AudioChunk>, c: nat, audioDuration: string -> nat, start: nat)
    requires c < |chunks|
    ensures var before := Transcribe(chunks[..c], audioDuration, start);
      Transcribe(chunks[..c + 1], audioDuration, start)
      == if before.Err? then before else Step(before.value, chunks[c], audioDuration)
  {
    assert chunks[..c + 1][..c] == chunks[..c];
  }

  /** Once the fold has raised, the later chunks do not change the outcome. */
  lemma {:induction false} TranscribeErrStays(chunks: seq<AudioChunk>, k: nat,
                                              audioDuration: string -> nat, start: nat)
    requires k <= |chunks| && Transcribe(chunks[..k], audioDuration, start).Err?
    ensures Transcribe(chunks, audioDuration, start) == Transcribe(chunks[..k], audioDuration, start)
    decreases |chunks| - k
  {
    if k < |chunks| {
      TranscribeNext(chunks, k, audioDuration, start);
      TranscribeErrStays(chunks, k + 1, audioDuration, start);
    } else {
      assert chunks[..k] == chunks;
    }
  }

  /** The loop of clean_transcript: the segments, five at a time, each turned into one line
      whose word times are moved by the offset. */
  method CleanSegments(audioPath: string, segments: seq<Segment>, offset: nat)
    returns (result: seq<Line>)
    ensures result == Cleaned(audioPath, segments, offset)
  {
    result := [];
    var i: nat := 0;
    while i < |segments|
      invariant result == Cleaned(audioPath, segments[..Min(i, |segments|)], offset)
      decreases |segments| - i
    {
      var group := segments[i..Min(i + 5, |segments|)];
      for j := 0 to |group|
        invariant result == Cleaned(audioPath, segments[..i + j], offset)
      {
        var segment := group[j];
        var words := Join(" ", Texts(segment));
        var wordsStartTimes := Starts(segment, offset);
        var wordsEndTimes := Ends(segment, offset);
        CleanedSnoc(audioPath, segments, offset, i + j);
        result := result + [Line(audioPath, words, wordsStartTimes, wordsEndTimes)];
      }
      i := i + 5;
    }
    assert segments[..|segments|] == segments;
  }

  /** The inner loop of get_transcript: each line of a chunk is appended to the result and its
      text to the result string; a line without words raises, and the partial result is lost. */
  method AppendLines(lines: seq<Line>, text: string, cleaned: seq<Line>)
    returns (r: Option<(seq<Line>, string)>)
    ensures AllWorded(cleaned) ==> r == Some((lines + cleaned, text + LinesText(cleaned)))
    ensures !AllWorded(cleaned) ==> r == None
  {
    var result, resultString := lines, text;
    for j := 0 to |cleaned|
      invariant AllWorded(cleaned[..j])
      invariant result == lines + cleaned[..j]
      invariant resultString == text + LinesText(cleaned[..j])
    {
      var line := cleaned[j];
      if |line.starts| == 0 || |line.ends| == 0 {
        assert !Worded(cleaned[j]);
        return None;
      }
      LinesTextNext(text, cleaned, j);
      PrefixSnoc(cleaned, j);
      result := result + [line];
      resultString := resultString + line.text + ": " + SecondsText(line.starts[0]) + " - "
                      + SecondsText(line.ends[|line.ends| - 1]) + "\n";
    }
    assert cleaned[..|cleaned|] == cleaned;
    r := Some((result, resultString));
  }

  class WhisperStt {
    /** The offset, in milliseconds, of the current chunk on the whole recording. */
    var duration: nat

    constructor ()
      ensures duration == 0
    {
      duration := 0;
    }

    /** __clean_global__. */
    method CleanGlobal()
      modifies this
      ensures duration == 0
    {
      duration := 0;
    }

    /** clean_transcript: moves the offset on by the last audio file when the previous lines
        number more than one, then turns every segment into a line at it. */
    method CleanTranscript(audioPath: string, segments: seq<Segment>, prevTranscript: seq<Line>,
                           audioDuration: string -> nat)
      returns (result: seq<Line>)
      modifies this
      ensures duration == NextOffset(old(duration), prevTranscript, audioDuration)
      ensures result == Cleaned(audioPath, segments, duration)
    {
      if |prevTranscript| > 1 {
        duration := duration + audioDuration(prevTranscript[|prevTranscript| - 1].path);
      }
      result := CleanSegments(audioPath, segments, duration);
    }

    /** get_transcript over the chunks of the audio: every chunk's lines at its offset, and
        the result string; the offset is reset to 0 at the end. A line without words raises,
        leaving the offset where the failing chunk put it. */
    method GetTranscript(chunks: seq<AudioChunk>, audioDuration: string -> nat)
      returns (r: Result<(seq<Line>, string), TranscriptError>)
      modifies this
      ensures var run := Transcribe(chunks, audioDuration, old(duration));
        && (run.Ok? ==> r == Ok((run.value.lines, run.value.text)) && duration == 0)
        && (run.Err? ==> r == Err(NoWords) && duration == run.error)
    {
      var result: seq<Line> := [];
      var resultString := "";
      ghost var start := duration;
      for c := 0 to |chunks|
        invariant Transcribe(chunks[..c], audioDuration, start)
                  == Ok(Progress(result, resultString, duration))
      {
        var chunk := chunks[c];
        ghost var before := Progress(result, resultString, duration);
        TranscribeNext(chunks, c, audioDuration, start);
        var cleaned := CleanTranscript(chunk.path, chunk.segments, result, audioDuration);
        var appended := AppendLines(result, resultString, cleaned);
        if appended.None? {
          TranscribeErrStays(chunks, c + 1, audioDuration, start);
          return Err(NoWords);
        }
        result, resultString := appended.value.0, appended.value.1;
      }
      assert chunks[..|chunks|] == chunks;
      CleanGlobal();
      r := Ok((result, resultString));
    }
  }

  /** The offset rule across two chunks: the second chunk's word times are moved by the first
      chunk's audio duration only when the first chunk gave more than one line, so a chunk with
      a single segment leaves the next chunk on its own, unshifted timeline. */
  lemma SecondChunkOffset(first: AudioChunk, second: AudioChunk, audioDuration: string -> nat)
    requires AllWorded(Cleaned(first.path, first.segments, 0))
    ensures var shift := if |first.segments| > 1 then audioDuration(first.path) else 0;
      AllWorded(Cleaned(second.path, second.segments, shift)) ==>
        var run := Transcribe([first, second], audioDuration, 0);
        && run.Ok? && run.value.offset == shift
        && run.value.lines == Cleaned(first.path, first.segments, 0)
                              + Cleaned(second.path, second.segments, shift)
  {
    var chunks := [first, second];
    var lines := Cleaned(first.path, first.segments, 0);
    TranscribeNext(chunks, 0, audioDuration, 0);
    TranscribeNext(chunks, 1, audioDuration, 0);
    assert chunks[..0] == [];
    assert chunks[..2] == chunks;
    assert [] + lines == lines;
    if |first.segments| > 1 {
      CleanedAt(first.path, first.segments, 0, |first.segments| - 1);
    }
  }
}
