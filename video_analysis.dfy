/** The frame-sampling analyser: the timecode formatter built on timedelta, the running scene
    description handed to the model, and the schedule of analysis windows over a video. The video
    decoder delivers the frames at positions below `readable` and fails to read past them, and `analyze(scene, timecodes)` is the model's (analysis, tokens) answer. */
module VideoAnalysis {
  import opened PyText
  import opened SrtTimecode

  // ---------------------------------------------------------------- format_timecode

  const MICROS_PER_SECOND: nat := 1000000
  const SECONDS_PER_DAY: nat := 86400

  /** format_timecode on a duration of `micros` microseconds: timedelta keeps whole days apart,
      so only the seconds within the day are split into hours, minutes and seconds, and the
      microseconds are truncated to milliseconds. */
  function FormatTimecode(micros: nat): string
  {
    RenderDay((micros / MICROS_PER_SECOND) % SECONDS_PER_DAY, (micros % MICROS_PER_SECOND) / 1000)
  }

  /** divmod(td.seconds, 3600), divmod(remainder, 60) and the three fields printed. */
  function RenderDay(daySeconds: nat, ms: nat): string
  {
    Render(daySeconds / 3600, (daySeconds % 3600) / 60, daySeconds % 60, ms)
  }

  /** The result is exactly HH:MM:SS,mmm with hours below 24, and its fields add up to the time
      of day truncated to milliseconds. */
  lemma FormatTimecodeReadBack(micros: nat)
    ensures var tc := FormatTimecode(micros);
      && |tc| == 12 && tc[2] == ':' && tc[5] == ':' && tc[8] == ','
      && AllDigits(tc[..2]) && AllDigits(tc[3..5]) && AllDigits(tc[6..8]) && AllDigits(tc[9..])
      && DigitsValue(tc[..2]) < 24 && DigitsValue(tc[3..5]) < 60 && DigitsValue(tc[6..8]) < 60
      && DigitsValue(tc[..2]) * 3600000 + DigitsValue(tc[3..5]) * 60000
         + DigitsValue(tc[6..8]) * 1000 + DigitsValue(tc[9..])
         == (micros / 1000) % 86400000
  {
    var daySeconds := (micros / MICROS_PER_SECOND) % SECONDS_PER_DAY;
    var h, m, s, ms := daySeconds / 3600, (daySeconds % 3600) / 60, daySeconds % 60,
                       (micros % MICROS_PER_SECOND) / 1000;
    assert h < 24 && daySeconds == h * 3600 + m * 60 + s;
    var tc := FormatTimecode(micros);
    assert tc == Render(h, m, s, ms);
    RenderReadBack(h, m, s, ms);
    DayMillis(micros);
  }

  lemma DayMillis(micros: nat)
    ensures var daySeconds := (micros / MICROS_PER_SECOND) % SECONDS_PER_DAY;
      daySeconds * 1000 + (micros % MICROS_PER_SECOND) / 1000 == (micros / 1000) % 86400000
  {
    var secs, sub := micros / 1000000, micros % 1000000;
    var days, daySeconds := secs / 86400, secs % 86400;
    DivModOf(micros, 1000, secs * 1000 + sub / 1000, sub % 1000);
    DivModOf(secs * 1000 + sub / 1000, 86400000, days, daySeconds * 1000 + sub / 1000);
  }

  /** Whole days are dropped: a timecode one day later reads the same. */
  lemma FormatTimecodeWrapsDaily(micros: nat)
    ensures FormatTimecode(micros + SECONDS_PER_DAY * MICROS_PER_SECOND) == FormatTimecode(micros)
  {
    var later := micros + 86400000000;
    var secs, sub := micros / 1000000, micros % 1000000;
    assert later == (secs + 86400) * 1000000 + sub;
    assert later / 1000000 == secs + 86400 && later % 1000000 == sub;
    assert (secs + 86400) % 86400 == secs % 86400;
  }

  /** Only whole milliseconds are printed. */
  lemma FormatTimecodeTruncates(micros: nat)
    ensures FormatTimecode(micros / 1000 * 1000) == FormatTimecode(micros)
  {
    var t := micros / 1000 * 1000;
    var q, r := micros / 1000000, micros % 1000000;
    DivModOf(micros, 1000, q * 1000 + r / 1000, r % 1000);
    DivModOf(t, 1000000, q, r / 1000 * 1000);
    DivModOf(r / 1000 * 1000, 1000, r / 1000, 0);
  }

  // ---------------------------------------------------------------- frame times

  /** round(a / b) with ties to the even neighbour, as timedelta rounds to microseconds. */
  function RoundHalfEven(a: nat, b: nat): nat
    requires b > 0
  {
    HalfEvenFrom(a, b, false)
  }

  /** Long division by repeated subtraction that remembers whether the quotient so far is odd:
      the quotient still to come, rounded so that a tie makes the whole quotient even. */
  function HalfEvenFrom(a: nat, b: nat, odd: bool): nat
    requires b > 0
    decreases a
  {
    if a < b then (if 2 * a > b || (2 * a == b && odd) then 1 else 0)
    else 1 + HalfEvenFrom(a - b, b, !odd)
  }

  lemma {:induction false} HalfEvenFromNearest(a: nat, b: nat, odd: bool)
    requires b > 0
    ensures var r := HalfEvenFrom(a, b, odd);
      && 2 * (a - r * b) <= b && 2 * (r * b - a) <= b
      && (2 * (a - r * b) == b || 2 * (r * b - a) == b ==> (r + if odd then 1 else 0) % 2 == 0)
    decreases a
  {
    if a >= b {
      HalfEvenFromNearest(a - b, b, !odd);
      Distrib(HalfEvenFrom(a - b, b, !odd), 1, b);
    }
  }

  /** The result is a nearest integer to a / b, and the even one when a / b lies halfway. */
  lemma RoundHalfEvenNearest(a: nat, b: nat)
    requires b > 0
    ensures var r := RoundHalfEven(a, b);
      && 2 * (a - r * b) <= b && 2 * (r * b - a) <= b
      && (2 * (a - r * b) == b || 2 * (r * b - a) == b ==> r % 2 == 0)
  {
    HalfEvenFromNearest(a, b, false);
  }

  /** A multiple of b rounds to its exact quotient. */
  lemma RoundHalfEvenExact(q: nat, b: nat)
    requires b > 0
    ensures RoundHalfEven(q * b, b) == q
  {
    var r := RoundHalfEven(q * b, b);
    RoundHalfEvenNearest(q * b, b);
    if r > q {
      Distrib(q, r - q, b);
      MulAtLeast(r - q, b);
    } else if r < q {
      Distrib(r, q - r, b);
      MulAtLeast(q - r, b);
    }
  }

  /** The time of frame `frame` at `fps` frames per second, in microseconds: timedelta of
      frame / fps seconds. */
  function FrameMicros(frame: nat, fps: nat): nat
    requires fps > 0
  {
    RoundHalfEven(frame * MICROS_PER_SECOND, fps)
  }

  function FrameTimecode(frame: nat, fps: nat): string
    requires fps > 0
  {
    FormatTimecode(FrameMicros(frame, fps))
  }

  /** Frame w * fps * interval lies exactly w * interval seconds into the video. */
  lemma WindowStartExact(w: nat, fps: nat, intervalSeconds: nat)
    requires fps > 0
    ensures FrameTimecode(w * (fps * intervalSeconds), fps)
            == FormatTimecode(w * intervalSeconds * MICROS_PER_SECOND)
  {
    var q := w * intervalSeconds * 1000000;
    assert w * (fps * intervalSeconds) * 1000000 == q * fps;
    RoundHalfEvenExact(q, fps);
  }

  // ---------------------------------------------------------------- make_analysis_text

  datatype AnalysisResult = AnalysisResult(startTimecode: string, endTimecode: string,
                                           analysis: string, imageTimecodes: seq<string>)

  const START_LABEL: string := "Стартовый таймкод: "
  const END_LABEL: string := "Конечный таймкод: "
  const ANALYSIS_LABEL: string := "Анализ: "

  /** The four lines one fragment contributes to the scene description. */
  function AnalysisBlock(f: AnalysisResult): string
  {
    START_LABEL + f.startTimecode + "\n" + END_LABEL + f.endTimecode + "\n"
    + ANALYSIS_LABEL + f.analysis + "\n" + "\n"
  }

  /** The scene description of a list of fragments: their blocks in order. */
  function AnalysisText(results: seq<AnalysisResult>): string
  {
    if |results| == 0 then ""
    else AnalysisText(results[..|results| - 1]) + AnalysisBlock(results[|results| - 1])
  }

  method MakeAnalysisText(results: seq<AnalysisResult>) returns (text: string)
    ensures text == AnalysisText(results)
  {
    text := "";
    for i := 0 to |results|
      invariant text == AnalysisText(results[..i])
    {
      var fragment := results[i];
      text := text + START_LABEL + fragment.startTimecode + "\n";
      text := text + END_LABEL + fragment.endTimecode + "\n";
      text := text + ANALYSIS_LABEL + fragment.analysis + "\n";
      text := text + "\n";
      AnalysisTextNext(results, i);
    }
    assert results[..|results|] == results;
  }

  /** One pass of make_analysis_text's loop appends exactly the block of fragment i. */
  lemma AnalysisTextNext(results: seq<AnalysisResult>, i: nat)
    requires i < |results|
    ensures var f := results[i];
      AnalysisText(results[..i]) + START_LABEL + f.startTimecode + "\n" + END_LABEL + f.endTimecode
      + "\n" + ANALYSIS_LABEL + f.analysis + "\n" + "\n"
      == AnalysisText(results[..i + 1])
  {
    var f := results[i];
    AnalysisTextAppend(results[..i], f);
    assert results[..i + 1] == results[..i] + [f];
    BlockAppend(AnalysisText(results[..i]), f);
  }

  /** Appending the pieces of a block one by one appends the block. */
  lemma BlockAppend(text: string, f: AnalysisResult)
    ensures text + START_LABEL + f.startTimecode + "\n" + END_LABEL + f.endTimecode + "\n"
            + ANALYSIS_LABEL + f.analysis + "\n" + "\n"
            == text + AnalysisBlock(f)
  {
  }

  /** The description grows by one block per fragment. */
  lemma AnalysisTextAppend(results: seq<AnalysisResult>, f: AnalysisResult)
    ensures AnalysisText(results + [f]) == AnalysisText(results) + AnalysisBlock(f)
  {
    assert (results + [f])[..|results|] == results;
  }

  /** With no earlier fragments the model gets an empty scene. */
  lemma AnalysisTextEmpty()
    ensures AnalysisText([]) == ""
  {
  }

  /** A fragment whose fields hold no line break contributes exactly its three labelled lines
      and a blank line. */
  lemma AnalysisBlockLines(f: AnalysisResult)
    requires '\n' !in f.startTimecode && '\n' !in f.endTimecode && '\n' !in f.analysis
    ensures Split(AnalysisBlock(f), '\n')
            == [START_LABEL + f.startTimecode, END_LABEL + f.endTimecode,
                ANALYSIS_LABEL + f.analysis, "", ""]
  {
    var l1, l2, l3 := START_LABEL + f.startTimecode, END_LABEL + f.endTimecode,
                      ANALYSIS_LABEL + f.analysis;
    NoBreakConcat(START_LABEL, f.startTimecode);
    NoBreakConcat(END_LABEL, f.endTimecode);
    NoBreakConcat(ANALYSIS_LABEL, f.analysis);
    var nl := '\n';
    assert AnalysisBlock(f) == l1 + [nl] + (l2 + [nl] + (l3 + [nl] + ("" + [nl] + "")));
    SplitAtFirst(l1, nl, l2 + [nl] + (l3 + [nl] + ("" + [nl] + "")));
    SplitAtFirst(l2, nl, l3 + [nl] + ("" + [nl] + ""));
    SplitAtFirst(l3, nl, "" + [nl] + "");
    SplitAtFirst("", nl, "");
  }

  lemma NoBreakConcat(prefix: string, field: string)
    requires prefix == START_LABEL || prefix == END_LABEL || prefix == ANALYSIS_LABEL
    requires '\n' !in field
    ensures '\n' !in prefix + field
  {
    forall i | 0 <= i < |prefix| ensures prefix[i] != '\n' {
      assert prefix[i] in prefix;
    }
  }

  // ---------------------------------------------------------------- run

  const FRAMES_PER_ANALYSIS: nat := 16

  /** i * step, the distance in frames of sample i (or of window i) from the start. */
  function Offset(i: nat, step: nat): nat
  {
    if i == 0 then 0 else Offset(i - 1, step) + step
  }

  lemma {:induction false} OffsetIsProduct(i: nat, step: nat)
    ensures Offset(i, step) == i * step
  {
    if i > 0 {
      OffsetIsProduct(i - 1, step);
      Distrib(i - 1, 1, step);
    }
  }

  lemma OffsetNext(i: nat, step: nat)
    ensures Offset(i + 1, step) == Offset(i, step) + step
  {
  }

  lemma OffsetMonotone(i: nat, j: nat, step: nat)
    requires i <= j
    ensures Offset(i, step) <= Offset(j, step)
  {
    OffsetIsProduct(i, step);
    OffsetIsProduct(j, step);
    MulLeft(i, j, step);
  }

  /** Sample i of a window that starts at frame `start` sits i * step frames in. */
  function SamplePosition(start: nat, step: nat, i: nat): nat
  {
    start + Offset(i, step)
  }

  /** How many samples a window reads, counting from sample i: reading goes on while the
      decoder delivers the frame and stops at the first frame that fails, or after the 16th. */
  function SampleCount(start: nat, step: nat, readable: nat, i: nat): (c: nat)
    requires i <= FRAMES_PER_ANALYSIS
    ensures i <= c <= FRAMES_PER_ANALYSIS
    decreases FRAMES_PER_ANALYSIS - i
  {
    if i == FRAMES_PER_ANALYSIS || SamplePosition(start, step, i) >= readable then i
    else SampleCount(start, step, readable, i + 1)
  }

  /** Every sample before the count was read, and the one at the count (if any) was not. */
  lemma {:induction false} SampleCountStops(start: nat, step: nat, readable: nat, i: nat)
    requires i <= FRAMES_PER_ANALYSIS
    ensures var c := SampleCount(start, step, readable, i);
      && (forall j :: i <= j < c ==> SamplePosition(start, step, j) < readable)
      && (c < FRAMES_PER_ANALYSIS ==> SamplePosition(start, step, c) >= readable)
    decreases FRAMES_PER_ANALYSIS - i
  {
    if i < FRAMES_PER_ANALYSIS && SamplePosition(start, step, i) < readable {
      SampleCountStops(start, step, readable, i + 1);
    }
  }

  /** Conversely, a run of successful reads ended by a failure (or by the 16th sample) is the
      count. */
  lemma {:induction false} SampleCountIs(start: nat, step: nat, readable: nat, i: nat, c: nat)
    requires i <= c <= FRAMES_PER_ANALYSIS
    requires forall j :: i <= j < c ==> SamplePosition(start, step, j) < readable
    requires c < FRAMES_PER_ANALYSIS ==> SamplePosition(start, step, c) >= readable
    ensures SampleCount(start, step, readable, i) == c
    decreases c - i
  {
    if i < c {
      SampleCountIs(start, step, readable, i + 1, c);
    }
  }

  /** Sample positions only grow, so a window reads exactly those of its 16 samples that lie
      among the frames the decoder delivers. */
  lemma SampleCountReadable(start: nat, step: nat, readable: nat, j: nat)
    requires j < FRAMES_PER_ANALYSIS
    ensures j < SampleCount(start, step, readable, 0) <==> SamplePosition(start, step, j) < readable
  {
    var c := SampleCount(start, step, readable, 0);
    SampleCountStops(start, step, readable, 0);
    if c <= j {
      OffsetMonotone(c, j, step);
    }
  }

  /** With step interval // 16 every sample of a window lies inside [start, start + interval). */
  lemma SampleInWindow(start: nat, interval: nat, j: nat)
    requires interval > 0 && j < FRAMES_PER_ANALYSIS
    ensures start <= SamplePosition(start, interval / FRAMES_PER_ANALYSIS, j) < start + interval
  {
    var step := interval / FRAMES_PER_ANALYSIS;
    OffsetMonotone(j, 15, step);
    OffsetNext(15, step);
    OffsetIsProduct(16, step);
  }

  lemma MulLeft(a: nat, b: nat, c: nat)
    requires a <= b
    ensures a * c <= b * c
  {
  }

  /** range(0, total, interval) for a positive interval has this many elements. */
  function WindowCount(total: int, interval: nat): nat
    requires interval > 0
    decreases total
  {
    if total <= 0 then 0 else 1 + WindowCount(total - interval, interval)
  }

  /** Window w starts at w * interval, and the windows are exactly those that start before the
      end: the count is the ceiling of total / interval. */
  lemma {:induction false} WindowCountCovers(total: int, interval: nat)
    requires interval > 0
    ensures forall w: nat :: w < WindowCount(total, interval) ==> Offset(w, interval) < total
    ensures Offset(WindowCount(total, interval), interval) >= total
  {
    if total > 0 {
      WindowCountCovers(total - interval, interval);
      var n := WindowCount(total, interval);
      forall w: nat | w < n ensures Offset(w, interval) < total {
        if w > 0 {
          OffsetNext(w - 1, interval);
        }
      }
      OffsetNext(n - 1, interval);
    }
  }

  /** Conversely, n is the count when window n is the first to start at or after the end. */
  lemma WindowCountIs(total: int, interval: nat, n: nat)
    requires interval > 0
    requires Offset(n, interval) >= total && (n == 0 || Offset(n - 1, interval) < total)
    ensures WindowCount(total, interval) == n
  {
    var c := WindowCount(total, interval);
    WindowCountCovers(total, interval);
    if n > c {
      OffsetMonotone(c, n - 1, interval);
    }
  }

  /** The timecodes of the first n samples of a window. */
  function SampledTimecodes(start: nat, step: nat, fps: nat, n: nat): (tcs: seq<string>)
    requires fps > 0
    ensures |tcs| == n
  {
    if n == 0 then []
    else SampledTimecodes(start, step, fps, n - 1) + [FrameTimecode(SamplePosition(start, step, n - 1), fps)]
  }

  /** Entry j is the timecode of sample j. */
  lemma {:induction false} SampledTimecodesAt(start: nat, step: nat, fps: nat, n: nat, j: nat)
    requires fps > 0 && j < n
    ensures SampledTimecodes(start, step, fps, n)[j] == FrameTimecode(SamplePosition(start, step, j), fps)
  {
    if j < n - 1 {
      SampledTimecodesAt(start, step, fps, n - 1, j);
    }
  }

  /** The timecodes of the frames a window of `interval` frames starting at `start` reads. */
  function WindowTimecodes(start: nat, interval: nat, fps: nat, readable: nat): seq<string>
    requires fps > 0
  {
    var step := interval / FRAMES_PER_ANALYSIS;
    SampledTimecodes(start, step, fps, SampleCount(start, step, readable, 0))
  }

  /** The window of a run that starts at frame `start`, given the fragments before it, and the
      tokens the model used on it. The timecodes of its sampled frames go to the model together
      with the description of the fragments before it; it is labelled from its first frame to
      the frame one interval later, the first frame of the next window. */
  function WindowAt(interval: nat, fps: nat, readable: nat,
                    analyze: (string, seq<string>) -> (string, nat), start: nat,
                    before: seq<AnalysisResult>): (AnalysisResult, nat)
    requires fps > 0
  {
    var tcs := WindowTimecodes(start, interval, fps, readable);
    var answer := analyze(AnalysisText(before), tcs);
    (AnalysisResult(FrameTimecode(start, fps), FrameTimecode(start + interval, fps), answer.0, tcs),
     answer.1)
  }

  /** How one window of a run turns out, given its index and the fragments before it: its
      fragment and the tokens the model used on it. */
  type WindowStep = (nat, seq<AnalysisResult>) -> (AnalysisResult, nat)

  /** The first n fragments of a run whose windows are produced by `next`, and the tokens they
      used in total. */
  function Windows(next: WindowStep, n: nat): (run: (seq<AnalysisResult>, nat))
    ensures |run.0| == n
  {
    if n == 0 then ([], 0)
    else
      var before := Windows(next, n - 1);
      var last := next(n - 1, before.0);
      (before.0 + [last.0], before.1 + last.1)
  }

  /** The windows of a run of interval-frame windows over a video: window w starts at frame
      w * interval. */
  function Schedule(interval: nat, fps: nat, readable: nat,
                    analyze: (string, seq<string>) -> (string, nat)): WindowStep
    requires fps > 0
  {
    (w: nat, before: seq<AnalysisResult>) => WindowAt(interval, fps, readable, analyze, Offset(w, interval), before)
  }

  /** One more window appends its fragment and adds its tokens. */
  lemma WindowsStep(next: WindowStep, n: nat, results: seq<AnalysisResult>, tokens: nat,
                    fragment: AnalysisResult, used: nat)
    requires (results, tokens) == Windows(next, n)
    requires (fragment, used) == next(n, results)
    ensures (results + [fragment], tokens + used) == Windows(next, n + 1)
  {
  }

  /** A run of n windows extends every shorter run: later windows never change earlier ones. */
  lemma {:induction false} WindowsPrefix(next: WindowStep, w: nat, n: nat)
    requires w <= n
    ensures Windows(next, n).0[..w] == Windows(next, w).0
    decreases n
  {
    var rs := Windows(next, n).0;
    if w < n {
      WindowsPrefix(next, w, n - 1);
      assert rs[..n - 1] == Windows(next, n - 1).0;
      assert rs[..w] == rs[..n - 1][..w];
    } else {
      assert rs[..w] == rs;
    }
  }

  /** Fragment w of a run is what the step makes of window w given exactly the fragments before
      it. */
  lemma WindowsAt(next: WindowStep, n: nat, w: nat)
    requires w < n
    ensures Windows(next, n).0[w] == next(w, Windows(next, n).0[..w]).0
  {
    var rs := Windows(next, n).0;
    WindowsPrefix(next, w + 1, n);
    WindowsPrefix(next, w, n);
    assert rs[w] == rs[..w + 1][w];
  }

  /** A window is labelled from its first frame to the frame one interval later,
      it carries the timecodes of the frames it sampled, and the model analysed it with the
      description of the fragments before it. */
  lemma WindowAtFields(interval: nat, fps: nat, readable: nat,
                       analyze: (string, seq<string>) -> (string, nat), start: nat,
                       before: seq<AnalysisResult>)
    requires fps > 0
    ensures var f := WindowAt(interval, fps, readable, analyze, start, before).0;
      var tcs := WindowTimecodes(start, interval, fps, readable);
      && f.startTimecode == FrameTimecode(start, fps)
      && f.endTimecode == FrameTimecode(start + interval, fps)
      && f.imageTimecodes == tcs
      && f.analysis == analyze(AnalysisText(before), tcs).0
  {
  }

  /** A window is what the model answers on its sampled timecodes and the scene so far. */
  lemma WindowAtIs(interval: nat, fps: nat, readable: nat,
                   analyze: (string, seq<string>) -> (string, nat), start: nat,
                   before: seq<AnalysisResult>, tcs: seq<string>, scene: string)
    requires fps > 0
    requires tcs == SampledTimecodes(start, interval / FRAMES_PER_ANALYSIS, fps,
                                     SampleCount(start, interval / FRAMES_PER_ANALYSIS, readable, 0))
    requires scene == AnalysisText(before)
    ensures WindowAt(interval, fps, readable, analyze, start, before)
            == (AnalysisResult(FrameTimecode(start, fps), FrameTimecode(start + interval, fps),
                               analyze(scene, tcs).0, tcs), analyze(scene, tcs).1)
  {
  }

  /** Fragment w of a run of n windows is window w given exactly the fragments before it. */
  lemma WindowsShape(interval: nat, fps: nat, readable: nat,
                     analyze: (string, seq<string>) -> (string, nat), n: nat, w: nat)
    requires fps > 0 && w < n
    ensures var rs := Windows(Schedule(interval, fps, readable, analyze), n).0;
      rs[w] == WindowAt(interval, fps, readable, analyze, Offset(w, interval), rs[..w]).0
  {
    WindowsAt(Schedule(interval, fps, readable, analyze), n, w);
  }

  /** The fragments of a run tile the video: fragment w is labelled from frame w * interval to
      the first frame of fragment w + 1. */
  lemma WindowsTile(interval: nat, fps: nat, readable: nat,
                    analyze: (string, seq<string>) -> (string, nat), n: nat, w: nat)
    requires fps > 0 && w + 1 < n
    ensures var rs := Windows(Schedule(interval, fps, readable, analyze), n).0;
      && rs[w].startTimecode == FrameTimecode(Offset(w, interval), fps)
      && rs[w].endTimecode == rs[w + 1].startTimecode
  {
    var rs := Windows(Schedule(interval, fps, readable, analyze), n).0;
    WindowsShape(interval, fps, readable, analyze, n, w);
    WindowsShape(interval, fps, readable, analyze, n, w + 1);
    WindowAtFields(interval, fps, readable, analyze, Offset(w, interval), rs[..w]);
    WindowAtFields(interval, fps, readable, analyze, Offset(w + 1, interval), rs[..w + 1]);
    OffsetNext(w, interval);
  }

  /** The inner loop of run: up to 16 frames `step` apart from `start`, stopping at the first
      failed read, and the timecode of each frame read. */
  method SampleTimecodes(start: nat, step: nat, fps: nat, readable: nat)
    returns (timecodes: seq<string>)
    requires fps > 0
    ensures timecodes == SampledTimecodes(start, step, fps, SampleCount(start, step, readable, 0))
  {
    timecodes := [];
    var i := 0;
    while i < FRAMES_PER_ANALYSIS
      invariant 0 <= i <= FRAMES_PER_ANALYSIS
      invariant SampleCount(start, step, readable, 0) == SampleCount(start, step, readable, i)
      invariant timecodes == SampledTimecodes(start, step, fps, i)
    {
      var framePosition := FramePosition(start, step, i);
      SampleCountStep(start, step, readable, i);
      if framePosition >= readable {
        break;
      }
      SampledTimecodesNext(start, step, fps, i, timecodes, framePosition);
      timecodes := timecodes + [FrameTimecode(framePosition, fps)];
      i := i + 1;
    }
  }

  /** frame_position = start_frame + i * frame_step. */
  method FramePosition(start: nat, step: nat, i: nat) returns (position: nat)
    ensures position == SamplePosition(start, step, i)
  {
    position := start + i * step;
    OffsetIsProduct(i, step);
  }

  /** Reading sample i either ends the count at i or passes it on to sample i + 1. */
  lemma SampleCountStep(start: nat, step: nat, readable: nat, i: nat)
    requires i < FRAMES_PER_ANALYSIS
    ensures SamplePosition(start, step, i) >= readable ==> SampleCount(start, step, readable, i) == i
    ensures SamplePosition(start, step, i) < readable
            ==> SampleCount(start, step, readable, i) == SampleCount(start, step, readable, i + 1)
  {
  }

  lemma SampledTimecodesNext(start: nat, step: nat, fps: nat, i: nat, tcs: seq<string>, position: nat)
    requires fps > 0
    requires tcs == SampledTimecodes(start, step, fps, i) && position == SamplePosition(start, step, i)
    ensures tcs + [FrameTimecode(position, fps)] == SampledTimecodes(start, step, fps, i + 1)
  {
  }

  /** One pass of run's outer loop: sample the window's frames, describe the
      fragments so far, ask the model, and label the window with its start and end timecodes. */
  method AnalyseWindow(startFrame: nat, intervalFrames: nat, fps: nat, readable: nat,
                       analyze: (string, seq<string>) -> (string, nat),
                       analysisResults: seq<AnalysisResult>)
    returns (fragment: AnalysisResult, tokens: nat)
    requires fps > 0
    ensures (fragment, tokens) == WindowAt(intervalFrames, fps, readable, analyze, startFrame, analysisResults)
  {
    var frameStep := intervalFrames / FRAMES_PER_ANALYSIS;
    var timecodes := SampleTimecodes(startFrame, frameStep, fps, readable);
    var scene := MakeAnalysisText(analysisResults);
    WindowAtIs(intervalFrames, fps, readable, analyze, startFrame, analysisResults, timecodes, scene);
    var answer := analyze(scene, timecodes);
    var startTime := FrameTimecode(startFrame, fps);
    var endTime := FrameTimecode(startFrame + intervalFrames, fps);
    fragment := AnalysisResult(startTime, endTime, answer.0, timecodes);
    tokens := answer.1;
  }

  /** The outer loop of run: windows of k frames start at frames 0, k, 2k, ... before the end. */
  method AnalyseWindows(totalFrames: nat, k: nat, fps: nat, readable: nat,
                        analyze: (string, seq<string>) -> (string, nat))
    returns (analysisResults: seq<AnalysisResult>, totalTokens: nat)
    requires k > 0 && fps > 0
    ensures (analysisResults, totalTokens)
            == Windows(Schedule(k, fps, readable, analyze), WindowCount(totalFrames, k))
  {
    analysisResults, totalTokens := [], 0;
    var startFrame: nat := 0;
    ghost var n: nat := 0;
    while startFrame < totalFrames
      invariant startFrame == Offset(n, k)
      invariant (analysisResults, totalTokens) == Windows(Schedule(k, fps, readable, analyze), n)
      invariant n == 0 || Offset(n - 1, k) < totalFrames
      decreases totalFrames - startFrame
    {
      var fragment, tokens := AnalyseWindow(startFrame, k, fps, readable, analyze, analysisResults);
      WindowsStep(Schedule(k, fps, readable, analyze), n, analysisResults, totalTokens, fragment, tokens);
      analysisResults := analysisResults + [fragment];
      totalTokens := totalTokens + tokens;
      startFrame := startFrame + k;
      n := n + 1;
    }
    WindowCountIs(totalFrames, k, n);
  }

  datatype RunError = ZeroInterval  // range() arg 3 must not be zero

  /** The window loop of run on a video of totalFrames frames at fps frames per second: windows
      of fps * intervalSeconds frames start at frames 0, k, 2k, ... before the end; each window
      samples 16 frames k // 16 apart, stopping at the first failed read, and asks the model for an
      analysis given the scene so far. Returns the fragments and the total token count. */
  method Run(totalFrames: nat, fps: nat, intervalSeconds: int, readable: nat,
             analyze: (string, seq<string>) -> (string, nat))
    returns (r: Result<(seq<AnalysisResult>, nat), RunError>)
    ensures fps * intervalSeconds == 0 <==> r == Err(ZeroInterval)
    ensures fps * intervalSeconds < 0 ==> r == Ok(([], 0))
    ensures fps * intervalSeconds > 0 ==>
              r == Ok(Windows(Schedule(fps * intervalSeconds, fps, readable, analyze),
                              WindowCount(totalFrames, fps * intervalSeconds)))
  {
    var intervalFrames := fps * intervalSeconds;
    if intervalFrames == 0 {
      return Err(ZeroInterval);
    }
    if intervalFrames < 0 {
      return Ok(([], 0));
    }
    assert fps > 0;
    var analysisResults, totalTokens := AnalyseWindows(totalFrames, intervalFrames, fps, readable, analyze);
    return Ok((analysisResults, totalTokens));
  }
}
