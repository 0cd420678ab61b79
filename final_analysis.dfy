/** The fusion step of the pipeline: SubRip timecodes read back into milliseconds, the join of
    the video fragments with the subtitles whose time span touches them, and the rendering of
    the joined timeline as the text handed to the model. */
module FinalAnalysis {
  import opened PyText
  import opened SrtTimecode
  import VideoAnalysis
  import SubtitleAnalysis
  import opened Stt

  // ---------------------------------------------------------------- timecode_to_seconds

  /** The ValueError cases of timecode_to_seconds: the unpacking of `split(':')` into three
      names, the unpacking of `split(',')` into two, and int() on a field. */
  datatype ParseError = NotThreeFields | NotTwoSecondFields | NotAnInteger

  /** timecode_to_seconds, in milliseconds: HH:MM:SS,mmm gives
      HH * 3600000 + MM * 60000 + SS * 1000 + mmm. TimecodeToMillisCases states every outcome. */
  function TimecodeToMillis(tc: string): (r: Result<int, ParseError>)
    ensures CountChar(tc, ':') != 2 <==> r == Err(NotThreeFields)
  {
    var fields := Split(tc, ':');
    if |fields| != 3 then Err(NotThreeFields)
    else
      var secondFields := Split(fields[2], ',');
      if |secondFields| != 2 then Err(NotTwoSecondFields)
      else
        var h, m, s, ms := ParseInt(fields[0]), ParseInt(fields[1]),
                           ParseInt(secondFields[0]), ParseInt(secondFields[1]);
        if h.None? || m.None? || s.None? || ms.None? then Err(NotAnInteger)
        else Ok(h.value * 3600000 + m.value * 60000 + s.value * 1000 + ms.value)
  }

  /** The outcomes of timecode_to_seconds: without exactly two colons the first unpacking
      raises; otherwise, without exactly one comma after the second colon the second unpacking
      raises; otherwise a field int() refuses raises; and a result is the weighted sum of the
      four fields. */
  lemma TimecodeToMillisCases(tc: string)
    ensures var r := TimecodeToMillis(tc);
      && (CountChar(tc, ':') != 2 <==> r == Err(NotThreeFields))
      && (CountChar(tc, ':') == 2 ==>
            var fields := Split(tc, ':');
            && (CountChar(fields[2], ',') != 1 <==> r == Err(NotTwoSecondFields))
            && (CountChar(fields[2], ',') == 1 ==>
                  var secondFields := Split(fields[2], ',');
                  var h, m, s, ms := ParseInt(fields[0]), ParseInt(fields[1]),
                                     ParseInt(secondFields[0]), ParseInt(secondFields[1]);
                  && (h.None? || m.None? || s.None? || ms.None? <==> r == Err(NotAnInteger))
                  && (r.Ok? ==> r.value == h.value * 3600000 + m.value * 60000 + s.value * 1000
                                           + ms.value)))
  {
  }

  lemma DigitsExclude(s: string, c: char)
    requires AllDigits(s) && !IsDigit(c)
    ensures c !in s
  {
    forall i | 0 <= i < |s| ensures s[i] != c {
      assert IsDigit(s[i]);
    }
  }

  lemma ParseDigits(s: string)
    requires |s| >= 1 && AllDigits(s)
    ensures ParseInt(s) == Some(DigitsValue(s))
  {
    assert IsDigit(s[0]);
  }

  /** Splitting a + sep + b + sep + c at sep, when no part holds sep. */
  lemma SplitThree(a: string, b: string, c: string, sep: char)
    requires sep !in a && sep !in b && sep !in c
    ensures Split(a + [sep] + (b + [sep] + c), sep) == [a, b, c]
  {
    var bc := b + [sep] + c;
    SplitTwo(b, c, sep);
    SplitAtFirst(a, sep, bc);
    assert [a] + [b, c] == [a, b, c];
  }

  lemma SplitTwo(a: string, b: string, sep: char)
    requires sep !in a && sep !in b
    ensures Split(a + [sep] + b, sep) == [a, b]
  {
    SplitWithoutSeparator(b, sep);
    SplitAtFirst(a, sep, b);
  }

  /** A text that splits into the right fields, each an integer literal, reads as the weighted
      sum of the integers. */
  lemma ParseOfFields(tc: string, fields: seq<string>, secondFields: seq<string>,
                      h: int, m: int, s: int, ms: int)
    requires Split(tc, ':') == fields && |fields| == 3
    requires Split(fields[2], ',') == secondFields && |secondFields| == 2
    requires ParseInt(fields[0]) == Some(h) && ParseInt(fields[1]) == Some(m)
    requires ParseInt(secondFields[0]) == Some(s) && ParseInt(secondFields[1]) == Some(ms)
    ensures TimecodeToMillis(tc) == Ok(h * 3600000 + m * 60000 + s * 1000 + ms)
  {
  }

  /** The fields of a text whose separators sit where a formatter puts them. */
  lemma SplitLayout(tc: string, k: nat)
    requires |tc| == k + 10
    requires tc[k] == ':' && tc[k + 3] == ':' && tc[k + 6] == ','
    requires AllDigits(tc[..k]) && AllDigits(tc[k + 1..k + 3]) && AllDigits(tc[k + 4..k + 6])
    requires AllDigits(tc[k + 7..])
    ensures Split(tc, ':') == [tc[..k], tc[k + 1..k + 3], tc[k + 4..]]
    ensures Split(tc[k + 4..], ',') == [tc[k + 4..k + 6], tc[k + 7..]]
  {
    var colon, comma := ':', ',';
    var a, b, c, d := tc[..k], tc[k + 1..k + 3], tc[k + 4..k + 6], tc[k + 7..];
    DigitsExclude(a, colon);
    DigitsExclude(b, colon);
    DigitsExclude(c, colon);
    DigitsExclude(d, colon);
    DigitsExclude(c, comma);
    DigitsExclude(d, comma);
    var secondsPart := tc[k + 4..];
    assert secondsPart == c + [comma] + d;
    assert colon !in secondsPart;
    assert tc == a + [colon] + (b + [colon] + secondsPart);
    SplitThree(a, b, secondsPart, colon);
    SplitTwo(c, d, comma);
  }

  /** A text in the HH:MM:SS,mmm layout, with at least one hour digit, reads as the weighted
      sum of its fields. */
  lemma ParseLayout(tc: string, k: nat)
    requires k >= 1 && |tc| == k + 10
    requires tc[k] == ':' && tc[k + 3] == ':' && tc[k + 6] == ','
    requires AllDigits(tc[..k]) && AllDigits(tc[k + 1..k + 3]) && AllDigits(tc[k + 4..k + 6])
    requires AllDigits(tc[k + 7..])
    ensures TimecodeToMillis(tc)
            == Ok(DigitsValue(tc[..k]) * 3600000 + DigitsValue(tc[k + 1..k + 3]) * 60000
                  + DigitsValue(tc[k + 4..k + 6]) * 1000 + DigitsValue(tc[k + 7..]))
  {
    SplitLayout(tc, k);
    var h, m, s, ms := tc[..k], tc[k + 1..k + 3], tc[k + 4..k + 6], tc[k + 7..];
    ParseDigits(h);
    ParseDigits(m);
    ParseDigits(s);
    ParseDigits(ms);
    ParseOfFields(tc, [h, m, tc[k + 4..]], [s, ms],
                  DigitsValue(h), DigitsValue(m), DigitsValue(s), DigitsValue(ms));
  }

  /** The same, for a layout whose fields are known to add up to `total` milliseconds. */
  lemma ParseSum(tc: string, k: nat, total: nat)
    requires k >= 1 && |tc| == k + 10
    requires tc[k] == ':' && tc[k + 3] == ':' && tc[k + 6] == ','
    requires AllDigits(tc[..k]) && AllDigits(tc[k + 1..k + 3]) && AllDigits(tc[k + 4..k + 6])
    requires AllDigits(tc[k + 7..])
    requires DigitsValue(tc[..k]) * 3600000 + DigitsValue(tc[k + 1..k + 3]) * 60000
             + DigitsValue(tc[k + 4..k + 6]) * 1000 + DigitsValue(tc[k + 7..]) == total
    ensures TimecodeToMillis(tc) == Ok(total)
  {
    ParseLayout(tc, k);
  }

  /** A WebVTT-style timecode, with a dot before the milliseconds, is refused. */
  lemma DotSeparatorRefused(h: string, m: string, s: string, ms: string)
    requires AllDigits(h) && AllDigits(m) && AllDigits(s) && AllDigits(ms)
    ensures TimecodeToMillis(h + ":" + m + ":" + s + "." + ms) == Err(NotTwoSecondFields)
  {
    var colon, comma, dot := ':', ',', '.';
    var secondsPart := s + [dot] + ms;
    DigitsExclude(h, colon);
    DigitsExclude(m, colon);
    DigitsExclude(s, colon);
    DigitsExclude(ms, colon);
    DigitsExclude(s, comma);
    DigitsExclude(ms, comma);
    assert colon !in secondsPart && comma !in secondsPart;
    SplitThree(h, m, secondsPart, colon);
    assert h + ":" + m + ":" + s + "." + ms == h + [colon] + (m + [colon] + secondsPart);
    SplitWithoutSeparator(secondsPart, comma);
  }

  /** Reading back what the video analyser's formatter wrote gives the time of day, truncated
      to milliseconds. */
  lemma VideoTimecodeRoundTrip(micros: nat)
    ensures TimecodeToMillis(VideoAnalysis.FormatTimecode(micros)) == Ok((micros / 1000) % 86400000)
  {
    VideoAnalysis.FormatTimecodeReadBack(micros);
    ParseLayout(VideoAnalysis.FormatTimecode(micros), 2);
  }

  /** Below one day, whole milliseconds come back exactly. */
  lemma VideoMillisRoundTrip(ms: nat)
    requires ms < 86400000
    ensures TimecodeToMillis(VideoAnalysis.FormatTimecode(ms * 1000)) == Ok(ms)
  {
    VideoTimecodeRoundTrip(ms * 1000);
    DivModOf(ms * 1000, 1000, ms, 0);
    DivModOf(ms, 86400000, 0, ms);
  }

  /** Reading back what the YouTube transcript formatter wrote gives the time truncated to
      milliseconds, however many hours it spans. */
  lemma SubtitleTimecodeRoundTrip(micros: nat)
    ensures TimecodeToMillis(SubtitleAnalysis.FormatTimecode(micros)) == Ok(micros / 1000)
  {
    var tc := SubtitleAnalysis.FormatTimecode(micros);
    SubtitleAnalysis.FormatTimecodeReadBack(micros);
    ParseSum(tc, |tc| - 10, micros / 1000);
  }

  lemma SubtitleMillisRoundTrip(ms: nat)
    ensures TimecodeToMillis(SubtitleAnalysis.FormatTimecode(ms * 1000)) == Ok(ms)
  {
    SubtitleTimecodeRoundTrip(ms * 1000);
    DivModOf(ms * 1000, 1000, ms, 0);
  }

  /** Below one day both formatters print the same four numbers. */
  lemma SameFieldsWithinDay(micros: nat)
    requires micros < 86400000000
    ensures var daySeconds := (micros / 1000000) % 86400;
      var remainder := micros % 3600000000;
      var secondsPart := remainder % 60000000;
      && daySeconds / 3600 == micros / 3600000000
      && (daySeconds % 3600) / 60 == remainder / 60000000
      && daySeconds % 60 == secondsPart / 1000000
      && (micros % 1000000) / 1000 == (secondsPart % 1000000) / 1000
  {
    var secs, sub := micros / 1000000, micros % 1000000;
    var h, rest := secs / 3600, secs % 3600;
    var m, s := rest / 60, rest % 60;
    assert secs == (h * 60 + m) * 60 + s;
    DivModOf(secs, 86400, 0, secs);
    SecondsFields(secs, h, m, s);
    MicrosFields(micros, h, m, s, sub);
  }

  /** The hours, minutes and seconds of a number of seconds. */
  lemma SecondsFields(secs: nat, h: nat, m: nat, s: nat)
    requires m < 60 && s < 60 && secs == (h * 60 + m) * 60 + s
    ensures secs / 3600 == h && (secs % 3600) / 60 == m && secs % 60 == s
  {
    DivModOf(secs, 3600, h, m * 60 + s);
    DivModOf(m * 60 + s, 60, m, s);
    DivModOf(secs, 60, h * 60 + m, s);
  }

  /** The fields as the transcript formatter takes them out of the microseconds. */
  lemma MicrosFields(micros: nat, h: nat, m: nat, s: nat, sub: nat)
    requires m < 60 && s < 60 && sub < 1000000
    requires micros == ((h * 60 + m) * 60 + s) * 1000000 + sub
    ensures micros / 3600000000 == h
    ensures (micros % 3600000000) / 60000000 == m
    ensures ((micros % 3600000000) % 60000000) / 1000000 == s
    ensures micros % 1000000 == ((micros % 3600000000) % 60000000) % 1000000
  {
    var r1, r2 := (m * 60 + s) * 1000000 + sub, s * 1000000 + sub;
    DivModOf(micros, 3600000000, h, r1);
    DivModOf(r1, 60000000, m, r2);
    DivModOf(r2, 1000000, s, sub);
    DivModOf(micros, 1000000, (h * 60 + m) * 60 + s, sub);
  }

  /** The two formatters print the same text for every time below one day. */
  lemma FormattersAgreeWithinDay(micros: nat)
    requires micros < VideoAnalysis.SECONDS_PER_DAY * VideoAnalysis.MICROS_PER_SECOND
    ensures VideoAnalysis.FormatTimecode(micros) == SubtitleAnalysis.FormatTimecode(micros)
  {
    SameFieldsWithinDay(micros);
  }

  /** At one day they part: the video analyser wraps to midnight, the transcript formatter
      goes on to hour 24. */
  lemma FormattersDifferAtOneDay(micros: nat)
    requires micros == VideoAnalysis.SECONDS_PER_DAY * VideoAnalysis.MICROS_PER_SECOND
    ensures TimecodeToMillis(VideoAnalysis.FormatTimecode(micros)) == Ok(0)
    ensures TimecodeToMillis(SubtitleAnalysis.FormatTimecode(micros)) == Ok(86400000)
    ensures VideoAnalysis.FormatTimecode(micros) != SubtitleAnalysis.FormatTimecode(micros)
  {
    var ms := micros / 1000;
    DivModOf(micros, 1000, 86400000, 0);
    DivModOf(ms, 86400000, 1, 0);
    VideoTimecodeRoundTrip(micros);
    SubtitleTimecodeRoundTrip(micros);
  }

  // ---------------------------------------------------------------- video_subtitles_concat

  /** The condition under which a subtitle joins a video fragment: its start or its end lies
      in the fragment, or the fragment's start lies in the subtitle. */
  predicate Touches(videoStart: int, videoEnd: int, subStart: int, subEnd: int)
  {
    (videoStart <= subStart <= videoEnd) || (videoStart <= subEnd <= videoEnd)
    || (subStart <= videoStart <= subEnd)
  }

  /** For spans that do not end before they start, the condition is exactly that the closed
      intervals intersect, so spans that only share an endpoint are joined. */
  lemma TouchesIffIntersect(videoStart: int, videoEnd: int, subStart: int, subEnd: int)
    requires videoStart <= videoEnd && subStart <= subEnd
    ensures Touches(videoStart, videoEnd, subStart, subEnd)
            <==> Max(videoStart, subStart) <= Min(videoEnd, subEnd)
  {
  }

  /** One record of the joined analysis. */
  datatype Combined = Combined(videoAnalysis: VideoAnalysis.AnalysisResult, subtitles: seq<Subtitle>)

  /** The subtitles that touch the span [videoStart, videoEnd], in their order. */
  function Matching(videoStart: int, videoEnd: int, subs: seq<Subtitle>): (r: seq<Subtitle>)
    ensures |r| <= |subs|
  {
    if |subs| == 0 then []
    else
      var last := subs[|subs| - 1];
      Matching(videoStart, videoEnd, subs[..|subs| - 1])
      + (if Touches(videoStart, videoEnd, last.startTime, last.endTime) then [last] else [])
  }

  /** A subtitle is matched exactly when it is one of the subtitles and it touches the span. */
  lemma {:induction false} MatchingMembers(videoStart: int, videoEnd: int, subs: seq<Subtitle>,
                                           x: Subtitle)
    ensures x in Matching(videoStart, videoEnd, subs)
            <==> x in subs && Touches(videoStart, videoEnd, x.startTime, x.endTime)
  {
    if |subs| > 0 {
      MatchingMembers(videoStart, videoEnd, subs[..|subs| - 1], x);
      assert subs == subs[..|subs| - 1] + [subs[|subs| - 1]];
    }
  }

  /** When every subtitle touches the span, all of them are kept, in order. */
  lemma {:induction false} MatchingAll(videoStart: int, videoEnd: int, subs: seq<Subtitle>)
    requires forall i :: 0 <= i < |subs| ==> Touches(videoStart, videoEnd, subs[i].startTime, subs[i].endTime)
    ensures Matching(videoStart, videoEnd, subs) == subs
  {
    if |subs| > 0 {
      MatchingAll(videoStart, videoEnd, subs[..|subs| - 1]);
      assert subs == subs[..|subs| - 1] + [subs[|subs| - 1]];
    }
  }

  /** The joined analysis: one record per video fragment, in order, holding the fragment
      unchanged and its matching subtitles; the first timecode that does not parse aborts. */
  function Combine(video: seq<VideoAnalysis.AnalysisResult>, subs: seq<Subtitle>)
    : (r: Result<seq<Combined>, ParseError>)
    ensures r.Ok? ==> |r.value| == |video|
  {
    if |video| == 0 then Ok([])
    else
      var before := Combine(video[..|video| - 1], subs);
      var va := video[|video| - 1];
      if before.Err? then before
      else
        var start := TimecodeToMillis(va.startTimecode);
        if start.Err? then Err(start.error)
        else
          var end := TimecodeToMillis(va.endTimecode);
          if end.Err? then Err(end.error)
          else Ok(before.value + [Combined(va, Matching(start.value, end.value, subs))])
  }

  /** Both timecodes of a fragment parse. */
  predicate Readable(va: VideoAnalysis.AnalysisResult)
  {
    TimecodeToMillis(va.startTimecode).Ok? && TimecodeToMillis(va.endTimecode).Ok?
  }

  /** The join succeeds exactly when every fragment's timecodes parse. */
  lemma {:induction false} CombineOk(video: seq<VideoAnalysis.AnalysisResult>, subs: seq<Subtitle>)
    ensures Combine(video, subs).Ok? <==> forall i :: 0 <= i < |video| ==> Readable(video[i])
  {
    if |video| > 0 {
      var init, va := video[..|video| - 1], video[|video| - 1];
      CombineOk(init, subs);
      CombineSnoc(init, va, subs);
      assert video == init + [va];
      AllReadableSnoc(init, va);
    }
  }

  /** One more fragment: the join still succeeds exactly when the new fragment is readable. */
  lemma CombineSnoc(init: seq<VideoAnalysis.AnalysisResult>, va: VideoAnalysis.AnalysisResult,
                    subs: seq<Subtitle>)
    ensures Combine(init + [va], subs).Ok? <==> Combine(init, subs).Ok? && Readable(va)
  {
    assert (init + [va])[..|init|] == init;
  }

  lemma AllReadableSnoc(init: seq<VideoAnalysis.AnalysisResult>, va: VideoAnalysis.AnalysisResult)
    ensures (forall i :: 0 <= i < |init + [va]| ==> Readable((init + [va])[i]))
            <==> (forall i :: 0 <= i < |init| ==> Readable(init[i])) && Readable(va)
  {
    var video := init + [va];
    assert video[|init|] == va;
    assert forall i :: 0 <= i < |init| ==> video[i] == init[i];
  }

  /** Record i of a successful join holds fragment i unchanged, with exactly the subtitles that
      touch its span. */
  lemma {:induction false} CombineAt(video: seq<VideoAnalysis.AnalysisResult>, subs: seq<Subtitle>, i: nat)
    requires Combine(video, subs).Ok? && i < |video|
    ensures TimecodeToMillis(video[i].startTimecode).Ok? && TimecodeToMillis(video[i].endTimecode).Ok?
    ensures Combine(video, subs).value[i]
            == Combined(video[i], Matching(TimecodeToMillis(video[i].startTimecode).value,
                                           TimecodeToMillis(video[i].endTimecode).value, subs))
  {
    var init := video[..|video| - 1];
    if i < |video| - 1 {
      CombineAt(init, subs, i);
      assert init[i] == video[i];
    }
  }

  /** The nested loops of video_subtitles_concat over in-memory fragments and subtitles. */
  method VideoSubtitlesConcat(video: seq<VideoAnalysis.AnalysisResult>, subs: seq<Subtitle>)
    returns (r: Result<seq<Combined>, ParseError>)
    ensures r == Combine(video, subs)
  {
    var combined: seq<Combined> := [];
    for i := 0 to |video|
      invariant Combine(video[..i], subs) == Ok(combined)
    {
      var va := video[i];
      assert video[..i + 1][..i] == video[..i] && video[..i + 1][i] == va;
      var vaStart := TimecodeToMillis(va.startTimecode);
      if vaStart.Err? {
        CombineErrStays(video, subs, i + 1);
        return Err(vaStart.error);
      }
      var vaEnd := TimecodeToMillis(va.endTimecode);
      if vaEnd.Err? {
        CombineErrStays(video, subs, i + 1);
        return Err(vaEnd.error);
      }
      var matching: seq<Subtitle> := [];
      for j := 0 to |subs|
        invariant matching == Matching(vaStart.value, vaEnd.value, subs[..j])
      {
        var st := subs[j];
        assert subs[..j + 1][..j] == subs[..j];
        if Touches(vaStart.value, vaEnd.value, st.startTime, st.endTime) {
          matching := matching + [st];
        }
      }
      assert subs[..|subs|] == subs;
      combined := combined + [Combined(va, matching)];
    }
    assert video[..|video|] == video;
    return Ok(combined);
  }

  /** Once a prefix of the fragments fails, the whole join fails with the same error. */
  lemma {:induction false} CombineErrStays(video: seq<VideoAnalysis.AnalysisResult>, subs: seq<Subtitle>, k: nat)
    requires k <= |video| && Combine(video[..k], subs).Err?
    ensures Combine(video, subs) == Combine(video[..k], subs)
    decreases |video| - k
  {
    if k < |video| {
      assert video[..k + 1][..k] == video[..k];
      CombineErrStays(video, subs, k + 1);
    } else {
      assert video[..k] == video;
    }
  }

  /** The fragments of a video analysis run always pass the join: every window's timecodes
      were written by the formatter the join reads back. */
  lemma RunFragmentsJoin(interval: nat, fps: nat, readable: nat,
                         analyze: (string, seq<string>) -> (string, nat), n: nat, subs: seq<Subtitle>)
    requires fps > 0
    ensures Combine(VideoAnalysis.Windows(VideoAnalysis.Schedule(interval, fps, readable, analyze), n).0, subs).Ok?
  {
    var rs := VideoAnalysis.Windows(VideoAnalysis.Schedule(interval, fps, readable, analyze), n).0;
    forall w | 0 <= w < |rs| ensures Readable(rs[w]) {
      var start := VideoAnalysis.Offset(w, interval);
      VideoAnalysis.WindowsShape(interval, fps, readable, analyze, n, w);
      VideoAnalysis.WindowAtFields(interval, fps, readable, analyze, start, rs[..w]);
      VideoTimecodeRoundTrip(VideoAnalysis.FrameMicros(start, fps));
      VideoTimecodeRoundTrip(VideoAnalysis.FrameMicros(start + interval, fps));
    }
    CombineOk(rs, subs);
  }

  // ---------------------------------------------------------------- format_analysis_text

  const SEPARATOR: string := "========================================"
  const NO_SUBTITLES: string := "No subtitles for this fragment."

  /** "{start} --> {end}: {text}" of one subtitle; its times are float seconds. */
  function SubtitleLine(sub: Subtitle): string
  {
    SecondsText(sub.startTime) + " --> " + SecondsText(sub.endTime) + ": " + sub.text
  }

  function SubtitleLines(subs: seq<Subtitle>): (lines: seq<string>)
    ensures |lines| == |subs|
  {
    if |subs| == 0 then [] else SubtitleLines(subs[..|subs| - 1]) + [SubtitleLine(subs[|subs| - 1])]
  }

  /** Line i is the line of subtitle i. */
  lemma {:induction false} SubtitleLinesAt(subs: seq<Subtitle>, i: nat)
    requires i < |subs|
    ensures SubtitleLines(subs)[i] == SubtitleLine(subs[i])
  {
    if i < |subs| - 1 {
      SubtitleLinesAt(subs[..|subs| - 1], i);
    }
  }

  /** The subtitles part of a fragment: the placeholder, or one line per subtitle. */
  function SubtitlesText(subs: seq<Subtitle>): string
  {
    if |subs| == 0 then NO_SUBTITLES else Join("\n", SubtitleLines(subs))
  }

  /** A fragment without subtitles shows the placeholder; otherwise its subtitles part splits
      into exactly one line per subtitle, in order, when no subtitle text holds a line break. */
  lemma SubtitlesTextLines(subs: seq<Subtitle>)
    requires forall i :: 0 <= i < |subs| ==> '\n' !in subs[i].text
    ensures |subs| == 0 ==> SubtitlesText(subs) == NO_SUBTITLES
    ensures |subs| > 0 ==> Split(SubtitlesText(subs), '\n') == SubtitleLines(subs)
  {
    if |subs| > 0 {
      LinesSplitBack(subs);
    }
  }

  /** The lines joined by line breaks split back into the lines. */
  lemma LinesSplitBack(subs: seq<Subtitle>)
    requires |subs| > 0
    requires forall i :: 0 <= i < |subs| ==> '\n' !in subs[i].text
    ensures Split(Join("\n", SubtitleLines(subs)), '\n') == SubtitleLines(subs)
  {
    var lines := SubtitleLines(subs);
    forall i | 0 <= i < |lines| ensures '\n' !in lines[i] {
      SubtitleLinesAt(subs, i);
      SubtitleLineNoBreak(subs[i]);
    }
    SplitJoin(lines, '\n');
  }

  lemma SubtitleLineNoBreak(sub: Subtitle)
    requires '\n' !in sub.text
    ensures '\n' !in SubtitleLine(sub)
  {
    SecondsTextNoBreak(sub.startTime);
    SecondsTextNoBreak(sub.endTime);
    NoBreakJoin(SecondsText(sub.startTime), SecondsText(sub.endTime), sub.text);
  }

  lemma NoBreakJoin(a: string, b: string, text: string)
    requires '\n' !in a && '\n' !in b && '\n' !in text
    ensures '\n' !in a + " --> " + b + ": " + text
  {
    assert '\n' !in " --> " && '\n' !in ": ";
  }

  lemma SecondsTextNoBreak(ms: nat)
    ensures '\n' !in SecondsText(ms)
  {
    var whole := NatToString(ms / 1000);
    var frac := ms % 1000;
    DigitsValueOfNat(ms / 1000);
    DigitsExclude(whole, '\n');
    if frac != 0 {
      var padded := ZeroPad(frac, 3);
      ZeroPadValue(frac, 3);
      DigitsExclude(padded, '\n');
      var tail := DropTrailingZeros(padded);
      assert tail == padded[..|tail|];
    }
  }

  /** The template one fragment fills, wrapped in its leading and trailing newline: a header
      with the fragment's number and the separator line, then the video and subtitles parts. */
  function FragmentText(index: int, item: Combined): string
  {
    FragmentHeader(index) + FragmentBody(item)
  }

  function FragmentHeader(index: int): string
  {
    "\nFragment " + IntToString(index) + ":\n" + SEPARATOR + "\n"
  }

  function FragmentBody(item: Combined): string
  {
    var video := item.videoAnalysis;
    "Video: " + video.startTimecode + " --> " + video.endTimecode + "\n"
    + "---\n" + video.analysis + "\n"
    + "---\n" + "Subtitles:\n" + SubtitlesText(item.subtitles) + "\n"
  }

  /** A fragment opens with "Fragment ", its number and a colon, so the number reads back as
      the index; the separator line follows. */
  lemma FragmentTextLayout(index: int, item: Combined)
    ensures var num := IntToString(index); var t := FragmentText(index, item);
      && |t| > 12 + |num| + |SEPARATOR|
      && t[..10] == "\nFragment " && ParseInt(t[10..10 + |num|]) == Some(index)
      && t[10 + |num|..12 + |num|] == ":\n" && t[12 + |num|..12 + |num| + |SEPARATOR|] == SEPARATOR
  {
    var num := IntToString(index);
    var header := FragmentHeader(index);
    HeaderPieces("\nFragment ", num, ":\n", SEPARATOR, "\n");
    PrefixSlices(header, FragmentBody(item), 10, 10 + |num|, 12 + |num|, 12 + |num| + |SEPARATOR|);
  }

  /** Where the pieces of a + b + c + d + e sit. */
  lemma HeaderPieces(a: string, b: string, c: string, d: string, e: string)
    ensures var t := a + b + c + d + e;
      && |t| == |a| + |b| + |c| + |d| + |e|
      && t[..|a|] == a && t[|a|..|a| + |b|] == b && t[|a| + |b|..|a| + |b| + |c|] == c
      && t[|a| + |b| + |c|..|a| + |b| + |c| + |d|] == d
  {
  }

  /** Slices within a prefix are slices of the whole. */
  lemma PrefixSlices(h: string, rest: string, i: nat, j: nat, k: nat, l: nat)
    requires i <= j <= k <= l < |h|
    ensures var t := h + rest;
      && |t| > l && t[..i] == h[..i] && t[i..j] == h[i..j] && t[j..k] == h[j..k] && t[k..l] == h[k..l]
  {
  }

  /** The fragments of items numbered from `first`. */
  function Fragments(items: seq<Combined>, first: int): (fs: seq<string>)
    ensures |fs| == |items|
  {
    if |items| == 0 then []
    else Fragments(items[..|items| - 1], first) + [FragmentText(first + |items| - 1, items[|items| - 1])]
  }

  /** Fragment i is item i numbered first + i: numbers run consecutively. */
  lemma {:induction false} FragmentsNumbered(items: seq<Combined>, first: int, i: nat)
    requires i < |items|
    ensures Fragments(items, first)[i] == FragmentText(first + i, items[i])
  {
    if i < |items| - 1 {
      FragmentsNumbered(items[..|items| - 1], first, i);
    }
  }

  /** The items format_analysis_text renders: concat_analysis[start - 1 : start + n]. */
  function RenderedItems(concat: seq<Combined>, startFragment: int, nFragments: int): seq<Combined>
  {
    Slice(concat, startFragment - 1, startFragment + nFragments)
  }

  /** From a start of 1 or more, the rendered items are the run from item start - 1 up to item
      start + n - 1 (0-based, inclusive), cut at the end of the list: up to n + 1 items. */
  lemma RenderedItemsWindow(concat: seq<Combined>, startFragment: int, nFragments: int)
    requires startFragment >= 1 && nFragments >= 0
    ensures var items := RenderedItems(concat, startFragment, nFragments);
      && |items| <= nFragments + 1
      && (startFragment - 1 <= |concat| ==>
            items == concat[startFragment - 1..Min(startFragment + nFragments, |concat|)])
      && (startFragment - 1 >= |concat| ==> items == [])
  {
  }

  /** With the defaults and a long enough list, 21 fragments are rendered, numbered 1 to 21. */
  lemma DefaultRendersTwentyOne(concat: seq<Combined>)
    requires |concat| >= 21
    ensures |RenderedItems(concat, 1, 20)| == 21
    ensures Fragments(RenderedItems(concat, 1, 20), 1)[20] == FragmentText(21, concat[20])
  {
    var items := RenderedItems(concat, 1, 20);
    assert items == concat[0..21];
    FragmentsNumbered(items, 1, 20);
  }

  /** format_analysis_text: the rendered fragments joined by blank lines. */
  method FormatAnalysisText(concat: seq<Combined>, startFragment: int, nFragments: int)
    returns (text: string)
    ensures text == Join("\n\n", Fragments(RenderedItems(concat, startFragment, nFragments), startFragment))
  {
    var items := Slice(concat, startFragment - 1, startFragment + nFragments);
    var analysisFragments: seq<string> := [];
    for i := 0 to |items|
      invariant analysisFragments == Fragments(items[..i], startFragment)
    {
      var index := startFragment + i;
      var item := items[i];
      var subtitlesText: string;
      if |item.subtitles| > 0 {
        subtitlesText := Join("\n", SubtitleLines(item.subtitles));
      } else {
        subtitlesText := NO_SUBTITLES;
      }
      var video := item.videoAnalysis;
      var header := "\nFragment " + IntToString(index) + ":\n" + SEPARATOR + "\n";
      var body := "Video: " + video.startTimecode + " --> " + video.endTimecode + "\n"
        + "---\n" + video.analysis + "\n"
        + "---\n" + "Subtitles:\n" + subtitlesText + "\n";
      var fragment := header + body;
      assert items[..i + 1][..i] == items[..i];
      analysisFragments := analysisFragments + [fragment];
    }
    assert items[..|items|] == items;
    return Join("\n\n", analysisFragments);
  }
}
