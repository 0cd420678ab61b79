/** The YouTube side of the caption timeline: the timecode formatter with unbounded hours,
    the video-id extraction from a URL, and the mapping of fetched transcript entries to
    subtitle records. */
module SubtitleAnalysis {
  import opened PyText
  import opened SrtTimecode

  // ---------------------------------------------------------------- timecode formatting

  /** The formatter of YoutubeTranscript, applied to a time given in microseconds: hours are
      floor(seconds / 3600), printed with at least two digits and never wrapped; minutes and
      seconds have two digits; milliseconds are the fractional part truncated to three digits. */
  function FormatTimecode(micros: nat): string
  {
    var remainder := micros % 3600000000;
    var secondsPart := remainder % 60000000;
    Render(micros / 3600000000, remainder / 60000000, secondsPart / 1000000,
           (secondsPart % 1000000) / 1000)
  }

  /** The four numbers the formatter prints are the time truncated to milliseconds, split into
      unbounded hours, minutes below 60, seconds below 60 and milliseconds below 1000. */
  lemma FormatTimecodeFields(micros: nat)
    ensures var remainder := micros % 3600000000;
      var secondsPart := remainder % 60000000;
      var h, m, s, ms := micros / 3600000000, remainder / 60000000, secondsPart / 1000000,
                         (secondsPart % 1000000) / 1000;
      && FormatTimecode(micros) == Render(h, m, s, ms)
      && m < 60 && s < 60 && ms < 1000
      && h * 3600000 + m * 60000 + s * 1000 + ms == micros / 1000
  {
  }

  /** Read back field by field, the formatted text gives the time truncated to milliseconds,
      with no upper bound on the hours. */
  lemma FormatTimecodeReadBack(micros: nat)
    ensures var tc := FormatTimecode(micros); var k := |tc| - 10;
      && k >= 2
      && tc[k] == ':' && tc[k + 3] == ':' && tc[k + 6] == ','
      && AllDigits(tc[..k]) && AllDigits(tc[k + 1..k + 3]) && AllDigits(tc[k + 4..k + 6])
      && AllDigits(tc[k + 7..])
      && DigitsValue(tc[..k]) == micros / 3600000000
      && DigitsValue(tc[k + 1..k + 3]) < 60 && DigitsValue(tc[k + 4..k + 6]) < 60
      && DigitsValue(tc[k + 7..]) < 1000
      && DigitsValue(tc[..k]) * 3600000 + DigitsValue(tc[k + 1..k + 3]) * 60000
         + DigitsValue(tc[k + 4..k + 6]) * 1000 + DigitsValue(tc[k + 7..]) == micros / 1000
  {
    FormatTimecodeFields(micros);
    var remainder := micros % 3600000000;
    var secondsPart := remainder % 60000000;
    RenderReadBack(micros / 3600000000, remainder / 60000000, secondsPart / 1000000,
                   (secondsPart % 1000000) / 1000);
  }

  // ---------------------------------------------------------------- video id extraction

  /** The length of a YouTube video id, `{11}` in the pattern. */
  const ID_LENGTH: nat := 11

  /** The characters of `[a-zA-Z0-9_-]`. */
  predicate IsIdChar(c: char)
  {
    ('a' <= c <= 'z') || ('A' <= c <= 'Z') || ('0' <= c <= '9') || c == '_' || c == '-'
  }

  predicate IsVideoId(id: string)
  {
    |id| == ID_LENGTH && forall i :: 0 <= i < |id| ==> IsIdChar(id[i])
  }

  /** The branches of the host/path alternation, in the pattern's order. */
  function Alternative(k: nat): (alt: string)
    requires k < 5
    ensures |alt| >= 9 && alt[0] == 'y'
  {
    if k == 0 then "youtube.com/watch?v="
    else if k == 1 then "youtube.com/embed/"
    else if k == 2 then "youtube.com/v/"
    else if k == 3 then "youtu.be/"
    else "youtube.com/shorts/"
  }

  /** The literal lit occurs in s at position p. */
  predicate LiteralAt(s: string, p: nat, lit: string)
  {
    p + |lit| <= |s| && s[p..p + |lit|] == lit
  }

  /** The alternation from branch k on, each branch followed by the 11-character id group,
      matched at position q; the first branch that fits gives group 1. */
  function CoreMatch(s: string, q: nat, k: nat): (r: Option<string>)
    requires k <= 5
    ensures r.Some? ==> IsVideoId(r.value) && q < |s| && s[q] == 'y'
    decreases 5 - k
  {
    if k == 5 then None
    else
      var alt := Alternative(k);
      var p := q + |alt|;
      if LiteralAt(s, q, alt) && p + ID_LENGTH <= |s|
         && forall i :: p <= i < p + ID_LENGTH ==> IsIdChar(s[i])
      then
        assert s[q] == s[q..q + |alt|][0];
        Some(s[p..p + ID_LENGTH])
      else CoreMatch(s, q, k + 1)
  }

  /** Where the alternation may start when an attempt starts at p, in the order the regex
      engine tries them: the greedy optional groups `(?:https?://)?` and `(?:www\.)?` first
      consume their text when it is there, and are skipped on backtracking. */
  function Candidates(s: string, p: nat): seq<nat>
  {
    (if LiteralAt(s, p, "https://") then AfterWww(s, p + 8) else [])
    + (if LiteralAt(s, p, "http://") then AfterWww(s, p + 7) else [])
    + AfterWww(s, p)
  }

  function AfterWww(s: string, q: nat): seq<nat>
  {
    (if LiteralAt(s, q, "www.") then [q + 4] else []) + [q]
  }

  /** The first candidate position at which the alternation and the id match. */
  function FirstHit(s: string, qs: seq<nat>): (r: Option<string>)
    ensures r.Some? ==> IsVideoId(r.value)
  {
    if |qs| == 0 then None
    else
      var r := CoreMatch(s, qs[0], 0);
      if r.Some? then r else FirstHit(s, qs[1..])
  }

  /** re.search: try every start position from p on, leftmost first. */
  function Search(s: string, p: nat): (r: Option<string>)
    ensures r.Some? ==> IsVideoId(r.value)
    decreases |s| + 1 - p
  {
    if p > |s| then None
    else
      var here := FirstHit(s, Candidates(s, p));
      if here.Some? then here else Search(s, p + 1)
  }

  /** extract_video_id: group 1 of the first match of the URL pattern, or None. The trailing
      `(?:\S+)?` of the pattern never decides whether a match exists and is not modelled. */
  function ExtractVideoId(url: string): (r: Option<string>)
    ensures r.Some? ==> IsVideoId(r.value)
  {
    Search(url, 0)
  }

  /** The reference reading of the pattern: the id after the leftmost position from q on at
      which a host/path branch and an id follow. */
  function FirstCoreMatch(s: string, q: nat): Option<string>
    decreases |s| + 1 - q
  {
    if q > |s| then None
    else
      var r := CoreMatch(s, q, 0);
      if r.Some? then r else FirstCoreMatch(s, q + 1)
  }

  /** No 'y', the first letter of every branch, occurs in s[p..q]. */
  predicate NoBranchStart(s: string, p: nat, q: nat)
  {
    p <= q <= |s| && forall r :: p <= r < q ==> s[r] != 'y'
  }

  lemma LiteralNoBranchStart(s: string, p: nat, lit: string)
    requires LiteralAt(s, p, lit) && 'y' !in lit
    ensures NoBranchStart(s, p, p + |lit|)
  {
    forall r | p <= r < p + |lit| ensures s[r] != 'y' {
      assert s[r] == s[p..p + |lit|][r - p];
    }
  }

  lemma LiteralChar(s: string, p: nat, lit: string, d: nat)
    requires d < |lit|
    ensures LiteralAt(s, p, lit) ==> s[p + d] == lit[d]
  {
    if LiteralAt(s, p, lit) {
      assert s[p + d] == s[p..p + |lit|][d];
    }
  }

  lemma AfterWwwSkips(s: string, q: nat)
    requires q <= |s|
    ensures forall c :: c in AfterWww(s, q) ==> NoBranchStart(s, q, c)
  {
    if LiteralAt(s, q, "www.") {
      LiteralNoBranchStart(s, q, "www.");
    }
  }

  /** Every candidate start skips only scheme and "www." characters. */
  lemma CandidatesSkip(s: string, p: nat)
    requires p <= |s|
    ensures forall c :: c in Candidates(s, p) ==> NoBranchStart(s, p, c)
  {
    AfterWwwSkips(s, p);
    if LiteralAt(s, p, "https://") {
      LiteralNoBranchStart(s, p, "https://");
      AfterWwwSkips(s, p + 8);
    }
    if LiteralAt(s, p, "http://") {
      LiteralNoBranchStart(s, p, "http://");
      AfterWwwSkips(s, p + 7);
    }
  }

  lemma {:induction false} FirstHitWitness(s: string, qs: seq<nat>) returns (q: nat)
    requires FirstHit(s, qs).Some?
    ensures q in qs && CoreMatch(s, q, 0) == FirstHit(s, qs)
  {
    if CoreMatch(s, qs[0], 0).Some? {
      q := qs[0];
    } else {
      q := FirstHitWitness(s, qs[1..]);
    }
  }

  /** Positions without a 'y' can be skipped by the reference reading. */
  lemma {:induction false} FirstCoreMatchSkip(s: string, p: nat, q: nat)
    requires NoBranchStart(s, p, q)
    ensures FirstCoreMatch(s, p) == FirstCoreMatch(s, q)
    decreases q - p
  {
    if p < q {
      assert s[p] != 'y';
      FirstCoreMatchSkip(s, p + 1, q);
    }
  }

  /** The backtracking search finds exactly the reference reading: whatever scheme and "www."
      prefixes the engine consumes, group 1 is the id at the leftmost branch position. */
  lemma {:induction false} SearchIsFirstCoreMatch(s: string, p: nat)
    ensures Search(s, p) == FirstCoreMatch(s, p)
    decreases |s| + 1 - p
  {
    if p <= |s| {
      if CoreMatch(s, p, 0).Some? {
        LiteralChar(s, p, "https://", 0);
        LiteralChar(s, p, "http://", 0);
        LiteralChar(s, p, "www.", 0);
        assert Candidates(s, p) == [p];
      } else {
        SearchIsFirstCoreMatch(s, p + 1);
        var here := FirstHit(s, Candidates(s, p));
        if here.Some? {
          var q := FirstHitWitness(s, Candidates(s, p));
          CandidatesSkip(s, p);
          assert q != p;
          FirstCoreMatchSkip(s, p + 1, q);
          assert FirstCoreMatch(s, q) == CoreMatch(s, q, 0);
        }
      }
    }
  }

  /** Two branches of the alternation disagree at index 5 (youtu.be against youtube.com) or 12
      (the path after "youtube.com/"), so no branch matches where another one does. */
  lemma BranchesExclusive(s: string, q: nat, j: nat, k: nat)
    requires j < 5 && k < 5 && j != k
    requires LiteralAt(s, q, Alternative(k))
    ensures !LiteralAt(s, q, Alternative(j))
  {
    var d := if j == 3 || k == 3 then 5 else 12;
    var a, b := Alternative(j), Alternative(k);
    assert d < |a| && d < |b| && a[d] != b[d];
    LiteralChar(s, q, a, d);
    LiteralChar(s, q, b, d);
  }

  /** Every URL form the pattern lists is recognised, with or without scheme and "www.",
      whatever follows the id. */
  lemma RecognisedUrl(scheme: string, www: string, k: nat, id: string, rest: string)
    requires scheme == "" || scheme == "http://" || scheme == "https://"
    requires www == "" || www == "www."
    requires k < 5 && IsVideoId(id)
    ensures ExtractVideoId(scheme + www + Alternative(k) + id + rest) == Some(id)
  {
    var prefix := scheme + www;
    var tail := Alternative(k) + id + rest;
    assert scheme + www + Alternative(k) + id + rest == prefix + tail;
    assert 'y' !in prefix;
    RecognisedAfterPrefix(prefix, k, id, rest);
  }

  lemma RecognisedAfterPrefix(prefix: string, k: nat, id: string, rest: string)
    requires 'y' !in prefix
    requires k < 5 && IsVideoId(id)
    ensures ExtractVideoId(prefix + (Alternative(k) + id + rest)) == Some(id)
  {
    var url := prefix + (Alternative(k) + id + rest);
    SearchIsFirstCoreMatch(url, 0);
    BranchAfterPrefix(prefix, k, id, rest);
  }

  /** The reference reading skips the prefix and stops at the branch after it. */
  lemma BranchAfterPrefix(prefix: string, k: nat, id: string, rest: string)
    requires 'y' !in prefix
    requires k < 5 && IsVideoId(id)
    ensures FirstCoreMatch(prefix + (Alternative(k) + id + rest), 0) == Some(id)
  {
    var tail := Alternative(k) + id + rest;
    UrlPieces(prefix, Alternative(k), id, rest);
    BranchAt(prefix + tail, |prefix|, k, id);
    PrefixSkipped(prefix, tail);
    FirstCoreMatchSkip(prefix + tail, 0, |prefix|);
  }

  lemma PrefixSkipped(prefix: string, tail: string)
    requires 'y' !in prefix
    ensures NoBranchStart(prefix + tail, 0, |prefix|)
  {
    var url := prefix + tail;
    forall r | 0 <= r < |prefix| ensures url[r] != 'y' {
      assert url[r] == prefix[r];
    }
  }

  lemma UrlPieces(prefix: string, alt: string, id: string, rest: string)
    ensures var url, q := prefix + (alt + id + rest), |prefix|;
      && q + |alt| + |id| <= |url|
      && url[q..q + |alt|] == alt && url[q + |alt|..q + |alt| + |id|] == id
  {
  }

  lemma BranchAt(url: string, q: nat, k: nat, id: string)
    requires k < 5 && IsVideoId(id)
    requires q + |Alternative(k)| + ID_LENGTH <= |url|
    requires url[q..q + |Alternative(k)|] == Alternative(k)
    requires url[q + |Alternative(k)|..q + |Alternative(k)| + ID_LENGTH] == id
    ensures FirstCoreMatch(url, q) == Some(id)
  {
    forall j: nat | j < k ensures !LiteralAt(url, q, Alternative(j)) {
      BranchesExclusive(url, q, j, k);
    }
    CoreMatchFrom(url, q, 0, k);
  }

  lemma {:induction false} CoreMatchFrom(s: string, q: nat, j: nat, k: nat)
    requires j <= k < 5
    requires forall i :: j <= i < k ==> !LiteralAt(s, q, Alternative(i))
    requires LiteralAt(s, q, Alternative(k))
    requires var p := q + |Alternative(k)|; p + ID_LENGTH <= |s| && IsVideoId(s[p..p + ID_LENGTH])
    ensures CoreMatch(s, q, j) == Some(s[q + |Alternative(k)|..q + |Alternative(k)| + ID_LENGTH])
    decreases k - j
  {
    var p := q + |Alternative(k)|;
    if j == k {
      forall i | p <= i < p + ID_LENGTH ensures IsIdChar(s[i]) {
        assert s[i] == s[p..p + ID_LENGTH][i - p];
      }
    } else {
      CoreMatchFrom(s, q, j + 1, k);
    }
  }

  /** The URL the pipeline's driver script analyses gives its 11-character id. The URL is the
      literal of main.py:9, written as the concatenation of its scheme, `www.`, host/path branch
      and id so that the proof reuses RecognisedUrl instead of comparing literal slices. */
  lemma DriverUrl(url: string)
    requires url == "https://" + "www." + "youtube.com/watch?v=" + "BQ4XkEi5Z5o"
    ensures ExtractVideoId(url) == Some("BQ4XkEi5Z5o")
  {
    var id := "BQ4XkEi5Z5o";
    assert IsVideoId(id) by {
      forall i | 0 <= i < |id| ensures IsIdChar(id[i]) {
        assert id[i] in id;
      }
    }
    RecognisedUrl("https://", "www.", 0, id, "");
    assert url == "https://" + "www." + Alternative(0) + id + "";
  }

  // ---------------------------------------------------------------- transcript entries

  /** One entry of the fetched transcript; start and duration in microseconds. */
  datatype TranscriptItem = TranscriptItem(start: nat, duration: nat, text: string)

  /** One subtitle record as get_transcript writes it. */
  datatype SubtitleEntry = SubtitleEntry(startTimecode: string, endTimecode: string, subtitle: string)

  /** The entry-mapping loop of get_transcript: one record per transcript entry, in order, with
      the end timecode formatted from start + duration. */
  method GetTranscript(transcript: seq<TranscriptItem>) returns (jsonContent: seq<SubtitleEntry>)
    ensures |jsonContent| == |transcript|
    ensures forall i :: 0 <= i < |transcript| ==>
      && jsonContent[i].startTimecode == FormatTimecode(transcript[i].start)
      && jsonContent[i].endTimecode == FormatTimecode(transcript[i].start + transcript[i].duration)
      && jsonContent[i].subtitle == transcript[i].text
  {
    jsonContent := [];
    for i := 0 to |transcript|
      invariant |jsonContent| == i
      invariant forall j :: 0 <= j < i ==>
        && jsonContent[j].startTimecode == FormatTimecode(transcript[j].start)
        && jsonContent[j].endTimecode == FormatTimecode(transcript[j].start + transcript[j].duration)
        && jsonContent[j].subtitle == transcript[j].text
    {
      var entry := transcript[i];
      var startTimecode := FormatTimecode(entry.start);
      var endTimecode := FormatTimecode(entry.start + entry.duration);
      jsonContent := jsonContent + [SubtitleEntry(startTimecode, endTimecode, entry.text)];
    }
  }
}
