/** The text form of a list of subtitle records that the pipeline hands to the language
    model: one SubRip-like block per record. */
module Agents {
  import opened PyText
  import opened SubtitleAnalysis

  /** The first line of a block, up to its newline: "start --> end ", with the trailing space. */
  function Heading(e: SubtitleEntry): string
  {
    e.startTimecode + " --> " + e.endTimecode + " "
  }

  /** f"{start} --> {end} \\n{subtitle}\\n\\n". */
  function Block(e: SubtitleEntry): string
  {
    e.startTimecode + " --> " + e.endTimecode + " \n" + e.subtitle + "\n\n"
  }

  /** The blocks of the records, in order. */
  function JsonText(entries: seq<SubtitleEntry>): string
  {
    if |entries| == 0 then ""
    else JsonText(entries[..|entries| - 1]) + Block(entries[|entries| - 1])
  }

  /** The lines the text is made of: the heading, the subtitle and a blank line per record. */
  function BlockLines(entries: seq<SubtitleEntry>): (lines: seq<string>)
    ensures |lines| == 3 * |entries|
  {
    if |entries| == 0 then []
    else
      var e := entries[|entries| - 1];
      BlockLines(entries[..|entries| - 1]) + [Heading(e), e.subtitle, ""]
  }

  /** json_to_text: text grows by one block per record. */
  method JsonToText(entries: seq<SubtitleEntry>) returns (text: string)
    ensures text == JsonText(entries)
  {
    text := "";
    for i := 0 to |entries|
      invariant text == JsonText(entries[..i])
    {
      var subtitle := entries[i];
      assert entries[..i + 1][..i] == entries[..i];
      text := text + (subtitle.startTimecode + " --> " + subtitle.endTimecode + " \n"
                      + subtitle.subtitle + "\n\n");
    }
    assert entries[..|entries|] == entries;
  }

  /** A block is its heading, a newline, the subtitle and a blank line. */
  lemma BlockShape(e: SubtitleEntry)
    ensures Block(e) == Heading(e) + "\n" + e.subtitle + "\n\n"
    ensures |Block(e)| >= 2 && Block(e)[|Block(e)| - 2..] == "\n\n"
  {
  }

  /** The text of two record lists one after the other is their texts one after the other. */
  lemma {:induction false} JsonTextAppend(a: seq<SubtitleEntry>, b: seq<SubtitleEntry>)
    ensures JsonText(a + b) == JsonText(a) + JsonText(b)
    decreases |b|
  {
    if |b| == 0 {
      assert a + b == a;
    } else {
      var b' := b[..|b| - 1];
      assert (a + b)[..|a + b| - 1] == a + b';
      assert (a + b)[|a + b| - 1] == b[|b| - 1];
      JsonTextAppend(a, b');
      var x, y, z := JsonText(a), JsonText(b'), Block(b[|b| - 1]);
      assert JsonText(a + b) == (x + y) + z;
      assert (x + y) + z == x + (y + z);
    }
  }

  /** No records, no text; otherwise the text ends with a blank line. */
  lemma JsonTextEnd(entries: seq<SubtitleEntry>)
    ensures |entries| == 0 <==> JsonText(entries) == ""
    ensures var t := JsonText(entries); |entries| > 0 ==> |t| >= 2 && t[|t| - 2..] == "\n\n"
  {
    if |entries| > 0 {
      var t := JsonText(entries);
      var block := Block(entries[|entries| - 1]);
      BlockShape(entries[|entries| - 1]);
      assert t[|t| - 2..] == block[|block| - 2..];
    }
  }

  /** With no newline inside the fields, splitting a block at newlines gives its heading, its
      subtitle and two empty strings. */
  lemma BlockSplit(e: SubtitleEntry)
    requires '\n' !in e.startTimecode && '\n' !in e.endTimecode && '\n' !in e.subtitle
    ensures Split(Block(e), '\n') == [Heading(e), e.subtitle, "", ""]
  {
    var h := Heading(e);
    assert '\n' !in h;
    assert Block(e) == h + ['\n'] + (e.subtitle + ['\n'] + ("" + ['\n'] + ""));
    SplitAtFirst(h, '\n', e.subtitle + ['\n'] + ("" + ['\n'] + ""));
    SplitAtFirst(e.subtitle, '\n', "" + ['\n'] + "");
    SplitAtFirst("", '\n', "");
  }

  /** The text reads back: with no newline inside the fields, its lines are exactly the heading,
      the subtitle and a blank line of every record in order, then the empty rest after the
      final newline. So there are as many blocks as records. */
  lemma {:induction false} JsonTextLines(entries: seq<SubtitleEntry>)
    requires forall i :: 0 <= i < |entries| ==>
      '\n' !in entries[i].startTimecode && '\n' !in entries[i].endTimecode
      && '\n' !in entries[i].subtitle
    ensures Split(JsonText(entries), '\n') == BlockLines(entries) + [""]
    decreases |entries|
  {
    if |entries| > 0 {
      var front := entries[..|entries| - 1];
      var e := entries[|entries| - 1];
      BlockSplit(e);
      if |front| == 0 {
        assert JsonText(entries) == Block(e);
      } else {
        JsonTextLines(front);
        JsonTextEnd(front);
        var t := JsonText(front);
        assert t[|t| - 1] == t[|t| - 2..][1];
        SplitAfterSeparator(t, Block(e), '\n');
      }
    }
  }
}
