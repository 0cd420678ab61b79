/** The SubRip timecode layout HH:MM:SS,mmm that both timecode formatters of the pipeline print. */
module SrtTimecode {
  import opened PyText

  /** One replacement field of an f-string: the literal text before it, and a number printed
      with the format spec `0{width}`. */
  datatype Field = Field(prefix: string, value: nat, width: nat)

  /** The text of an f-string made of zero-padded number fields. */
  function FormatFields(fields: seq<Field>): string
  {
    if |fields| == 0 then ""
    else
      var last := fields[|fields| - 1];
      FormatFields(fields[..|fields| - 1]) + last.prefix + ZeroPad(last.value, last.width)
  }

  /** f"{h:02}:{m:02}:{s:02},{ms:03}". */
  function Render(h: nat, m: nat, s: nat, ms: nat): string
  {
    FormatFields([Field("", h, 2), Field(":", m, 2), Field(":", s, 2), Field(",", ms, 3)])
  }

  /** One more field appends its prefix and its padded number. */
  lemma FormatFieldsSnoc(fields: seq<Field>, f: Field)
    ensures FormatFields(fields + [f]) == FormatFields(fields) + f.prefix + ZeroPad(f.value, f.width)
  {
    assert (fields + [f])[..|fields|] == fields;
  }

  /** Hours padded to at least two digits, minutes and seconds to two, milliseconds to three. */
  lemma RenderPieces(h: nat, m: nat, s: nat, ms: nat)
    ensures Render(h, m, s, ms)
            == ZeroPad(h, 2) + ":" + ZeroPad(m, 2) + ":" + ZeroPad(s, 2) + "," + ZeroPad(ms, 3)
  {
    FormatFourFields(Field("", h, 2), Field(":", m, 2), Field(":", s, 2), Field(",", ms, 3));
    assert "" + ZeroPad(h, 2) == ZeroPad(h, 2);
  }

  lemma FormatFourFields(f1: Field, f2: Field, f3: Field, f4: Field)
    ensures FormatFields([f1, f2, f3, f4])
            == f1.prefix + ZeroPad(f1.value, f1.width) + f2.prefix + ZeroPad(f2.value, f2.width)
               + f3.prefix + ZeroPad(f3.value, f3.width) + f4.prefix + ZeroPad(f4.value, f4.width)
  {
    FormatFieldsSnoc([], f1);
    assert [] + [f1] == [f1];
    FormatFieldsSnoc([f1], f2);
    assert [f1] + [f2] == [f1, f2];
    FormatFieldsSnoc([f1, f2], f3);
    assert [f1, f2] + [f3] == [f1, f2, f3];
    FormatFieldsSnoc([f1, f2, f3], f4);
    assert [f1, f2, f3] + [f4] == [f1, f2, f3, f4];
  }

  /** The rendered text has the HH:MM:SS,mmm layout (hours at least two digits, exactly two
      below 100) and its digit fields read back as the numbers that were rendered. */
  lemma RenderReadBack(h: nat, m: nat, s: nat, ms: nat)
    requires m < 60 && s < 60 && ms < 1000
    ensures var tc := Render(h, m, s, ms); var k := |tc| - 10;
      && k >= 2 && (h < 100 ==> k == 2)
      && tc[k] == ':' && tc[k + 3] == ':' && tc[k + 6] == ','
      && AllDigits(tc[..k]) && AllDigits(tc[k + 1..k + 3]) && AllDigits(tc[k + 4..k + 6])
      && AllDigits(tc[k + 7..])
      && DigitsValue(tc[..k]) == h && DigitsValue(tc[k + 1..k + 3]) == m
      && DigitsValue(tc[k + 4..k + 6]) == s && DigitsValue(tc[k + 7..]) == ms
  {
    var hh, mm, ss, mmm := ZeroPad(h, 2), ZeroPad(m, 2), ZeroPad(s, 2), ZeroPad(ms, 3);
    RenderPieces(h, m, s, ms);
    ZeroPadLength(m, 2);
    ZeroPadLength(s, 2);
    ZeroPadLength(ms, 3);
    if h < 100 {
      assert Pow10(2) == 100;
      ZeroPadLength(h, 2);
    }
    ZeroPadValue(h, 2);
    ZeroPadValue(m, 2);
    ZeroPadValue(s, 2);
    ZeroPadValue(ms, 3);
    Fields(hh, mm, ss, mmm);
  }

  /** Where the pieces of a:b:c,d sit when b and c have two characters and d has three. */
  lemma Fields(a: string, b: string, c: string, d: string)
    requires |b| == 2 && |c| == 2 && |d| == 3
    ensures var tc := a + ":" + b + ":" + c + "," + d; var k := |a|;
      && |tc| == k + 10
      && tc[k] == ':' && tc[k + 3] == ':' && tc[k + 6] == ','
      && tc[..k] == a && tc[k + 1..k + 3] == b && tc[k + 4..k + 6] == c && tc[k + 7..] == d
  {
  }
}
