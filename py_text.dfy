/** The Python built-ins the pipeline leans on, restated over Dafny strings and sequences:
    str(int), format specs like `{n:02d}`, int() on a decimal literal, str.split, str.join,
    slicing, and repr() of a float that holds a whole number of milliseconds. */
module PyText {

  datatype Option<T> = None | Some(value: T)

  /** A computation that either returns a value or raises (the source's exceptions). */
  datatype Result<T, E> = Ok(value: T) | Err(error: E)

  // ---------------------------------------------------------------- decimal digits

  predicate IsDigit(c: char) { '0' <= c <= '9' }

  predicate AllDigits(s: string) { forall i :: 0 <= i < |s| ==> IsDigit(s[i]) }

  function DigitChar(d: nat): (c: char)
    requires d < 10
    ensures IsDigit(c)
  {
    (48 + d) as char
  }

  function DigitValue(c: char): (d: nat)
    requires IsDigit(c)
    ensures d < 10
  {
    c as int - 48
  }

  function Pow10(k: nat): (p: nat)
    ensures p >= 1
  {
    if k == 0 then 1 else 10 * Pow10(k - 1)
  }

  /** str(n) for a non-negative int: digits without leading zeros, "0" for zero. */
  function NatToString(n: nat): (s: string)
    ensures |s| >= 1
  {
    if n < 10 then [DigitChar(n)] else NatToString(n / 10) + [DigitChar(n % 10)]
  }

  /** The value of a string of decimal digits (the empty string reads as 0). */
  function DigitsValue(s: string): nat
    requires AllDigits(s)
  {
    if |s| == 0 then 0 else DigitsValue(s[..|s| - 1]) * 10 + DigitValue(s[|s| - 1])
  }

  /** str(n) reads back as n. */
  lemma {:induction false} DigitsValueOfNat(n: nat)
    ensures AllDigits(NatToString(n)) && DigitsValue(NatToString(n)) == n
  {
    if n >= 10 {
      var s := NatToString(n);
      assert s[..|s| - 1] == NatToString(n / 10);
      DigitsValueOfNat(n / 10);
      assert s == NatToString(n / 10) + [DigitChar(n % 10)];
    }
  }

  /** A number below 10^w prints with at most w digits. */
  lemma {:induction false} NatToStringLength(n: nat, w: nat)
    requires 1 <= w && n < Pow10(w)
    ensures |NatToString(n)| <= w
  {
    if n >= 10 {
      NatToStringLength(n / 10, w - 1);
    }
  }

  /** A leading zero does not change the value of a digit string. */
  lemma {:induction false} DigitsValueLeadingZero(s: string)
    requires AllDigits(s)
    ensures AllDigits("0" + s) && DigitsValue("0" + s) == DigitsValue(s)
  {
    var t := "0" + s;
    if |s| > 0 {
      assert t[..|t| - 1] == "0" + s[..|s| - 1];
      DigitsValueLeadingZero(s[..|s| - 1]);
    }
  }

  /** f"{n:0{width}d}" for a non-negative int: str(n) padded on the left with zeros to at
      least width characters. */
  function ZeroPad(n: nat, width: nat): (s: string)
    ensures |s| >= width
  {
    if width <= |NatToString(n)| then NatToString(n) else "0" + ZeroPad(n, width - 1)
  }

  /** The padded text is all digits and reads back as n. */
  lemma {:induction false} ZeroPadValue(n: nat, width: nat)
    ensures AllDigits(ZeroPad(n, width)) && DigitsValue(ZeroPad(n, width)) == n
  {
    if width <= |NatToString(n)| {
      DigitsValueOfNat(n);
    } else {
      ZeroPadValue(n, width - 1);
      DigitsValueLeadingZero(ZeroPad(n, width - 1));
    }
  }

  /** Padding a number that fits reaches exactly the width. */
  lemma {:induction false} ZeroPadWidth(n: nat, width: nat)
    requires |NatToString(n)| <= width
    ensures |ZeroPad(n, width)| == width
  {
    if width > |NatToString(n)| {
      ZeroPadWidth(n, width - 1);
    }
  }

  /** A number below 10^width pads to exactly width characters. */
  lemma ZeroPadLength(n: nat, width: nat)
    requires 1 <= width && n < Pow10(width)
    ensures |ZeroPad(n, width)| == width
  {
    NatToStringLength(n, width);
    ZeroPadWidth(n, width);
  }

  // ---------------------------------------------------------------- divmod()

  lemma Distrib(x: int, y: int, b: int)
    ensures (x + y) * b == x * b + y * b
  {
  }

  lemma MulAtLeast(d: int, b: nat)
    requires d >= 1
    ensures d * b >= b
  {
  }

  /** Euclidean division is determined by quotient and remainder. */
  lemma DivModOf(x: nat, d: nat, q: nat, r: nat)
    requires d > 0 && r < d && x == q * d + r
    ensures x / d == q && x % d == r
  {
    var q', r' := x / d, x % d;
    if q > q' {
      Distrib(q', q - q', d);
      MulAtLeast(q - q', d);
    } else if q < q' {
      Distrib(q, q' - q, d);
      MulAtLeast(q' - q, d);
    }
  }

  // ---------------------------------------------------------------- max(), min()

  function Max(a: int, b: int): int { if a >= b then a else b }
  function Min(a: int, b: int): int { if a <= b then a else b }

  // ---------------------------------------------------------------- int() and str()

  /** int(s) for the literals the pipeline produces: an optional sign followed by at least one
      ASCII digit; anything else raises ValueError (None). */
  function ParseInt(s: string): Option<int>
  {
    if |s| > 0 && (s[0] == '+' || s[0] == '-') then
      if |s| > 1 && AllDigits(s[1..]) then
        Some(if s[0] == '-' then 0 - DigitsValue(s[1..]) as int else DigitsValue(s[1..]))
      else None
    else if |s| > 0 && AllDigits(s) then Some(DigitsValue(s))
    else None
  }

  /** int() reads back what a zero-padded format wrote. */
  lemma ParseZeroPad(n: nat, width: nat)
    ensures ParseInt(ZeroPad(n, width)) == Some(n)
  {
    ZeroPadValue(n, width);
  }

  /** str(i) for any int. */
  function IntToString(i: int): (s: string)
    ensures ParseInt(s) == Some(i)
  {
    DigitsValueOfNat(if i < 0 then -i else i);
    if i < 0 then
      var d := NatToString(-i);
      assert ("-" + d)[1..] == d;
      "-" + d
    else NatToString(i)
  }

  // ---------------------------------------------------------------- str.split, str.join

  /** How often c occurs in s. */
  function CountChar(s: string, c: char): nat
  {
    if |s| == 0 then 0 else (if s[0] == c then 1 else 0) + CountChar(s[1..], c)
  }

  /** s.split(c) with an explicit one-character separator: every occurrence of c cuts, and
      the empty string splits into one empty field. */
  function Split(s: string, c: char): (parts: seq<string>)
    ensures |parts| == CountChar(s, c) + 1
  {
    if |s| == 0 then [""]
    else if s[0] == c then [""] + Split(s[1..], c)
    else
      var rest := Split(s[1..], c);
      [[s[0]] + rest[0]] + rest[1..]
  }

  /** sep.join(parts). */
  function Join(sep: string, parts: seq<string>): string
  {
    if |parts| == 0 then ""
    else if |parts| == 1 then parts[0]
    else parts[0] + sep + Join(sep, parts[1..])
  }

  lemma {:induction false} SplitWithoutSeparator(s: string, c: char)
    requires c !in s
    ensures Split(s, c) == [s]
  {
    if |s| > 0 {
      assert c !in s[1..] by {
        forall i | 0 <= i < |s| - 1 ensures s[1..][i] != c { assert s[1..][i] == s[i + 1]; }
      }
      SplitWithoutSeparator(s[1..], c);
      assert [s[0]] + s[1..] == s;
    }
  }

  /** Splitting cuts at the first separator. */
  lemma {:induction false} SplitAtFirst(a: string, c: char, b: string)
    requires c !in a
    ensures Split(a + [c] + b, c) == [a] + Split(b, c)
  {
    if |a| == 0 {
      assert a + [c] + b == [c] + b;
      assert ([c] + b)[1..] == b;
    } else {
      var t := a + [c] + b;
      assert t[0] == a[0] && t[1..] == a[1..] + [c] + b;
      assert c !in a[1..] by {
        forall i | 0 <= i < |a| - 1 ensures a[1..][i] != c { assert a[1..][i] == a[i + 1]; }
      }
      SplitAtFirst(a[1..], c, b);
      assert [a[0]] + a[1..] == a;
    }
  }

  /** Joining parts that do not contain the separator and splitting again gives the parts. */
  lemma {:induction false} SplitJoin(parts: seq<string>, c: char)
    requires |parts| >= 1
    requires forall i :: 0 <= i < |parts| ==> c !in parts[i]
    ensures Split(Join([c], parts), c) == parts
  {
    if |parts| == 1 {
      SplitWithoutSeparator(parts[0], c);
    } else {
      SplitJoin(parts[1..], c);
      SplitAtFirst(parts[0], c, Join([c], parts[1..]));
      assert [parts[0]] + parts[1..] == parts;
    }
  }

  /** No field of a split contains the separator, and joining the fields restores the string. */
  lemma {:induction false} JoinSplit(s: string, c: char)
    ensures forall i :: 0 <= i < |Split(s, c)| ==> c !in Split(s, c)[i]
    ensures Join([c], Split(s, c)) == s
  {
    if |s| > 0 {
      JoinSplit(s[1..], c);
      var rest := Split(s[1..], c);
      if s[0] == c {
        assert Split(s, c)[1..] == rest;
        assert s == [c] + s[1..];
      } else {
        var parts := Split(s, c);
        assert parts[0] == [s[0]] + rest[0] && parts[1..] == rest[1..];
        if |rest| == 1 {
          assert s == [s[0]] + rest[0];
        } else {
          assert rest == [rest[0]] + rest[1..];
          assert Join([c], rest) == rest[0] + [c] + Join([c], rest[1..]);
          assert s == [s[0]] + s[1..];
        }
        forall i | 0 <= i < |parts| ensures c !in parts[i] {
          if i > 0 { assert parts[i] == rest[i]; }
        }
      }
    }
  }

  /** A string that ends with c holds c at least once. */
  lemma {:induction false} CountCharLast(s: string, c: char)
    requires |s| > 0 && s[|s| - 1] == c
    ensures CountChar(s, c) >= 1
  {
    if |s| > 1 {
      CountCharLast(s[1..], c);
    }
  }

  /** A string that ends with the separator splits, followed by b, into its own fields up to
      the empty last one, then b's fields. */
  lemma {:induction false} SplitAfterSeparator(a: string, b: string, c: char)
    requires |a| > 0 && a[|a| - 1] == c
    ensures |Split(a, c)| >= 2
    ensures Split(a + b, c) == Split(a, c)[..|Split(a, c)| - 1] + Split(b, c)
  {
    assert (a + b)[0] == a[0] && (a + b)[1..] == a[1..] + b;
    if |a| == 1 {
      assert a == [c] && a[1..] == [];
      assert a[1..] + b == b;
    } else {
      var tail := a[1..];
      assert tail[|tail| - 1] == c;
      SplitAfterSeparator(tail, b, c);
      if a[0] == c {
        assert Split(a, c)[1..] == Split(tail, c);
      } else {
        CountCharLast(tail, c);
        FieldsAfterCons(a[0], Split(tail, c), Split(b, c));
      }
    }
  }

  /** The field bookkeeping of a non-separator character in front: it joins the first field. */
  lemma FieldsAfterCons(x: char, st: seq<string>, sb: seq<string>)
    requires |st| >= 2
    ensures var r := st[..|st| - 1] + sb; var p := [[x] + st[0]] + st[1..];
      |r| >= 1 && [[x] + r[0]] + r[1..] == p[..|p| - 1] + sb
  {
    var r := st[..|st| - 1] + sb;
    assert r[0] == st[0];
    assert r[1..] == st[1..|st| - 1] + sb;
    var p := [[x] + st[0]] + st[1..];
    assert p[..|p| - 1] == [[x] + st[0]] + st[1..|st| - 1];
  }

  /** The concatenation of a sequence of sequences; on strings, "".join(parts). */
  function Concat<T>(parts: seq<seq<T>>): seq<T>
  {
    if |parts| == 0 then [] else Concat(parts[..|parts| - 1]) + parts[|parts| - 1]
  }

  lemma {:induction false} ConcatAppend<T>(a: seq<seq<T>>, b: seq<seq<T>>)
    ensures Concat(a + b) == Concat(a) + Concat(b)
  {
    if |b| > 0 {
      assert (a + b)[..|a + b| - 1] == a + b[..|b| - 1];
      ConcatAppend(a, b[..|b| - 1]);
    } else {
      assert a + b == a;
    }
  }

  // ---------------------------------------------------------------- slicing

  /** A prefix one longer is the shorter prefix and the next element. */
  lemma PrefixSnoc<T>(s: seq<T>, j: nat)
    requires j < |s|
    ensures s[..j + 1] == s[..j] + [s[j]]
  {
  }

  /** When s[j:] is x followed by t, s[j] is x, s[j+1:] is t and s[:j+1] is s[:j] then x. */
  lemma DropCons<T>(s: seq<T>, j: nat, x: T, t: seq<T>)
    requires j <= |s| && s[j..] == [x] + t
    ensures j < |s| && s[j] == x && s[j + 1..] == t && s[..j + 1] == s[..j] + [x]
  {
    assert s[j..][0] == x;
    assert s[j + 1..] == s[j..][1..];
  }

  /** Where a slice bound i lands in a sequence of length n: negative bounds count from the
      end, and every bound is clamped to [0, n]. */
  function SliceBound(i: int, n: nat): (b: nat)
    ensures b <= n
    ensures 0 <= i <= n ==> b == i
    ensures i > n ==> b == n
    ensures i < 0 ==> b == if i + n < 0 then 0 else i + n
  {
    if i < 0 then (if i + n < 0 then 0 else i + n) else if i > n then n else i
  }

  /** s[lo:hi] with step 1. */
  function Slice<T>(s: seq<T>, lo: int, hi: int): seq<T>
  {
    var a := SliceBound(lo, |s|);
    var b := SliceBound(hi, |s|);
    if a < b then s[a..b] else []
  }

  /** What s[lo:hi] holds: the elements from the first clamped bound up to the second, none when
      the bounds cross; in-range bounds give the ordinary slice, and a start inside the sequence
      with a larger end gives the elements from the start up to that end or the end of s. */
  lemma SliceWindow<T>(s: seq<T>, lo: int, hi: int)
    ensures var a, b, r := SliceBound(lo, |s|), SliceBound(hi, |s|), Slice(s, lo, hi);
      && |r| == Max(0, b - a)
      && forall j :: 0 <= j < |r| ==> r[j] == s[a + j]
    ensures 0 <= lo <= hi <= |s| ==> Slice(s, lo, hi) == s[lo..hi]
    ensures 0 <= lo < |s| && lo < hi ==>
      Slice(s, lo, hi) == s[lo..Min(hi, |s|)] && |Slice(s, lo, hi)| >= 1
  {
  }

  // ---------------------------------------------------------------- repr of float seconds

  function DropTrailingZeros(s: string): (r: string)
    ensures |r| <= |s| && r == s[..|r|]
    ensures |r| > 0 ==> r[|r| - 1] != '0'
    ensures forall i :: |r| <= i < |s| ==> s[i] == '0'
  {
    if |s| > 0 && s[|s| - 1] == '0' then DropTrailingZeros(s[..|s| - 1]) else s
  }

  /** repr() of the float ms / 1000: the whole seconds, a dot, and the milliseconds with their
      trailing zeros dropped (at least one digit), as in "2.0", "1.5" and "0.001". */
  function SecondsText(ms: nat): string
  {
    var frac := ms % 1000;
    NatToString(ms / 1000) + "." + (if frac == 0 then "0" else DropTrailingZeros(ZeroPad(frac, 3)))
  }
}
