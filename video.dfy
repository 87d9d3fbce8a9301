/** The pure helpers of video/internal.go: the `HH:MM:SS.mmm` rendering of a
    duration handed to ffmpeg, the file type of a name, the scale filter and
    the thumbnail position.

    `time.Duration` is an int64 count of nanoseconds and Go's integer
    division truncates toward zero; both are written out here. A float64
    duration is a real number (rounding of float arithmetic is not modelled). */
module Video {
  import opened Wrappers
  import Text

  // ---------------------------------------------------------------------------
  // Go integer arithmetic
  // ---------------------------------------------------------------------------

  /** Conversion of a float to an integer: the fraction is dropped. */
  function Trunc(x: real): (n: int)
    ensures x >= 0.0 ==> n as real <= x < n as real + 1.0
    ensures x < 0.0 ==> n as real - 1.0 < x <= n as real
  {
    if x >= 0.0 then x.Floor else -((-x).Floor)
  }

  /** int64 multiplication wraps around modulo 2^64. */
  function Wrap64(x: int): (r: int)
    ensures Text.InInt64(r)
    ensures Text.InInt64(x) ==> r == x
  {
    (x - Text.MinInt64) % 0x1_0000_0000_0000_0000 + Text.MinInt64
  }

  /** Go's `/`: the quotient truncated toward zero. */
  function Quot(a: int, b: int): int
    requires b > 0
  {
    if a >= 0 then a / b else -((-a) / b)
  }

  /** Go's `%`: the remainder takes the sign of the dividend. */
  function Rem(a: int, b: int): (r: int)
    requires b > 0
    ensures a >= 0 ==> r == a % b
    ensures a < 0 ==> -b < r <= 0
  {
    a - b * Quot(a, b)
  }

  const Millisecond: int := 1_000_000
  const Second: int := 1_000_000_000
  const Minute: int := 60 * Second
  const Hour: int := 60 * Minute

  // ---------------------------------------------------------------------------
  // formatDuration
  // ---------------------------------------------------------------------------

  /** `n` zero characters. */
  function Zeros(n: nat): (z: string)
    ensures |z| == n && forall i :: 0 <= i < n ==> z[i] == '0'
  {
    if n == 0 then "" else "0" + Zeros(n - 1)
  }

  /** `s` with '0's put in front until it has `width` characters; never cut. */
  function PadZeros(s: string, width: nat): (r: string)
    ensures |r| == if |s| >= width then |s| else width
    ensures r[|r| - |s|..] == s
    ensures forall i :: 0 <= i < |r| - |s| ==> r[i] == '0'
  {
    if |s| >= width then s else Zeros(width - |s|) + s
  }

  /** `trailingZeros`: the decimal rendering of `n`, left-padded with '0's to
      at least `zeros` characters. */
  method TrailingZeros(n: int, zeros: nat) returns (s: string)
    ensures s == PadZeros(Text.FormatInt(n), zeros)
  {
    var f := Text.FormatInt(n);
    s := f;
    ghost var k := 0;
    while |s| < zeros
      invariant s == Zeros(k) + f
      invariant |s| == |f| + k
      invariant k == 0 || |s| <= zeros
      decreases zeros - |s|
    {
      s := "0" + s;
      k := k + 1;
    }
    PaddedAfterLoop(f, k, zeros);
  }

  /** Where the padding loop stops: no '0's when `f` is already wide enough,
      otherwise exactly enough to reach `zeros`. */
  lemma PaddedAfterLoop(f: string, k: nat, zeros: nat)
    requires k == 0 ==> |f| >= zeros
    requires k > 0 ==> |f| + k == zeros
    ensures Zeros(k) + f == PadZeros(f, zeros)
  {
    if k == 0 {
      assert Zeros(0) + f == f;
    }
  }

  /** The four fields of the rendering: hours mod 24, minutes mod 60, seconds
      mod 60 and milliseconds mod 1000 of the duration `d` (in ns). */
  function Fields(d: int): (int, int, int, int) {
    (Rem(Quot(d, Hour), 24), Rem(Quot(d, Minute), 60), Rem(Quot(d, Second), 60), Rem(Quot(d, Millisecond), 1000))
  }

  /** The `%s:%s:%s.%s` layout. */
  function Clock(h: string, m: string, s: string, ms: string): string {
    h + ":" + m + ":" + s + "." + ms
  }

  function Render(h: int, m: int, s: int, ms: int): string {
    Clock(PadZeros(Text.FormatInt(h), 2), PadZeros(Text.FormatInt(m), 2),
          PadZeros(Text.FormatInt(s), 2), PadZeros(Text.FormatInt(ms), 3))
  }

  /** What `formatDuration` prints for `seconds`: the fraction is dropped, the
      whole seconds are scaled to nanoseconds with int64 wrap-around, and the
      fields are rendered. The float conversion is only defined within int64. */
  function DurationText(seconds: real): string
    requires Text.InInt64(Trunc(seconds))
  {
    var f := Fields(Wrap64(Trunc(seconds) * Second));
    Render(f.0, f.1, f.2, f.3)
  }

  /** `formatDuration`. */
  method FormatDuration(seconds: real) returns (text: string)
    requires Text.InInt64(Trunc(seconds))
    ensures text == DurationText(seconds)
  {
    var d := Wrap64(Trunc(seconds) * Second);
    var h := TrailingZeros(Rem(Quot(d, Hour), 24), 2);
    var m := TrailingZeros(Rem(Quot(d, Minute), 60), 2);
    var s := TrailingZeros(Rem(Quot(d, Second), 60), 2);
    var ms := TrailingZeros(Rem(Quot(d, Millisecond), 1000), 3);
    text := Clock(h, m, s, ms);
  }

  /** Only the whole seconds matter. */
  lemma DurationDropsFraction(seconds: real)
    requires Text.InInt64(Trunc(seconds))
    ensures DurationText(seconds) == DurationText(Trunc(seconds) as real)
  {
    TruncInt(Trunc(seconds));
  }

  /** The largest number of whole seconds whose nanoseconds fit in an int64. */
  const MaxSeconds: int := 9_223_372_036

  lemma MulAtLeast(k: int, d: int)
    requires k >= 1 && d > 0
    ensures k * d >= d
  {
  }

  /** Euclidean division has one quotient and one remainder. */
  lemma DivUnique(x: int, d: int, q: int, r: int)
    requires d > 0 && 0 <= r < d && x == q * d + r
    ensures x / d == q && x % d == r
  {
    var k := q - x / d;
    assert k * d == x % d - r;
    if k >= 1 {
      MulAtLeast(k, d);
    } else if k <= -1 {
      MulAtLeast(-k, d);
    }
  }

  lemma TruncInt(n: int)
    ensures Trunc(n as real) == n
  {
    if n < 0 {
      assert -(n as real) == (-n) as real;
    }
  }

  lemma MulLess(a: int, b: int, c: int)
    requires 0 <= a < b && c > 0
    ensures a * c < b * c
  {
  }

  /** Scaling both sides of a division by the same unit changes nothing. */
  lemma ScaleDiv(s: int, k: int, unit: int)
    requires s >= 0 && k > 0 && unit > 0
    ensures (s * unit) / (k * unit) == s / k
  {
    var q, r := s / k, s % k;
    calc {
      s * unit;
      (q * k + r) * unit;
      q * (k * unit) + r * unit;
    }
    MulLess(r, k, unit);
    DivUnique(s * unit, k * unit, q, r * unit);
  }

  /** The fields of `s` whole seconds, for `0 <= s <= MaxSeconds`. */
  lemma WholeSecondFields(s: int)
    requires 0 <= s <= MaxSeconds
    ensures Fields(Wrap64(s * Second)) == ((s / 3600) % 24, (s / 60) % 60, s % 60, 0)
  {
    var d := s * Second;
    assert 0 <= d <= Text.MaxInt64;
    assert Wrap64(d) == d;
    assert Quot(d, Hour) == s / 3600 by {
      ScaleDiv(s, 3600, Second);
    }
    assert Quot(d, Minute) == s / 60 by {
      ScaleDiv(s, 60, Second);
    }
    assert Quot(d, Second) == s by {
      DivUnique(d, Second, s, 0);
    }
    assert Quot(d, Millisecond) == s * 1000 by {
      DivUnique(d, Millisecond, s * 1000, 0);
    }
    assert Rem(s * 1000, 1000) == 0 by {
      DivUnique(s * 1000, 1000, s, 0);
    }
  }

  /** A two-digit field: exactly two digits that read back as the value. */
  lemma TwoDigits(v: int)
    requires 0 <= v < 100
    ensures |PadZeros(Text.FormatInt(v), 2)| == 2
    ensures Text.AllDigits(PadZeros(Text.FormatInt(v), 2))
    ensures Text.DigitsValue(PadZeros(Text.FormatInt(v), 2)) == v
  {
    var f := Text.FormatInt(v);
    var p := PadZeros(f, 2);
    Text.NatDigitsValue(v);
    if v < 10 {
      assert p == "0" + f;
      assert p[..1] == "0";
    } else {
      assert p == f;
    }
  }

  /** The rendering of a non-negative number of whole seconds that fits in
      nanoseconds: `HH:MM:SS.000`, twelve characters, each field two digits
      holding the hour of the day, the minute and the second. */
  lemma DurationShape(seconds: real)
    requires 0.0 <= seconds && Trunc(seconds) <= MaxSeconds
    ensures var t, s := DurationText(seconds), Trunc(seconds);
      && |t| == 12 && t[2] == ':' && t[5] == ':' && t[8] == '.' && t[9..] == "000"
      && Text.AllDigits(t[0..2]) && Text.DigitsValue(t[0..2]) == (s / 3600) % 24
      && Text.AllDigits(t[3..5]) && Text.DigitsValue(t[3..5]) == (s / 60) % 60
      && Text.AllDigits(t[6..8]) && Text.DigitsValue(t[6..8]) == s % 60
  {
    var s := Trunc(seconds);
    WholeSecondFields(s);
    RenderWholeSeconds((s / 3600) % 24, (s / 60) % 60, s % 60);
  }

  /** `HH:MM:SS.000` for fields below 100. */
  lemma RenderWholeSeconds(h: int, m: int, s: int)
    requires 0 <= h < 100 && 0 <= m < 100 && 0 <= s < 100
    ensures var t := Render(h, m, s, 0);
      && |t| == 12 && t[2] == ':' && t[5] == ':' && t[8] == '.' && t[9..] == "000"
      && Text.AllDigits(t[0..2]) && Text.DigitsValue(t[0..2]) == h
      && Text.AllDigits(t[3..5]) && Text.DigitsValue(t[3..5]) == m
      && Text.AllDigits(t[6..8]) && Text.DigitsValue(t[6..8]) == s
  {
    var ph, pm, ps := PadZeros(Text.FormatInt(h), 2), PadZeros(Text.FormatInt(m), 2), PadZeros(Text.FormatInt(s), 2);
    assert PadZeros(Text.FormatInt(0), 3) == "000" by {
      assert Text.FormatInt(0) == "0";
    }
    TwoDigits(h);
    TwoDigits(m);
    TwoDigits(s);
    assert Render(h, m, s, 0) == Clock(ph, pm, ps, "000");
    ClockFields(ph, pm, ps, h, m, s);
  }

  /** The layout of three two-digit fields followed by ".000". */
  lemma ClockFields(ph: string, pm: string, ps: string, h: int, m: int, s: int)
    requires |ph| == 2 && Text.AllDigits(ph) && Text.DigitsValue(ph) == h
    requires |pm| == 2 && Text.AllDigits(pm) && Text.DigitsValue(pm) == m
    requires |ps| == 2 && Text.AllDigits(ps) && Text.DigitsValue(ps) == s
    ensures var t := Clock(ph, pm, ps, "000");
      && |t| == 12 && t[2] == ':' && t[5] == ':' && t[8] == '.' && t[9..] == "000"
      && Text.AllDigits(t[0..2]) && Text.DigitsValue(t[0..2]) == h
      && Text.AllDigits(t[3..5]) && Text.DigitsValue(t[3..5]) == m
      && Text.AllDigits(t[6..8]) && Text.DigitsValue(t[6..8]) == s
  {
    Layout(ph, pm, ps, "000");
  }

  lemma Layout(a: string, b: string, c: string, d: string)
    requires |a| == 2 && |b| == 2 && |c| == 2 && |d| == 3
    ensures var t := Clock(a, b, c, d);
      && |t| == 12 && t[2] == ':' && t[5] == ':' && t[8] == '.'
      && t[0..2] == a && t[3..5] == b && t[6..8] == c && t[9..] == d
  {
  }

  lemma DayRemainder(s: int)
    requires s >= 0
    ensures ((s / 3600) % 24) * 3600 + ((s / 60) % 60) * 60 + s % 60 == s % 86400
  {
    var r := s % 86400;
    DivUnique(s, 3600, (s / 86400) * 24 + r / 3600, r % 3600);
    DivUnique(s, 60, (s / 86400) * 1440 + r / 60, r % 60);
    DivUnique((s / 86400) * 24 + r / 3600, 24, s / 86400, r / 3600);
    DivUnique((s / 86400) * 1440 + r / 60, 60, (s / 86400) * 24 + r / 3600, (r / 60) % 60);
  }

  /** The hour, minute and second fields are those of the time of day. */
  lemma FieldsOfDay(s: int)
    requires s >= 0
    ensures var r := s % 86400;
      && (s / 3600) % 24 == r / 3600
      && (s / 60) % 60 == (r % 3600) / 60
      && s % 60 == (r % 3600) % 60
  {
    var r := s % 86400;
    var h, m, sec := (s / 3600) % 24, (s / 60) % 60, s % 60;
    DayRemainder(s);
    DivUnique(r, 3600, h, m * 60 + sec);
    DivUnique(r % 3600, 60, m, sec);
  }

  /** Two non-negative whole-second durations render alike exactly when they
      fall at the same time of day: hours wrap at 24. */
  lemma DurationTextTimeOfDay(a: int, b: int)
    requires 0 <= a <= MaxSeconds && 0 <= b <= MaxSeconds
    ensures DurationText(a as real) == DurationText(b as real) <==> a % 86400 == b % 86400
  {
    if a % 86400 == b % 86400 {
      SameTimeOfDaySameText(a, b);
    }
    if DurationText(a as real) == DurationText(b as real) {
      SameTextSameTimeOfDay(a, b);
    }
  }

  lemma SameTimeOfDaySameText(a: int, b: int)
    requires 0 <= a <= MaxSeconds && 0 <= b <= MaxSeconds
    requires a % 86400 == b % 86400
    ensures DurationText(a as real) == DurationText(b as real)
  {
    TruncInt(a);
    TruncInt(b);
    FieldsOfDay(a);
    FieldsOfDay(b);
    WholeSecondFields(a);
    WholeSecondFields(b);
  }

  lemma SameTextSameTimeOfDay(a: int, b: int)
    requires 0 <= a <= MaxSeconds && 0 <= b <= MaxSeconds
    requires DurationText(a as real) == DurationText(b as real)
    ensures a % 86400 == b % 86400
  {
    TruncInt(a);
    TruncInt(b);
    DurationShape(a as real);
    DurationShape(b as real);
    assert (a / 3600) % 24 == (b / 3600) % 24;
    assert (a / 60) % 60 == (b / 60) % 60;
    assert a % 60 == b % 60;
    SameFieldsSameDay(a, b);
  }

  /** The hour, minute and second fields determine the time of day. */
  lemma SameFieldsSameDay(a: int, b: int)
    requires a >= 0 && b >= 0
    requires (a / 3600) % 24 == (b / 3600) % 24
    requires (a / 60) % 60 == (b / 60) % 60 && a % 60 == b % 60
    ensures a % 86400 == b % 86400
  {
    DayRemainder(a);
    DayRemainder(b);
  }

  /** Past `MaxSeconds` the nanosecond count wraps around, and the
      millisecond field is no longer zero: 9223372037 s prints `-709` there. */
  lemma DurationWrapExample()
    ensures Fields(Wrap64(9223372037 * Second)).3 == -709
  {
    assert Wrap64(9223372037 * Second) == -9223372036709551616;
  }

  /** A negative duration carries its sign into the fields: -1 s prints
      `00:00:-1.000`. */
  lemma NegativeDurationExample()
    ensures DurationText(-1.0) == "00:00:-1.000"
  {
    assert Trunc(-1.0) == -1;
    assert Wrap64(-1 * Second) == -1_000_000_000;
    MinusOneSecondFields();
    MinusOneSecondRender();
  }

  lemma MinusOneSecondFields()
    ensures Fields(-1_000_000_000) == (0, 0, -1, 0)
  {
    var d := -1_000_000_000;
    assert Quot(d, Hour) == 0 && Quot(d, Minute) == 0;
    assert Quot(d, Second) == -1 && Quot(d, Millisecond) == -1000;
    assert Rem(-1, 60) == -1 && Rem(-1000, 1000) == 0;
  }

  lemma MinusOneSecondRender()
    ensures Render(0, 0, -1, 0) == "00:00:-1.000"
  {
    assert Text.FormatInt(0) == "0";
    assert Text.FormatInt(-1) == "-1";
  }

  // ---------------------------------------------------------------------------
  // filetype, makeScaleRule, calcThumbnailPosition
  // ---------------------------------------------------------------------------

  /** `strings.LastIndexByte(s, c)`: the last index holding `c`, or -1. */
  function LastIndex(s: string, c: char): (i: int)
    ensures -1 <= i < |s|
    ensures i >= 0 ==> s[i] == c && c !in s[i + 1..]
    ensures i < 0 ==> c !in s
  {
    if s == [] then -1
    else if s[|s| - 1] == c then |s| - 1
    else
      var i := LastIndex(s[..|s| - 1], c);
      assert s == s[..|s| - 1] + [s[|s| - 1]];
      i
  }

  /** `filetype`: the extension from the last '.' on (the dot included); a
      name with no '.' gives its base name, `base` standing for
      `filepath.Base`. */
  function Filetype(filename: string, base: string -> string): (r: string)
    ensures '.' in filename ==> exists p :: filename == p + r && |r| >= 1 && r[0] == '.' && '.' !in r[1..]
    ensures '.' !in filename ==> r == base(filename)
  {
    var i := LastIndex(filename, '.');
    if i < 0 then base(filename)
    else
      assert filename == filename[..i] + filename[i..];
      assert filename[i..][1..] == filename[i + 1..];
      filename[i..]
  }

  /** The extension is the same after any prefix: only what follows the last
      '.' counts. */
  lemma FiletypeOfSuffix(dir: string, name: string, base: string -> string)
    requires '.' in name
    ensures Filetype(dir + name, base) == Filetype(name, base)
  {
    var i := LastIndex(name, '.');
    var j := LastIndex(dir + name, '.');
    assert (dir + name)[|dir| + i] == '.';
    assert (dir + name)[|dir| + i + 1..] == name[i + 1..];
    assert (dir + name)[j..] == name[i..];
  }

  const ScaleHead: string := "scale=if(gte(iw\\,ih)\\,min("
  const ScaleMiddle: string := "\\,iw)\\,-2):if(lt(iw\\,ih)\\,min("
  const ScaleTail: string := "\\,ih)\\,-2)"

  /** `makeScaleRule`: the ffmpeg filter that bounds the longer side, `width`
      for landscape input and `height` for portrait input, keeping the aspect
      ratio with an even other side. */
  function ScaleRule(width: int, height: int): string {
    ScaleHead + Text.FormatInt(width) + ScaleMiddle + Text.FormatInt(height) + ScaleTail
  }

  /** The filter names its two bounds unambiguously: different bounds give
      different filters. */
  lemma ScaleRuleInjective(w1: int, h1: int, w2: int, h2: int)
    requires ScaleRule(w1, h1) == ScaleRule(w2, h2)
    ensures w1 == w2 && h1 == h2
  {
    assert !Text.IsDigit(ScaleMiddle[0]) && !Text.IsDigit(ScaleTail[0]);
    Regroup(ScaleHead, Text.FormatInt(w1), ScaleMiddle, Text.FormatInt(h1), ScaleTail);
    Regroup(ScaleHead, Text.FormatInt(w2), ScaleMiddle, Text.FormatInt(h2), ScaleTail);
    TwoNumbers(ScaleHead, ScaleMiddle, ScaleTail, w1, h1, w2, h2);
  }

  lemma Regroup(a: string, b: string, c: string, d: string, e: string)
    ensures a + b + c + d + e == a + (b + (c + (d + e)))
  {
  }

  /** Two numbers written between fixed texts that do not start with a digit
      are read back unambiguously. */
  lemma TwoNumbers(head: string, middle: string, tail: string, a1: int, b1: int, a2: int, b2: int)
    requires middle != [] && !Text.IsDigit(middle[0])
    requires tail == [] || !Text.IsDigit(tail[0])
    requires head + (Text.FormatInt(a1) + (middle + (Text.FormatInt(b1) + tail)))
          == head + (Text.FormatInt(a2) + (middle + (Text.FormatInt(b2) + tail)))
    ensures a1 == a2 && b1 == b2
  {
    var x1, x2 := middle + (Text.FormatInt(b1) + tail), middle + (Text.FormatInt(b2) + tail);
    DropPrefix(head, Text.FormatInt(a1) + x1, Text.FormatInt(a2) + x2);
    Text.FormatIntPrefix(a1, x1, a2, x2);
    DropPrefix(middle, Text.FormatInt(b1) + tail, Text.FormatInt(b2) + tail);
    Text.FormatIntPrefix(b1, tail, b2, tail);
  }

  lemma DropPrefix(p: string, x: string, y: string)
    requires p + x == p + y
    ensures x == y
  {
    assert x == (p + x)[|p|..];
    assert y == (p + y)[|p|..];
  }

  /** A thumbnail position: a timestamp string, a fraction of the duration,
      or any other value. */
  datatype Position = AtText(text: string) | AtFraction(fraction: real) | Elsewhere

  /** `calcThumbnailPosition`: a string is used as is, a fraction is turned
      into the timestamp of that share of the duration, anything else gives "". */
  function ThumbnailPosition(duration: real, position: Position): (r: string)
    requires position.AtFraction? ==> Text.InInt64(Trunc(duration * position.fraction))
    ensures position.AtText? ==> r == position.text
    ensures position.Elsewhere? ==> r == ""
  {
    match position
    case AtText(text) => text
    case AtFraction(f) => DurationText(duration * f)
    case Elsewhere => ""
  }
}
