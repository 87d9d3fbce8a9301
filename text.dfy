/** The pieces of Go's `strings` and `strconv` packages that the core relies on:
    suffix tests, ASCII lower-casing, decimal formatting and parsing of 64-bit
    integers, and joining/splitting on a one-character separator. */
module Text {
  import opened Wrappers

  const MinInt64: int := -0x8000_0000_0000_0000
  const MaxInt64: int := 0x7FFF_FFFF_FFFF_FFFF

  /** The values of a Go `int64` (and of `int` on 64-bit targets). */
  predicate InInt64(n: int) {
    MinInt64 <= n <= MaxInt64
  }

  /** strings.HasSuffix */
  predicate HasSuffix(s: string, suffix: string) {
    |suffix| <= |s| && s[|s| - |suffix|..] == suffix
  }

  /** The any-suffix search with early return shared by tgmedia's `isOneOf` and
      image's `isTypeSupported`. */
  function IsOneOf(item: string, suffixes: seq<string>): (b: bool)
    ensures b <==> exists i :: 0 <= i < |suffixes| && HasSuffix(item, suffixes[i])
  {
    if suffixes == [] then false
    else if HasSuffix(item, suffixes[0]) then true
    else
      var rest := IsOneOf(item, suffixes[1..]);
      assert forall i :: 1 <= i < |suffixes| ==> suffixes[i] == suffixes[1..][i - 1];
      rest
  }

  // ---------------------------------------------------------------------------
  // Lower-casing (ASCII only; Unicode case mapping is not modelled)
  // ---------------------------------------------------------------------------

  predicate IsUpper(c: char) {
    'A' <= c <= 'Z'
  }

  function LowerChar(c: char): char {
    if IsUpper(c) then (c as int - 'A' as int + 'a' as int) as char else c
  }

  /** strings.ToLower restricted to ASCII letters. */
  function ToLower(s: string): (r: string)
    ensures |r| == |s|
    ensures forall i :: 0 <= i < |s| ==> r[i] == LowerChar(s[i])
  {
    if s == [] then [] else [LowerChar(s[0])] + ToLower(s[1..])
  }

  /** Lower-casing leaves no upper-case letter behind and is idempotent, so any
      test on `ToLower(s)` is case-insensitive. */
  lemma LowerIdempotent(s: string)
    ensures forall i :: 0 <= i < |s| ==> !IsUpper(ToLower(s)[i])
    ensures ToLower(ToLower(s)) == ToLower(s)
  {
  }

  // ---------------------------------------------------------------------------
  // Decimal digits
  // ---------------------------------------------------------------------------

  predicate IsDigit(c: char) {
    '0' <= c <= '9'
  }

  predicate AllDigits(s: string) {
    forall i :: 0 <= i < |s| ==> IsDigit(s[i])
  }

  function DigitChar(d: nat): (c: char)
    requires d < 10
    ensures IsDigit(c) && c as int - '0' as int == d
  {
    ('0' as int + d) as char
  }

  function DigitValue(c: char): nat
    requires IsDigit(c)
  {
    c as int - '0' as int
  }

  /** The decimal digits of `n`, most significant first, without leading zeros. */
  function NatDigits(n: nat): (r: string)
    ensures |r| >= 1 && AllDigits(r)
    ensures r[0] == '0' ==> n == 0
    decreases n
  {
    if n < 10 then [DigitChar(n)] else NatDigits(n / 10) + [DigitChar(n % 10)]
  }

  /** The number a non-empty run of decimal digits stands for. */
  function DigitsValue(s: string): nat
    requires AllDigits(s)
  {
    if s == [] then 0 else DigitsValue(s[..|s| - 1]) * 10 + DigitValue(s[|s| - 1])
  }

  lemma {:induction false} NatDigitsValue(n: nat)
    ensures DigitsValue(NatDigits(n)) == n
    decreases n
  {
    if n >= 10 {
      NatDigitsValue(n / 10);
      var s := NatDigits(n);
      assert s[..|s| - 1] == NatDigits(n / 10);
    }
  }

  /** strconv.FormatInt(n, 10), also what fmt's `%d` and strconv.Itoa print. */
  function FormatInt(n: int): (r: string)
    ensures |r| >= 1
    ensures n >= 0 ==> AllDigits(r)
    ensures n < 0 ==> r[0] == '-' && |r| >= 2 && AllDigits(r[1..])
  {
    if n < 0 then "-" + NatDigits(-n) else NatDigits(n)
  }

  /** Reads the decimal digits of `s` from index `i` on, `acc` being the value
      of those already read; None at the first character that is not a digit. */
  function DigitsFrom(s: string, i: nat, acc: nat): Option<nat>
    decreases |s| - i
  {
    if i >= |s| then Some(acc)
    else if !IsDigit(s[i]) then None
    else DigitsFrom(s, i + 1, acc * 10 + DigitValue(s[i]))
  }

  /** strconv.ParseInt(s, 10, 64): an optional '+' or '-', then one or more
      decimal digits, and the value must fit in an int64. None is Go's error. */
  function ParseInt64(s: string): (r: Option<int>)
    ensures r.Some? ==> InInt64(r.value)
  {
    if |s| == 0 then None
    else
      var start := if s[0] == '+' || s[0] == '-' then 1 else 0;
      if start == |s| then None
      else match DigitsFrom(s, start, 0)
        case None => None
        case Some(u) =>
          if s[0] == '-' then (if u > -MinInt64 then None else Some(-(u as int)))
          else (if u > MaxInt64 then None else Some(u))
  }

  /** Reading succeeds only over digits. */
  lemma {:induction false} DigitsFromDigits(s: string, i: nat, acc: nat)
    requires DigitsFrom(s, i, acc).Some?
    ensures forall j :: i <= j < |s| ==> IsDigit(s[j])
    decreases |s| - i
  {
    if i < |s| {
      DigitsFromDigits(s, i + 1, acc * 10 + DigitValue(s[i]));
    }
  }

  /** Over a run of digits starting at `start`, reading yields `DigitsValue`. */
  lemma {:induction false} DigitsFromValue(s: string, start: nat, i: nat)
    requires start <= i <= |s|
    requires AllDigits(s[start..])
    ensures DigitsFrom(s, i, DigitsValue(s[start..i])) == Some(DigitsValue(s[start..]))
    decreases |s| - i
  {
    if i == |s| {
      assert s[start..i] == s[start..];
    } else {
      assert IsDigit(s[start..][i - start]);
      assert s[start..i + 1][..i - start] == s[start..i];
      DigitsFromValue(s, start, i + 1);
    }
  }

  /** Formatting then parsing gives every int64 back. */
  lemma ParseFormatInt(n: int)
    requires InInt64(n)
    ensures ParseInt64(FormatInt(n)) == Some(n)
  {
    var s := FormatInt(n);
    if n < 0 {
      NatDigitsValue(-n);
      assert s[1..] == NatDigits(-n);
      assert s[1..1] == [];
      DigitsFromValue(s, 1, 1);
    } else {
      NatDigitsValue(n);
      assert s[0..] == s && s[0..0] == [];
      DigitsFromValue(s, 0, 0);
    }
  }

  /** Two maximal digit runs that are each followed by a non-digit (or nothing)
      split a string in one way only. */
  lemma DigitRunSplit(p: string, x: string, q: string, y: string)
    requires AllDigits(p) && AllDigits(q) && p + x == q + y
    requires x == [] || !IsDigit(x[0])
    requires y == [] || !IsDigit(y[0])
    ensures p == q && x == y
  {
    var s := p + x;
    assert forall i :: 0 <= i < |p| ==> IsDigit(s[i]);
    assert |p| < |s| ==> s[|p|] == x[0];
    assert forall i :: 0 <= i < |q| ==> IsDigit(s[i]);
    assert |q| < |s| ==> s[|q|] == y[0];
    assert |p| == |q|;
    assert p == s[..|p|] == q;
  }

  /** A decimal rendering followed by a non-digit determines the number:
      `FormatInt` is injective and can be read back from the front of a string. */
  lemma FormatIntPrefix(a: int, x: string, b: int, y: string)
    requires FormatInt(a) + x == FormatInt(b) + y
    requires x == [] || !IsDigit(x[0])
    requires y == [] || !IsDigit(y[0])
    ensures a == b && x == y
  {
    var fa, fb := FormatInt(a), FormatInt(b);
    assert fa[0] == (fa + x)[0] == (fb + y)[0] == fb[0];
    if a < 0 && b < 0 {
      NegativePrefix(a, x, b, y);
    } else if a >= 0 && b >= 0 {
      DigitRunSplit(fa, x, fb, y);
      NatDigitsValue(a);
      NatDigitsValue(b);
    }
  }

  lemma DropFirst(c: char, p: string, x: string, q: string, y: string)
    requires [c] + p + x == [c] + q + y
    ensures p + x == q + y
  {
    assert ([c] + p + x)[1..] == p + x;
    assert ([c] + q + y)[1..] == q + y;
  }

  lemma NegativePrefix(a: int, x: string, b: int, y: string)
    requires a < 0 && b < 0
    requires FormatInt(a) + x == FormatInt(b) + y
    requires x == [] || !IsDigit(x[0])
    requires y == [] || !IsDigit(y[0])
    ensures a == b && x == y
  {
    var da, db := NatDigits(-a), NatDigits(-b);
    DropFirst('-', da, x, db, y);
    DigitRunSplit(da, x, db, y);
    NatDigitsValue(-a);
    NatDigitsValue(-b);
  }

  // ---------------------------------------------------------------------------
  // strings.Join / strings.Split with a one-character separator
  // ---------------------------------------------------------------------------

  function Join(parts: seq<string>, sep: char): string {
    if parts == [] then ""
    else if |parts| == 1 then parts[0]
    else parts[0] + [sep] + Join(parts[1..], sep)
  }

  function Split(s: string, sep: char): (r: seq<string>)
    ensures |r| >= 1
  {
    if s == [] then [""]
    else if s[0] == sep then [""] + Split(s[1..], sep)
    else
      var rest := Split(s[1..], sep);
      [[s[0]] + rest[0]] + rest[1..]
  }

  lemma {:induction false} SplitNoSeparator(p: string, sep: char)
    requires sep !in p
    ensures Split(p, sep) == [p]
  {
    if p != [] {
      SplitNoSeparator(p[1..], sep);
      assert [p[0]] + p[1..] == p;
    }
  }

  lemma {:induction false} SplitAfterPart(p: string, sep: char, t: string)
    requires sep !in p
    ensures Split(p + [sep] + t, sep) == [p] + Split(t, sep)
  {
    if p == [] {
      assert p + [sep] + t == [sep] + t;
      assert ([sep] + t)[1..] == t;
    } else {
      SplitAfterPart(p[1..], sep, t);
      assert (p + [sep] + t)[1..] == p[1..] + [sep] + t;
      assert [p[0]] + p[1..] == p;
    }
  }

  /** Splitting undoes joining when no part contains the separator. */
  lemma {:induction false} SplitJoin(parts: seq<string>, sep: char)
    requires |parts| >= 1
    requires forall i :: 0 <= i < |parts| ==> sep !in parts[i]
    ensures Split(Join(parts, sep), sep) == parts
  {
    if |parts| == 1 {
      SplitNoSeparator(parts[0], sep);
    } else {
      SplitJoin(parts[1..], sep);
      SplitAfterPart(parts[0], sep, Join(parts[1..], sep));
      assert [parts[0]] + parts[1..] == parts;
    }
  }
}
