/**
  The `HH:MM:SS.mmm` time codec of the region list (components/RegionList.js) and its
  unguarded twin (src/utils/timeFormat.js, copied inline in src/app/WaveformLabeler.js).

  Times are whole milliseconds. The source works on floating-point seconds; with a
  millisecond count every `Math.floor` of the source becomes an exact integer division.
*/
module TimeCodec {
  import opened Wrappers

  /** The value handed to a formatter: NaN or undefined, null, or a time in milliseconds. */
  datatype TimeValue = NotANumber | Nil | Millis(ms: nat)

  /** The first time whose hour field needs three digits: 100 hours in milliseconds */
  const HundredHours: nat := 360_000_000

  const ZeroText: string := "00:00:00.000"
  /** `String(NaN)` is "NaN", already longer than every pad width */
  const NaNText: string := "NaN:NaN:NaN.NaN"

  predicate IsDigit(c: char) { '0' <= c <= '9' }

  predicate AllDigits(s: string) { forall i :: 0 <= i < |s| ==> IsDigit(s[i]) }

  function DigitValue(c: char): nat
    requires IsDigit(c)
  {
    c as int - '0' as int
  }

  function DigitChar(d: nat): (c: char)
    requires d < 10
    ensures IsDigit(c) && DigitValue(c) == d
  {
    ('0' as int + d) as char
  }

  lemma DigitCharOfValue(c: char)
    requires IsDigit(c)
    ensures DigitChar(DigitValue(c)) == c
  {
  }

  /** `parseInt` of a string made only of decimal digits */
  function DigitsValue(s: string): nat
    requires AllDigits(s)
  {
    if s == [] then 0 else DigitsValue(s[..|s| - 1]) * 10 + DigitValue(s[|s| - 1])
  }

  /** `n.toString()` for a non-negative integer: its decimal digits, no leading zero */
  function Decimal(n: nat): (s: string)
    ensures AllDigits(s)
    ensures 1 <= |s| && (n < 10 <==> |s| == 1)
    ensures n >= 10 ==> |s| >= 2
    ensures n >= 100 ==> |s| >= 3
    ensures n < 100 ==> |s| <= 2
    ensures n < 1000 ==> |s| <= 3
  {
    if n < 10 then [DigitChar(n)]
    else Decimal(n / 10) + [DigitChar(n % 10)]
  }

  /** `parseInt(n.toString())` is `n` */
  lemma {:induction false} DecimalValue(n: nat)
    ensures DigitsValue(Decimal(n)) == n
  {
    if n >= 10 {
      var s := Decimal(n);
      assert s[..|s| - 1] == Decimal(n / 10);
      DecimalValue(n / 10);
    }
  }

  /** `s.padStart(width, '0')` */
  function PadStart(s: string, width: nat): (r: string)
    ensures |r| == if |s| < width then width else |s|
    ensures r[|r| - |s|..] == s
    ensures forall i :: 0 <= i < |r| - |s| ==> r[i] == '0'
  {
    if |s| < width then seq(width - |s|, _ => '0') + s else s
  }

  /** One numeric field as the formatters print it */
  function Field(n: nat, width: nat): string {
    PadStart(Decimal(n), width)
  }

  /** `[h, m, s].map(pad 2).join(":") + "." + pad 3 (ms)` */
  function Clock(h: nat, m: nat, s: nat, ms: nat): string {
    Field(h, 2) + ":" + Field(m, 2) + ":" + Field(s, 2) + "." + Field(ms, 3)
  }

  /** formatTimeFull of components/RegionList.js: NaN and null/undefined print as zero. */
  function FormatFull(t: TimeValue): (r: string)
    ensures !t.Millis? ==> r == Clock(0, 0, 0, 0)
  {
    match t
    case Millis(x) =>
      var totalSec := x / 1000;
      Clock(totalSec / 3600, (totalSec / 60) % 60, totalSec % 60, x % 1000)
    case _ =>
      ClockText(0, 0, 0, 0);
      ZeroText
  }

  /**
    formatTimeFull of src/utils/timeFormat.js (and its inline copy in WaveformLabeler.js),
    which has no guard: NaN and undefined spread "NaN" into every field, while null is
    coerced to 0 by the arithmetic.
  */
  function FormatUnguarded(t: TimeValue): (r: string)
    ensures t.NotANumber? ==> r == NaNText
    ensures t.Nil? ==> r == Clock(0, 0, 0, 0)
  {
    match t
    case NotANumber => NaNText
    case Nil => Clock(0, 0, 0, 0)
    case Millis(x) =>
      Clock(x / 3_600_000, (x % 3_600_000) / 60_000, (x % 60_000) / 1000, x % 1000)
  }

  /** The exact shape `^(\d{2}):(\d{2}):(\d{2})\.(\d{3})$` */
  predicate Canonical(s: string) {
    && |s| == 12
    && IsDigit(s[0]) && IsDigit(s[1]) && s[2] == ':'
    && IsDigit(s[3]) && IsDigit(s[4]) && s[5] == ':'
    && IsDigit(s[6]) && IsDigit(s[7]) && s[8] == '.'
    && IsDigit(s[9]) && IsDigit(s[10]) && IsDigit(s[11])
  }

  /** `str.replace(/\.(\d{1,2})$/, …padEnd(3, '0'))`: a 1- or 2-digit trailing fraction gains zeros */
  function PadFraction(s: string): (r: string)
    ensures |r| in {|s|, |s| + 1, |s| + 2} && r[..|s|] == s
    ensures forall i :: |s| <= i < |r| ==> r[i] == '0'
  {
    if |s| >= 2 && s[|s| - 2] == '.' && IsDigit(s[|s| - 1]) then s + "00"
    else if |s| >= 3 && s[|s| - 3] == '.' && IsDigit(s[|s| - 2]) && IsDigit(s[|s| - 1]) then s + "0"
    else s
  }

  function Pair(a: char, b: char): nat
    requires IsDigit(a) && IsDigit(b)
  {
    10 * DigitValue(a) + DigitValue(b)
  }

  /** The four fields of a canonical string, in milliseconds */
  function CanonicalValue(p: string): nat
    requires Canonical(p)
  {
    Pair(p[0], p[1]) * 3_600_000 + Pair(p[3], p[4]) * 60_000 + Pair(p[6], p[7]) * 1000
      + 100 * DigitValue(p[9]) + Pair(p[10], p[11])
  }

  /** parseTimeFull of components/RegionList.js; `None` is NaN. */
  function ParseFull(s: string): (r: Option<nat>)
    ensures r.Some? && s != "" ==> 10 <= |s| <= 12 && s[2] == ':' && s[5] == ':' && s[8] == '.'
  {
    if s == "" then Some(0)
    else
      var p := PadFraction(s);
      if Canonical(p) then Some(CanonicalValue(p)) else None
  }

  // ---------------------------------------------------------------------------
  // Digit-level facts

  lemma {:induction false} LeadingZeros(z: string, s: string)
    requires AllDigits(s) && forall i :: 0 <= i < |z| ==> z[i] == '0'
    ensures AllDigits(z + s) && DigitsValue(z + s) == DigitsValue(s)
    decreases |s|
  {
    if s == [] {
      assert z + s == z;
      AllZeros(z);
    } else {
      var t := s[..|s| - 1];
      assert (z + s)[..|z + s| - 1] == z + t;
      LeadingZeros(z, t);
    }
  }

  lemma {:induction false} AllZeros(z: string)
    requires forall i :: 0 <= i < |z| ==> z[i] == '0'
    ensures AllDigits(z) && DigitsValue(z) == 0
    decreases |z|
  {
    if z != [] {
      AllZeros(z[..|z| - 1]);
    }
  }

  /** A padded field still reads back as the number it prints */
  lemma FieldValue(n: nat, width: nat)
    ensures AllDigits(Field(n, width)) && DigitsValue(Field(n, width)) == n
    ensures |Field(n, width)| >= width
  {
    var d := Decimal(n);
    var r := Field(n, width);
    DecimalValue(n);
    if |d| < width {
      assert r == seq(width - |d|, _ => '0') + d;
      LeadingZeros(seq(width - |d|, _ => '0'), d);
    }
  }

  lemma TwoDigits(n: nat)
    requires n < 100
    ensures Field(n, 2) == [DigitChar(n / 10), DigitChar(n % 10)]
  {
    if n >= 10 {
      assert Decimal(n) == Decimal(n / 10) + [DigitChar(n % 10)];
    }
  }

  lemma ThreeDigits(n: nat)
    requires n < 1000
    ensures Field(n, 3) == [DigitChar(n / 100), DigitChar((n / 10) % 10), DigitChar(n % 10)]
  {
    if n >= 100 {
      assert Decimal(n) == Decimal(n / 10) + [DigitChar(n % 10)];
      assert Decimal(n / 10) == Decimal(n / 100) + [DigitChar((n / 10) % 10)];
    } else if n >= 10 {
      assert Decimal(n) == Decimal(n / 10) + [DigitChar(n % 10)];
    }
  }

  /** Clock with every field in range is twelve characters spelled digit by digit */
  lemma ClockText(h: nat, m: nat, s: nat, ms: nat)
    requires h < 100 && m < 100 && s < 100 && ms < 1000
    ensures Clock(h, m, s, ms) == Spelled(h / 10, h % 10, m / 10, m % 10, s / 10, s % 10,
                                          ms / 100, (ms / 10) % 10, ms % 10)
  {
    TwoDigits(h);
    TwoDigits(m);
    TwoDigits(s);
    ThreeDigits(ms);
  }

  // ---------------------------------------------------------------------------
  // Arithmetic on the fields

  lemma MulAtLeast(a: int, d: int)
    requires a >= 1 && d > 0
    ensures a * d >= d
  {
  }

  lemma MulMonotone(x: int, y: int, a: int)
    ensures x <= y && a >= 0 ==> x * a <= y * a
  {
    if x <= y && a >= 0 {
      assert y * a - x * a == (y - x) * a;
    }
  }

  /** Euclidean division has one quotient and one remainder */
  lemma DivUnique(x: int, d: int, q: int, r: int)
    requires d > 0 && 0 <= r < d && x == q * d + r
    ensures x / d == q && x % d == r
  {
    var q', r' := x / d, x % d;
    assert x == q' * d + r';
    if q' > q {
      assert (q' - q) * d == r - r';
      MulAtLeast(q' - q, d);
    } else if q' < q {
      assert (q - q') * d == r' - r;
      MulAtLeast(q - q', d);
    }
  }

  /** Splitting a count by `a` and then by `b` is splitting it by `a * b` */
  lemma DivDiv(x: nat, a: nat, b: nat)
    requires a > 0 && b > 0
    ensures (x / a) / b == x / (a * b)
    ensures (x / a) % b == (x % (a * b)) / a
    ensures (x % (a * b)) % a == x % a
  {
    var q, r := x / (a * b), x % (a * b);
    var u, v := r / a, r % a;
    assert r == u * a + v;
    MulMonotone(b, u, a);
    assert u < b;
    assert x == (q * b + u) * a + v by {
      assert x == q * (a * b) + r;
      assert q * (a * b) == (q * b) * a;
    }
    DivUnique(x, a, q * b + u, v);
    DivUnique(x / a, b, q, u);
  }

  /** The field arithmetic of components/RegionList.js and of src/utils/timeFormat.js agrees. */
  lemma FieldsAgree(x: nat)
    ensures (x / 1000) / 3600 == x / 3_600_000
    ensures ((x / 1000) / 60) % 60 == (x % 3_600_000) / 60_000
    ensures (x / 1000) % 60 == (x % 60_000) / 1000
  {
    DivDiv(x, 1000, 3600);
    DivDiv(x, 1000, 60);
    DivDiv(x, 60_000, 60);
    DivDiv(x / 1000, 60, 60);
  }

  /** The four fields of the unguarded formatter put the whole time back together */
  lemma Recompose(x: nat)
    ensures x == (x / 3_600_000) * 3_600_000 + ((x % 3_600_000) / 60_000) * 60_000
                 + ((x % 60_000) / 1000) * 1000 + x % 1000
    ensures (x % 3_600_000) / 60_000 < 60 && (x % 60_000) / 1000 < 60
  {
    var r := x % 3_600_000;
    assert x == (x / 3_600_000) * 3_600_000 + r;
    DivDiv(x, 60_000, 60);
    assert r == (r / 60_000) * 60_000 + x % 60_000;
    DivDiv(x, 1000, 60);
    var u := x % 60_000;
    assert u == (u / 1000) * 1000 + x % 1000;
  }

  /** Fields in range are what `FormatFull` computes from the time they add up to */
  lemma Decompose(h: nat, m: nat, s: nat, ms: nat, x: nat)
    requires m < 60 && s < 60 && ms < 1000
    requires x == h * 3_600_000 + m * 60_000 + s * 1000 + ms
    ensures FormatFull(Millis(x)) == Clock(h, m, s, ms)
  {
    var secs := h * 3600 + m * 60 + s;
    assert x == secs * 1000 + ms;
    DivUnique(x, 1000, secs, ms);
    DivUnique(secs, 3600, h, m * 60 + s);
    DivUnique(secs, 60, h * 60 + m, s);
    DivUnique(h * 60 + m, 60, h, m);
    assert x / 1000 == secs && x % 1000 == ms;
    assert secs / 3600 == h && (secs / 60) % 60 == m && secs % 60 == s;
  }

  // ---------------------------------------------------------------------------
  // The text a clock prints

  /** Where the separators and fields of a clock text sit, for fields of any content */
  lemma ClockLayout(hf: string, mf: string, sf: string, msf: string)
    requires |mf| == 2 && |sf| == 2 && |msf| == 3
    ensures var r := hf + ":" + mf + ":" + sf + "." + msf;
      && |r| == |hf| + 10
      && r[|r| - 10] == ':' && r[|r| - 7] == ':' && r[|r| - 4] == '.'
      && r[..|r| - 10] == hf && r[|r| - 9..|r| - 7] == mf
      && r[|r| - 6..|r| - 4] == sf && r[|r| - 3..] == msf
  {
    var tail := ":" + mf + ":" + sf + "." + msf;
    var r := hf + ":" + mf + ":" + sf + "." + msf;
    assert r == hf + tail;
    assert r[..|r| - 10] == hf;
    assert r[|r| - 10..] == tail;
  }

  /** Any clock text ends in `:MM:SS.mmm` */
  lemma ClockSlices(h: nat, m: nat, s: nat, ms: nat)
    requires m < 100 && s < 100 && ms < 1000
    ensures var r := Clock(h, m, s, ms);
      && |r| == |Field(h, 2)| + 10
      && r[|r| - 10] == ':' && r[|r| - 7] == ':' && r[|r| - 4] == '.'
      && r[..|r| - 10] == Field(h, 2) && r[|r| - 9..|r| - 7] == Field(m, 2)
      && r[|r| - 6..|r| - 4] == Field(s, 2) && r[|r| - 3..] == Field(ms, 3)
  {
    TwoDigits(m);
    TwoDigits(s);
    ThreeDigits(ms);
    ClockLayout(Field(h, 2), Field(m, 2), Field(s, 2), Field(ms, 3));
  }

  /**
    `r` reads as the clock `h:m:s.ms`: separators at fixed distances from the end, and each
    field all digits with the value given.
  */
  predicate ClockReads(r: string, h: nat, m: nat, s: nat, ms: nat) {
    && |r| >= 12
    && r[|r| - 10] == ':' && r[|r| - 7] == ':' && r[|r| - 4] == '.'
    && AllDigits(r[..|r| - 10]) && DigitsValue(r[..|r| - 10]) == h
    && AllDigits(r[|r| - 9..|r| - 7]) && DigitsValue(r[|r| - 9..|r| - 7]) == m
    && AllDigits(r[|r| - 6..|r| - 4]) && DigitsValue(r[|r| - 6..|r| - 4]) == s
    && AllDigits(r[|r| - 3..]) && DigitsValue(r[|r| - 3..]) == ms
  }

  /** Each field of a clock text reads back as its number */
  lemma ClockShape(h: nat, m: nat, s: nat, ms: nat)
    requires m < 100 && s < 100 && ms < 1000
    ensures ClockReads(Clock(h, m, s, ms), h, m, s, ms)
  {
    ClockSlices(h, m, s, ms);
    FieldValue(h, 2);
    FieldValue(m, 2);
    FieldValue(s, 2);
    FieldValue(ms, 3);
  }

  /** Two digit characters read back as the number they spell */
  lemma PairOf(n: nat)
    requires n < 100
    ensures Pair(DigitChar(n / 10), DigitChar(n % 10)) == n
  {
  }

  /** A canonical string is left alone by the fraction padding and reads as its fields */
  lemma ParseCanonical(p: string)
    requires Canonical(p)
    ensures ParseFull(p) == Some(CanonicalValue(p))
  {
    assert PadFraction(p) == p;
  }

  /** The twelve characters `h1h0:m1m0:s1s0.f2f1f0` */
  function Spelled(h1: nat, h0: nat, m1: nat, m0: nat, s1: nat, s0: nat, f2: nat, f1: nat, f0: nat): (p: string)
    requires h1 < 10 && h0 < 10 && m1 < 10 && m0 < 10 && s1 < 10 && s0 < 10
    requires f2 < 10 && f1 < 10 && f0 < 10
    ensures Canonical(p)
  {
    [DigitChar(h1), DigitChar(h0), ':', DigitChar(m1), DigitChar(m0), ':',
     DigitChar(s1), DigitChar(s0), '.', DigitChar(f2), DigitChar(f1), DigitChar(f0)]
  }

  /** Spelled digits parse as the time their place values add up to */
  lemma SpelledParses(h1: nat, h0: nat, m1: nat, m0: nat, s1: nat, s0: nat, f2: nat, f1: nat, f0: nat, x: nat)
    requires h1 < 10 && h0 < 10 && m1 < 10 && m0 < 10 && s1 < 10 && s0 < 10
    requires f2 < 10 && f1 < 10 && f0 < 10
    requires x == (10 * h1 + h0) * 3_600_000 + (10 * m1 + m0) * 60_000 + (10 * s1 + s0) * 1000
                  + 100 * f2 + 10 * f1 + f0
    ensures ParseFull(Spelled(h1, h0, m1, m0, s1, s0, f2, f1, f0)) == Some(x)
  {
    var p := Spelled(h1, h0, m1, m0, s1, s0, f2, f1, f0);
    ParseCanonical(p);
    assert CanonicalValue(p) == x;
  }

  /** A three-digit number is the sum of its digits' place values */
  lemma ThreePlaces(n: nat)
    requires n < 1000
    ensures n == 100 * (n / 100) + 10 * ((n / 10) % 10) + n % 10
  {
    DivDiv(n, 10, 10);
  }

  /** A clock with a two-digit hour parses back to the time its fields add up to */
  lemma ClockParses(h: nat, m: nat, s: nat, ms: nat, x: nat)
    requires h < 100 && m < 60 && s < 60 && ms < 1000
    requires x == h * 3_600_000 + m * 60_000 + s * 1000 + ms
    ensures Canonical(Clock(h, m, s, ms))
    ensures ParseFull(Clock(h, m, s, ms)) == Some(x)
  {
    var h1, h0, m1, m0, s1, s0 := h / 10, h % 10, m / 10, m % 10, s / 10, s % 10;
    var f2, f1, f0 := ms / 100, (ms / 10) % 10, ms % 10;
    ThreePlaces(ms);
    assert h == 10 * h1 + h0 && m == 10 * m1 + m0 && s == 10 * s1 + s0;
    ClockText(h, m, s, ms);
    SpelledParses(h1, h0, m1, m0, s1, s0, f2, f1, f0, x);
  }

  // ---------------------------------------------------------------------------
  // Properties of the formatters

  /** src/utils/timeFormat.js prints the same text as components/RegionList.js for every time
      and for null; only NaN/undefined differ. */
  lemma FormatsAgree(t: TimeValue)
    ensures t.NotANumber? <==> FormatUnguarded(t) != FormatFull(t)
  {
    match t
    case Millis(x) => FieldsAgree(x);
    case Nil =>
    case NotANumber =>
      ClockText(0, 0, 0, 0);
      assert |FormatFull(t)| != |NaNText|;
  }

  /**
    For every time the output is `H…H:MM:SS.mmm`: the hour field is `floor(t / 1 h)` padded to
    at least two digits, minutes and seconds are below 60 and the millisecond field has three
    digits.
  */
  lemma FormatFields(x: nat)
    ensures ClockReads(FormatUnguarded(Millis(x)), x / 3_600_000, (x % 3_600_000) / 60_000,
                       (x % 60_000) / 1000, x % 1000)
    ensures (x % 3_600_000) / 60_000 < 60 && (x % 60_000) / 1000 < 60
  {
    var h, m, s, ms := x / 3_600_000, (x % 3_600_000) / 60_000, (x % 60_000) / 1000, x % 1000;
    FieldBounds(x);
    ClockFields(FormatUnguarded(Millis(x)), h, m, s, ms);
  }

  /** The fields of a clock text, read back from a text known to be that clock */
  lemma ClockFields(r: string, h: nat, m: nat, s: nat, ms: nat)
    requires m < 60 && s < 60 && ms < 1000 && r == Clock(h, m, s, ms)
    ensures ClockReads(r, h, m, s, ms)
  {
    ClockShape(h, m, s, ms);
  }

  /** Below 100 hours the text is exactly twelve characters, `dd:dd:dd.ddd` */
  lemma FormatCanonical(x: nat)
    requires x < HundredHours
    ensures Canonical(FormatFull(Millis(x))) && Canonical(FormatUnguarded(Millis(x)))
  {
    var h, m, s, ms := x / 3_600_000, (x % 3_600_000) / 60_000, (x % 60_000) / 1000, x % 1000;
    FieldsAgree(x);
    Recompose(x);
    assert FormatUnguarded(Millis(x)) == Clock(h, m, s, ms);
    assert FormatFull(Millis(x)) == Clock(h, m, s, ms);
    ClockParses(h, m, s, ms, x);
  }

  /** The minute and second fields of the unguarded formatter are below 60 */
  lemma FieldBounds(x: nat)
    ensures (x % 3_600_000) / 60_000 < 60 && (x % 60_000) / 1000 < 60
  {
  }

  /** Clock text with an hour field of three or more characters is refused by the parser */
  lemma WideText(hf: string, mf: string, sf: string, msf: string)
    requires |hf| >= 3 && |mf| == 2 && |sf| == 2 && |msf| == 3 && AllDigits(msf)
    ensures |hf + ":" + mf + ":" + sf + "." + msf| >= 13
    ensures ParseFull(hf + ":" + mf + ":" + sf + "." + msf) == None
  {
    var r := hf + ":" + mf + ":" + sf + "." + msf;
    assert r[|r| - 3] == msf[0] && r[|r| - 2] == msf[1];
    assert PadFraction(r) == r;
  }

  /** A clock whose hour has three or more digits is at least 13 characters and does not parse */
  lemma WideClock(h: nat, m: nat, s: nat, ms: nat)
    requires h >= 100 && m < 100 && s < 100 && ms < 1000
    ensures |Clock(h, m, s, ms)| >= 13
    ensures ParseFull(Clock(h, m, s, ms)) == None
  {
    FieldValue(ms, 3);
    WideText(Field(h, 2), Field(m, 2), Field(s, 2), Field(ms, 3));
  }

  /** From 100 hours on the hour field has three digits, so the text no longer parses */
  lemma FormatWidensAtHundredHours(x: nat)
    requires x >= HundredHours
    ensures |FormatFull(Millis(x))| >= 13
    ensures ParseFull(FormatFull(Millis(x))) == None
  {
    var t := x / 1000;
    assert t >= 360_000;
    WideClock(t / 3600, (t / 60) % 60, t % 60, x % 1000);
  }

  // ---------------------------------------------------------------------------
  // Properties of the parser

  /** The fields `FormatFull` prints put the whole time back together */
  lemma RecomposeFull(x: nat)
    ensures x == ((x / 1000) / 3600) * 3_600_000 + (((x / 1000) / 60) % 60) * 60_000
                 + ((x / 1000) % 60) * 1000 + x % 1000
  {
    var t := x / 1000;
    DivDiv(t, 60, 60);
    assert t == (t / 60) * 60 + t % 60;
    assert t / 60 == ((t / 60) / 60) * 60 + (t / 60) % 60;
  }

  /** Round trip: below 100 hours, parsing the formatted text recovers the time exactly. */
  lemma RoundTrip(x: nat)
    requires x < HundredHours
    ensures ParseFull(FormatFull(Millis(x))) == Some(x)
  {
    var t := x / 1000;
    var h, m, s, ms := t / 3600, (t / 60) % 60, t % 60, x % 1000;
    RecomposeFull(x);
    assert FormatFull(Millis(x)) == Clock(h, m, s, ms);
    ClockParses(h, m, s, ms, x);
  }

  /**
    The other direction: a canonical string whose minute and second fields are below 60 is
    exactly the text the formatter prints for the time it parses to.
  */
  lemma CanonicalRoundTrip(p: string)
    requires Canonical(p) && Pair(p[3], p[4]) < 60 && Pair(p[6], p[7]) < 60
    ensures ParseFull(p).Some? && FormatFull(Millis(ParseFull(p).value)) == p
  {
    var h, m, s := Pair(p[0], p[1]), Pair(p[3], p[4]), Pair(p[6], p[7]);
    var ms := 100 * DigitValue(p[9]) + Pair(p[10], p[11]);
    ParseCanonical(p);
    Decompose(h, m, s, ms, CanonicalValue(p));
    CanonicalIsClock(p);
  }

  /** Fields given digit by digit print as exactly those digits */
  lemma ClockOfDigits(h: nat, m: nat, s: nat, ms: nat,
                      h1: nat, h0: nat, m1: nat, m0: nat, s1: nat, s0: nat, f2: nat, f1: nat, f0: nat)
    requires h1 < 10 && h0 < 10 && m1 < 10 && m0 < 10 && s1 < 10 && s0 < 10
    requires f2 < 10 && f1 < 10 && f0 < 10
    requires h == 10 * h1 + h0 && m == 10 * m1 + m0 && s == 10 * s1 + s0
    requires ms == 100 * f2 + 10 * f1 + f0
    ensures Clock(h, m, s, ms) == Spelled(h1, h0, m1, m0, s1, s0, f2, f1, f0)
  {
    FieldDigits(h, m, s, ms, h1, h0, m1, m0, s1, s0, f2, f1, f0);
    ClockText(h, m, s, ms);
  }

  /** The digits of fields given by their place values */
  lemma FieldDigits(h: nat, m: nat, s: nat, ms: nat,
                    h1: nat, h0: nat, m1: nat, m0: nat, s1: nat, s0: nat, f2: nat, f1: nat, f0: nat)
    requires h1 < 10 && h0 < 10 && m1 < 10 && m0 < 10 && s1 < 10 && s0 < 10
    requires f2 < 10 && f1 < 10 && f0 < 10
    requires h == 10 * h1 + h0 && m == 10 * m1 + m0 && s == 10 * s1 + s0
    requires ms == 100 * f2 + 10 * f1 + f0
    ensures h / 10 == h1 && h % 10 == h0 && m / 10 == m1 && m % 10 == m0 && s / 10 == s1 && s % 10 == s0
    ensures ms / 100 == f2 && (ms / 10) % 10 == f1 && ms % 10 == f0
  {
    DivUnique(h, 10, h1, h0);
    DivUnique(m, 10, m1, m0);
    DivUnique(s, 10, s1, s0);
    DivUnique(ms, 100, f2, 10 * f1 + f0);
    DivUnique(ms, 10, 10 * f2 + f1, f0);
    DivUnique(10 * f2 + f1, 10, f2, f1);
  }

  /** A canonical string spelled back from the values of its digits */
  lemma CanonicalSpelled(p: string)
    requires Canonical(p)
    ensures p == Spelled(DigitValue(p[0]), DigitValue(p[1]), DigitValue(p[3]), DigitValue(p[4]),
                         DigitValue(p[6]), DigitValue(p[7]), DigitValue(p[9]), DigitValue(p[10]),
                         DigitValue(p[11]))
  {
  }

  /** A canonical string is the clock of its own fields */
  lemma CanonicalIsClock(p: string)
    requires Canonical(p)
    ensures p == Clock(Pair(p[0], p[1]), Pair(p[3], p[4]), Pair(p[6], p[7]),
                       100 * DigitValue(p[9]) + Pair(p[10], p[11]))
  {
    CanonicalSpelled(p);
    ClockOfDigits(Pair(p[0], p[1]), Pair(p[3], p[4]), Pair(p[6], p[7]),
                  100 * DigitValue(p[9]) + Pair(p[10], p[11]),
                  DigitValue(p[0]), DigitValue(p[1]), DigitValue(p[3]), DigitValue(p[4]),
                  DigitValue(p[6]), DigitValue(p[7]), DigitValue(p[9]), DigitValue(p[10]),
                  DigitValue(p[11]));
  }

  /** A trailing fraction of one or two digits reads as if right-padded with zeros. */
  lemma ShortFraction(p: string)
    requires Canonical(p)
    ensures p[11] == '0' ==> ParseFull(p[..11]) == ParseFull(p)
    ensures p[10] == '0' && p[11] == '0' ==> ParseFull(p[..10]) == ParseFull(p)
  {
    if p[11] == '0' {
      assert PadFraction(p[..11]) == p;
    }
    if p[10] == '0' && p[11] == '0' {
      assert PadFraction(p[..10]) == p;
    }
  }

  /** "00:00:01.5" is one and a half seconds; "00:00:01" (no fraction) is not a time. */
  lemma ParseExamples()
    ensures ParseFull("00:00:01.5") == Some(1500)
    ensures ParseFull("00:00:01") == None
    ensures ParseFull("") == Some(0)
  {
    var p := "00:00:01.500";
    assert Canonical(p);
    assert PadFraction("00:00:01.5") == p;
  }
}
