/**
 SubRip timecodes (`HH:MM:SS,mmm`) as `formatSrtTime` produces them
 (node.js:437-444, server.js:276-282; the two are the same function).
 Each field is computed with `Math.floor` from JavaScript's `%`, whose
 remainder takes the sign of the dividend. Seconds are exact reals here.
 */
module Timecode {
  import opened Wrappers
  import opened Numerals
  import opened LexOrder

  /** `Math.trunc`: rounds toward zero. */
  function Trunc(x: real): int
  {
    if x >= 0.0 then x.Floor else -((-x).Floor)
  }

  /** JavaScript `x % n` for `n > 0`: the remainder of truncated division. */
  function JsRem(x: real, n: real): real
    requires n > 0.0
  {
    x - n * (Trunc(x / n) as real)
  }

  /** The four numbers a timecode shows. */
  datatype Fields = Fields(hours: int, minutes: int, secs: int, millis: int)

  /** The fields `formatSrtTime` computes from a number of seconds. */
  function FieldsOf(seconds: real): Fields
  {
    Fields(
      (seconds / 3600.0).Floor,
      (JsRem(seconds, 3600.0) / 60.0).Floor,
      JsRem(seconds, 60.0).Floor,
      (JsRem(seconds, 1.0) * 1000.0).Floor)
  }

  /** `n.toString().padStart(w, '0')`. */
  function Pad(n: int, w: nat): string
  {
    PadStart(IntToString(n), w, '0')
  }

  /** The template literal of `formatSrtTime`: each field padded, then `:`, `:` and `,` between them. */
  function Render(f: Fields): (r: string)
    ensures |r| >= 12
  {
    Pad(f.hours, 2) + ":" + Pad(f.minutes, 2) + ":" + Pad(f.secs, 2) + "," + Pad(f.millis, 3)
  }

  /** `formatSrtTime(seconds)`. */
  function Format(seconds: real): string
  {
    Render(FieldsOf(seconds))
  }

  /** The whole number of milliseconds in `seconds`, rounded down. */
  function Millis(seconds: real): int
  {
    (seconds * 1000.0).Floor
  }

  /** A millisecond count split into hours, minutes, seconds and milliseconds. */
  function MillisFields(t: nat): Fields
  {
    Fields(t / 3600000, (t % 3600000) / 60000, (t % 60000) / 1000, t % 1000)
  }

  /** Division with remainder has one answer: `q` and `r` are `t / n` and `t % n`. */
  lemma DivModUnique(t: int, n: int, q: int, r: int)
    requires n > 0 && 0 <= r < n && t == q * n + r
    ensures t / n == q && t % n == r
  {
    var q', r' := t / n, t % n;
    assert t == q' * n + r';
    var d := q - q';
    assert d * n == r' - r;
    assert d > 0 ==> d * n >= n;
    assert d < 0 ==> d * n <= -n;
  }

  /** The fields are in range and put back together give the millisecond count. */
  lemma MillisFieldsReconstruct(t: nat)
    ensures var f := MillisFields(t);
      && f.hours >= 0 && 0 <= f.minutes < 60 && 0 <= f.secs < 60 && 0 <= f.millis < 1000
      && f.hours * 3600000 + f.minutes * 60000 + f.secs * 1000 + f.millis == t
  {
    var h, r1 := t / 3600000, t % 3600000;
    var m, r2 := r1 / 60000, r1 % 60000;
    DivModUnique(t, 60000, 60 * h + m, r2);
    var sec, r3 := r2 / 1000, r2 % 1000;
    DivModUnique(t, 1000, 60 * (60 * h + m) + sec, r3);
  }

  /** Rounding `(t + f) / n` down, for a whole `t >= 0` and a fraction `0 <= f < 1`, is `t / n`. */
  lemma FloorOfQuotient(t: nat, f: real, n: nat)
    requires 0.0 <= f < 1.0 && n > 0
    ensures ((t as real + f) / (n as real)).Floor == t / n
  {
    var q, r := t / n, t % n;
    var x := (t as real + f) / (n as real);
    var nr := n as real;
    assert x * nr == t as real + f;
    assert (t as real) == (q as real) * nr + (r as real);
    assert 0.0 <= r as real + f < nr;
    var y := x - q as real;
    assert y * nr == r as real + f;
    assert y >= 1.0 ==> y * nr >= nr;
    assert y < 0.0 ==> y * nr < 0.0;
  }

  /**
   For non-negative seconds the fields of `formatSrtTime` are exactly the
   decomposition of the truncated millisecond count.
   */
  lemma FieldsOfMillis(seconds: real)
    requires seconds >= 0.0
    ensures Millis(seconds) >= 0
    ensures FieldsOf(seconds) == MillisFields(Millis(seconds))
  {
    var t: nat := Millis(seconds);
    var f := seconds * 1000.0 - t as real;
    assert seconds == (t as real + f) / 1000.0;
    HoursOfMillis(t, f);
    MinutesOfMillis(t, f);
    SecsOfMillis(t, f);
    MillisOfMillis(t, f);
  }

  lemma HoursOfMillis(t: nat, f: real)
    requires 0.0 <= f < 1.0
    ensures FieldsOf((t as real + f) / 1000.0).hours == t / 3600000
  {
    var seconds := (t as real + f) / 1000.0;
    assert seconds / 3600.0 == (t as real + f) / 3600000.0;
    FloorOfQuotient(t, f, 3600000);
  }

  lemma MinutesOfMillis(t: nat, f: real)
    requires 0.0 <= f < 1.0
    ensures FieldsOf((t as real + f) / 1000.0).minutes == (t % 3600000) / 60000
  {
    var seconds := (t as real + f) / 1000.0;
    assert seconds / 3600.0 == (t as real + f) / 3600000.0;
    FloorOfQuotient(t, f, 3600000);
    var r1 := t % 3600000;
    assert JsRem(seconds, 3600.0) / 60.0 == (r1 as real + f) / 60000.0;
    FloorOfQuotient(r1, f, 60000);
  }

  lemma SecsOfMillis(t: nat, f: real)
    requires 0.0 <= f < 1.0
    ensures FieldsOf((t as real + f) / 1000.0).secs == (t % 60000) / 1000
  {
    var seconds := (t as real + f) / 1000.0;
    assert seconds / 60.0 == (t as real + f) / 60000.0;
    FloorOfQuotient(t, f, 60000);
    var r2 := t % 60000;
    assert JsRem(seconds, 60.0) == (r2 as real + f) / 1000.0;
    FloorOfQuotient(r2, f, 1000);
  }

  lemma MillisOfMillis(t: nat, f: real)
    requires 0.0 <= f < 1.0
    ensures FieldsOf((t as real + f) / 1000.0).millis == t % 1000
  {
    var seconds := (t as real + f) / 1000.0;
    assert seconds / 1.0 == (t as real + f) / 1000.0;
    FloorOfQuotient(t, f, 1000);
    var r3 := t % 1000;
    assert JsRem(seconds, 1.0) * 1000.0 == r3 as real + f;
    FloorOfQuotient(r3, f, 1);
  }

  /**
   For `seconds >= 0`: hours is the number of whole hours, minutes and seconds
   are below 60, milliseconds below 1000, and together they give back the input
   truncated to the millisecond.
   */
  lemma FieldsBounds(seconds: real)
    requires seconds >= 0.0
    ensures var f := FieldsOf(seconds);
      && f.hours == (seconds / 3600.0).Floor && f.hours >= 0
      && 0 <= f.minutes < 60 && 0 <= f.secs < 60 && 0 <= f.millis < 1000
      && f.hours * 3600000 + f.minutes * 60000 + f.secs * 1000 + f.millis == (seconds * 1000.0).Floor
  {
    FieldsOfMillis(seconds);
    MillisFieldsReconstruct(Millis(seconds));
  }

  /** The timecode of a millisecond count whose hours fit in two digits, built right to left. */
  function Fixed(f: Fields): string
    requires 0 <= f.hours && 0 <= f.minutes && 0 <= f.secs && 0 <= f.millis
  {
    Digits(f.hours, 2) + (":" + (Digits(f.minutes, 2) + (":" + (Digits(f.secs, 2) + ("," + Digits(f.millis, 3))))))
  }

  /** A number below `10^w` pads to its `w`-digit numeral. */
  lemma PadFits(n: int, w: nat)
    requires 1 <= w && 0 <= n < Pow10(w)
    ensures Pad(n, w) == Digits(n, w)
  {
    PadStartIsDigits(n, w);
  }

  /** Fields within their ranges, hours below 100, render at fixed width. */
  lemma RenderFixed(f: Fields)
    requires 0 <= f.hours < 100 && 0 <= f.minutes < 60 && 0 <= f.secs < 60 && 0 <= f.millis < 1000
    ensures Render(f) == Fixed(f)
  {
    assert Pow10(2) == 100 && Pow10(3) == 1000;
    PadFits(f.hours, 2);
    PadFits(f.minutes, 2);
    PadFits(f.secs, 2);
    PadFits(f.millis, 3);
    Regroup(Digits(f.hours, 2), Digits(f.minutes, 2), Digits(f.secs, 2), Digits(f.millis, 3));
  }

  /**
   A sequence-associativity step, kept as a lemma over plain strings so that the
   padded fields of the caller stay out of the regrouping.
   */
  lemma Regroup(a: string, b: string, c: string, d: string)
    ensures a + ":" + b + ":" + c + "," + d == a + (":" + (b + (":" + (c + ("," + d)))))
  {
  }

  /** Below 100 hours every field is zero-padded to its fixed width: the timecode is 12 characters. */
  lemma FormatIsFixed(seconds: real)
    requires 0.0 <= seconds < 360000.0
    ensures Millis(seconds) >= 0
    ensures Format(seconds) == Fixed(MillisFields(Millis(seconds)))
    ensures |Format(seconds)| == 12
  {
    FieldsOfMillis(seconds);
    var t: nat := Millis(seconds);
    MillisFieldsReconstruct(t);
    assert t < 360000000;
    RenderFixed(MillisFields(t));
  }

  /** Later millisecond counts give strictly later fixed-width timecodes. */
  lemma FixedLt(a: nat, b: nat)
    requires a < b < 360000000
    ensures Lt(Fixed(MillisFields(a)), Fixed(MillisFields(b)))
  {
    MillisFieldsReconstruct(a);
    MillisFieldsReconstruct(b);
    var x, y := MillisFields(a), MillisFields(b);
    var tx3 := "," + Digits(x.millis, 3);
    var ty3 := "," + Digits(y.millis, 3);
    var tx2 := ":" + (Digits(x.secs, 2) + tx3);
    var ty2 := ":" + (Digits(y.secs, 2) + ty3);
    var tx1 := ":" + (Digits(x.minutes, 2) + tx2);
    var ty1 := ":" + (Digits(y.minutes, 2) + ty2);
    if x.hours < y.hours {
      DigitsLt(x.hours, y.hours, 2);
      LtEqualLengthPrefix(Digits(x.hours, 2), Digits(y.hours, 2), tx1, ty1);
    } else {
      assert x.hours == y.hours;
      if x.minutes < y.minutes {
        DigitsLt(x.minutes, y.minutes, 2);
        LtEqualLengthPrefix(Digits(x.minutes, 2), Digits(y.minutes, 2), tx2, ty2);
      } else {
        assert x.minutes == y.minutes;
        if x.secs < y.secs {
          DigitsLt(x.secs, y.secs, 2);
          LtEqualLengthPrefix(Digits(x.secs, 2), Digits(y.secs, 2), tx3, ty3);
        } else {
          assert x.secs == y.secs && x.millis < y.millis;
          DigitsLt(x.millis, y.millis, 3);
          LtCommonPrefix(",", Digits(x.millis, 3), Digits(y.millis, 3));
          LtCommonPrefix(Digits(x.secs, 2), tx3, ty3);
        }
        LtCommonPrefix(":", Digits(x.secs, 2) + tx3, Digits(y.secs, 2) + ty3);
        LtCommonPrefix(Digits(x.minutes, 2), tx2, ty2);
      }
      LtCommonPrefix(":", Digits(x.minutes, 2) + tx2, Digits(y.minutes, 2) + ty2);
      LtCommonPrefix(Digits(x.hours, 2), tx1, ty1);
    }
  }

  /**
   Below 100 hours, timecodes sort as strings exactly as the times they show:
   `Format(s) <= Format(t)` holds if and only if `s` is at most `t` once both are
   truncated to the millisecond.
   */
  lemma FormatOrder(s: real, t: real)
    requires 0.0 <= s < 360000.0 && 0.0 <= t < 360000.0
    ensures Le(Format(s), Format(t)) <==> Millis(s) <= Millis(t)
  {
    FormatIsFixed(s);
    FormatIsFixed(t);
    FixedOrder(Millis(s), Millis(t));
  }

  /** Fixed-width timecodes compare as strings exactly as their millisecond counts do. */
  lemma FixedOrder(a: nat, b: nat)
    requires a < 360000000 && b < 360000000
    ensures Le(Fixed(MillisFields(a)), Fixed(MillisFields(b))) <==> a <= b
  {
    if a < b {
      FixedLt(a, b);
    } else if b < a {
      FixedLt(b, a);
      LtNotLe(Fixed(MillisFields(b)), Fixed(MillisFields(a)));
    }
  }

  /** Below 100 hours `formatSrtTime` is monotone with respect to string order. */
  lemma FormatMonotone(s: real, t: real)
    requires 0.0 <= s <= t < 360000.0
    ensures Le(Format(s), Format(t))
  {
    assert s * 1000.0 <= t * 1000.0;
    FormatOrder(s, t);
  }

  /**
   From 100 hours on the hours field grows a third digit and string order no
   longer follows time: the timecode of 100 hours sorts before that of 99 hours 59 minutes 59 seconds.
   */
  lemma FormatOrderBreaksAtHundredHours()
    ensures Lt(Format(360000.0), Format(359999.0))
  {
    FieldsOfMillis(360000.0);
    FieldsOfMillis(359999.0);
    assert FieldsOf(360000.0).hours == 100;
    assert FieldsOf(359999.0).hours == 99;
    assert NatToString(100)[0] == '1';
    assert NatToString(99)[0] == '9';
    assert Format(360000.0)[0] == '1';
    assert Format(359999.0)[0] == '9';
  }

  lemma FixedZero()
    ensures Fixed(MillisFields(0)) == "00:00:00,000"
  {
    assert MillisFields(0) == Fields(0, 0, 0, 0);
    assert Digits(0, 2) == "00" && Digits(0, 3) == "000";
  }

  /** `formatSrtTime(0)`. */
  lemma FormatZero()
    ensures Format(0.0) == "00:00:00,000"
  {
    FormatIsFixed(0.0);
    FixedZero();
  }

  lemma FixedExample()
    ensures Fixed(MillisFields(3661500)) == "01:01:01,500"
  {
    var f := Fields(1, 1, 1, 500);
    assert MillisFields(3661500) == f;
    DigitsExample();
    var tail := ":" + ("01" + ("," + "500"));
    assert tail == ":01,500";
    assert Fixed(f) == "01" + (":" + ("01" + tail));
  }

  lemma DigitsExample()
    ensures Digits(1, 2) == "01" && Digits(500, 3) == "500"
  {
    assert Digits(0, 1) == "0";
    assert Digits(5, 1) == "5";
    assert Digits(50, 2) == "50";
  }

  /** `formatSrtTime(3661.5)`: one hour, one minute, one and a half seconds. */
  lemma FormatExample()
    ensures Format(3661.5) == "01:01:01,500"
  {
    FormatIsFixed(3661.5);
    assert Millis(3661.5) == 3661500;
    FixedExample();
  }

  /** A field padded with zeros is all digits. */
  lemma PadDigits(n: int, w: nat)
    requires n >= 0
    ensures AllDigits(Pad(n, w))
  {
    NatToStringDigits(n);
    PadStartDigits(NatToString(n), w);
  }

  /** Digits are neither spaces nor line breaks. */
  lemma DigitsPlain(s: string)
    requires AllDigits(s)
    ensures ' ' !in s && '\n' !in s
  {
  }

  /** The timecode of a non-negative time holds no space and no line break. */
  lemma FormatPlain(seconds: real)
    requires seconds >= 0.0
    ensures ' ' !in Format(seconds) && '\n' !in Format(seconds)
  {
    FieldsBounds(seconds);
    var f := FieldsOf(seconds);
    RenderPlain(f);
  }

  lemma RenderPlain(f: Fields)
    requires 0 <= f.hours && 0 <= f.minutes && 0 <= f.secs && 0 <= f.millis
    ensures ' ' !in Render(f) && '\n' !in Render(f)
  {
    PadDigits(f.hours, 2);
    PadDigits(f.minutes, 2);
    PadDigits(f.secs, 2);
    PadDigits(f.millis, 3);
    DigitsPlain(Pad(f.hours, 2));
    DigitsPlain(Pad(f.minutes, 2));
    DigitsPlain(Pad(f.secs, 2));
    DigitsPlain(Pad(f.millis, 3));
  }

  /**
   Reads a timecode back into milliseconds: any number of hour digits, then
   `:MM:SS,mmm`. Fails on anything else.
   */
  function ParseTimecode(t: string): Option<int>
  {
    var n := |t|;
    if n < 12 || t[n - 10] != ':' || t[n - 7] != ':' || t[n - 4] != ',' then None
    else ParseFields(t[..n - 10], t[n - 9..n - 7], t[n - 6..n - 4], t[n - 3..])
  }

  /** The millisecond count shown by the four digit groups of a timecode, if they are all digits. */
  function ParseFields(hh: string, mm: string, ss: string, ms: string): Option<int>
  {
    var h, m, s, milli := ParseDigits(hh), ParseDigits(mm), ParseDigits(ss), ParseDigits(ms);
    if h.Some? && m.Some? && s.Some? && milli.Some?
    then Some(h.value * 3600000 + m.value * 60000 + s.value * 1000 + milli.value)
    else None
  }

  /** Reading `HH:MM:SS,mmm` hands exactly its four digit groups to `ParseFields`. */
  lemma ParseLayoutGroups(hh: string, mm: string, ss: string, ms: string)
    requires |hh| >= 2 && |mm| == 2 && |ss| == 2 && |ms| == 3
    ensures ParseTimecode(hh + ":" + mm + ":" + ss + "," + ms) == ParseFields(hh, mm, ss, ms)
  {
    LayoutSlices(hh, mm, ss, ms);
  }

  /** Where the groups and separators of `HH:MM:SS,mmm` sit, counted from the end. */
  lemma LayoutSlices(hh: string, mm: string, ss: string, ms: string)
    requires |hh| >= 2 && |mm| == 2 && |ss| == 2 && |ms| == 3
    ensures var t := hh + ":" + mm + ":" + ss + "," + ms; var n := |t|;
      && n == |hh| + 10 && n >= 12
      && t[..n - 10] == hh && t[n - 9..n - 7] == mm && t[n - 6..n - 4] == ss && t[n - 3..] == ms
      && t[n - 10] == ':' && t[n - 7] == ':' && t[n - 4] == ','
  {
    var t := hh + ":" + mm + ":" + ss + "," + ms;
    var n := |t|;
    assert t[..n - 10] == hh;
    assert t[n - 9..n - 7] == mm;
    assert t[n - 6..n - 4] == ss;
    assert t[n - 3..] == ms;
  }

  /** Rendered fields in range read back as the millisecond count they make up. */
  lemma ParseRender(f: Fields)
    requires 0 <= f.hours && 0 <= f.minutes < 60 && 0 <= f.secs < 60 && 0 <= f.millis < 1000
    ensures ParseTimecode(Render(f)) == Some(f.hours * 3600000 + f.minutes * 60000 + f.secs * 1000 + f.millis)
  {
    RenderGroups(f);
    PaddedFieldsValue(f);
  }

  /** The padded fields, read back, make up the millisecond count. */
  lemma PaddedFieldsValue(f: Fields)
    requires 0 <= f.hours && 0 <= f.minutes < 60 && 0 <= f.secs < 60 && 0 <= f.millis < 1000
    ensures ParseFields(Pad(f.hours, 2), Pad(f.minutes, 2), Pad(f.secs, 2), Pad(f.millis, 3))
      == Some(f.hours * 3600000 + f.minutes * 60000 + f.secs * 1000 + f.millis)
  {
    PaddedDigits(f);
    ParseFieldsValue(Pad(f.hours, 2), Pad(f.minutes, 2), Pad(f.secs, 2), Pad(f.millis, 3), f.hours, f.minutes, f.secs, f.millis);
  }

  /** Each padded field reads back as itself. */
  lemma PaddedDigits(f: Fields)
    requires 0 <= f.hours && 0 <= f.minutes && 0 <= f.secs && 0 <= f.millis
    ensures ParseDigits(Pad(f.hours, 2)) == Some(f.hours) && ParseDigits(Pad(f.minutes, 2)) == Some(f.minutes)
    ensures ParseDigits(Pad(f.secs, 2)) == Some(f.secs) && ParseDigits(Pad(f.millis, 3)) == Some(f.millis)
  {
    ParsePad(f.hours, 2, Pad(f.hours, 2));
    ParsePad(f.minutes, 2, Pad(f.minutes, 2));
    ParsePad(f.secs, 2, Pad(f.secs, 2));
    ParsePad(f.millis, 3, Pad(f.millis, 3));
  }

  /** Reading a rendered timecode hands its four padded fields to `ParseFields`. */
  lemma RenderGroups(f: Fields)
    requires 0 <= f.hours && 0 <= f.minutes < 60 && 0 <= f.secs < 60 && 0 <= f.millis < 1000
    ensures ParseTimecode(Render(f)) == ParseFields(Pad(f.hours, 2), Pad(f.minutes, 2), Pad(f.secs, 2), Pad(f.millis, 3))
  {
    assert Pow10(2) == 100 && Pow10(3) == 1000;
    PadFits(f.minutes, 2);
    PadFits(f.secs, 2);
    PadFits(f.millis, 3);
    ParseLayoutGroups(Pad(f.hours, 2), Pad(f.minutes, 2), Pad(f.secs, 2), Pad(f.millis, 3));
  }

  /** A padded non-negative field reads back as itself. */
  lemma ParsePad(n: int, w: nat, s: string)
    requires n >= 0 && s == Pad(n, w)
    ensures ParseDigits(s) == Some(n)
  {
    ParsePadded(n, w);
  }

  /** Digit groups that read as the given values make up their millisecond total. */
  lemma ParseFieldsValue(hh: string, mm: string, ss: string, ms: string, h: nat, m: nat, sec: nat, milli: nat)
    requires ParseDigits(hh) == Some(h) && ParseDigits(mm) == Some(m) && ParseDigits(ss) == Some(sec)
    requires ParseDigits(ms) == Some(milli)
    ensures ParseFields(hh, mm, ss, ms) == Some(h * 3600000 + m * 60000 + sec * 1000 + milli)
  {
  }

  /**
   Every timecode of a non-negative time reads back as that time truncated to the
   millisecond, hours beyond 99 included: the hours field widens, it is never cut.
   */
  lemma ParseFormat(seconds: real)
    requires seconds >= 0.0
    ensures ParseTimecode(Format(seconds)) == Some(Millis(seconds))
  {
    FormatOfMillis(seconds);
    var t: nat := Millis(seconds);
    ParseMillisFields(t, MillisFields(t));
    assert ParseTimecode(Format(seconds)) == ParseTimecode(Render(MillisFields(t)));
  }

  /** The rendered fields of a millisecond count read back as that count. */
  lemma ParseMillisFields(t: nat, f: Fields)
    requires f == MillisFields(t)
    ensures ParseTimecode(Render(f)) == Some(t)
  {
    assert 0 <= f.hours && 0 <= f.minutes < 60 && 0 <= f.secs < 60 && 0 <= f.millis < 1000
      && f.hours * 3600000 + f.minutes * 60000 + f.secs * 1000 + f.millis == t by {
      MillisFieldsReconstruct(t);
    }
    ParseRenderValue(f, t);
  }

  /** Fields within their ranges that make up `t` milliseconds render to a timecode that reads back as `t`. */
  lemma ParseRenderValue(f: Fields, t: int)
    requires 0 <= f.hours && 0 <= f.minutes < 60 && 0 <= f.secs < 60 && 0 <= f.millis < 1000
    requires f.hours * 3600000 + f.minutes * 60000 + f.secs * 1000 + f.millis == t
    ensures ParseTimecode(Render(f)) == Some(t)
  {
    ParseRender(f);
  }

  /** For non-negative seconds the timecode renders the fields of the truncated millisecond count. */
  lemma FormatOfMillis(seconds: real)
    requires seconds >= 0.0
    ensures Millis(seconds) >= 0
    ensures Format(seconds) == Render(MillisFields(Millis(seconds)))
  {
    FieldsOfMillis(seconds);
  }
}
