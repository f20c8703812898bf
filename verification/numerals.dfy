/**
 Decimal numerals as the assembler prints them: `Number.prototype.toString`
 on integers, `String.prototype.padStart` with `'0'`, and the inverse reading
 of a digit string.
 */
module Numerals {
  import opened Wrappers
  import opened LexOrder

  predicate IsDigit(ch: char)
  {
    '0' <= ch <= '9'
  }

  predicate AllDigits(s: string)
  {
    forall i :: 0 <= i < |s| ==> IsDigit(s[i])
  }

  function DigitChar(d: nat): (ch: char)
    requires d < 10
    ensures IsDigit(ch)
  {
    ('0' as int + d) as char
  }

  function DigitValue(ch: char): (d: nat)
    requires IsDigit(ch)
    ensures d < 10 && DigitChar(d) == ch
  {
    ch as int - '0' as int
  }

  /**
   The value of a string of decimal digits, most significant first; `None` when
   some character is not a digit. The empty string reads as zero.
   */
  function ParseDigits(s: string): Option<nat>
  {
    if |s| == 0 then Some(0)
    else
      var init := ParseDigits(s[..|s| - 1]);
      if init.Some? && IsDigit(s[|s| - 1]) then Some(init.value * 10 + DigitValue(s[|s| - 1]))
      else None
  }

  /** `n.toString()` for a non-negative integer: its decimal digits without leading zeros. */
  function NatToString(n: nat): (r: string)
    ensures |r| >= 1
  {
    if n < 10 then [DigitChar(n)] else NatToString(n / 10) + [DigitChar(n % 10)]
  }

  /** The numeral of `n` reads back as `n`. */
  lemma {:induction false} NatToStringRoundTrip(n: nat)
    ensures ParseDigits(NatToString(n)) == Some(n)
    decreases n
  {
    var r := NatToString(n);
    if n >= 10 {
      assert r[..|r| - 1] == NatToString(n / 10);
      NatToStringRoundTrip(n / 10);
    } else {
      assert r[..0] == "";
    }
  }

  /** The numeral is made of digits only. */
  lemma {:induction false} NatToStringDigits(n: nat)
    ensures AllDigits(NatToString(n))
    decreases n
  {
    if n >= 10 {
      NatToStringDigits(n / 10);
    }
  }

  /** `n.toString()` for any integer: a minus sign before the digits of a negative number. */
  function IntToString(n: int): string
  {
    if n < 0 then "-" + NatToString(-n) else NatToString(n)
  }

  /** The text of an integer printed by `toString`, read back. */
  function ParseInt(s: string): Option<int>
  {
    if |s| > 0 && s[0] == '-' then
      if |s| > 1 && ParseDigits(s[1..]).Some? then
        var magnitude: int := ParseDigits(s[1..]).value;
        Some(-magnitude)
      else None
    else if |s| > 0 && ParseDigits(s).Some? then Some(ParseDigits(s).value)
    else None
  }

  /** Every integer reads back from its printed form. */
  lemma IntToStringRoundTrip(n: int)
    ensures ParseInt(IntToString(n)) == Some(n)
  {
    if n < 0 {
      NatToStringRoundTrip(-n);
      ParseNegative(NatToString(-n), -n);
    } else {
      NatToStringRoundTrip(n);
      NatToStringDigits(n);
      ParseNonNegative(NatToString(n), n);
    }
  }

  /** A minus sign in front of a numeral reads back as the negated number. */
  lemma ParseNegative(d: string, m: nat)
    requires |d| > 0 && ParseDigits(d) == Some(m)
    ensures ParseInt("-" + d) == Some(-(m as int))
  {
    var s := "-" + d;
    assert s[0] == '-' && |s| > 1 && s[1..] == d;
  }

  /** A numeral made of digits reads back as its number. */
  lemma ParseNonNegative(d: string, m: nat)
    requires |d| > 0 && AllDigits(d) && ParseDigits(d) == Some(m)
    ensures ParseInt(d) == Some(m)
  {
    assert IsDigit(d[0]);
  }

  /** Different numbers print differently. */
  lemma NatToStringInjective(a: nat, b: nat)
    requires NatToString(a) == NatToString(b)
    ensures a == b
  {
    NatToStringRoundTrip(a);
    NatToStringRoundTrip(b);
  }

  function Pow10(w: nat): (p: nat)
    ensures p >= 1
  {
    if w == 0 then 1 else 10 * Pow10(w - 1)
  }

  /** The `w` low-order decimal digits of `n`, zero-filled on the left. */
  function Digits(n: nat, w: nat): (r: string)
    ensures |r| == w && AllDigits(r)
  {
    if w == 0 then "" else Digits(n / 10, w - 1) + [DigitChar(n % 10)]
  }

  /** Among numbers that fit the width, fixed-width numerals compare as the numbers do. */
  lemma {:induction false} DigitsLt(a: nat, b: nat, w: nat)
    requires a < b < Pow10(w)
    ensures Lt(Digits(a, w), Digits(b, w))
    decreases w
  {
    if a / 10 < b / 10 {
      DigitsLt(a / 10, b / 10, w - 1);
      LtEqualLengthPrefix(Digits(a / 10, w - 1), Digits(b / 10, w - 1), [DigitChar(a % 10)], [DigitChar(b % 10)]);
    } else {
      assert a % 10 < b % 10;
      assert Lt([DigitChar(a % 10)], [DigitChar(b % 10)]);
      LtCommonPrefix(Digits(a / 10, w - 1), [DigitChar(a % 10)], [DigitChar(b % 10)]);
    }
  }

  /** `k` copies of `c`. */
  function Repeat(c: char, k: nat): (r: string)
    ensures |r| == k
  {
    if k == 0 then "" else Repeat(c, k - 1) + [c]
  }

  /** `s.padStart(w, c)`: `s` preceded by enough copies of `c` to reach length `w`; never truncates. */
  function PadStart(s: string, w: nat, c: char): (r: string)
    ensures |r| == if |s| >= w then |s| else w
  {
    if |s| >= w then s else Repeat(c, w - |s|) + s
  }

  /** Padding digits with zeros keeps them digits. */
  lemma {:induction false} PadStartDigits(s: string, w: nat)
    requires AllDigits(s)
    ensures AllDigits(PadStart(s, w, '0'))
  {
    if |s| < w {
      RepeatZeroDigits(w - |s|);
    }
  }

  lemma {:induction false} RepeatZeroDigits(k: nat)
    ensures AllDigits(Repeat('0', k))
    decreases k
  {
    if k > 0 {
      RepeatZeroDigits(k - 1);
    }
  }

  /** Padding a string that ends in `ch` to one more column pads the rest to one fewer. */
  lemma PadStartSnoc(s: string, ch: char, w: nat, c: char)
    ensures PadStart(s + [ch], w + 1, c) == PadStart(s, w, c) + [ch]
  {
    if |s| < w {
      assert Repeat(c, w - |s|) + (s + [ch]) == Repeat(c, w - |s|) + s + [ch];
    }
  }

  lemma {:induction false} ZeroDigits(w: nat)
    ensures Digits(0, w) == Repeat('0', w)
    decreases w
  {
    if w > 0 {
      ZeroDigits(w - 1);
    }
  }

  /** `n.toString().padStart(w, '0')` is the fixed-width numeral whenever `n` fits `w` digits. */
  lemma {:induction false} PadStartIsDigits(n: nat, w: nat)
    requires 1 <= w && n < Pow10(w)
    ensures PadStart(NatToString(n), w, '0') == Digits(n, w)
    decreases w
  {
    var d := DigitChar(n % 10);
    if n < 10 {
      assert NatToString(n) == "" + [d];
      PadStartSnoc("", d, w - 1, '0');
      ZeroDigits(w - 1);
      assert Digits(n, w) == Digits(0, w - 1) + [d];
    } else {
      assert NatToString(n) == NatToString(n / 10) + [d];
      PadStartSnoc(NatToString(n / 10), d, w - 1, '0');
      assert w >= 2 && n / 10 < Pow10(w - 1);
      PadStartIsDigits(n / 10, w - 1);
    }
  }

  /** Zeros in front do not change the value of a numeral. */
  lemma {:induction false} ParseLeadingZeros(k: nat, s: string)
    ensures ParseDigits(Repeat('0', k) + s) == ParseDigits(s)
    decreases |s|, k
  {
    var z := Repeat('0', k);
    if |s| > 0 {
      assert (z + s)[..|z + s| - 1] == z + s[..|s| - 1];
      ParseLeadingZeros(k, s[..|s| - 1]);
    } else if k > 0 {
      assert (z + s)[..|z + s| - 1] == Repeat('0', k - 1) + "";
      ParseLeadingZeros(k - 1, s);
    }
  }

  /** A zero-padded `toString` reads back as the number, however many digits it has. */
  lemma ParsePadded(n: nat, w: nat)
    ensures ParseDigits(PadStart(NatToString(n), w, '0')) == Some(n)
  {
    NatToStringRoundTrip(n);
    ParsePadStart(NatToString(n), w, n);
  }

  /** Zeros in front of a numeral do not change what it reads as. */
  lemma ParsePadStart(s: string, w: nat, n: nat)
    requires ParseDigits(s) == Some(n)
    ensures ParseDigits(PadStart(s, w, '0')) == Some(n)
  {
    if |s| < w {
      ParseLeadingZeros(w - |s|, s);
    }
  }
}
