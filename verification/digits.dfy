/**
 Decimal text for non-negative integers: the JavaScript conversion `String(n)`,
 the padding `s.padStart(width, fill)`, and a digit-string parser that serves as
 their independent partner (every conversion below is proved to parse back).
 */
module Digits {
  import opened Optional

  predicate IsDigit(c: char) {
    '0' <= c <= '9'
  }

  predicate AllDigits(s: string) {
    forall i :: 0 <= i < |s| ==> IsDigit(s[i])
  }

  function DigitValue(c: char): (d: nat)
    requires IsDigit(c)
    ensures d < 10
  {
    c as int - '0' as int
  }

  function DigitChar(d: nat): (c: char)
    requires d < 10
    ensures IsDigit(c) && DigitValue(c) == d
  {
    (d + '0' as int) as char
  }

  function Pow10(k: nat): (p: nat)
    ensures p >= 1
  {
    if k == 0 then 1 else 10 * Pow10(k - 1)
  }

  /** The value of a digit string, most significant digit first ("" reads as 0). */
  function Parse(s: string): (n: nat)
    requires AllDigits(s)
    ensures n < Pow10(|s|)
  {
    if |s| == 0 then 0 else Parse(s[..|s| - 1]) * 10 + DigitValue(s[|s| - 1])
  }

  /** `String(n)` for a non-negative integer: the shortest decimal numeral of `n`. */
  function Decimal(n: nat): (s: string)
    ensures |s| >= 1 && AllDigits(s)
    ensures Parse(s) == n
    ensures |s| > 1 ==> s[0] != '0'
  {
    if n < 10 then [DigitChar(n)]
    else
      var prefix := Decimal(n / 10);
      var s := prefix + [DigitChar(n % 10)];
      assert s[..|s| - 1] == prefix;
      s
  }

  /** `s.padStart(width, fill)` with a one-character fill: prepends `fill` until
      the length reaches `width`, and never shortens `s`. */
  function PadStart(s: string, width: nat, fill: char): (r: string)
    ensures |r| == if |s| < width then width else |s|
    decreases width - |s|
  {
    if |s| < width then PadStart([fill] + s, width, fill) else s
  }

  /** The padded text is the original text behind a run of fill characters. */
  lemma {:induction false} PadStartShape(s: string, width: nat, fill: char)
    ensures var r := PadStart(s, width, fill);
      r == seq(|r| - |s|, _ => fill) + s
    decreases width - |s|
  {
    if |s| < width {
      PadStartShape([fill] + s, width, fill);
      var r := PadStart(s, width, fill);
      assert seq(|r| - |s| - 1, _ => fill) + ([fill] + s) == seq(|r| - |s|, _ => fill) + s;
    }
  }

  /** The position of the first occurrence of `c` in `s`, if any. */
  function IndexOf(s: string, c: char): (r: Option<nat>)
    ensures r.Some? ==> r.value < |s| && s[r.value] == c
    ensures r.Some? ==> forall j :: 0 <= j < r.value ==> s[j] != c
    ensures r.None? ==> forall j :: 0 <= j < |s| ==> s[j] != c
  {
    if |s| == 0 then None
    else if s[0] == c then Some(0)
    else
      match IndexOf(s[1..], c)
      case None => None
      case Some(k) => Some(k + 1)
  }

  /** A numeral has at most `k` digits exactly when its value is below 10^k. */
  lemma {:induction false} DecimalLength(n: nat, k: nat)
    requires k >= 1
    ensures |Decimal(n)| <= k <==> n < Pow10(k)
    decreases n
  {
    if n >= 10 {
      var prefix := Decimal(n / 10);
      assert |Decimal(n)| == |prefix| + 1;
      if k == 1 {
        assert Pow10(1) == 10;
      } else {
        DecimalLength(n / 10, k - 1);
        assert Pow10(k) == 10 * Pow10(k - 1);
      }
    }
  }

  lemma AllDigitsAppend(a: string, b: string)
    requires AllDigits(a) && AllDigits(b)
    ensures AllDigits(a + b)
  {
    forall i | 0 <= i < |a + b|
      ensures IsDigit((a + b)[i])
    {
      if i < |a| { assert (a + b)[i] == a[i]; } else { assert (a + b)[i] == b[i - |a|]; }
    }
  }

  /** Reading a concatenation: the left part is shifted by the right part's length. */
  lemma {:induction false} ParseAppend(a: string, b: string)
    requires AllDigits(a) && AllDigits(b)
    ensures AllDigits(a + b)
    ensures Parse(a + b) == Parse(a) * Pow10(|b|) + Parse(b)
    decreases |b|
  {
    AllDigitsAppend(a, b);
    if |b| > 0 {
      var b' := b[..|b| - 1];
      var ab := a + b;
      assert ab[..|ab| - 1] == a + b';
      assert ab[|ab| - 1] == b[|b| - 1];
      assert AllDigits(b');
      ParseAppend(a, b');
      var d := DigitValue(b[|b| - 1]);
      assert Parse(ab) == Parse(a + b') * 10 + d;
      assert Parse(b) == Parse(b') * 10 + d;
      assert Pow10(|b|) == 10 * Pow10(|b'|);
      ShiftStep(Parse(a), Parse(b'), Pow10(|b'|), d);
      assert Parse(ab) == Parse(a) * Pow10(|b|) + Parse(b);
    } else {
      assert a + b == a;
    }
  }

  lemma ShiftStep(pa: int, pb: int, p: int, d: int)
    ensures (pa * p + pb) * 10 + d == pa * (p * 10) + (pb * 10 + d)
  {
  }

  /** A run of zeros reads as 0. */
  lemma {:induction false} ParseZeros(k: nat)
    ensures AllDigits(seq(k, _ => '0'))
    ensures Parse(seq(k, _ => '0')) == 0
  {
    if k > 0 {
      var z := seq(k, _ => '0');
      assert z[..k - 1] == seq(k - 1, _ => '0');
      ParseZeros(k - 1);
    }
  }

  /** Zero padding never changes the value a numeral reads as. */
  lemma ZeroPadPreservesValue(s: string, width: nat)
    requires AllDigits(s)
    ensures AllDigits(PadStart(s, width, '0'))
    ensures Parse(PadStart(s, width, '0')) == Parse(s)
  {
    var r := PadStart(s, width, '0');
    var z := seq(|r| - |s|, _ => '0');
    PadStartShape(s, width, '0');
    ParseZeros(|r| - |s|);
    ParseAppend(z, s);
  }
}
