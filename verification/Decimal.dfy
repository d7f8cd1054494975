/** Decimal rendering with zero padding, and its inverse. */
module Decimal {
  import opened Wrappers

  predicate IsDigit(c: char) {
    '0' <= c <= '9'
  }

  function DigitValue(c: char): int {
    c as int - '0' as int
  }

  predicate AllDigits(s: string) {
    forall i :: 0 <= i < |s| ==> IsDigit(s[i])
  }

  function Value(s: string): int {
    if s == "" then 0 else Value(s[..|s| - 1]) * 10 + DigitValue(s[|s| - 1])
  }

  function Digits(n: nat): (s: string)
    ensures s != "" && AllDigits(s)
  {
    if n < 10 then ["0123456789"[n]] else Digits(n / 10) + ["0123456789"[n % 10]]
  }

  function Zeros(k: nat): string {
    seq(k, _ => '0')
  }

  /** `n` in decimal, with zeros in front up to width `w`. */
  function Padded(n: nat, w: nat): string {
    var s := Digits(n);
    if |s| < w then Zeros(w - |s|) + s else s
  }

  lemma DigitRoundTrip(d: nat)
    requires d < 10
    ensures IsDigit("0123456789"[d]) && DigitValue("0123456789"[d]) == d
  {
  }

  lemma {:induction false} DigitsValue(n: nat)
    ensures Value(Digits(n)) == n
  {
    if n < 10 {
      DigitRoundTrip(n);
      assert Value([]) == 0;
      assert Digits(n)[..0] == "";
    } else {
      DigitsValue(n / 10);
      DigitRoundTrip(n % 10);
      var s := Digits(n);
      assert s[..|s| - 1] == Digits(n / 10);
    }
  }

  lemma {:induction false} LeadingZeros(k: nat, s: string)
    ensures Value(Zeros(k) + s) == Value(s)
  {
    if s == "" {
      assert Zeros(k) + s == Zeros(k);
      if k > 0 {
        assert Zeros(k)[..k - 1] == Zeros(k - 1);
        LeadingZeros(k - 1, s);
        assert Zeros(k - 1) + "" == Zeros(k - 1);
      }
    } else {
      var t := Zeros(k) + s;
      assert t[..|t| - 1] == Zeros(k) + s[..|s| - 1];
      LeadingZeros(k, s[..|s| - 1]);
    }
  }

  /** Padding does not change the number. */
  lemma PaddedValue(n: nat, w: nat)
    ensures Value(Padded(n, w)) == n && AllDigits(Padded(n, w)) && |Padded(n, w)| >= w && Padded(n, w) != ""
  {
    DigitsValue(n);
    if |Digits(n)| < w {
      LeadingZeros(w - |Digits(n)|, Digits(n));
    }
  }

  function Power10(w: nat): nat {
    if w == 0 then 1 else 10 * Power10(w - 1)
  }

  /** A number has at most `w` digits exactly when it is below the `w`-th power of ten. */
  lemma {:induction false} DigitsFit(n: nat, w: nat)
    requires w > 0
    ensures |Digits(n)| <= w <==> n < Power10(w)
    decreases w
  {
    if w == 1 {
      assert Power10(1) == 10 * Power10(0);
    } else if n >= 10 {
      DigitsFit(n / 10, w - 1);
    } else {
      SmallPower(w - 1);
    }
  }

  lemma {:induction false} SmallPower(w: nat)
    ensures Power10(w) >= 1
  {
    if w > 0 { SmallPower(w - 1); }
  }

  lemma PaddedLength(n: nat, w: nat)
    requires w > 0
    ensures |Padded(n, w)| == w <==> n < Power10(w)
  {
    DigitsFit(n, w);
  }

  /** Parsing an unsigned integer below `limit`: an optional plus sign, then at least one digit. */
  function Parse(s: string, limit: int): Option<int> {
    var t := if |s| > 1 && s[0] == '+' then s[1..] else s;
    if t != "" && AllDigits(t) && Value(t) < limit then Some(Value(t)) else None
  }

  /** What parses: digits with an optional plus sign in front, of a value below the limit. */
  lemma ParseReads(s: string, limit: int, n: int)
    ensures Parse(s, limit) == Some(n) <==>
              exists digits: string :: s in {digits, "+" + digits} && digits != "" && AllDigits(digits)
                                       && Value(digits) == n < limit
  {
    if |s| > 1 && s[0] == '+' {
      assert s == "+" + s[1..];
    }
    if digits: string :| s in {digits, "+" + digits} && digits != "" && AllDigits(digits)
                         && Value(digits) == n < limit {
      if s == "+" + digits {
        assert s[1..] == digits;
      } else {
        assert IsDigit(s[0]);
      }
    }
  }

  /** Padded numbers parse back. */
  lemma ParsePadded(n: nat, w: nat, limit: int)
    requires n < limit
    ensures Parse(Padded(n, w), limit) == Some(n)
  {
    PaddedValue(n, w);
    assert Padded(n, w)[0] != '+';
  }
}
