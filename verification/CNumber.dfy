/** Decimal printing and reading of integers, as printf and strtol do it. */
module CNumber {
  import Radix

  const LONG_MAX := 0x7fff_ffff_ffff_ffff

  /** A value of the 32-bit int type. */
  ghost predicate IsInt(n: int) { -0x8000_0000 <= n < 0x8000_0000 }

  predicate IsDigit(c: char) { '0' <= c <= '9' }

  function DigitOf(n: nat): (c: char)
    requires n < 10
    ensures IsDigit(c)
  {
    (n + '0' as int) as char
  }

  function DigitValue(c: char): (n: nat)
    requires IsDigit(c)
    ensures n < 10
  {
    c as int - '0' as int
  }

  function Digits(n: nat): (s: string)
    ensures |s| > 0
    ensures forall i | 0 <= i < |s| :: IsDigit(s[i])
  {
    if n < 10 then [DigitOf(n)] else Digits(n / 10) + [DigitOf(n % 10)]
  }

  /** %d and %lu. */
  function Decimal(n: int): (s: string)
    ensures |s| > 0 && (s[0] == '-' || IsDigit(s[0]))
    ensures forall i | 0 <= i < |s| :: s[i] == '-' || IsDigit(s[i])
  {
    if n < 0 then "-" + Digits(-n) else Digits(n)
  }

  predicate IsSpace(c: char) {
    c == ' ' || ('\t' <= c <= '\r')
  }

  function ReadDigits(t: string, acc: nat): nat {
    if t == "" || !IsDigit(t[0]) then acc
    else ReadDigits(t[1..], acc * 10 + DigitValue(t[0]))
  }

  function ReadSigned(t: string): int {
    if t == "" then 0
    else if t[0] == '-' then 0 - ReadDigits(t[1..], 0)
    else if t[0] == '+' then ReadDigits(t[1..], 0)
    else ReadDigits(t, 0)
  }

  /** strtol in base 10, saturating at the ends of a 64-bit long. */
  function Strtol(t: string): (v: int)
    ensures -LONG_MAX - 1 <= v <= LONG_MAX
  {
    if t != "" && IsSpace(t[0]) then Strtol(t[1..])
    else
      var v := ReadSigned(t);
      if v > LONG_MAX then LONG_MAX else if v < -LONG_MAX - 1 then -LONG_MAX - 1 else v
  }

  /** The conversion of a long to a 32-bit int. */
  function ToInt(v: int): (r: int)
    ensures -0x8000_0000 <= r < 0x8000_0000
    ensures -0x8000_0000 <= v < 0x8000_0000 ==> r == v
  {
    (v + 0x8000_0000) % 0x1_0000_0000 - 0x8000_0000
  }

  /** A number at the end of a 64-bit long when it is beyond it. */
  function Saturated(n: int): (r: int)
    ensures -LONG_MAX - 1 <= n <= LONG_MAX ==> r == n
  {
    if n > 0x7fff_ffff_ffff_ffff then 0x7fff_ffff_ffff_ffff
    else if n < -0x8000_0000_0000_0000 then -0x8000_0000_0000_0000 else n
  }

  ghost predicate NoDigitFirst(t: string) {
    t == "" || !IsDigit(t[0])
  }

  lemma {:induction false} DigitsRead(n: nat, rest: string)
    ensures ReadDigits(Digits(n) + rest, 0) == ReadDigits(rest, n)
  {
    if n < 10 {
      assert ([DigitOf(n)] + rest)[1..] == rest;
    } else {
      var d := [DigitOf(n % 10)];
      DigitsRead(n / 10, d + rest);
      assert Digits(n / 10) + (d + rest) == Digits(n) + rest;
      assert (d + rest)[1..] == rest;
    }
  }

  lemma {:induction false} DecimalSigned(n: int, rest: string)
    requires NoDigitFirst(rest)
    ensures ReadSigned(Decimal(n) + rest) == n
  {
    hide ReadDigits, Digits;
    assert ReadDigits(rest, if n < 0 then -n else n) == if n < 0 then -n else n by { NothingRead(rest, if n < 0 then -n else n); }
    if n < 0 {
      DigitsRead(-n, rest);
      assert (Decimal(n) + rest)[1..] == Digits(-n) + rest;
    } else {
      DigitsRead(n, rest);
      assert (Digits(n) + rest)[0] == Digits(n)[0];
    }
  }

  lemma NothingRead(t: string, acc: nat)
    requires NoDigitFirst(t)
    ensures ReadDigits(t, acc) == acc
  {
  }

  /** Reading a printed number gives it back, whatever follows that is no digit; a number
      beyond a long gives the end of its range. */
  lemma {:induction false} DecimalRead(n: int, rest: string)
    requires NoDigitFirst(rest)
    ensures Strtol(Decimal(n) + rest) == Saturated(n)
  {
    hide ReadSigned, Decimal;
    DecimalSigned(n, rest);
    assert (Decimal(n) + rest)[0] == Decimal(n)[0];
  }

  lemma {:induction false} ReadDigitsStops(t: string, rest: string, acc: nat)
    requires NoDigitFirst(rest)
    ensures ReadDigits(t + rest, acc) == ReadDigits(t, acc)
  {
    if t == "" {
      assert t + rest == rest;
    } else {
      assert (t + rest)[0] == t[0];
      if IsDigit(t[0]) {
        assert (t + rest)[1..] == t[1..] + rest;
        ReadDigitsStops(t[1..], rest, acc * 10 + DigitValue(t[0]));
      }
    }
  }

  /** What follows a text, when it is no digit, does not change what is read from it. */
  lemma {:induction false} StrtolStops(t: string, rest: string)
    requires t != "" && !IsSpace(t[0]) && NoDigitFirst(rest)
    ensures Strtol(t + rest) == Strtol(t)
  {
    assert (t + rest)[0] == t[0];
    assert (t + rest)[1..] == t[1..] + rest;
    ReadDigitsStops(t, rest, 0);
    ReadDigitsStops(t[1..], rest, 0);
  }

  function Pow10(k: nat): (p: nat)
    ensures p > 0
  {
    if k == 0 then 1 else 10 * Pow10(k - 1)
  }

  lemma {:induction false} DigitsShort(n: nat, k: nat)
    requires k > 0 && n < Pow10(k)
    ensures |Digits(n)| <= k
    decreases k
  {
    if n >= 10 {
      assert Pow10(k) == 10 * Pow10(k - 1);
      assert Pow10(0) == 1;
      DigitsShort(n / 10, k - 1);
    }
  }

  /** Every digit stands for its power of ten, and no zero comes first. */
  lemma {:induction false} DigitsPlace(n: nat, i: nat)
    requires i < |Digits(n)|
    ensures Radix.Power(10, i) > 0
    ensures Digits(n)[|Digits(n)| - 1 - i] == "0123456789"[n / Radix.Power(10, i) % 10]
    ensures n > 0 ==> Digits(n)[0] != '0'
  {
    Radix.NoPower(10);
    hide Radix.Power;
    if n < 10 {
      DigitShown(n);
    } else if i > 0 {
      DigitsPlace(n / 10, i - 1);
      Radix.PowerStep(10, i);
      Radix.DivideTwice(n, 10, Radix.Power(10, i - 1));
    } else {
      DigitsPlace(n / 10, 0);
      DigitShown(n % 10);
    }
  }

  lemma DigitShown(d: nat)
    requires d < 10
    ensures DigitOf(d) == "0123456789"[d]
  {
  }

  /** White space and a plus sign before a number change nothing. */
  lemma {:induction false} SpacesRead(lead: string, t: string)
    requires forall i | 0 <= i < |lead| :: lead[i] in " \t\n\U{B}\U{C}\r"
    ensures Strtol(lead + t) == Strtol(t)
    ensures t != "" && IsDigit(t[0]) ==> Strtol("+" + t) == Strtol(t)
  {
    hide ReadSigned;
    if lead == "" {
      assert lead + t == t;
    } else {
      assert (lead + t)[0] == lead[0] && (lead + t)[1..] == lead[1..] + t;
      SpacesRead(lead[1..], t);
    }
    if t != "" && IsDigit(t[0]) { PlusRead(t); }
  }

  lemma {:induction false} PlusRead(t: string)
    requires t != "" && IsDigit(t[0])
    ensures Strtol("+" + t) == Strtol(t)
  {
    assert ("+" + t)[1..] == t;
  }

  /** What starts with neither white space, sign nor digit is no number, and reads as 0. */
  lemma NoNumber(t: string)
    requires t == "" || !(t[0] in " \t\n\U{B}\U{C}\r+-" || '0' <= t[0] <= '9')
    ensures Strtol(t) == 0
  {
  }
}
