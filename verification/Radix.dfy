/** Numbers of fixed width, as printf writes them with leading zeros, and their values. */
module Radix {

  function DigitChar(n: nat): (c: char)
    requires n < 16
    ensures c != '\n'
  {
    if n < 10 then (n + '0' as int) as char else (n - 10 + 'A' as int) as char
  }

  function ValueOf(c: char): nat {
    if '0' <= c <= '9' then c as int - '0' as int else if 'A' <= c <= 'F' then c as int - 'A' as int + 10 else 0
  }

  /** The last w digits of n, leading zeros included. */
  function Text(n: nat, base: nat, w: nat): (s: string)
    requires 2 <= base <= 16
    ensures |s| == w
  {
    if w == 0 then "" else Text(n / base, base, w - 1) + [DigitChar(n % base)]
  }

  function Value(s: string, base: nat): nat {
    if s == "" then 0 else Value(s[..|s| - 1], base) * base + ValueOf(s[|s| - 1])
  }

  function Power(base: nat, w: nat): nat {
    if w == 0 then 1 else Power(base, w - 1) * base
  }

  lemma DigitRead(n: nat)
    requires n < 16
    ensures ValueOf(DigitChar(n)) == n
  {
  }

  lemma {:induction false} ValueSnoc(t: string, c: char, base: nat)
    ensures Value(t + [c], base) == Value(t, base) * base + ValueOf(c)
  {
    assert (t + [c])[..|t|] == t;
  }

  lemma DivMod(n: nat, base: nat)
    requires base > 0
    ensures n / base * base + n % base == n
  {
  }

  lemma {:induction false} TextRead(n: nat, base: nat, w: nat)
    requires 2 <= base <= 16 && n < Power(base, w)
    ensures Value(Text(n, base, w), base) == n
  {
    hide *;
    if w == 0 {
      NoDigits(n, base);
    } else {
      PowerStep(base, w);
      Shorter(n, base, Power(base, w - 1));
      TextRead(n / base, base, w - 1);
      TextSnoc(n, base, w);
      ValueSnoc(Text(n / base, base, w - 1), DigitChar(n % base), base);
      DigitRead(n % base);
      DivMod(n, base);
    }
  }

  lemma PowerStep(base: nat, w: nat)
    requires w > 0
    ensures Power(base, w) == Power(base, w - 1) * base
  {
  }

  lemma TextSnoc(n: nat, base: nat, w: nat)
    requires 2 <= base <= 16 && w > 0
    ensures Text(n, base, w) == Text(n / base, base, w - 1) + [DigitChar(n % base)]
  {
  }

  lemma NoDigits(n: nat, base: nat)
    requires 2 <= base <= 16
    ensures Value(Text(n, base, 0), base) == 0
    ensures n < Power(base, 0) ==> n == 0
  {
  }

  lemma {:induction false} Shorter(n: nat, base: nat, p: nat)
    requires base > 0 && n < p * base
    ensures n / base < p
  {
    DivMod(n, base);
    if n / base >= p {
      LessEqual(p, n / base, base);
    }
  }

  lemma LessEqual(a: nat, b: nat, m: nat)
    requires a <= b
    ensures a * m <= b * m
  {
  }

  lemma {:induction false} TwoDigits(n: nat)
    requires n < 100
    ensures Value(Text(n, 10, 2), 10) == n
  {
    hide Text, Value;
    assert Power(10, 1) == 10 && Power(10, 2) == 100;
    TextRead(n, 10, 2);
  }

  lemma {:induction false} ThreeDigits(n: nat)
    requires n < 1000
    ensures Value(Text(n, 10, 3), 10) == n
  {
    hide Text, Value;
    assert Power(10, 1) == 10 && Power(10, 2) == 100 && Power(10, 3) == 1000;
    TextRead(n, 10, 3);
  }

  lemma {:induction false} HexByte(n: nat)
    requires n < 256
    ensures Value(Text(n, 16, 2), 16) == n
  {
    hide Text, Value;
    assert Power(16, 1) == 16 && Power(16, 2) == 256;
    TextRead(n, 16, 2);
  }

  lemma {:induction false} FourDigits(n: nat)
    requires n < 10000
    ensures Value(Text(n, 10, 4), 10) == n
  {
    hide Text, Value;
    assert Power(10, 2) == 100 && Power(10, 4) == 10000;
    TextRead(n, 10, 4);
  }

  /** Every digit stands for its power of the base. */
  lemma {:induction false} TextPlace(n: nat, base: nat, w: nat, i: nat)
    requires 2 <= base <= 16 && i < w
    ensures Power(base, i) > 0
    ensures Text(n, base, w)[w - 1 - i] == "0123456789ABCDEF"[n / Power(base, i) % base]
    decreases w
  {
    hide *;
    TextSnoc(n, base, w);
    var t := Text(n / base, base, w - 1);
    if i == 0 {
      NoPower(base);
      DigitShown(n % base);
      assert n / 1 == n;
    } else {
      TextPlace(n / base, base, w - 1, i - 1);
      PowerStep(base, i);
      DivideTwice(n, base, Power(base, i - 1));
      assert (t + [DigitChar(n % base)])[w - 1 - i] == t[w - 1 - 1 - (i - 1)];
    }
  }

  lemma DigitShown(d: nat)
    requires d < 16
    ensures DigitChar(d) == "0123456789ABCDEF"[d]
  {
  }

  lemma NoPower(base: nat)
    ensures Power(base, 0) == 1
  {
  }

  lemma Distribute(a: nat, b: nat, d: nat)
    ensures (a + b) * d == a * d + b * d
  {
  }

  lemma Reorder(a: nat, b: nat, c: nat)
    ensures a * b * c == a * (b * c)
  {
  }

  lemma {:induction false} Apart(a: nat, b: nat, d: nat)
    requires a < b
    ensures a * d + d <= b * d
  {
    LessEqual(a + 1, b, d);
    Distribute(a, 1, d);
  }

  lemma {:induction false} Quotient(n: nat, d: nat, q: nat)
    requires d > 0 && q * d <= n < q * d + d
    ensures n / d == q
  {
    var r := n / d;
    DivMod(n, d);
    if r < q { Apart(r, q, d); }
    if r > q { Apart(q, r, d); }
  }

  lemma Positive(a: nat, b: nat)
    requires a > 0 && b > 0
    ensures a * b > 0
  {
  }

  lemma {:induction false} DivideTwice(n: nat, base: nat, t: nat)
    requires base > 0 && t > 0
    ensures t * base > 0 && n / base / t == n / (t * base)
  {
    var m := n / base;
    var q := m / t;
    Positive(t, base);
    DivMod(n, base);
    DivMod(m, t);
    assert m < q * t + t && m * base <= n < m * base + base;
    LessEqual(q * t, m, base);
    Apart(m, q * t + t, base);
    Distribute(q * t, t, base);
    Reorder(q, t, base);
    Quotient(n, t * base, q);
  }
}
