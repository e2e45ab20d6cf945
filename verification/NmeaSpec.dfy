/** Sentences of NMEA 0183: their bounded building, their checksum, and the text of
    angles and times: src/nmea0183.c. */
module NmeaSpec {
  import opened CText
  import opened Radix

  const MAX_LEN := 100

  // ----- the checksum

  /** Exclusive or of the last k bits. */
  function Xor(a: nat, b: nat, k: nat): nat {
    if k == 0 then 0 else (a + b) % 2 + 2 * Xor(a / 2, b / 2, k - 1)
  }

  function Code(c: char): nat { c as int % 256 }

  /** The exclusive or of all bytes. */
  function Check(s: string): nat {
    if s == "" then 0 else Xor(Check(s[..|s| - 1]), Code(s[|s| - 1]), 8)
  }

  function StarAt(s: string, i: nat): (r: nat)
    requires i <= |s|
    ensures i <= r <= |s| && (r < |s| ==> s[r] == '*') && forall k | i <= k < r :: s[k] != '*'
    decreases |s| - i
  {
    if i == |s| || s[i] == '*' then i else StarAt(s, i + 1)
  }

  /** nmea_checksum: from behind the start character to the star. */
  function Checksum(s: string): nat {
    var i := if s != "" && (s[0] == '$' || s[0] == '!') then 1 else 0;
    Check(s[i..StarAt(s, i)])
  }

  lemma {:induction false} XorBound(a: nat, b: nat, k: nat)
    ensures Xor(a, b, k) < Power(2, k)
  {
    if k > 0 {
      XorBound(a / 2, b / 2, k - 1);
    }
  }

  lemma {:induction false} XorByte(a: nat, b: nat)
    ensures Xor(a, b, 8) < 256
  {
    XorBound(a, b, 8);
    assert Power(2, 4) == 16 && Power(2, 8) == 256;
  }

  lemma {:induction false} CheckByte(s: string)
    ensures Check(s) < 256
  {
    hide Xor;
    if s != "" {
      XorByte(Check(s[..|s| - 1]), Code(s[|s| - 1]));
    }
  }

  /** The last bit of an exclusive or, and the rest of it. */
  lemma {:induction false} XorDigit(a: nat, b: nat, k: nat)
    requires k > 0
    ensures Xor(a, b, k) % 2 == (a + b) % 2 && Xor(a, b, k) / 2 == Xor(a / 2, b / 2, k - 1)
  {
  }

  lemma PowerHalves(b: nat, k: nat)
    requires k > 0 && b < Power(2, k)
    ensures b / 2 < Power(2, k - 1)
  {
  }

  lemma SameBit(a: nat, b: nat, c: nat)
    requires (a + b) % 2 == (a + c) % 2 && b / 2 == c / 2
    ensures b == c
  {
  }

  lemma {:induction false} XorCancels(a: nat, b: nat, c: nat, k: nat)
    requires b < Power(2, k) && c < Power(2, k)
    requires Xor(a, b, k) == Xor(a, c, k) || Xor(b, a, k) == Xor(c, a, k)
    ensures b == c
    decreases k
  {
    if k > 0 {
      hide Power;
      PowerHalves(b, k);
      PowerHalves(c, k);
      XorDigit(a, b, k);
      XorDigit(a, c, k);
      XorDigit(b, a, k);
      XorDigit(c, a, k);
      hide Xor;
      XorCancels(a / 2, b / 2, c / 2, k - 1);
      SameBit(a, b, c);
    }
  }

  // ----- the checksum, bit by bit

  function Bit(n: nat, k: nat): nat { if k == 0 then n % 2 else Bit(n / 2, k - 1) }

  /** How many characters of the text have the bit. */
  function Ones(s: string, k: nat): nat {
    if s == "" then 0 else Ones(s[..|s| - 1], k) + Bit(s[|s| - 1] as int % 256, k)
  }

  lemma {:induction false} XorBit(a: nat, b: nat, n: nat, k: nat)
    requires k < n
    ensures Bit(Xor(a, b, n), k) == (Bit(a, k) + Bit(b, k)) % 2
  {
    XorDigit(a, b, n);
    if k > 0 {
      hide Xor;
      XorBit(a / 2, b / 2, n - 1, k - 1);
    } else {
      ParityOfSum(a, b);
    }
  }

  lemma ParityOfSum(a: nat, b: nat)
    ensures (a + b) % 2 == (a % 2 + b % 2) % 2
  {
  }

  /** A bit of the checksum is set exactly when an odd number of characters have it. */
  lemma {:induction false} CheckBits(s: string, k: nat)
    requires k < 8
    ensures Bit(Check(s), k) == Ones(s, k) % 2
  {
    if s == "" {
      NoBits(k);
    } else {
      var c, before := Code(s[|s| - 1]), s[..|s| - 1];
      CheckBits(before, k);
      hide Xor, Bit;
      XorBit(Check(before), c, 8, k);
      ParityOfSum(Ones(before, k), Bit(c, k));
      BitSmall(c, k);
    }
  }

  lemma {:induction false} NoBits(k: nat)
    ensures Bit(0, k) == 0
  {
    if k > 0 { NoBits(k - 1); }
  }

  lemma {:induction false} BitSmall(n: nat, k: nat)
    ensures Bit(n, k) < 2
  {
    if k > 0 { BitSmall(n / 2, k - 1); }
  }

  /** What the checksum is taken of: everything behind the dollar sign or the exclamation mark, up to the star. */
  lemma {:induction false} ChecksumOf(mark: char, body: string, rest: string)
    requires mark in "$!" && forall i | 0 <= i < |body| :: body[i] != '*'
    ensures Checksum([mark] + body + ("*" + rest)) == Check(body)
    ensures body != "" && body[0] !in "$!" ==> Checksum(body) == Check(body)
  {
    hide Check;
    var s := [mark] + body + ("*" + rest);
    assert forall i | 1 <= i < 1 + |body| :: s[i] == body[i - 1];
    assert s[1 + |body|] == '*';
    StarIs(s, 1, 1 + |body|);
    assert s[1..1 + |body|] == body;
    StarIs(body, 0, |body|);
    assert body[0..|body|] == body;
  }

  lemma {:induction false} StarIs(s: string, i: nat, e: nat)
    requires i <= e <= |s| && (forall k | i <= k < e :: s[k] != '*') && (e < |s| ==> s[e] == '*')
    ensures StarAt(s, i) == e
  {
    if StarAt(s, i) != e { assert false; }
  }

  lemma {:induction false} Bytes256()
    ensures Power(2, 8) == 256
  {
    assert Power(2, 4) == 16;
  }

  /** The checksum tells two sentences apart that differ in one byte. */
  lemma {:induction false} OneByteDetected(s: string, t: string, i: nat)
    requires i < |s| == |t| && Code(s[i]) != Code(t[i])
    requires forall k | 0 <= k < |s| && k != i :: s[k] == t[k]
    ensures Check(s) != Check(t)
  {
    hide Xor;
    var last := |s| - 1;
    var a, b := s[..last], t[..last];
    Bytes256();
    CheckByte(a);
    CheckByte(b);
    if i == last {
      assert a == b;
      if Check(s) == Check(t) {
        XorCancels(Check(a), Code(s[i]), Code(t[i]), 8);
      }
    } else {
      OneByteDetected(a, b, i);
      if Check(s) == Check(t) {
        XorCancels(Code(s[last]), Check(a), Check(b), 8);
      }
    }
  }

  // ----- building

  /** The text so far, and whether everything fitted. */
  datatype Built = Built(text: string, ok: bool)

  /** put_c: one character, kept out of a full buffer for good. */
  function Put(b: Built, c: char): Built {
    if !b.ok then b else if |b.text| + 1 >= MAX_LEN then Built(b.text, false) else Built(b.text + [c], true)
  }

  function PutAll(b: Built, s: string): Built
    decreases |s|
  {
    if s == "" then b else PutAll(Put(b, s[0]), s[1..])
  }

  /** Appending is all or nothing: the text is there when it fitted, else the sentence is rejected. */
  lemma {:induction false} PutAllIs(b: Built, s: string)
    requires |b.text| < MAX_LEN
    ensures PutAll(b, s).ok <==> b.ok && |b.text| + |s| < MAX_LEN
    ensures PutAll(b, s).ok ==> PutAll(b, s).text == b.text + s
    ensures |PutAll(b, s).text| < MAX_LEN && b.text <= PutAll(b, s).text
    decreases |s|
  {
    if s != "" {
      PutAllIs(Put(b, s[0]), s[1..]);
      assert b.text + [s[0]] + s[1..] == b.text + s;
    }
  }

  lemma {:induction false} PutAllConcat(b: Built, s: string, t: string)
    ensures PutAll(b, s + t) == PutAll(PutAll(b, s), t)
    decreases |s|
  {
    if s == "" {
      assert s + t == t;
    } else {
      assert (s + t)[0] == s[0] && (s + t)[1..] == s[1..] + t;
      PutAllConcat(Put(b, s[0]), s[1..], t);
    }
  }

  function Talker(t: string): string { if |t| <= 2 then t else t[..2] }

  /** Every field behind a comma. */
  function FieldsText(fs: seq<string>): string {
    if fs == [] then "" else FieldsText(fs[..|fs| - 1]) + ("," + fs[|fs| - 1])
  }

  /** What stands between the dollar sign and the star. */
  function Body(talker: string, kind: string, fs: seq<string>): string {
    Talker(talker) + kind + FieldsText(fs)
  }

  function Trailer(ck: nat): (s: string)
    ensures |s| == 5
  {
    "*" + Text(ck, 16, 2) + "\r\n"
  }

  /** A whole sentence, when it fits. */
  function Sentence(talker: string, kind: string, fs: seq<string>): Option<string> {
    var body := Body(talker, kind, fs);
    if 1 + |body| + 5 < MAX_LEN then Some("$" + body + Trailer(Check(body))) else None
  }

  /** A sentence is built exactly when it is shorter than its buffer of 100. */
  lemma {:induction false} SentenceFits(talker: string, kind: string, fs: seq<string>)
    ensures Sentence(talker, kind, fs).Some? <==> |"$" + Body(talker, kind, fs) + "*hh\r\n"| < 100
  {
    hide Check, Body;
  }

  ghost predicate NoStar(s: string) { forall i | 0 <= i < |s| :: s[i] != '*' }

  /** A built sentence carries its own checksum: it ends in a star, two hexadecimal digits
      and CR LF, and the digits are the checksum that a reader computes of the sentence. */
  lemma {:induction false} SentenceChecks(talker: string, kind: string, fs: seq<string>)
    requires NoStar(Body(talker, kind, fs)) && Sentence(talker, kind, fs).Some?
    ensures var s := Sentence(talker, kind, fs).value;
            && 6 <= |s| < MAX_LEN && s[|s| - 5] == '*' && s[|s| - 2..] == "\r\n"
            && Value(s[|s| - 4..|s| - 2], 16) == Checksum(s)
  {
    hide Text, Value, Check, Body;
    var body := Body(talker, kind, fs);
    var ck := Check(body);
    var s := "$" + body + Trailer(ck);
    CheckByte(body);
    HexByte(ck);
    assert s[1..1 + |body|] == body && s[1 + |body|] == '*';
    StarFound(s, body);
    assert s[|s| - 4..|s| - 2] == Text(ck, 16, 2);
  }

  lemma {:induction false} StarFound(s: string, body: string)
    requires NoStar(body) && |body| + 1 < |s| && s[1..1 + |body|] == body && s[1 + |body|] == '*'
    ensures StarAt(s, 1) == 1 + |body|
  {
    assert forall k | 0 <= k < |body| :: s[1 + k] == body[k];
    assert forall k | 1 <= k < 1 + |body| :: s[k] == body[k - 1];
  }

  // ----- angles

  function Abs(v: real): real { if v < 0.0 then -v else v }

  /** llround of a number that is not negative. */
  function Rounded(x: real): nat
    requires x >= 0.0
  {
    (x + 0.5).Floor
  }

  /** The angle in units of a ten-thousandth of a minute. */
  function Units(v: real): nat { Rounded(Abs(v) * 600000.0) }

  /** %0*d of the degrees: at least w digits, and a third one when it takes it. */
  function Degrees(d: nat, w: nat): string {
    Text(d, 10, if d >= 100 && w < 3 then 3 else w)
  }

  /** field_angle of a number, with 2 or 3 digits of degrees. */
  function AngleText(v: real, w: nat, pos: char, neg: char): string {
    var u := Units(v);
    "," + Degrees(u / 600000 % 1000, w) + Text(u % 600000 / 10000, 10, 2) + "." + Text(u % 600000 % 10000, 10, 4)
    + "," + [if v >= 0.0 then pos else neg]
  }

  /** The parts of the text: whole degrees, minutes and ten-thousandths, and the hemisphere. */
  datatype Angle = Angle(degrees: nat, minutes: nat, fraction: nat, side: char)

  function AngleRead(t: string): Angle
    requires |t| >= 10
  {
    var n := |t|;
    Angle(Value(t[1..n - 9], 10), Value(t[n - 9..n - 7], 10), Value(t[n - 6..n - 2], 10), t[n - 1])
  }

  function AngleUnits(a: Angle): nat { a.degrees * 600000 + a.minutes * 10000 + a.fraction }

  lemma {:induction false} DegreesRead(d: nat, w: nat)
    requires d < 1000 && (w == 2 || w == 3)
    ensures Value(Degrees(d, w), 10) == d
  {
    hide Text, Value;
    if d >= 100 || w == 3 {
      ThreeDigits(d);
    } else {
      TwoDigits(d);
    }
  }

  lemma {:induction false} AngleParts(v: real, w: nat, pos: char, neg: char)
    requires w == 2 || w == 3
    ensures var t, u := AngleText(v, w, pos, neg), Units(v);
            && |t| == (if w == 2 && u / 600000 % 1000 < 100 then 12 else 13)
            && AngleRead(t) == Angle(u / 600000 % 1000, u % 600000 / 10000, u % 600000 % 10000, if v >= 0.0 then pos else neg)
  {
    hide Text, Value, Units, Degrees;
    var u := Units(v);
    var d, m, f := u / 600000 % 1000, u % 600000 / 10000, u % 600000 % 10000;
    var t := AngleText(v, w, pos, neg);
    var x, y, z := Degrees(d, w), Text(m, 10, 2), Text(f, 10, 4);
    AngleForm(x, y, z, if v >= 0.0 then pos else neg, t);
    DegreesLong(d, w);
    DegreesRead(d, w);
    TwoDigits(m);
    FourDigits(f);
  }

  lemma {:induction false} AngleForm(x: string, y: string, z: string, side: char, t: string)
    requires |y| == 2 && |z| == 4 && t == "," + x + y + "." + z + "," + [side]
    ensures |t| == |x| + 10 && t[1..|t| - 9] == x && t[|t| - 9..|t| - 7] == y && t[|t| - 6..|t| - 2] == z && t[|t| - 1] == side
  {
  }

  lemma DegreesLong(d: nat, w: nat)
    requires w == 2 || w == 3
    ensures |Degrees(d, w)| == if w == 2 && d < 100 then 2 else 3
  {
  }

  lemma UnitsNear(v: real)
    ensures Abs(v) * 600000.0 - 0.5 <= Units(v) as real <= Abs(v) * 600000.0 + 0.5
  {
  }

  /** A printed angle never shows 60 minutes, keeps its side, and is within half a unit,
      1/1200000 of a degree, of the angle exactly when that is below 1000 degrees by more
      than half a unit. */
  lemma {:induction false} AngleExact(v: real, w: nat, pos: char, neg: char)
    requires w == 2 || w == 3
    ensures var t := AngleText(v, w, pos, neg);
            && |t| >= 10
            && var a := AngleRead(t);
               && |t| == (if w == 2 && a.degrees < 100 then 12 else 13)
               && t[0] == ',' && t[|t| - 7] == '.' && t[|t| - 2] == ','
               && a.minutes < 60 && a.fraction < 10000 && a.side == (if v >= 0.0 then pos else neg)
               && (Abs(v) * 600000.0 + 0.5 < 600000000.0 <==>
                     Abs(v) * 600000.0 - 0.5 <= AngleUnits(a) as real <= Abs(v) * 600000.0 + 0.5)
  {
    AngleParts(v, w, pos, neg);
    hide AngleText, AngleRead;
    var u := Units(v);
    UnitsNear(v);
    assert u < 600000000 <==> Abs(v) * 600000.0 + 0.5 < 600000000.0;
    hide Units;
    Split(u);
  }

  lemma UnitsOfThousand()
    ensures Units(1000.0) == 600000000
  {
  }

  /** 1000 degrees are printed as none. */
  lemma {:induction false} ThousandLost()
    ensures |AngleText(1000.0, 3, 'E', 'W')| >= 10 && AngleRead(AngleText(1000.0, 3, 'E', 'W')) == Angle(0, 0, 0, 'E')
  {
    hide AngleText, AngleRead, Units;
    UnitsOfThousand();
    AngleParts(1000.0, 3, 'E', 'W');
  }

  lemma {:induction false} Split(u: nat)
    ensures u % 600000 / 10000 < 60
    ensures var r := u / 600000 % 1000 * 600000 + u % 600000 / 10000 * 10000 + u % 600000 % 10000;
            if u < 600000000 then r == u else r <= u - 600000000
  {
    var d := u / 600000;
    assert d % 1000 == if d < 1000 then d else d % 1000;
    assert d >= 1000 ==> d % 1000 <= d - 1000;
  }

  // ----- times

  /** The seconds in hundredths, cut off, and kept below a minute. */
  function Hundredths(ss: real): nat {
    var cs := (ss * 100.0 + 0.000001).Floor;
    if cs < 0 then 0 else if cs > 5999 then 5999 else cs
  }

  /** field_time of an hour that is known. */
  function TimeText(hh: nat, mm: nat, ss: real): string {
    var cs := Hundredths(ss);
    "," + Text(hh % 100, 10, 2) + Text(mm % 100, 10, 2) + Text(cs / 100, 10, 2) + "." + Text(cs % 100, 10, 2)
  }

  /** The printed time has less than 60 seconds, is never later than the given one by
      more than the tolerance, and less than a hundredth earlier. */
  lemma {:induction false} TimeCutOff(hh: nat, mm: nat, ss: real)
    requires hh < 100 && mm < 100
    ensures var t := TimeText(hh, mm, ss);
            && |t| == 10 && t[0] == ',' && t[7] == '.'
            && Value(t[1..3], 10) == hh && Value(t[3..5], 10) == mm
            && Value(t[5..7], 10) < 60 && Value(t[8..10], 10) < 100
            && var cs := Value(t[5..7], 10) * 100 + Value(t[8..10], 10);
               0.0 <= ss < 60.0 ==> ss * 100.0 - 1.0 < cs as real <= ss * 100.0 + 0.000001
  {
    hide Text, Value;
    var t, cs := TimeText(hh, mm, ss), Hundredths(ss);
    assert t[1..3] == Text(hh, 10, 2) && t[3..5] == Text(mm, 10, 2);
    assert t[5..7] == Text(cs / 100, 10, 2) && t[8..10] == Text(cs % 100, 10, 2);
    TwoDigits(hh);
    TwoDigits(mm);
    TwoDigits(cs / 100);
    TwoDigits(cs % 100);
  }
}
