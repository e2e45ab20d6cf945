/** The text form of an incoming message, "time,prio,pgn,src,dst,len,b0,b1,...":
    src/ydraw_bridge.c (parse_actisense). A pointer is the suffix it points at. */
module Actisense {
  import opened CText
  import opened CNumber
  import opened FastPacket
  import opened Radix

  // ----- strtol with its end pointer

  predicate DigitIn(c: char, base: nat) {
    IsDigit(c) || (base == 16 && ('a' <= c <= 'f' || 'A' <= c <= 'F'))
  }

  function DigitValueIn(c: char): nat {
    if IsDigit(c) then DigitValue(c)
    else if 'a' <= c <= 'f' then c as int - 'a' as int + 10
    else if 'A' <= c <= 'F' then c as int - 'A' as int + 10 else 0
  }

  /** A number read, and the text behind it. */
  datatype Number = Number(value: int, rest: string)

  function ReadIn(t: string, base: nat, acc: nat): (r: Number)
    ensures r.value >= 0 && |r.rest| <= |t|
  {
    if t == "" || !DigitIn(t[0], base) then Number(acc, t)
    else ReadIn(t[1..], base, acc * base + DigitValueIn(t[0]))
  }

  function AfterSpaces(t: string): (r: string)
    ensures |r| <= |t|
  {
    if t != "" && IsSpace(t[0]) then AfterSpaces(t[1..]) else t
  }

  function AfterPrefix(t: string, base: nat): (r: string)
    ensures |r| <= |t|
  {
    if base == 16 && |t| > 2 && t[0] == '0' && (t[1] == 'x' || t[1] == 'X') && DigitIn(t[2], 16) then t[2..] else t
  }

  function Clamp(v: int): int {
    if v > LONG_MAX then LONG_MAX else if v < -LONG_MAX - 1 then -LONG_MAX - 1 else v
  }

  /** Nothing when there is no digit: the end pointer stays where it was. */
  function ReadLong(t: string, base: nat): (r: Option<Number>)
    ensures r.Some? ==> |r.value.rest| < |t|
  {
    var s := AfterSpaces(t);
    var negative := s != "" && s[0] == '-';
    var u := if s != "" && (s[0] == '-' || s[0] == '+') then s[1..] else s;
    var d := AfterPrefix(u, base);
    if d == "" || !DigitIn(d[0], base) then None
    else
      var n := ReadIn(d[1..], base, DigitValueIn(d[0]));
      Some(Number(Clamp(if negative then -n.value else n.value), n.rest))
  }

  // ----- the line

  datatype Message = Message(prio: int, pgn: int, src: int, dst: int, data: seq<Byte>)

  /** Numbers with commas between them, n of them. */
  function ReadHeader(p: string, n: nat): (r: Option<(seq<int>, string)>)
    requires n > 0
    ensures r.Some? ==> |r.value.0| == n
    decreases n
  {
    var v := ReadLong(p, 10);
    if v.None? then None
    else if n == 1 then Some(([v.value.value], v.value.rest))
    else if v.value.rest == "" || v.value.rest[0] != ',' then None
    else
      var more := ReadHeader(v.value.rest[1..], n - 1);
      if more.None? then None else Some(([v.value.value] + more.value.0, more.value.1))
  }

  /** n bytes, a comma before each. */
  function ReadBytes(p: string, n: nat): (r: Option<seq<Byte>>)
    ensures r.Some? ==> |r.value| == n
    decreases n
  {
    if n == 0 then Some([])
    else if p == "" || p[0] != ',' then None
    else
      var b := ReadLong(p[1..], 16);
      if b.None? then None
      else
        var more := ReadBytes(b.value.rest, n - 1);
        if more.None? then None else Some([b.value.value % 256] + more.value)
  }

  function BehindComma(t: string): Option<string> {
    if t == "" then None else if t[0] == ',' then Some(t[1..]) else BehindComma(t[1..])
  }

  /** parse_actisense. */
  function Parsed(line: string): (r: Option<Message>)
    ensures r.Some? ==> |r.value.data| <= MAX_DATA
  {
    var p := BehindComma(line);
    if p.None? then None
    else
      var h := ReadHeader(p.value, 5);
      if h.None? then None
      else
        var v, n := h.value.0, ToInt(h.value.0[4]);
        if n < 0 || n > MAX_DATA then None
        else
          var data := ReadBytes(h.value.1, n);
          if data.None? then None
          else Some(Message(ToInt(v[0]), ToInt(v[1]), ToInt(v[2]), ToInt(v[3]), data.value))
  }

  // ----- a printed message reads back

  function BytesText(data: seq<Byte>): string {
    if data == [] then "" else "," + Text(data[0], 16, 2) + BytesText(data[1..])
  }

  function HeaderText(vs: seq<int>): string
    requires vs != []
  {
    if |vs| == 1 then Decimal(vs[0]) else Decimal(vs[0]) + "," + HeaderText(vs[1..])
  }

  function Printed(time: string, m: Message): string {
    time + "," + HeaderText([m.prio, m.pgn, m.src, m.dst, |m.data|]) + BytesText(m.data)
  }

  ghost predicate NoDigitNext(t: string, base: nat) { t == "" || !DigitIn(t[0], base) }

  lemma {:induction false} DigitsPassed(n: nat, rest: string, acc: nat)
    requires NoDigitNext(rest, 10)
    ensures IsDigit(Digits(n)[0])
    ensures var t := Digits(n) + rest; ReadIn(t[1..], 10, DigitValueIn(t[0])) == Number(n, rest)
  {
    DigitsRun(n, rest);
    var t := Digits(n) + rest;
    assert t[0] == Digits(n)[0];
    assert ReadIn(t, 10, 0) == ReadIn(t[1..], 10, 0 * 10 + DigitValueIn(t[0]));
    assert ReadIn(rest, 10, n) == Number(n, rest);
  }

  lemma {:induction false} DigitsRun(n: nat, rest: string)
    ensures ReadIn(Digits(n) + rest, 10, 0) == ReadIn(rest, 10, n)
  {
    if n < 10 {
      assert ([DigitOf(n)] + rest)[1..] == rest;
    } else {
      var d := [DigitOf(n % 10)];
      DigitsRun(n / 10, d + rest);
      assert Digits(n / 10) + (d + rest) == Digits(n) + rest;
      assert (d + rest)[1..] == rest;
    }
  }

  lemma {:induction false} DecimalReadLong(n: int, rest: string)
    requires NoDigitNext(rest, 10)
    ensures ReadLong(Decimal(n) + rest, 10) == Some(Number(Saturated(n), rest))
  {
    hide Digits, ReadIn;
    var m := if n < 0 then -n else n;
    DigitsPassed(m, rest, 0);
    var t := Decimal(n) + rest;
    var u := Digits(m) + rest;
    assert u[0] == Digits(m)[0];
    if n < 0 {
      assert t[0] == '-' && t[1..] == u;
    } else {
      assert t == u;
    }
  }

  lemma {:induction false} HexReadLong(b: nat, rest: string)
    requires b < 256 && NoDigitNext(rest, 16)
    ensures ReadLong(Text(b, 16, 2) + rest, 16) == Some(Number(b, rest))
  {
    var x, y := DigitChar(b / 16), DigitChar(b % 16);
    TwoChars(b);
    HexDigit(b / 16);
    HexDigit(b % 16);
    var t := [x, y] + rest;
    assert t[1..] == [y] + rest && ([y] + rest)[1..] == rest;
    assert ReadIn([y] + rest, 16, b / 16) == ReadIn(rest, 16, b / 16 * 16 + b % 16);
    assert AfterSpaces(t) == t && AfterPrefix(t, 16) == t;
  }

  lemma {:induction false} TwoChars(b: nat)
    requires b < 256
    ensures Text(b, 16, 2) == [DigitChar(b / 16), DigitChar(b % 16)]
  {
    assert Text(b / 16, 16, 1) == Text(b / 16 / 16, 16, 0) + [DigitChar(b / 16 % 16)];
    assert Text(b / 16 / 16, 16, 0) == "";
  }

  lemma {:induction false} HexDigit(n: nat)
    requires n < 16
    ensures var c := DigitChar(n);
            DigitIn(c, 16) && DigitValueIn(c) == n && !IsSpace(c) && c != '-' && c != '+' && c != 'x' && c != 'X'
  {
  }

  lemma {:induction false} NoDigitBehind(data: seq<Byte>, rest: string)
    requires NoDigitNext(rest, 16)
    ensures NoDigitNext(BytesText(data) + rest, 16)
  {
    hide Text;
    if data == [] {
      assert BytesText(data) + rest == rest;
    }
  }

  lemma {:induction false} OneByteRead(t: string, b: Byte, more: string, n: nat)
    requires ReadLong(t, 16) == Some(Number(b, more))
    ensures ReadBytes("," + t, n + 1) == match ReadBytes(more, n) case None => None case Some(data) => Some([b] + data)
  {
    hide ReadLong;
    assert ("," + t)[1..] == t;
  }

  lemma {:induction false} BytesReadBack(data: seq<Byte>, rest: string)
    requires NoDigitNext(rest, 16)
    ensures ReadBytes(BytesText(data) + rest, |data|) == Some(data)
  {
    hide ReadLong, Text, NoDigitNext, ReadBytes;
    if data == [] {
      NoBytesRead(BytesText(data) + rest);
    } else {
      var more := BytesText(data[1..]) + rest;
      var t := Text(data[0], 16, 2) + more;
      assert BytesText(data) + rest == "," + t;
      NoDigitBehind(data[1..], rest);
      HexReadLong(data[0], more);
      OneByteRead(t, data[0], more, |data| - 1);
      BytesReadBack(data[1..], rest);
      assert data == [data[0]] + data[1..];
    }
  }

  lemma NoBytesRead(t: string)
    ensures ReadBytes(t, 0) == Some([])
  {
  }

  lemma {:induction false} HeaderReadBack(vs: seq<int>, rest: string)
    requires vs != [] && NoDigitNext(rest, 10) && forall i | 0 <= i < |vs| :: -LONG_MAX - 1 <= vs[i] <= LONG_MAX
    ensures ReadHeader(HeaderText(vs) + rest, |vs|) == Some((vs, rest))
  {
    hide ReadLong, Decimal;
    if |vs| == 1 {
      DecimalReadLong(vs[0], rest);
      assert vs == [vs[0]];
    } else {
      var more := HeaderText(vs[1..]) + rest;
      assert HeaderText(vs) + rest == Decimal(vs[0]) + ("," + more);
      DecimalReadLong(vs[0], "," + more);
      assert ("," + more)[1..] == more;
      HeaderReadBack(vs[1..], rest);
      assert vs == [vs[0]] + vs[1..];
    }
  }

  lemma {:induction false} TimePassed(time: string, t: string)
    requires forall i | 0 <= i < |time| :: time[i] != ','
    ensures BehindComma(time + ("," + t)) == Some(t)
  {
    if time == "" {
      assert (time + ("," + t))[1..] == t;
    } else {
      assert (time + ("," + t))[1..] == time[1..] + ("," + t);
      TimePassed(time[1..], t);
    }
  }

  /** Every message of at most 223 bytes, printed behind any time and followed by a line
      break or nothing, is read as itself. */
  lemma {:induction false} PrintedReadsBack(time: string, m: Message, rest: string)
    requires forall i | 0 <= i < |time| :: time[i] != ','
    requires IsInt(m.prio) && IsInt(m.pgn) && IsInt(m.src) && IsInt(m.dst) && |m.data| <= MAX_DATA
    requires NoDigitNext(rest, 16)
    ensures Parsed(Printed(time, m) + rest) == Some(m)
  {
    hide ReadHeader, ReadBytes, HeaderText, BytesText, BehindComma;
    var vs := [m.prio, m.pgn, m.src, m.dst, |m.data|];
    var tail := BytesText(m.data) + rest;
    assert Printed(time, m) + rest == time + ("," + (HeaderText(vs) + tail));
    TimePassed(time, HeaderText(vs) + tail);
    TailNoDigit(m.data, rest);
    HeaderReadBack(vs, tail);
    BytesReadBack(m.data, rest);
  }

  lemma {:induction false} TailNoDigit(data: seq<Byte>, rest: string)
    requires NoDigitNext(rest, 16)
    ensures NoDigitNext(BytesText(data) + rest, 10)
  {
    if data == [] {
      assert BytesText(data) + rest == rest;
    }
  }

  // ----- the parser with its loops

  /** parse_actisense. */
  method Parse(line: string) returns (r: Option<Message>)
    ensures r == Parsed(line)
  {
    hide ReadLong, ReadHeader, ReadBytes, BehindComma;
    var start := BehindComma(line);
    if start.None? {
      return None;
    }
    var v, p := Header(start.value);
    if v == [] {
      return None;
    }
    var n := ToInt(v[4]);
    if n < 0 || n > MAX_DATA {
      return None;
    }
    var data := Data(p, n);
    if data.None? {
      return None;
    }
    return Some(Message(ToInt(v[0]), ToInt(v[1]), ToInt(v[2]), ToInt(v[3]), data.value));
  }

  /** The loop over the five numbers; nothing when one is missing. */
  method Header(start: string) returns (v: seq<int>, p: string)
    ensures var h := ReadHeader(start, 5); if h.None? then v == [] else v == h.value.0 && p == h.value.1
  {
    hide ReadLong;
    v, p := [], start;
    var i := 0;
    ghost var whole := ReadHeader(start, 5);
    assert whole.Some? ==> [] + whole.value.0 == whole.value.0;
    while i < 5
      invariant 0 <= i <= 5 && |v| == i
      invariant i < 5 ==> var h, all := ReadHeader(p, 5 - i), ReadHeader(start, 5);
                          all == if h.None? then None else Some((v + h.value.0, h.value.1))
      invariant i == 5 ==> ReadHeader(start, 5) == Some((v, p))
    {
      var b := ReadLong(p, 10);
      if b.None? {
        return [], p;
      }
      if i < 4 {
        if b.value.rest == "" || b.value.rest[0] != ',' {
          return [], p;
        }
        p := b.value.rest[1..];
      } else {
        p := b.value.rest;
      }
      ghost var before := v;
      v := v + [b.value.value];
      i := i + 1;
      if i < 5 {
        ghost var h := ReadHeader(p, 5 - i);
        assert h.Some? ==> before + ([b.value.value] + h.value.0) == v + h.value.0;
      }
    }
  }

  /** The loop over the bytes. */
  method Data(start: string, n: nat) returns (data: Option<seq<Byte>>)
    ensures data == ReadBytes(start, n)
  {
    hide ReadLong;
    var bytes: seq<Byte> := [];
    var p := start;
    var i := 0;
    ghost var whole := ReadBytes(start, n);
    assert whole.Some? ==> bytes + whole.value == whole.value;
    while i < n
      invariant i <= n
      invariant var more, all := ReadBytes(p, n - i), ReadBytes(start, n);
                all == if more.None? then None else Some(bytes + more.value)
    {
      if p == "" || p[0] != ',' {
        return None;
      }
      var b := ReadLong(p[1..], 16);
      if b.None? {
        return None;
      }
      ghost var before, more := bytes, ReadBytes(b.value.rest, n - i - 1);
      bytes := bytes + [b.value.value % 256];
      assert more.Some? ==> before + ([b.value.value % 256] + more.value) == bytes + more.value;
      p := b.value.rest;
      i := i + 1;
    }
    assert bytes + [] == bytes;
    return Some(bytes);
  }

  // ----- other ways to write a byte

  function HexValue(c: char): nat {
    if '0' <= c <= '9' then c as int - '0' as int
    else if SameLetter(c, 'a') then 10 else if SameLetter(c, 'b') then 11 else if SameLetter(c, 'c') then 12
    else if SameLetter(c, 'd') then 13 else if SameLetter(c, 'e') then 14 else if SameLetter(c, 'f') then 15 else 16
  }

  lemma HexIs(c: char)
    ensures DigitIn(c, 16) <==> HexValue(c) < 16
    ensures HexValue(c) < 16 ==> DigitValueIn(c) == HexValue(c) && !IsSpace(c) && c !in "+-"
  {
  }

  /** Two hexadecimal digits in any case, behind white space and a prefix or not, are a byte. */
  lemma {:induction false} ByteRead(lead: string, prefix: string, c: char, d: char, rest: string)
    requires (forall i | 0 <= i < |lead| :: lead[i] in " \t\n\U{B}\U{C}\r") && prefix in {"", "0x", "0X"}
    requires HexValue(c) < 16 && HexValue(d) < 16 && (rest == "" || HexValue(rest[0]) == 16)
    ensures ReadLong(lead + (prefix + ([c, d] + rest)), 16) == Some(Number(16 * HexValue(c) + HexValue(d), rest))
  {
    hide IsSpace, HexValue, DigitIn, DigitValueIn, ReadIn, AfterPrefix, AfterSpaces;
    var u := [c, d] + rest;
    var t := prefix + u;
    HexIs(c);
    HexIs(d);
    if rest != "" { HexIs(rest[0]); }
    PrefixStart(prefix, u);
    SpacesPassed(lead, t);
    PrefixPassed(prefix, c, d, rest);
    TwoRead(c, d, rest);
  }

  lemma {:induction false} TwoRead(c: char, d: char, rest: string)
    requires DigitIn(d, 16) && NoDigitNext(rest, 16)
    ensures ReadIn(([c, d] + rest)[1..], 16, DigitValueIn(c)) == Number(16 * DigitValueIn(c) + DigitValueIn(d), rest)
  {
    hide DigitIn, DigitValueIn;
    assert ([c, d] + rest)[1..] == [d] + rest && ([d] + rest)[1..] == rest;
    assert ReadIn([d] + rest, 16, DigitValueIn(c)) == ReadIn(rest, 16, DigitValueIn(c) * 16 + DigitValueIn(d));
  }

  lemma {:induction false} PrefixStart(prefix: string, u: string)
    requires prefix in {"", "0x", "0X"} && u != "" && !IsSpace(u[0]) && u[0] !in "+-"
    ensures var t := prefix + u; t != "" && !IsSpace(t[0]) && t[0] != '-' && t[0] != '+'
  {
    if prefix == "" { assert prefix + u == u; }
  }

  lemma {:induction false} SpacesPassed(lead: string, t: string)
    requires (forall i | 0 <= i < |lead| :: lead[i] in " \t\n\U{B}\U{C}\r") && t != "" && !IsSpace(t[0])
    ensures AfterSpaces(lead + t) == t
  {
    if lead == "" {
      assert lead + t == t;
    } else {
      assert (lead + t)[0] == lead[0] && (lead + t)[1..] == lead[1..] + t;
      SpacesPassed(lead[1..], t);
    }
  }

  lemma {:induction false} PrefixPassed(prefix: string, c: char, d: char, rest: string)
    requires prefix in {"", "0x", "0X"} && DigitIn(c, 16) && DigitIn(d, 16)
    ensures AfterPrefix(prefix + ([c, d] + rest), 16) == [c, d] + rest
  {
    var u := [c, d] + rest;
    if prefix == "" {
      assert prefix + u == u;
      assert d != 'x' && d != 'X';
    } else {
      assert (prefix + u)[2..] == u;
    }
  }
}
