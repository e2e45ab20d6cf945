/** One frame as a line of text, and the line read back: src/ydraw.c (ydraw_format). */
module YdrawLine {
  import opened CText
  import opened FastPacket
  import opened CanId
  import opened Radix

  const LINE_ROOM := 64

  // ----- the line

  /** The time of day: hours, minutes, seconds and milliseconds. */
  function Clock(tod: nat): (s: string)
    ensures |s| == 12
  {
    Text(tod / 3600000 % 24, 10, 2) + ":" + Text(tod / 60000 % 60, 10, 2) + ":" + Text(tod / 1000 % 60, 10, 2)
    + "." + Text(tod % 1000, 10, 3)
  }

  function Head(id: nat, tod: nat): (s: string)
    ensures |s| == 23
  {
    Clock(tod) + " R " + Text(id % EFF, 16, 8)
  }

  /** The bytes from index i on. */
  function BytesText(data: seq<Byte>, i: nat): (s: string)
    requires i <= |data|
    ensures |s| == 3 * (|data| - i)
    decreases |data| - i
  {
    if i == |data| then "" else " " + Text(data[i], 16, 2) + BytesText(data, i + 1)
  }

  function Line(id: nat, data: seq<Byte>, tod: nat): (s: string)
    ensures |s| == 25 + 3 * |data|
  {
    Head(id, tod) + BytesText(data, 0) + "\r\n"
  }

  // ----- reading a line

  datatype Frame = Frame(tod: nat, id: nat, data: seq<Byte>)

  function BytesIn(s: string, n: nat): seq<Byte>
    requires 3 * n <= |s|
  {
    if n == 0 then [] else [Value(s[1..3], 16) % 256] + BytesIn(s[3..], n - 1)
  }

  function Read(s: string): Frame
    requires |s| >= 25
  {
    Frame(Value(s[..2], 10) * 3600000 + Value(s[3..5], 10) * 60000 + Value(s[6..8], 10) * 1000 + Value(s[9..12], 10),
          Value(s[15..23], 16),
          BytesIn(s[23..], (|s| - 25) / 3))
  }

  lemma {:induction false} ClockRead(tod: nat)
    ensures var c := Clock(tod);
            Value(c[..2], 10) * 3600000 + Value(c[3..5], 10) * 60000 + Value(c[6..8], 10) * 1000 + Value(c[9..12], 10)
            == tod % 86400000
  {
    hide Text, Value;
    var h, m, s, ms := tod / 3600000 % 24, tod / 60000 % 60, tod / 1000 % 60, tod % 1000;
    var c := Clock(tod);
    assert c[..2] == Text(h, 10, 2) && c[3..5] == Text(m, 10, 2) && c[6..8] == Text(s, 10, 2) && c[9..12] == Text(ms, 10, 3);
    TwoDigits(h);
    TwoDigits(m);
    TwoDigits(s);
    ThreeDigits(ms);
    DayParts(tod);
  }

  lemma {:induction false} HexId(n: nat)
    requires n < EFF
    ensures Value(Text(n, 16, 8), 16) == n
  {
    hide Text, Value;
    assert Power(16, 2) == 256 && Power(16, 4) == 65536;
    assert Power(16, 6) == 16777216 && Power(16, 8) == 4294967296;
    TextRead(n, 16, 8);
  }

  lemma {:induction false} DayParts(tod: nat)
    ensures tod / 3600000 % 24 * 3600000 + tod / 60000 % 60 * 60000 + tod / 1000 % 60 * 1000 + tod % 1000 == tod % 86400000
  {
    var d := tod % 86400000;
    assert tod / 1000 / 60 == tod / 60000;
    assert tod / 60000 / 60 == tod / 3600000;
    assert tod / 3600000 / 24 == tod / 86400000;
  }

  lemma FirstByte(b: string, more: string)
    requires |b| == 2
    ensures var s := " " + b + more; s[1..3] == b && s[3..] == more
  {
  }

  lemma {:induction false} BytesRead(data: seq<Byte>, i: nat, more: string)
    requires i <= |data|
    ensures BytesIn(BytesText(data, i) + more, |data| - i) == data[i..]
    decreases |data| - i
  {
    hide Text, Value;
    if i < |data| {
      var b, t := Text(data[i], 16, 2), BytesText(data, i + 1) + more;
      assert BytesText(data, i) + more == " " + b + t;
      FirstByte(b, t);
      HexByte(data[i]);
      BytesRead(data, i + 1, more);
    }
  }

  /** Every line reads back as its frame: the 29-bit identifier, all bytes in order,
      and the time of day. */
  lemma {:induction false} LineRead(id: nat, data: seq<Byte>, tod: nat)
    ensures Read(Line(id, data, tod)) == Frame(tod % 86400000, id % EFF, data)
  {
    hide Text, Value, Clock, BytesText, BytesIn;
    var s := Line(id, data, tod);
    ClockRead(tod);
    var c := Clock(tod);
    assert s[..2] == c[..2] && s[3..5] == c[3..5] && s[6..8] == c[6..8] && s[9..12] == c[9..12];
    assert s[15..23] == Text(id % EFF, 16, 8);
    HexId(id % EFF);
    assert s[23..] == BytesText(data, 0) + "\r\n";
    BytesRead(data, 0, "\r\n");
    assert data[0..] == data;
  }

  /** What stands between the numbers: the separators of the time, the mark of a received
      frame, a blank before every byte, and the line's end. */
  lemma {:induction false} LineForm(id: nat, data: seq<Byte>, tod: nat)
    ensures var s := Line(id, data, tod);
            && s[2] == ':' && s[5] == ':' && s[8] == '.' && s[12..15] == " R "
            && (forall i | 0 <= i < |data| :: s[23 + 3 * i] == ' ')
            && s[|s| - 2..] == "\r\n"
  {
    hide Text, BytesText;
    var b := BytesText(data, 0);
    var s := Line(id, data, tod);
    forall i | 0 <= i < |data| ensures s[23 + 3 * i] == ' ' {
      BytesForm(data, 0, i);
      assert s[23 + 3 * i] == b[3 * i];
    }
  }

  lemma {:induction false} BytesForm(data: seq<Byte>, from: nat, i: nat)
    requires from + i < |data|
    ensures BytesText(data, from)[3 * i] == ' '
    decreases i
  {
    hide Text;
    if i > 0 {
      BytesForm(data, from + 1, i - 1);
      var b, t := " " + Text(data[from], 16, 2), BytesText(data, from + 1);
      assert BytesText(data, from) == b + t && (b + t)[3 * i] == t[3 * (i - 1)];
    }
  }

  /** ydraw_format: the line, or nothing when the buffer is too small; a frame of a
      classic bus always fits the 64 bytes that callers provide. */
  method Format(sz: nat, id: nat, data: seq<Byte>, tod: nat) returns (r: Option<string>)
    ensures r == if 25 + 3 * |data| < sz then Some(Line(id, data, tod)) else None
    ensures sz == LINE_ROOM && |data| <= 8 ==> r.Some? && Read(r.value) == Frame(tod % 86400000, id % EFF, data)
  {
    hide Text, Clock, Read;
    LineRead(id, data, tod);
    var out := Head(id, tod);
    if |out| >= sz {
      return None;
    }
    var i := 0;
    while i < |data|
      invariant i <= |data| && |out| < sz
      invariant out + (BytesText(data, i) + "\r\n") == Line(id, data, tod)
    {
      if |out| + 3 >= sz {
        return None;
      }
      var w := " " + Text(data[i], 16, 2);
      assert out + (w + BytesText(data, i + 1) + "\r\n") == out + w + (BytesText(data, i + 1) + "\r\n");
      out := out + w;
      i := i + 1;
    }
    if |out| + 2 >= sz {
      return None;
    }
    assert BytesText(data, i) + "\r\n" == "\r\n";
    return Some(out + "\r\n");
  }
}
