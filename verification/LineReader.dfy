/** The daemon's own line reader (src/daemon.c, lr_fill and lr_line) and the
    loop that drives it: the lines depend on the byte stream alone. */
module LineReader {
  import opened CText

  const LR_BUF := 65536
  const LINE_LEN := 8192

  // ----- the lines of a stream

  /** Length of the first line of a stream: up to its line feed, or cut where the buffer is full. */
  function LineLen(t: string): (n: nat)
    requires t != ""
    ensures 0 < n <= |t|
  {
    var e := if |t| < LR_BUF then |t| else LR_BUF;
    var i := First(t, 0, e, Newline);
    if i < e then i + 1 else e
  }

  function Segments(t: string): seq<string>
    decreases |t|
  {
    if t == "" then [] else [t[..LineLen(t)]] + Segments(t[LineLen(t)..])
  }

  /** What the caller's line buffer holds of each line. */
  function Outputs(ls: seq<string>): (r: seq<string>)
    ensures |r| == |ls| && forall i | 0 <= i < |r| :: r[i] == Copy(ls[i], LINE_LEN)
  {
    seq(|ls|, i requires 0 <= i < |ls| => Copy(ls[i], LINE_LEN))
  }

  lemma {:induction false} SegmentsCover(t: string)
    ensures Concat(Segments(t)) == t
    ensures forall i | 0 <= i < |Segments(t)| :: Segments(t)[i] != ""
    decreases |t|
  {
    hide LineLen;
    if t != "" {
      SegmentsCover(t[LineLen(t)..]);
      assert t == t[..LineLen(t)] + t[LineLen(t)..];
    }
  }

  /** When no line is longer than the line buffer, the lines are the stream. */
  lemma {:induction false} OutputsCover(t: string)
    requires forall i | 0 <= i < |Segments(t)| :: |Segments(t)[i]| < LINE_LEN
    ensures Concat(Outputs(Segments(t))) == t
  {
    SegmentsCover(t);
    assert Outputs(Segments(t)) == Segments(t);
  }

  /** Every line but the last ends in its only line feed, unless the buffer was full. */
  lemma {:induction false} LineShape(t: string)
    requires t != ""
    ensures var l := t[..LineLen(t)];
            && (forall i | 0 <= i < |l| - 1 :: l[i] != '\n')
            && (l[|l| - 1] == '\n' || |l| == LR_BUF || l == t)
  {
    var e := if |t| < LR_BUF then |t| else LR_BUF;
    var i := First(t, 0, e, Newline);
    assert forall k | 0 <= k < i :: !Newline.At(t[k]);
  }

  // ----- the reader

  /** What lr_line takes from a buffer that holds t. */
  function Take(t: string, eof: bool): Option<nat>
    requires |t| <= LR_BUF
  {
    var i := First(t, 0, |t|, Newline);
    if i < |t| then Some(i + 1)
    else if |t| >= LR_BUF || (eof && t != "") then Some(|t|)
    else None
  }

  /** What is taken from the buffer is the first line of all that is still to come. */
  lemma {:induction false} TakeIsLine(t: string, more: string, eof: bool)
    requires |t| <= LR_BUF && Take(t, eof).Some?
    requires eof ==> more == ""
    ensures t + more != "" && LineLen(t + more) == Take(t, eof).value
  {
    var s := t + more;
    var i := First(t, 0, |t|, Newline);
    var e := if |s| < LR_BUF then |s| else LR_BUF;
    assert forall k | 0 <= k < |t| :: s[k] == t[k];
    if i < |t| {
      FirstIs(s, 0, e, Newline, i);
    } else {
      FirstIs(s, 0, e, Newline, e);
    }
  }

  class Reader {
    const buf: array<char>
    var len: nat
    var eof: bool

    ghost predicate Valid()
      reads this
    {
      buf.Length == LR_BUF && len <= LR_BUF
    }

    ghost function Contents(): string
      requires Valid()
      reads this, buf
    {
      buf[..len]
    }

    constructor ()
      ensures Valid() && fresh(buf) && Contents() == "" && !eof
    {
      buf, len, eof := new char[LR_BUF](_ => '\0'), 0, false;
    }

    /** lr_fill: a read that returned these bytes, at most what there is room for; none is end of file. */
    method Fill(bytes: string)
      requires Valid() && len + |bytes| <= LR_BUF && len < LR_BUF
      modifies this`len, this`eof, buf
      ensures Valid() && Contents() == old(Contents()) + bytes
      ensures eof == (old(eof) || bytes == "")
    {
      if bytes == "" {
        eof := true;
        return;
      }
      forall i | 0 <= i < |bytes| {
        buf[len + i] := bytes[i];
      }
      len := len + |bytes|;
    }

    method FindNewline() returns (i: nat)
      requires Valid()
      ensures i == First(Contents(), 0, len, Newline)
    {
      i := 0;
      while i < len && buf[i] != '\n'
        invariant i <= len
        invariant First(Contents(), i, len, Newline) == First(Contents(), 0, len, Newline)
      {
        i := i + 1;
      }
    }

    /** lr_line: the next line, cut to the caller's buffer, and the rest moved to the front. */
    method Line(outsz: nat) returns (line: Option<string>)
      requires Valid() && outsz > 0
      modifies this`len, buf
      ensures Valid()
      ensures match Take(old(Contents()), eof)
              case None => line == None && Contents() == old(Contents())
              case Some(n) => line == Some(Copy(old(Contents())[..n], outsz)) && Contents() == old(Contents())[n..]
    {
      hide Copy, First;
      ghost var t := Contents();
      var nl := FindNewline();
      var take: nat;
      if nl < len {
        take := nl + 1;
      } else if len >= LR_BUF || (eof && len > 0) {
        take := len;
      } else {
        return None;
      }
      var cp := if take < outsz - 1 then take else outsz - 1;
      CopyTake(t, take, outsz);
      line := Some(buf[..cp]);
      assert buf[..cp] == t[..cp];
      Shift(take);
    }

    /** memmove of what is left to the front. */
    method Shift(take: nat)
      requires Valid() && take <= len
      modifies this`len, buf
      ensures Valid() && Contents() == old(Contents())[take..]
    {
      forall i | 0 <= i < len - take {
        buf[i] := buf[take + i];
      }
      len := len - take;
    }
  }

  lemma CopyTake(t: string, take: nat, outsz: nat)
    requires take <= |t| && outsz > 0
    ensures Copy(t[..take], outsz) == t[..if take < outsz - 1 then take else outsz - 1]
  {
  }

  // ----- the loop

  /** One read of the stream, which is ready to give this many bytes. */
  method Feed(r: Reader, stream: string, pos: nat, ready: nat) returns (pos': nat)
    requires r.Valid() && pos <= |stream| && r.len < LR_BUF && ready > 0
    modifies r, r.buf
    ensures r.Valid() && pos <= pos' <= |stream|
    ensures r.Contents() + stream[pos'..] == old(r.Contents()) + stream[pos..]
    ensures r.eof == (old(r.eof) || pos == |stream|)
    ensures pos == |stream| ==> pos' == pos && r.Contents() == old(r.Contents())
    ensures pos < |stream| ==> pos' > pos
  {
    var n := if ready < LR_BUF - r.len then ready else LR_BUF - r.len;
    if n > |stream| - pos {
      n := |stream| - pos;
    }
    pos' := pos + n;
    r.Fill(stream[pos..pos']);
    assert stream[pos..pos'] + stream[pos'..] == stream[pos..];
  }

  /** What is still to come out of the reader and the stream. */
  ghost predicate Coming(rest: string, t: string, more: string, eof: bool) {
    rest == t + more && |t| <= LR_BUF && (eof ==> more == "")
  }

  lemma {:induction false} LineTaken(rest: string, t: string, more: string, eof: bool, n: nat, segs: seq<string>)
    requires Coming(rest, t, more, eof) && Take(t, eof) == Some(n)
    ensures 0 < n <= |t| && Coming(rest[n..], t[n..], more, eof)
    ensures segs + Segments(rest) == segs + [t[..n]] + Segments(rest[n..])
  {
    hide LineLen;
    TakeIsLine(t, more, eof);
    assert rest[..n] == t[..n] && rest[n..] == t[n..] + more;
  }

  /** How many of the reads find something to give, or the end of the stream. */
  function Ready(schedule: seq<nat>): nat {
    if schedule == [] then 0
    else Ready(schedule[..|schedule| - 1]) + if schedule[|schedule| - 1] > 0 then 1 else 0
  }

  lemma {:induction false} ReadyNext(schedule: seq<nat>, k: nat)
    requires k < |schedule|
    ensures Ready(schedule[..k + 1]) == Ready(schedule[..k]) + if schedule[k] > 0 then 1 else 0
  {
    assert schedule[..k + 1][..k] == schedule[..k];
  }

  /** Where the first n lines end in the stream. */
  function EndOf(stream: string, n: nat): nat
    requires n <= |Segments(stream)|
  {
    |Concat(Segments(stream)[..n])|
  }

  /** Halfway: these segments were handed out, the buffer holds t, and pos bytes were read. */
  ghost predicate Halfway(stream: string, lines: seq<string>, segs: seq<string>, t: string, pos: nat, eof: bool) {
    && pos <= |stream| && |t| <= LR_BUF && (eof ==> pos == |stream|)
    && lines == Outputs(segs)
    && segs + Segments(t + stream[pos..]) == Segments(stream)
    && Concat(segs) + (t + stream[pos..]) == stream
  }

  lemma {:induction false} AtStart(stream: string)
    ensures Halfway(stream, [], [], "", 0, false)
  {
    hide Segments;
    assert "" + stream[0..] == stream && [] + Segments(stream) == Segments(stream);
    assert Concat([]) + stream == stream;
    assert Outputs([]) == [];
  }

  lemma {:induction false} AfterLine(stream: string, lines: seq<string>, segs: seq<string>, t: string, pos: nat, eof: bool, n: nat)
    requires Halfway(stream, lines, segs, t, pos, eof) && Take(t, eof) == Some(n)
    ensures 0 < n <= |t|
    ensures Halfway(stream, lines + [Copy(t[..n], LINE_LEN)], segs + [t[..n]], t[n..], pos, eof)
  {
    hide Take, Segments, Copy, Concat;
    var more := stream[pos..];
    var rest := t + more;
    LineTaken(rest, t, more, eof, n, segs);
    OutputsSnoc(segs, t[..n]);
    ConcatSnoc(segs, t[..n]);
    assert rest[n..] == t[n..] + more;
    assert Concat(segs) + rest == Concat(segs) + t[..n] + (t[n..] + more) by { assert rest == t[..n] + rest[n..]; }
  }

  lemma {:induction false} AfterRead(stream: string, lines: seq<string>, segs: seq<string>, t: string, pos: nat, eof: bool,
                                     t': string, pos': nat, eof': bool)
    requires Halfway(stream, lines, segs, t, pos, eof) && pos <= pos' <= |stream| && |t'| <= LR_BUF
    requires t' + stream[pos'..] == t + stream[pos..] && (eof' ==> pos' == |stream|)
    ensures Halfway(stream, lines, segs, t', pos', eof')
  {
    hide Segments, Concat;
  }

  /** Where no line can be taken, what was read and not handed out is the start of a line. */
  lemma {:induction false} AtEnd(stream: string, lines: seq<string>, segs: seq<string>, t: string, pos: nat, eof: bool)
    requires Halfway(stream, lines, segs, t, pos, eof) && Take(t, eof) == None
    ensures var all := Outputs(Segments(stream));
            |lines| <= |all| && lines == all[..|lines|] && (eof ==> lines == all)
    ensures |lines| <= |Segments(stream)|
    ensures var n := EndOf(stream, |lines|);
            n <= pos <= |stream| && pos - n < LR_BUF && forall i | n <= i < pos :: stream[i] != '\n'
  {
    hide Segments, Concat, Take;
    var rest := t + stream[pos..];
    OutputsPrefix(segs, Segments(rest));
    if eof { NothingLeft(segs, t, rest); }
    StartLeft(stream, segs, rest, t, pos, eof);
  }

  /** The daemon's loop: a line when there is one, else a read. The schedule says
      how many bytes each read is ready to give: 0 when there is nothing yet. It
      stops at the end of the stream, or where the schedule does. Of the bytes read
      by then only the start of a line is left, shorter than the buffer; and every
      ready read brought a byte or the end of the stream. */
  method Run(stream: string, schedule: seq<nat>) returns (lines: seq<string>, ended: bool, read: nat)
    ensures var all := Outputs(Segments(stream));
            |lines| <= |all| && lines == all[..|lines|] && (ended ==> lines == all)
    ensures |lines| <= |Segments(stream)|
    ensures var n := EndOf(stream, |lines|);
            n <= read <= |stream| && read - n < LR_BUF && forall i | n <= i < read :: stream[i] != '\n'
    ensures !ended ==> read >= Ready(schedule)
  {
    hide Take, Segments, Copy, Ready, Halfway, Concat, EndOf, Outputs;
    var r := new Reader();
    ghost var segs: seq<string> := [];
    lines, ended := [], false;
    var pos: nat, k: nat := 0, 0;
    AtStart(stream);
    assert Ready(schedule[..0]) == 0 by { NoneReady(schedule); }
    while true
      invariant r.Valid() && fresh(r) && fresh(r.buf)
      invariant pos <= |stream| && k <= |schedule|
      invariant Halfway(stream, lines, segs, r.Contents(), pos, r.eof)
      invariant r.eof || pos >= Ready(schedule[..k])
      invariant r.eof ==> pos == |stream|
      decreases |schedule| - k, r.len
    {
      ghost var t := r.Contents();
      var line := r.Line(LINE_LEN);
      if line.Some? {
        ghost var n := Take(t, r.eof).value;
        AfterLine(stream, lines, segs, t, pos, r.eof, n);
        segs, lines := segs + [t[..n]], lines + [line.value];
        continue;
      }
      if r.eof || k == |schedule| {
        AtEnd(stream, lines, segs, t, pos, r.eof);
        assert schedule[..|schedule|] == schedule;
        return lines, r.eof, pos;
      }
      RoomLeft(t);
      ReadyNext(schedule, k);
      if schedule[k] > 0 {
        ghost var pos0 := pos;
        pos := Feed(r, stream, pos, schedule[k]);
        AfterRead(stream, lines, segs, t, pos0, false, r.Contents(), pos, r.eof);
      }
      k := k + 1;
    }
  }

  lemma NoneReady(schedule: seq<nat>)
    ensures Ready(schedule[..0]) == 0
  {
  }

  /** Where no line can be taken, the bytes read and not handed out hold no line feed. */
  lemma {:induction false} StartLeft(stream: string, segs: seq<string>, rest: string, t: string, pos: nat, eof: bool)
    requires pos <= |stream| && Coming(rest, t, stream[pos..], eof) && Take(t, eof) == None
    requires segs + Segments(rest) == Segments(stream) && Concat(segs) + rest == stream
    ensures |segs| <= |Segments(stream)|
    ensures var n := EndOf(stream, |segs|);
            n <= pos && pos - n < LR_BUF && forall i | n <= i < pos :: stream[i] != '\n'
  {
    hide Segments, Concat;
    assert Segments(stream)[..|segs|] == segs;
    var n := |Concat(segs)|;
    assert n + |t| == pos;
    forall i | n <= i < pos ensures stream[i] != '\n' {
      assert stream[i] == rest[i - n] == t[i - n];
      assert !Newline.At(t[i - n]);
    }
  }

  lemma {:induction false} OutputsSnoc(segs: seq<string>, s: string)
    ensures Outputs(segs + [s]) == Outputs(segs) + [Copy(s, LINE_LEN)]
  {
    hide Copy;
  }

  lemma {:induction false} OutputsPrefix(a: seq<string>, b: seq<string>)
    ensures |Outputs(a + b)| >= |a| && Outputs(a) == Outputs(a + b)[..|a|]
  {
    hide Copy;
  }

  lemma NothingLeft(segs: seq<string>, t: string, rest: string)
    requires |t| <= LR_BUF && Take(t, true) == None && rest == t + ""
    ensures segs + Segments(rest) == segs
  {
  }

  lemma RoomLeft(t: string)
    requires |t| <= LR_BUF && Take(t, false) == None
    ensures |t| < LR_BUF
  {
  }
}
