/** Messages of up to 223 bytes as frames of 8: src/ydraw.c, src/ydraw_bridge.c. */
module FastPacket {

  const MAX_DATA := 223

  type Byte = x: int | 0 <= x < 256 witness 0

  // ----- sending

  /** ydraw_fastpacket_frames. */
  function Frames(len: nat): (n: nat)
    ensures n >= 1
  {
    if len <= 6 then 1 else 1 + (len - 6 + 6) / 7
  }

  /** What n frames can carry: 6 bytes in the first one, 7 in each further one. */
  function Capacity(n: nat): nat { if n == 0 then 0 else 6 + 7 * (n - 1) }

  /** The number of frames is the least that can carry the message. */
  lemma FramesAreLeast(len: nat, n: nat)
    requires n >= 1
    ensures Capacity(n) >= len <==> n >= Frames(len)
  {
  }

  /** The frame index fits its 5 bits exactly for the lengths that the protocol allows. */
  lemma IndexFits(len: nat)
    ensures Frames(len) <= 32 <==> len <= MAX_DATA
  {
  }

  /** The header byte: the message's sequence number and the frame's index. */
  function Head(seqNo: int, idx: nat): Byte { seqNo % 8 * 32 + idx % 32 }

  /** Byte k of the payload, or the padding behind it. */
  function ByteAt(p: seq<Byte>, k: nat): Byte { if k < |p| then p[k] else 0xFF }

  /** The bytes from k on, n of them, padded. */
  function Part(p: seq<Byte>, k: nat, n: nat): (r: seq<Byte>)
    ensures |r| == n && forall i | 0 <= i < n :: r[i] == ByteAt(p, k + i)
  {
    seq<Byte>(n, i requires 0 <= i < n => ByteAt(p, k + i))
  }

  /** The 8 bytes of a frame. */
  function Frame(p: seq<Byte>, idx: nat, seqNo: int): (f: seq<Byte>)
    ensures |f| == 8
  {
    if idx == 0 then [Head(seqNo, 0), |p| % 256] + Part(p, 0, 6)
    else [Head(seqNo, idx)] + Part(p, 6 + (idx - 1) * 7, 7)
  }

  /** What a frame holds: sequence number and index in its first byte, the length in the second one of the
      first frame, and the payload from its place on, 0xFF behind it. */
  lemma {:induction false} FrameBytes(p: seq<Byte>, idx: nat, seqNo: nat)
    requires idx < 32 && |p| <= 223
    ensures var f := Frame(p, idx, seqNo);
            && |f| == 8 && f[0] == 32 * (seqNo % 8) + idx && (idx == 0 ==> f[1] == |p|)
            && (idx == 0 ==> forall i | 2 <= i < 8 :: f[i] == if i - 2 < |p| then p[i - 2] else 0xFF)
            && (idx > 0 ==> forall i | 1 <= i < 8 ::
                  var k := 6 + 7 * (idx - 1) + i - 1; f[i] == if k < |p| then p[k] else 0xFF)
  {
  }

  /** All frames of a message, from index i on. */
  function Fragments(p: seq<Byte>, i: nat, seqNo: int): seq<seq<Byte>>
    requires i <= Frames(|p|)
    decreases Frames(|p|) - i
  {
    if i == Frames(|p|) then [] else [Frame(p, i, seqNo)] + Fragments(p, i + 1, seqNo)
  }

  // ----- a receiver

  /** A receiver of the frames of one PGN and sender: waiting for a first frame, or
      for the frame with the next index of the message it has begun. */
  datatype Receiver = Idle | Busy(seqNo: nat, total: nat, next: nat, got: seq<Byte>)

  datatype Step = Step(rx: Receiver, message: seq<seq<Byte>>)

  function Take(seqNo: nat, total: nat, next: nat, got: seq<Byte>): Step {
    if |got| >= total then Step(Idle, [got[..total]]) else Step(Busy(seqNo, total, next, got), [])
  }

  function Receive(rx: Receiver, f: seq<Byte>): Step
    requires |f| == 8
  {
    var s, idx := f[0] / 32, f[0] % 32;
    if idx == 0 then Take(s, f[1], 1, f[2..])
    else if rx.Busy? && rx.seqNo == s && rx.next == idx then Take(s, rx.total, idx + 1, rx.got + f[1..])
    else Step(Idle, [])
  }

  ghost predicate AreFrames(fs: seq<seq<Byte>>) {
    forall i | 0 <= i < |fs| :: |fs[i]| == 8
  }

  function ReceiveAll(rx: Receiver, fs: seq<seq<Byte>>): Step
    requires AreFrames(fs)
    decreases |fs|
  {
    if fs == [] then Step(rx, [])
    else
      var s := Receive(rx, fs[0]);
      var t := ReceiveAll(s.rx, fs[1..]);
      Step(t.rx, s.message + t.message)
  }

  lemma {:induction false} FragmentsAreFrames(p: seq<Byte>, i: nat, seqNo: int)
    requires i <= Frames(|p|)
    ensures AreFrames(Fragments(p, i, seqNo)) && |Fragments(p, i, seqNo)| == Frames(|p|) - i
    decreases Frames(|p|) - i
  {
    hide Frame;
    if i < Frames(|p|) {
      FragmentsAreFrames(p, i + 1, seqNo);
    }
  }

  lemma HeadRead(seqNo: int, idx: nat)
    requires idx < 32
    ensures Head(seqNo, idx) / 32 == seqNo % 8 && Head(seqNo, idx) % 32 == idx
  {
  }

  lemma PartsJoin(p: seq<Byte>, k: nat, n: nat)
    ensures Part(p, 0, k) + Part(p, k, n) == Part(p, 0, k + n)
  {
  }

  lemma WholePart(p: seq<Byte>, n: nat)
    requires |p| <= n
    ensures Part(p, 0, n)[..|p|] == p
  {
  }

  /** What the receiver does with frame i of a message whose earlier frames it has. */
  lemma {:induction false} OneFrame(p: seq<Byte>, i: nat, seqNo: int, rx: Receiver)
    requires |p| <= MAX_DATA && i < Frames(|p|)
    requires i > 0 ==> rx == Busy(seqNo % 8, |p|, i, Part(p, 0, Capacity(i)))
    ensures Receive(rx, Frame(p, i, seqNo))
         == if i == Frames(|p|) - 1 then Step(Idle, [p])
            else Step(Busy(seqNo % 8, |p|, i + 1, Part(p, 0, Capacity(i + 1))), [])
  {
    hide Part, Head;
    IndexFits(|p|);
    HeadRead(seqNo, i);
    FramesAreLeast(|p|, i + 1);
    var f := Frame(p, i, seqNo);
    if i == 0 {
      assert f[2..] == Part(p, 0, 6);
    } else {
      assert f[1..] == Part(p, Capacity(i), 7);
      PartsJoin(p, Capacity(i), 7);
    }
    if i == Frames(|p|) - 1 {
      WholePart(p, Capacity(i + 1));
    }
  }

  lemma {:induction false} FromFrame(p: seq<Byte>, i: nat, seqNo: int, rx: Receiver, more: seq<seq<Byte>>)
    requires |p| <= MAX_DATA && i < Frames(|p|) && AreFrames(more)
    requires i > 0 ==> rx == Busy(seqNo % 8, |p|, i, Part(p, 0, Capacity(i)))
    ensures AreFrames(Fragments(p, i, seqNo) + more)
    ensures ReceiveAll(rx, Fragments(p, i, seqNo) + more)
         == Step(ReceiveAll(Idle, more).rx, [p] + ReceiveAll(Idle, more).message)
    decreases Frames(|p|) - i
  {
    hide Frame, Receive, Part, Frames, Capacity;
    FragmentsAreFrames(p, i, seqNo);
    FragmentsAreFrames(p, i + 1, seqNo);
    OneFrame(p, i, seqNo, rx);
    var rest := Fragments(p, i + 1, seqNo) + more;
    var all := Fragments(p, i, seqNo) + more;
    assert all[0] == Frame(p, i, seqNo) && all[1..] == rest;
    if i == Frames(|p|) - 1 {
      assert rest == more;
    } else {
      FromFrame(p, i + 1, seqNo, Receive(rx, Frame(p, i, seqNo)).rx, more);
    }
  }

  // ----- a stream of messages

  /** The frames of a run of messages; the sequence number goes up by one with each. */
  function Stream(ms: seq<seq<Byte>>, seqNo: int): seq<seq<Byte>> {
    if ms == [] then [] else Fragments(ms[0], 0, seqNo) + Stream(ms[1..], (seqNo + 1) % 8)
  }

  ghost predicate Short(ms: seq<seq<Byte>>) {
    forall i | 0 <= i < |ms| :: |ms[i]| <= MAX_DATA
  }

  /** Nothing is lost or added: from the frames of any run of messages a receiver,
      whatever it was waiting for, gets exactly the messages. */
  lemma {:induction false} StreamReceived(ms: seq<seq<Byte>>, seqNo: int, rx: Receiver)
    requires Short(ms)
    ensures AreFrames(Stream(ms, seqNo))
    ensures ReceiveAll(rx, Stream(ms, seqNo)).message == ms
  {
    hide Fragments, Receive, Frames;
    if ms != [] {
      StreamReceived(ms[1..], (seqNo + 1) % 8, Idle);
      FromFrame(ms[0], 0, seqNo, rx, Stream(ms[1..], (seqNo + 1) % 8));
      assert [ms[0]] + ms[1..] == ms;
    }
  }

  /** Bytes behind the payload are 0xFF, in every frame. */
  lemma {:induction false} Padding(p: seq<Byte>, idx: nat, seqNo: int, b: nat)
    requires idx < Frames(|p|) && b < 8 && (if idx == 0 then b >= 2 else b >= 1)
    requires (if idx == 0 then b - 2 else 6 + (idx - 1) * 7 + b - 1) >= |p|
    ensures Frame(p, idx, seqNo)[b] == 0xFF
  {
    hide Head;
    if idx == 0 {
      assert Frame(p, 0, seqNo)[b] == Part(p, 0, 6)[b - 2];
    } else {
      assert Frame(p, idx, seqNo)[b] == Part(p, 6 + (idx - 1) * 7, 7)[b - 1];
    }
  }

  // ----- filling a frame

  method Copy(f: array<Byte>, at: nat, p: seq<Byte>, off: nat, n: nat)
    requires at + n <= f.Length && off + n <= |p|
    modifies f
    ensures forall k | 0 <= k < f.Length :: f[k] == if at <= k < at + n then p[off + (k - at)] else old(f[k])
  {
    for i := 0 to n
      invariant forall k | 0 <= k < f.Length :: f[k] == if at <= k < at + i then p[off + (k - at)] else old(f[k])
    {
      f[at + i] := p[off + i];
    }
  }

  /** ydraw_format_fp, up to the text of the line. */
  method Fill(f: array<Byte>, p: seq<Byte>, idx: nat, seqNo: int)
    requires f.Length == 8
    modifies f
    ensures f[..] == Frame(p, idx, seqNo)
  {
    hide Head;
    for i := 0 to 8
      invariant forall k | 0 <= k < i :: f[k] == 0xFF
    {
      f[i] := 0xFF;
    }
    if idx == 0 {
      f[0] := Head(seqNo, 0);
      f[1] := |p| % 256;
      Copy(f, 2, p, 0, if |p| < 6 then |p| else 6);
    } else {
      f[0] := Head(seqNo, idx);
      var off := 6 + (idx - 1) * 7;
      if off < |p| {
        Copy(f, 1, p, off, if |p| - off < 7 then |p| - off else 7);
      }
      assert forall k | 1 <= k < 8 :: f[k] == Part(p, off, 7)[k - 1];
    }
  }

  /** The bridge: a message of up to 8 bytes is one frame as it is, a longer one
      is sent in fragments, with the next sequence number. */
  class Bridge {
    var seqNo: nat

    constructor ()
      ensures seqNo == 0
    {
      seqNo := 0;
    }

    method Send(p: seq<Byte>) returns (out: seq<seq<Byte>>)
      modifies this
      ensures |p| <= 8 ==> out == [p] && seqNo == old(seqNo)
      ensures |p| > 8 ==> out == Fragments(p, 0, old(seqNo)) && seqNo == (old(seqNo) + 1) % 8
    {
      hide Frame, Frames;
      if |p| <= 8 {
        return [p];
      }
      out := [];
      var f := new Byte[8];
      var idx := 0;
      while idx < Frames(|p|)
        invariant idx <= Frames(|p|) && seqNo == old(seqNo) && fresh(f)
        invariant out + Fragments(p, idx, seqNo) == Fragments(p, 0, seqNo)
      {
        Fill(f, p, idx, seqNo);
        out := out + [f[..]];
        idx := idx + 1;
      }
      seqNo := (seqNo + 1) % 8;
    }
  }
}
