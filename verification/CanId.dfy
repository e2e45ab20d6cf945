/** The 29-bit identifier of a CAN frame, packed and unpacked (section 5.2 of SAE
    J1939-21): src/ydraw.c, and the frame filter's own reading of it: src/canfilter.c.
    In terms of numbers: a mask is a remainder, a shift to the right a division that
    rounds down, also of a negative int, and the or of separate bit fields a sum. */
module CanId {

  const EFF := 0x2000_0000

  datatype Fields = Fields(prio: int, pgn: int, src: int, dst: int)

  /** Bit fields side by side: 3 bits, 2 bits and three bytes. */
  function Pack(prio: int, pages: int, format: int, specific: int, src: int): int {
    prio * 0x400_0000 + pages * 0x100_0000 + format * 0x1_0000 + specific * 0x100 + src
  }

  /** ydraw_encode_id. */
  function Encode(f: Fields): int {
    var pf := f.pgn / 256 % 256;
    var ps := if pf < 240 then f.dst % 256 else f.pgn % 256;
    Pack(f.prio % 8, f.pgn / 65536 % 4, pf, ps, f.src % 256) % EFF
  }

  /** The PGN of a frame with these pages, PDU format and PDU specific byte. */
  function PgnFrom(pages: int, format: int, specific: int): int {
    if format < 240 then pages * 65536 + format * 256 else pages * 65536 + format * 256 + specific
  }

  /** ydraw_decode_id. */
  function Decode(canId: nat): Fields {
    var id := canId % EFF;
    var pf, ps, dp := id / 0x1_0000 % 256, id / 0x100 % 256, id / 0x100_0000 % 4;
    var p, s := id / 0x400_0000 % 8, id % 256;
    Fields(p, PgnFrom(dp, pf, ps), s, if pf < 240 then ps else 255)
  }

  /** A PGN to one address leaves its last byte free for it; any other goes to all, address 255. */
  predicate Wellformed(f: Fields) {
    && 0 <= f.prio < 8 && 0 <= f.pgn < 0x4_0000 && 0 <= f.src < 256
    && if f.pgn / 256 % 256 < 240 then f.pgn % 256 == 0 && 0 <= f.dst < 256 else f.dst == 255
  }

  // ----- bit fields

  lemma {:induction false} Unpacked(a: nat, b: nat, c: nat, d: nat, e: nat)
    requires a < 8 && b < 4 && c < 256 && d < 256 && e < 256
    ensures var v := Pack(a, b, c, d, e);
            && 0 <= v < EFF
            && v / 0x400_0000 % 8 == a && v / 0x100_0000 % 4 == b && v / 0x1_0000 % 256 == c
            && v / 0x100 % 256 == d && v % 256 == e
  {
    var v := Pack(a, b, c, d, e);
    assert v / 0x100 == a * 0x4_0000 + b * 0x1_0000 + c * 0x100 + d;
    assert v / 0x1_0000 == a * 0x400 + b * 0x100 + c;
    assert v / 0x100_0000 == a * 4 + b;
    assert v / 0x400_0000 == a;
  }

  lemma Byte1(v: int)
    ensures v / 0x100 / 0x100 == v / 0x1_0000
  {
  }

  lemma Byte2(v: int)
    ensures v / 0x1_0000 / 0x100 == v / 0x100_0000
  {
  }

  lemma Bits24(v: int)
    ensures v / 0x100_0000 / 4 == v / 0x400_0000
  {
  }

  lemma {:induction false} Bit25(v: int)
    ensures v / 0x100_0000 % 4 == v / 0x100_0000 % 2 <==> v / 0x200_0000 % 2 == 0
  {
    assert v / 0x100_0000 / 2 == v / 0x200_0000;
  }

  lemma {:induction false} PackedAgain(v: nat)
    requires v < EFF
    ensures Pack(v / 0x400_0000 % 8, v / 0x100_0000 % 4, v / 0x1_0000 % 256, v / 0x100 % 256, v % 256) == v
  {
    Byte1(v);
    Byte2(v);
    Bits24(v);
    assert v / 0x400_0000 < 8;
  }

  lemma {:induction false} PgnBytes(dp: nat, pf: nat, ps: nat)
    requires dp < 4 && pf < 256 && ps < 256
    ensures var g := dp * 65536 + pf * 256 + ps;
            g < 0x4_0000 && g / 256 % 256 == pf && g % 256 == ps && g / 65536 % 4 == dp
  {
    var g := dp * 65536 + pf * 256 + ps;
    assert g / 256 == dp * 256 + pf;
    assert g / 65536 == dp;
  }

  // ----- both directions

  function FieldsOf(p: int, dp: int, pf: int, ps: int, s: int): Fields {
    Fields(p, PgnFrom(dp, pf, ps), s, if pf < 240 then ps else 255)
  }

  lemma {:induction false} PackBounds(p: nat, dp: nat, pf: nat, ps: nat, s: nat)
    requires p < 8 && dp < 4 && pf < 256 && ps < 256 && s < 256
    ensures 0 <= Pack(p, dp, pf, ps, s) < EFF
  {
  }

  /** Fields that are bytes in place are packed as they are. */
  lemma {:induction false} EncodeAs(f: Fields, dp: nat, pf: nat, ps: nat)
    requires 0 <= f.prio < 8 && 0 <= f.src < 256 && dp < 4 && pf < 256 && ps < 256
    requires f.pgn / 256 % 256 == pf && f.pgn / 65536 % 4 == dp
    requires ps == if pf < 240 then f.dst % 256 else f.pgn % 256
    ensures Encode(f) == Pack(f.prio, dp, pf, ps, f.src)
  {
    PackBounds(f.prio, dp, pf, ps, f.src);
    Within(f.prio, 8);
    Within(f.src, 256);
    Within(Pack(f.prio, dp, pf, ps, f.src), EFF);
    hide Pack;
  }

  lemma {:induction false} Within(x: int, m: int)
    requires 0 <= x < m
    ensures x % m == x
  {
  }

  lemma {:induction false} EncodeOf(p: nat, dp: nat, pf: nat, ps: nat, s: nat)
    requires p < 8 && dp < 4 && pf < 256 && ps < 256 && s < 256
    ensures var f := FieldsOf(p, dp, pf, ps, s);
            Wellformed(f) && Encode(f) == Pack(p, dp, pf, ps, s)
  {
    hide Pack, Encode;
    var f := FieldsOf(p, dp, pf, ps, s);
    if pf < 240 {
      PgnBytes(dp, pf, 0);
    } else {
      PgnBytes(dp, pf, ps);
    }
    EncodeAs(f, dp, pf, ps);
  }

  /** Unpacking and packing gives back the 29 bits of every identifier. */
  lemma {:induction false} EncodeDecode(id: nat)
    ensures Wellformed(Decode(id)) && Encode(Decode(id)) == id % EFF
  {
    hide Pack, Encode, Wellformed;
    var e := id % EFF;
    PackedAgain(e);
    EncodeOf(e / 0x400_0000 % 8, e / 0x100_0000 % 4, e / 0x1_0000 % 256, e / 0x100 % 256, e % 256);
  }

  lemma {:induction false} Decoded(f: Fields)
    ensures Encode(f) >= 0
    ensures var g, pf := Decode(Encode(f)), f.pgn / 256 % 256;
            g == Fields(f.prio % 8, f.pgn / 65536 % 4 * 65536 + pf * 256 + (if pf < 240 then 0 else f.pgn % 256), f.src % 256,
                        if pf < 240 then f.dst % 256 else 255)
  {
    hide Pack;
    var pf := f.pgn / 256 % 256;
    Unpacked(f.prio % 8, f.pgn / 65536 % 4, pf, if pf < 240 then f.dst % 256 else f.pgn % 256, f.src % 256);
  }

  lemma {:induction false} PgnOfBytes(g: int)
    ensures g / 65536 % 4 * 65536 + g / 256 % 256 * 256 + g % 256 == g <==> 0 <= g < 0x4_0000
  {
    assert g / 256 == g / 65536 * 256 + g / 256 % 256 by { FloorTwice(g); }
  }

  lemma FloorTwice(g: int)
    ensures g / 256 / 256 == g / 65536
  {
  }

  /** Packing keeps the fields exactly when they are well formed. */
  lemma {:induction false} DecodeEncode(f: Fields)
    ensures Encode(f) >= 0 && (Decode(Encode(f)) == f <==> Wellformed(f))
  {
    hide Encode, Decode;
    Decoded(f);
    PgnOfBytes(f.pgn);
  }

  /** No two well-formed sets of fields share an identifier. */
  lemma {:induction false} EncodeInjective(f: Fields, g: Fields)
    requires Wellformed(f) && Wellformed(g) && Encode(f) == Encode(g)
    ensures f == g
  {
    hide Encode, Decode, Wellformed;
    DecodeEncode(f);
    DecodeEncode(g);
  }

  // ----- the frame filter

  /** pgn_of. */
  function PgnOf(id: nat): int {
    var e := id % EFF;
    var dp, pf, ps := e / 0x100_0000 % 2, e / 0x1_0000 % 256, e / 0x100 % 256;
    PgnFrom(dp, pf, ps)
  }

  lemma PagesTell(a: int, b: int, format: int, specific: int)
    ensures PgnFrom(a, format, specific) == PgnFrom(b, format, specific) <==> a == b
  {
  }

  lemma PagesSmall(pages: nat, format: nat, specific: nat)
    ensures PgnFrom(pages, format, specific) < 0x2_0000 ==> pages < 2
  {
  }

  /** src_of. */
  function SrcOf(id: nat): int { id % 256 }

  /** The filter reads the same sender as the decoder, and the same PGN exactly when
      the extended data page bit is 0. */
  lemma {:induction false} FilterAgrees(id: nat)
    ensures SrcOf(id) == Decode(id).src
    ensures PgnOf(id) == Decode(id).pgn <==> id % EFF / 0x200_0000 % 2 == 0
  {
    hide PgnFrom;
    var e := id % EFF;
    PagesTell(e / 0x100_0000 % 2, e / 0x100_0000 % 4, e / 0x1_0000 % 256, e / 0x100 % 256);
    Bit25(e);
    assert id % 256 == e % 256;
  }

  /** An identifier with that bit: the filter takes it for PGN 0, the decoder for PGN 131072. */
  lemma {:induction false} ExtendedPageMisread()
    ensures Decode(0x200_0000) == Fields(0, 0x2_0000, 0, 0) && PgnOf(0x200_0000) == 0
  {
    var e := 0x200_0000;
    assert e % EFF == e && e / 0x1_0000 == 0x200 && e / 0x100 == 0x2_0000 && e / 0x100_0000 == 2 && e / 0x400_0000 == 0;
  }

  /** The filter sees every well-formed PGN of the standard data pages, and its sender, as they were packed. */
  lemma {:induction false} FilterSeesPgn(f: Fields)
    requires Wellformed(f) && f.pgn < 0x2_0000
    ensures Encode(f) >= 0 && PgnOf(Encode(f)) == f.pgn && SrcOf(Encode(f)) == f.src
  {
    hide Encode, Decode, PgnOf;
    DecodeEncode(f);
    FilterAgrees(Encode(f));
    StandardPages(Encode(f));
  }

  lemma {:induction false} StandardPages(id: nat)
    ensures Decode(id).pgn < 0x2_0000 ==> id % EFF / 0x200_0000 % 2 == 0
  {
    hide PgnFrom;
    var e := id % EFF;
    PagesSmall(e / 0x100_0000 % 4, e / 0x1_0000 % 256, e / 0x100 % 256);
    Bit25(e);
    Low(e / 0x100_0000);
  }

  lemma Low(x: nat)
    ensures x % 4 < 2 ==> x % 4 == x % 2
  {
  }

  /** Where the fields stand in the identifier: the priority above the PGN, and below it the
      sender; an address that a PGN is directed to takes the place of the PGN's last byte. */
  lemma {:induction false} EncodedBits(f: Fields)
    requires Wellformed(f)
    ensures Encode(f) == 0x400_0000 * f.prio + 0x100 * f.pgn + (if f.pgn / 256 % 256 < 240 then 0x100 * f.dst else 0) + f.src
  {
    var dp, pf, lo := f.pgn / 65536, f.pgn / 256 % 256, f.pgn % 256;
    var ps := if pf < 240 then f.dst else lo;
    PgnParts(f.pgn);
    Within(ps, 256);
    Within(dp, 4);
    EncodeAs(f, dp, pf, ps);
  }

  lemma {:induction false} PgnParts(pgn: nat)
    requires pgn < 0x4_0000
    ensures pgn / 65536 < 4 && pgn == pgn / 65536 * 65536 + pgn / 256 % 256 * 256 + pgn % 256
  {
    assert pgn / 256 / 256 == pgn / 65536;
  }

  /** The identifier that src/cansock.c puts together for an ISO request to all. */
  function IsoRequestId(src: int): int { Pack(6, 0, 0xEA, 0xFF, src % 256) }

  lemma IsoRequestFields(src: int)
    ensures var f := Fields(6, 59904, src % 256, 255); IsoRequestId(src) == Encode(f) && Wellformed(f)
  {
  }
}
