/** The sentence under construction, in its fixed buffer: src/nmea0183.c. */
module Nmea {
  import opened CText
  import opened NmeaSpec

  class Writer {
    const buf: array<char>
    var len: nat
    var ok: bool

    ghost predicate Valid()
      reads this
    {
      buf.Length == MAX_LEN && len < MAX_LEN
    }

    ghost function State(): Built
      requires Valid()
      reads this, buf
    {
      Built(buf[..len], ok)
    }

    constructor ()
      ensures Valid() && fresh(buf)
    {
      buf := new char[MAX_LEN];
      len := 0;
      ok := true;
    }

    /** put_c. */
    method PutChar(c: char)
      requires Valid()
      modifies this, buf
      ensures Valid() && State() == Put(old(State()), c)
    {
      if !ok {
        return;
      }
      if len + 1 >= buf.Length {
        ok := false;
        return;
      }
      buf[len] := c;
      len := len + 1;
      assert buf[..len] == old(buf[..len]) + [c];
    }

    /** put_s. */
    method PutString(s: string)
      requires Valid()
      modifies this, buf
      ensures Valid() && State() == PutAll(old(State()), s)
    {
      hide Put;
      var t := s;
      while t != ""
        invariant Valid() && PutAll(State(), t) == PutAll(old(State()), s)
        decreases |t|
      {
        PutChar(t[0]);
        t := t[1..];
      }
    }

    /** nmea_begin. */
    method Begin(talker: string, kind: string)
      requires Valid()
      modifies this, buf
      ensures Valid() && State() == PutAll(Built("", true), "$" + Talker(talker) + kind)
    {
      hide PutAll;
      len := 0;
      ok := true;
      assert State() == Built("", true);
      PutString("$");
      PutString(if |talker| <= 2 then talker else talker[..2]);
      PutString(kind);
      PutAllConcat(Built("", true), "$", Talker(talker));
      PutAllConcat(Built("", true), "$" + Talker(talker), kind);
    }

    /** A field: a comma and its text. */
    method Field(v: string)
      requires Valid()
      modifies this, buf
      ensures Valid() && State() == PutAll(old(State()), "," + v)
    {
      hide PutAll;
      ghost var b := State();
      PutString(",");
      PutString(v);
      PutAllConcat(b, ",", v);
    }

    method SumFrom1() returns (ck: nat)
      requires Valid() && len >= 1
      ensures ck == Check(buf[1..len])
    {
      ck := 0;
      var i := 1;
      assert buf[1..1] == "";
      while i < len
        invariant 1 <= i <= len && ck == Check(buf[1..i])
      {
        ck := Xor(ck, Code(buf[i]), 8);
        i := i + 1;
        assert buf[1..i][..|buf[1..i]| - 1] == buf[1..i - 1];
      }
    }

    /** nmea_end: the sentence, or nothing when it did not fit. */
    method End() returns (s: Option<string>)
      requires Valid() && (ok ==> len >= 1)
      modifies this, buf
      ensures Valid()
      ensures var b := old(State());
              s == if b.ok && |b.text| + 5 < MAX_LEN then Some(b.text + Trailer(Check(b.text[1..]))) else None
    {
      hide PutAll, Check, Trailer;
      if !ok {
        return None;
      }
      ghost var b := State();
      var ck := SumFrom1();
      assert buf[1..len] == b.text[1..];
      var t := Trailer(ck);
      PutAllIs(b, t);
      PutString(t);
      if !ok {
        return None;
      }
      return Some(buf[..len]);
    }

    /** A whole sentence: rejected as soon as one character does not fit. */
    method Build(talker: string, kind: string, fs: seq<string>) returns (s: Option<string>)
      requires Valid()
      modifies this, buf
      ensures Valid() && s == Sentence(talker, kind, fs)
    {
      hide PutAll, Check, Trailer, Put;
      Begin(talker, kind);
      var i := 0;
      ghost var start := "$" + Talker(talker) + kind;
      assert start + FieldsText(fs[..0]) == start;
      while i < |fs|
        invariant Valid() && i <= |fs|
        invariant State() == PutAll(Built("", true), start + FieldsText(fs[..i]))
      {
        Field(fs[i]);
        ghost var before := start + FieldsText(fs[..i]);
        PutAllConcat(Built("", true), before, "," + fs[i]);
        assert fs[..i + 1][..i] == fs[..i];
        assert before + ("," + fs[i]) == start + FieldsText(fs[..i + 1]);
        i := i + 1;
      }
      assert fs[..i] == fs;
      ghost var all := start + FieldsText(fs);
      PutAllIs(Built("", true), all);
      assert "" + all == all;
      assert all == "$" + Body(talker, kind, fs);
      assert all[1..] == Body(talker, kind, fs);
      s := End();
    }
  }
}
