/** Writing and reading the list of devices, as src/sources.c does it. */
module Sources {
  import opened CText
  import opened CNumber
  import opened RegistrySpec
  import opened SourcesSpec
  import opened SourcesRoundTrip

  lemma {:induction false} EscapedSnoc(s: string, k: nat)
    requires k < |s|
    ensures Escaped(s[..k + 1]) == Escaped(s[..k]) + if NeedsEscape(s[k]) then ['\\', s[k]] else [s[k]]
    decreases k
  {
    var t := s[..k + 1];
    if k > 0 {
      EscapedSnoc(s[1..], k - 1);
      assert t[1..] == s[1..][..k] && s[..k][1..] == s[1..][..k - 1];
      assert t[0] == s[..k][0] == s[0] && s[1..][k - 1] == s[k];
    } else {
      assert t == [s[0]] && t[1..] == "" && s[..0] == "";
      assert Escaped("") == "";
    }
  }

  /** json_escape: the longest prefix that leaves room for an escaped character; a
      buffer of twice the string's array always has that room. */
  method JsonEscape(sz: nat, s: string) returns (dst: string)
    ensures sz > 0 ==> |dst| < sz
    ensures exists k | 0 <= k <= |s| :: dst == Escaped(s[..k]) && (k == |s| || |dst| + 2 >= sz)
    ensures 2 * |s| < sz ==> dst == Escaped(s)
  {
    hide Escaped;
    dst := "";
    var k := 0;
    assert Escaped(s[..0]) == "" by { EscapedShort(""); }
    while k < |s| && |dst| + 2 < sz
      invariant k <= |s| && |dst| <= 2 * k && (sz > 0 ==> |dst| < sz)
      invariant dst == Escaped(s[..k])
    {
      EscapedSnoc(s, k);
      if s[k] == '"' || s[k] == '\\' {
        dst := dst + "\\";
      }
      dst := dst + [s[k]];
      k := k + 1;
    }
    assert s[..|s|] == s;
  }

  /** The text of the fields of a device, from its escaped strings. */
  method HeadText(d: Device, i: nat) returns (w: string)
    requires Bounded(d)
    ensures w == RowHead(d, i)
  {
    hide Escaped, Decimal;
    var ident := JsonEscape(IDENT_LEN * 2, d.ident);
    var mfg := JsonEscape(MFG_LEN * 2, d.mfg);
    var model := JsonEscape(MODEL_LEN * 2, d.model);
    var serial := JsonEscape(SERIAL_LEN * 2, d.serial);
    w := FieldTail("seen", Decimal(d.seen), PgnsPat());
    w := FieldTail("serial", "\"" + serial + "\"", w);
    w := FieldTail("model", "\"" + model + "\"", w);
    w := FieldTail("mfg", "\"" + mfg + "\"", w);
    w := FieldTail("ident", "\"" + ident + "\"", w);
    w := FieldTail("src", Decimal(d.src), w);
    w := Comma(i) + ("{" + w);
    HeadParts(d);
  }

  method FieldTail(name: string, value: string, rest: string) returns (w: string)
    ensures w == Pat(name) + (value + ("," + rest))
  {
    w := Pat(name) + (value + ("," + rest));
  }

  lemma {:induction false} HeadParts(d: Device)
    ensures FieldsText(DeviceFields(d)) + PgnsPat()
         == Pat("src") + (Decimal(d.src) + ("," +
            (Pat("ident") + ("\"" + Escaped(d.ident) + "\"" + ("," +
            (Pat("mfg") + ("\"" + Escaped(d.mfg) + "\"" + ("," +
            (Pat("model") + ("\"" + Escaped(d.model) + "\"" + ("," +
            (Pat("serial") + ("\"" + Escaped(d.serial) + "\"" + ("," +
            (Pat("seen") + (Decimal(d.seen) + ("," + PgnsPat())))))))))))))))))
  {
    hide Pat, Escaped, Decimal;
    var fs := DeviceFields(d);
    var p := PgnsPat();
    hide PgnsPat;
    FieldsCons(fs, p);
    FieldsCons(fs[1..], p);
    FieldsCons(fs[2..], p);
    FieldsCons(fs[3..], p);
    FieldsCons(fs[4..], p);
    FieldsCons(fs[5..], p);
    assert fs[1..][1..] == fs[2..] && fs[2..][1..] == fs[3..] && fs[3..][1..] == fs[4..];
    assert fs[4..][1..] == fs[5..] && fs[5..][1..] == [];
    NoFields(p);
  }

  lemma {:induction false} FieldsCons(fs: seq<Field>, tail: string)
    requires fs != []
    ensures FieldsText(fs) + tail
         == Pat(fs[0].name) + (ValueText(fs[0].value) + ("," + (FieldsText(fs[1..]) + tail)))
  {
    hide Pat, ValueText;
  }

  /** sources_to_json: the whole document, or nothing when the buffer is too small for it. */
  method ToJson(ds: seq<Device>, sz: nat) returns (r: Option<string>)
    requires forall i | 0 <= i < |ds| :: Bounded(ds[i])
    ensures r == if |Json(ds)| < sz then Some(Json(ds)) else None
  {
    hide RowHead, PgnText, Bounded;
    var out := "[\n";
    if |out| >= sz {
      return None;
    }
    var i := 0;
    while i < |ds|
      invariant i <= |ds| && |out| < sz
      invariant out + RowsText(ds, i) == Json(ds)
    {
      var w := HeadText(ds[i], i);
      assert RowsText(ds, i) == w + (PgnsText(ds[i].pgns, 0) + ("]}\n" + RowsText(ds, i + 1))) by {
        RowParts(ds, i);
      }
      if |out| + |w| >= sz {
        return None;
      }
      out := Joined(out, w, PgnsText(ds[i].pgns, 0) + ("]}\n" + RowsText(ds, i + 1)), Json(ds));
      var full := PgnList(ds[i].pgns, sz, out, "]}\n" + RowsText(ds, i + 1), Json(ds));
      if full.None? || |full.value| + 3 >= sz {
        return None;
      }
      out := Joined(full.value, "]}\n", RowsText(ds, i + 1), Json(ds));
      i := i + 1;
    }
    if |out| + 2 >= sz {
      return None;
    }
    return Some(out + "]\n");
  }

  method Joined(out: string, w: string, ghost rest: string, ghost whole: string) returns (r: string)
    requires out + (w + rest) == whole
    ensures r == out + w && r + rest == whole
  {
    r := out + w;
  }

  lemma {:induction false} RowParts(ds: seq<Device>, i: nat)
    requires i < |ds|
    ensures RowsText(ds, i) == RowHead(ds[i], i) + (PgnsText(ds[i].pgns, 0) + ("]}\n" + RowsText(ds, i + 1)))
  {
    hide RowHead, PgnsText;
    var h, g, m := RowHead(ds[i], i), PgnsText(ds[i].pgns, 0), RowsText(ds, i + 1);
    assert RowsText(ds, i) == h + (g + "]}") + "\n" + m;
    assert h + (g + "]}") + "\n" + m == h + (g + ("]}\n" + m));
  }

  /** The list of PGNs of one device, appended object by object. */
  method PgnList(ps: seq<PgnCount>, sz: nat, start: string, ghost rest: string, ghost whole: string)
    returns (r: Option<string>)
    requires start + (PgnsText(ps, 0) + rest) == whole && |start| < sz
    ensures r.Some? ==> |r.value| < sz && r.value + rest == whole
    ensures r.None? ==> |whole| >= sz
  {
    hide PgnText;
    var out := start;
    var j := 0;
    while j < |ps|
      invariant j <= |ps| && |out| < sz
      invariant out + (PgnsText(ps, j) + rest) == whole
    {
      var w := Comma(j) + PgnText(ps[j]);
      assert PgnsText(ps, j) + rest == w + (PgnsText(ps, j + 1) + rest);
      if |out| + |w| >= sz {
        return None;
      }
      out := Joined(out, w, PgnsText(ps, j + 1) + rest, whole);
      j := j + 1;
    }
    assert PgnsText(ps, j) + rest == rest;
    return Some(out);
  }

  /** jget_str. */
  method ReadStr(line: string, key: string, sz: nat) returns (v: string)
    requires sz > 0
    ensures v == GetStr(line, key, sz)
  {
    hide After;
    v := "";
    var at := After(line, Pat(key) + "\"");
    if at.None? {
      return;
    }
    var p := at.value;
    while p != "" && p[0] != '"' && |v| + 1 < sz
      invariant |v| < sz && v + Unescaped(p, sz - 1 - |v|) == Unescaped(at.value, sz - 1)
      decreases |p|
    {
      if p[0] == '\\' && |p| > 1 {
        p := p[1..];
      }
      v := v + [p[0]];
      p := p[1..];
    }
  }

  /** The list of PGNs of a line, from behind its opening bracket. */
  method ReadPgns(start: string) returns (got: seq<PgnCount>)
    ensures got == PgnsRead(start, [])
  {
    hide PgnAt;
    got := [];
    var p := start;
    while p != "" && p[0] != ']' && |got| < MAX_PGNS
      invariant PgnsRead(p, got) == PgnsRead(start, [])
      decreases |p|
    {
      var o := FromChar(p, '{');
      var c := FromChar(p, ']');
      if o.None? || (c.Some? && |c.value| > |o.value|) {
        break;
      }
      got := got + [PgnAt(o.value)];
      var close := FromChar(o.value, '}');
      if close.None? {
        return;
      }
      p := close.value[1..];
    }
  }

  method ReadEntry(line: string) returns (e: Option<Entry>)
    ensures e == EntryOf(line)
  {
    hide After, PgnsRead, Unescaped, Strtol;
    var src := GetNum(line, "src");
    if src.None? {
      return None;
    }
    var ident := ReadStr(line, "ident", IDENT_LEN);
    var mfg := ReadStr(line, "mfg", MFG_LEN);
    var model := ReadStr(line, "model", MODEL_LEN);
    var serial := ReadStr(line, "serial", SERIAL_LEN);
    var seen := NumOr0(line, "seen");
    var list := After(line, PgnsPat());
    var pgns := [];
    if list.Some? {
      pgns := ReadPgns(list.value);
    }
    return Some(Entry(ToInt(src.value), ident, mfg, model, serial, ToULong(seen), pgns));
  }

  /** sources_load, of the file's text. */
  method Load(text: string) returns (v: seq<Entry>)
    ensures v == Loaded(text, [])
  {
    hide EntryOf, LineEnd;
    v := [];
    var t := text;
    while t != ""
      invariant Loaded(t, v) == Loaded(text, [])
      decreases |t|
    {
      var line := t[..LineEnd(t)];
      t := t[LineEnd(t)..];
      var e := ReadEntry(line);
      if e.Some? {
        if |v| >= MAX_DEVICES {
          return;
        }
        v := v + [e.value];
      }
    }
  }
}
