/** Reading back what was published gives every device back. */
module SourcesRoundTrip {
  import opened CText
  import opened CNumber
  import opened RegistrySpec
  import opened SourcesSpec

  // ----- no value can be taken for a key

  ghost predicate IsKey(k: string) {
    k != "" && forall i | 0 <= i < |k| :: 'a' <= k[i] <= 'z'
  }

  /** The pattern of the key stands at index j. */
  ghost predicate Occurs(t: string, j: nat, key: string) {
    && j + |key| + 3 <= |t|
    && t[j] == '"' && t[j + |key| + 1] == '"' && t[j + |key| + 2] == ':'
    && forall i | 0 <= i < |key| :: t[j + 1 + i] == key[i]
  }

  /** Between its quotes a pattern has letters only. */
  lemma {:induction false} Letter(t: string, j: nat, key: string, x: nat)
    requires IsKey(key) && j < x <= j + |key|
    ensures Occurs(t, j, key) ==> x < |t| && t[x] == key[x - j - 1] && 'a' <= t[x] <= 'z'
  {
    if Occurs(t, j, key) {
      assert t[j + 1 + (x - j - 1)] == key[x - j - 1];
    }
  }

  lemma WholeKey(t: string, key: string)
    ensures Occurs(t, 0, key) ==> t[1..1 + |key|] == key
  {
  }

  lemma {:induction false} PatternOccurs(t: string, key: string, pat: string)
    requires Pat(key) <= pat <= t
    ensures Occurs(t, 0, key)
  {
    var p := Pat(key);
    assert forall i | 0 <= i < |p| :: t[i] == pat[i] == p[i];
    assert forall i | 0 <= i < |key| :: t[1 + i] == p[1 + i] == key[i];
  }

  lemma {:induction false} Skip(a: string, b: string, key: string, pat: string)
    requires Pat(key) <= pat
    requires forall j | 0 <= j < |a| :: !Occurs(a + b, j, key)
    ensures After(a + b, pat) == After(b, pat)
  {
    hide Pat;
    if a == "" {
      assert a + b == b;
    } else {
      assert !Occurs(a + b, 0, key);
      if pat <= a + b {
        PatternOccurs(a + b, key, pat);
      }
      assert (a + b)[1..] == a[1..] + b;
      forall j | 0 <= j < |a[1..]| ensures !Occurs(a[1..] + b, j, key) {
        assert !Occurs(a + b, j + 1, key);
      }
      Skip(a[1..], b, key, pat);
    }
  }

  lemma {:induction false} QuotesEscaped(s: string)
    ensures forall i | 0 <= i < |Escaped(s)| :: Escaped(s)[i] == '"' ==> i > 0 && Escaped(s)[i - 1] == '\\'
  {
    if s != "" {
      QuotesEscaped(s[1..]);
    }
  }

  /** A quoted value never holds the pattern of a key: its quotes follow a backslash,
      and the closing one is followed by a comma. */
  lemma {:induction false} PassString(s: string, rest: string, key: string, pat: string)
    requires IsKey(key) && Pat(key) <= pat
    ensures After(ValueText(Str(s)) + ("," + rest), pat) == After(rest, pat)
  {
    hide After, Pat;
    var e := Escaped(s);
    QuotesEscaped(s);
    hide Escaped;
    var a := "\"" + e + "\",";
    var t := a + rest;
    assert ValueText(Str(s)) + ("," + rest) == t;
    assert forall i | 0 <= i < |e| :: t[i + 1] == e[i];
    assert t[|e| + 1] == '"' && t[|e| + 2] == ',';
    forall j | 0 <= j < |a| ensures !Occurs(t, j, key) {
      Letter(t, j, key, j + 1);
      Letter(t, j, key, j + |key|);
      if j < |e| + 1 <= j + |key| {
        Letter(t, j, key, |e| + 1);
      }
    }
    Skip(a, rest, key, pat);
  }

  lemma {:induction false} PassNumber(n: int, rest: string, key: string, pat: string)
    requires IsKey(key) && Pat(key) <= pat
    ensures After(ValueText(Num(n)) + ("," + rest), pat) == After(rest, pat)
  {
    hide After, Pat, Decimal;
    var a := Decimal(n) + ",";
    assert ValueText(Num(n)) + ("," + rest) == a + rest;
    Skip(a, rest, key, pat);
  }

  lemma {:induction false} PassName(name: string, rest: string, key: string, pat: string)
    requires IsKey(key) && IsKey(name) && name != key && Pat(key) <= pat
    ensures After(Pat(name) + rest, pat) == After(rest, pat)
  {
    hide After;
    var a := Pat(name);
    var t := a + rest;
    assert forall i | 0 <= i < |name| :: t[1 + i] == name[i];
    assert t[0] == '"' && t[|name| + 1] == '"' && t[|name| + 2] == ':';
    forall j | 0 <= j < |a| ensures !Occurs(t, j, key) {
      Letter(t, j, key, j + 1);
      if j == 0 {
        if |key| > |name| {
          Letter(t, j, key, |name| + 1);
        } else if |key| < |name| {
          assert t[1 + |key|] == name[|key|];
        } else {
          assert t[1..1 + |name|] == name;
          WholeKey(t, key);
        }
      }
    }
    Skip(a, rest, key, pat);
  }

  /** A search passes over a field of another name. */
  lemma {:induction false} PassField(f: Field, rest: string, key: string, pat: string)
    requires IsKey(key) && IsKey(f.name) && f.name != key && Pat(key) <= pat
    ensures After(Pat(f.name) + (ValueText(f.value) + ("," + rest)), pat) == After(rest, pat)
  {
    hide After, Pat, ValueText;
    PassName(f.name, ValueText(f.value) + ("," + rest), key, pat);
    match f.value
    case Num(n) => PassNumber(n, rest, key, pat);
    case Str(s) => PassString(s, rest, key, pat);
  }

  ghost predicate NamesAre(fs: seq<Field>) {
    forall i | 0 <= i < |fs| :: IsKey(fs[i].name)
  }

  /** A search finds the first field of its name, and otherwise goes on behind the fields. */
  lemma {:induction false} Search(fs: seq<Field>, i: nat, tail: string, key: string, pat: string)
    requires i <= |fs| && NamesAre(fs) && IsKey(key) && Pat(key) <= pat
    requires forall k | 0 <= k < i :: fs[k].name != key
    ensures After(FieldsText(fs) + tail, pat) == After(FieldsText(fs[i..]) + tail, pat)
    decreases i
  {
    hide After, Pat, ValueText;
    if i == 0 {
      assert fs[0..] == fs;
    } else {
      var f, more := fs[0], FieldsText(fs[1..]) + tail;
      assert FieldsText(fs) + tail == Pat(f.name) + (ValueText(f.value) + ("," + more));
      PassField(f, more, key, pat);
      assert fs[1..][i - 1..] == fs[i..];
      Search(fs[1..], i - 1, tail, key, pat);
    }
  }

  lemma {:induction false} FoundHere(f: Field, rest: string)
    ensures After(Pat(f.name) + (ValueText(f.value) + rest), Pat(f.name)) == Some(ValueText(f.value) + rest)
    ensures f.value.Str? ==>
              After(Pat(f.name) + (ValueText(f.value) + rest), Pat(f.name) + "\"") == Some(Escaped(f.value.s) + ("\"" + rest))
  {
    hide Pat, Escaped, Decimal;
    var t := Pat(f.name) + (ValueText(f.value) + rest);
    assert t[|Pat(f.name)|..] == ValueText(f.value) + rest;
    if f.value.Str? {
      var q := Pat(f.name) + "\"";
      assert t == q + (Escaped(f.value.s) + ("\"" + rest));
      assert t[|q|..] == Escaped(f.value.s) + ("\"" + rest);
    }
  }

  /** What stands behind the key of field i, when no earlier field has its name. */
  lemma {:induction false} SearchFinds(fs: seq<Field>, i: nat, tail: string)
    requires i < |fs| && NamesAre(fs)
    requires forall k | 0 <= k < i :: fs[k].name != fs[i].name
    ensures var rest := "," + (FieldsText(fs[i + 1..]) + tail);
            && After(FieldsText(fs) + tail, Pat(fs[i].name)) == Some(ValueText(fs[i].value) + rest)
            && (fs[i].value.Str? ==>
                  After(FieldsText(fs) + tail, Pat(fs[i].name) + "\"") == Some(Escaped(fs[i].value.s) + ("\"" + rest)))
  {
    hide After, Pat, ValueText, Escaped;
    var f, rest := fs[i], "," + (FieldsText(fs[i + 1..]) + tail);
    Search(fs, i, tail, f.name, Pat(f.name));
    Search(fs, i, tail, f.name, Pat(f.name) + "\"");
    assert fs[i..][0] == f && fs[i..][1..] == fs[i + 1..];
    assert FieldsText(fs[i..]) + tail == Pat(f.name) + (ValueText(f.value) + rest);
    FoundHere(f, rest);
  }

  // ----- values read back

  lemma {:induction false} UnescapedEscaped(s: string, rest: string, room: nat)
    requires |s| <= room
    ensures Unescaped(Escaped(s) + ("\"" + rest), room) == s
  {
    var t := Escaped(s) + ("\"" + rest);
    if s == "" {
      assert t == "\"" + rest;
    } else {
      var more := Escaped(s[1..]) + ("\"" + rest);
      UnescapedEscaped(s[1..], rest, room - 1);
      if NeedsEscape(s[0]) {
        assert t == ['\\', s[0]] + more;
        assert t[2..] == more && t[1] == s[0];
      } else {
        assert t == [s[0]] + more;
        assert t[1..] == more;
      }
      assert s == [s[0]] + s[1..];
    }
  }

  /** The largest value that a counter is read back as. */
  function Capped(n: nat): nat { if n > LONG_MAX then LONG_MAX else n }

  lemma {:induction false} CountRead(n: nat, rest: string)
    requires NoDigitFirst(rest)
    ensures Strtol(Decimal(n) + rest) == Capped(n)
  {
    hide ReadSigned, Decimal;
    DecimalSigned(n, rest);
    assert (Decimal(n) + rest)[0] == Decimal(n)[0];
  }

  /** What fits the arrays of a record. */
  ghost predicate Bounded(d: Device) {
    && |d.ident| < IDENT_LEN && |d.mfg| < MFG_LEN && |d.model| < MODEL_LEN && |d.serial| < SERIAL_LEN
    && |d.pgns| <= MAX_PGNS
  }

  /** A record as the registry's arrays can hold it, with one-line strings. */
  ghost predicate Publishable(d: Device) {
    && IsInt(d.src) && d.seen < U64 && Bounded(d)
    && OneLine(d.ident) && OneLine(d.mfg) && OneLine(d.model) && OneLine(d.serial)
    && forall j | 0 <= j < |d.pgns| :: IsInt(d.pgns[j].pgn) && d.pgns[j].count < U64
  }

  function ViewPgns(ps: seq<PgnCount>): (r: seq<PgnCount>)
    ensures |r| == |ps|
  {
    seq(|ps|, i requires 0 <= i < |ps| => PgnCount(ps[i].pgn, Capped(ps[i].count)))
  }

  /** The record as the reader shows it. */
  function View(d: Device): Entry {
    Entry(d.src, d.ident, d.mfg, d.model, d.serial, Capped(d.seen), ViewPgns(d.pgns))
  }

  // ----- the list of PGNs

  lemma {:induction false} PgnRead(p: PgnCount, rest: string)
    requires IsInt(p.pgn)
    ensures PgnAt(PgnText(p) + rest) == PgnCount(p.pgn, Capped(p.count))
  {
    hide After, Pat, Strtol, Decimal, FieldsText;
    var f := Field("pgn", Num(p.pgn));
    var c := Field("count", Num(p.count));
    var fs := [f];
    var tail := Pat("count") + (Decimal(p.count) + ("}" + rest));
    var o := "{" + (FieldsText(fs) + tail);
    assert PgnText(p) + rest == o;
    OpenBrace(FieldsText(fs) + tail, "pgn");
    OpenBrace(FieldsText(fs) + tail, "count");
    SearchFinds(fs, 0, tail);
    Search(fs, 1, tail, "count", Pat("count"));
    NoFields(tail);
    assert fs[1..] == [];
    FoundHere(c, "}" + rest);
    DecimalRead(p.pgn, "," + (FieldsText(fs[1..]) + tail));
    CountRead(p.count, "}" + rest);
  }

  lemma NoFields(tail: string)
    ensures FieldsText([]) + tail == tail
  {
  }

  lemma {:induction false} OpenBrace(t: string, key: string)
    requires IsKey(key)
    ensures After("{" + t, Pat(key)) == After(t, Pat(key))
    ensures After("{" + t, Pat(key) + "\"") == After(t, Pat(key) + "\"")
    ensures After("{" + t, Pat(key) + "[") == After(t, Pat(key) + "[")
  {
    hide After, Pat;
    Skip("{", t, key, Pat(key));
    Skip("{", t, key, Pat(key) + "\"");
    Skip("{", t, key, Pat(key) + "[");
  }

  /** An object of the list: an opening brace, no bracket or brace, and a closing brace. */
  lemma {:induction false} PgnShape(p: PgnCount)
    ensures exists m: string :: PgnText(p) == "{" + m + "}" && Plain(m)
  {
    hide Decimal;
    var m := "\"pgn\":" + Decimal(p.pgn) + ",\"count\":" + Decimal(p.count);
    assert FieldsText([Field("pgn", Num(p.pgn))]) == "\"pgn\":" + Decimal(p.pgn) + ",";
    assert PgnText(p) == "{" + m + "}";
    assert Plain(m);
  }

  ghost predicate Plain(m: string) {
    forall i | 0 <= i < |m| :: m[i] != ']' && m[i] != '{' && m[i] != '}' && m[i] != '\n'
  }

  lemma {:induction false} CharAfter(a: string, b: string, c: char)
    requires forall i | 0 <= i < |a| :: a[i] != c
    requires b != "" && b[0] == c
    ensures FromChar(a + b, c) == Some(b)
  {
    if a == "" {
      assert a + b == b;
    } else {
      assert (a + b)[1..] == a[1..] + b;
      CharAfter(a[1..], b, c);
    }
  }

  lemma {:induction false} CharBehind(a: string, b: string, c: char)
    requires forall i | 0 <= i < |a| :: a[i] != c
    ensures FromChar(a + b, c) == FromChar(b, c)
  {
    if a == "" {
      assert a + b == b;
    } else {
      assert (a + b)[1..] == a[1..] + b;
      CharBehind(a[1..], b, c);
    }
  }

  /** The reader takes one object of the list and stands behind its closing brace. */
  lemma {:induction false} ObjectTaken(p: PgnCount, j: nat, rest: string)
    ensures var t := Comma(j) + (PgnText(p) + rest);
            && t != "" && t[0] != ']' && NextObject(t) == Some(PgnText(p) + rest)
            && FromChar(PgnText(p) + rest, '}') == Some("}" + rest)
  {
    hide FromChar;
    PgnShape(p);
    hide PgnText;
    var m: string :| PgnText(p) == "{" + m + "}" && Plain(m);
    var o := PgnText(p) + rest;
    assert o == "{" + m + ("}" + rest);
    CharAfter("{" + m, "}" + rest, '}');
    CharAfter(Comma(j), o, '{');
    var t := Comma(j) + o;
    CharBehind(Comma(j) + PgnText(p), rest, ']');
    assert t == Comma(j) + PgnText(p) + rest;
  }

  lemma {:induction false} PgnsReadBack(ps: seq<PgnCount>, j: nat, got: seq<PgnCount>, rest: string)
    requires j <= |ps| <= MAX_PGNS && |got| == j && got == ViewPgns(ps)[..j]
    requires forall i | 0 <= i < |ps| :: IsInt(ps[i].pgn)
    ensures PgnsRead(PgnsText(ps, j) + ("]" + rest), got) == ViewPgns(ps)
    decreases |ps| - j
  {
    hide PgnText, PgnAt, FromChar, NextObject;
    var t := PgnsText(ps, j) + ("]" + rest);
    if j == |ps| {
      assert t == "]" + rest;
    } else {
      var more := PgnsText(ps, j + 1) + ("]" + rest);
      assert t == Comma(j) + (PgnText(ps[j]) + more);
      ObjectTaken(ps[j], j, more);
      PgnRead(ps[j], more);
      assert ("}" + more)[1..] == more;
      PgnsReadBack(ps, j + 1, got + [PgnAt(PgnText(ps[j]) + more)], rest);
    }
  }

  // ----- one line

  lemma {:induction false} LeadPassed(i: nat, t: string, key: string)
    requires IsKey(key)
    ensures After(Comma(i) + ("{" + t), Pat(key)) == After(t, Pat(key))
    ensures After(Comma(i) + ("{" + t), Pat(key) + "\"") == After(t, Pat(key) + "\"")
    ensures After(Comma(i) + ("{" + t), Pat(key) + "[") == After(t, Pat(key) + "[")
  {
    hide After, Pat;
    OpenBrace(t, key);
    Skip(Comma(i), "{" + t, key, Pat(key));
    Skip(Comma(i), "{" + t, key, Pat(key) + "\"");
    Skip(Comma(i), "{" + t, key, Pat(key) + "[");
  }

  lemma {:induction false} StringRead(fs: seq<Field>, k: nat, i: nat, tail: string, sz: nat)
    requires k < |fs| && NamesAre(fs) && fs[k].value.Str? && |fs[k].value.s| < sz
    requires forall j | 0 <= j < k :: fs[j].name != fs[k].name
    ensures GetStr(Comma(i) + ("{" + (FieldsText(fs) + tail)), fs[k].name, sz) == fs[k].value.s
  {
    hide After, Pat, FieldsText, Unescaped, Escaped, ValueText;
    LeadPassed(i, FieldsText(fs) + tail, fs[k].name);
    SearchFinds(fs, k, tail);
    UnescapedEscaped(fs[k].value.s, "," + (FieldsText(fs[k + 1..]) + tail), sz - 1);
  }

  lemma {:induction false} NumberFound(fs: seq<Field>, k: nat, i: nat, tail: string)
    requires k < |fs| && NamesAre(fs) && fs[k].value.Num?
    requires forall j | 0 <= j < k :: fs[j].name != fs[k].name
    ensures exists rest: string :: NoDigitFirst(rest)
              && GetNum(Comma(i) + ("{" + (FieldsText(fs) + tail)), fs[k].name) == Some(Strtol(Decimal(fs[k].value.n) + rest))
  {
    hide After, Pat, FieldsText, Strtol, Decimal;
    LeadPassed(i, FieldsText(fs) + tail, fs[k].name);
    SearchFinds(fs, k, tail);
    assert NoDigitFirst("," + (FieldsText(fs[k + 1..]) + tail));
  }

  lemma {:induction false} ListFound(fs: seq<Field>, i: nat, tail: string)
    requires NamesAre(fs) && forall k | 0 <= k < |fs| :: fs[k].name != "pgns"
    ensures After(Comma(i) + ("{" + (FieldsText(fs) + (PgnsPat() + tail))), PgnsPat()) == Some(tail)
  {
    hide After, Pat, FieldsText;
    var t := PgnsPat() + tail;
    LeadPassed(i, FieldsText(fs) + t, "pgns");
    Search(fs, |fs|, t, "pgns", PgnsPat());
    assert fs[|fs|..] == [];
    NoFields(t);
    assert After(t, PgnsPat()) == Some(tail) by { PatternFirst(PgnsPat(), tail); }
  }

  lemma {:induction false} PatternFirst(pat: string, tail: string)
    ensures After(pat + tail, pat) == Some(tail)
  {
    assert (pat + tail)[|pat|..] == tail;
  }

  lemma {:induction false} FieldNames(d: Device)
    ensures NamesAre(DeviceFields(d))
    ensures forall i, j | 0 <= i < j < 6 :: DeviceFields(d)[i].name != DeviceFields(d)[j].name
    ensures forall i | 0 <= i < 6 :: DeviceFields(d)[i].name != "pgns"
  {
    assert IsKey("src") && IsKey("ident") && IsKey("mfg") && IsKey("model") && IsKey("serial") && IsKey("seen");
  }

  lemma {:induction false} RowIs(d: Device, i: nat, tail: string)
    ensures Row(d, i) + tail
         == Comma(i) + ("{" + (FieldsText(DeviceFields(d)) + (PgnsPat() + (PgnsText(d.pgns, 0) + ("]" + ("}" + tail))))))
  {
    hide FieldsText, DeviceFields, PgnsText, PgnsPat;
    var f, p, g := FieldsText(DeviceFields(d)), PgnsPat(), PgnsText(d.pgns, 0);
    var r := g + ("]" + ("}" + tail));
    assert g + "]}" + tail == r;
    assert Row(d, i) + tail == RowHead(d, i) + r;
    assert RowHead(d, i) + r == Comma(i) + ("{" + (f + (p + r)));
  }

  /** Every device line reads back as the device it was printed from. */
  lemma {:induction false} RowRead(d: Device, i: nat)
    requires Publishable(d)
    ensures EntryOf(Row(d, i) + "\n") == Some(View(d))
  {
    hide After, Pat, FieldsText, Strtol, Decimal, Unescaped, Escaped, PgnsRead, PgnsText, Row, GetStr, GetNum;
    var fs := DeviceFields(d);
    FieldNames(d);
    var list := PgnsText(d.pgns, 0) + ("]" + "}\n");
    var tail := PgnsPat() + list;
    var line := Comma(i) + ("{" + (FieldsText(fs) + tail));
    RowIs(d, i, "\n");
    assert "}" + "\n" == "}\n";
    NumberFound(fs, 0, i, tail);
    var r0: string :| NoDigitFirst(r0) && GetNum(line, "src") == Some(Strtol(Decimal(d.src) + r0));
    DecimalRead(d.src, r0);
    NumberFound(fs, 5, i, tail);
    var r5: string :| NoDigitFirst(r5) && GetNum(line, "seen") == Some(Strtol(Decimal(d.seen) + r5));
    CountRead(d.seen, r5);
    StringRead(fs, 1, i, tail, IDENT_LEN);
    StringRead(fs, 2, i, tail, MFG_LEN);
    StringRead(fs, 3, i, tail, MODEL_LEN);
    StringRead(fs, 4, i, tail, SERIAL_LEN);
    ListFound(fs, i, list);
    PgnsReadBack(d.pgns, 0, [], "}\n");
  }

  // ----- the length of a line

  lemma {:induction false} DecimalShort(n: int)
    requires -U64 < n < U64
    ensures |Decimal(n)| <= 21
  {
    assert Pow10(20) == 100000000000000000000 by {
      assert Pow10(4) == 10000;
      assert Pow10(8) == 10000 * Pow10(4);
      assert Pow10(12) == 10000 * Pow10(8);
      assert Pow10(16) == 10000 * Pow10(12);
      assert Pow10(20) == 10000 * Pow10(16);
    }
    hide Pow10, Digits;
    DigitsShort(if n < 0 then -n else n, 20);
  }

  lemma {:induction false} EscapedShort(s: string)
    ensures |Escaped(s)| <= 2 * |s|
    ensures OneLine(s) ==> OneLine(Escaped(s))
  {
    if s != "" {
      EscapedShort(s[1..]);
      if OneLine(s) {
        assert s[0] != '\n' && OneLine(s[1..]);
      }
    }
  }

  lemma {:induction false} PgnShort(p: PgnCount)
    requires IsInt(p.pgn) && p.count < U64
    ensures |PgnText(p)| <= 60 && OneLine(PgnText(p))
  {
    hide Decimal;
    DecimalShort(p.pgn);
    DecimalShort(p.count);
    assert FieldsText([Field("pgn", Num(p.pgn))]) == "\"pgn\":" + Decimal(p.pgn) + ",";
    PgnShape(p);
  }

  lemma {:induction false} PgnsShort(ps: seq<PgnCount>, j: nat)
    requires j <= |ps|
    requires forall i | 0 <= i < |ps| :: IsInt(ps[i].pgn) && ps[i].count < U64
    ensures |PgnsText(ps, j)| <= 61 * (|ps| - j) && OneLine(PgnsText(ps, j))
    decreases |ps| - j
  {
    hide PgnText;
    if j < |ps| {
      PgnShort(ps[j]);
      PgnsShort(ps, j + 1);
    }
  }

  lemma {:induction false} FieldsShort(fs: seq<Field>, vs: nat)
    requires forall k | 0 <= k < |fs| :: |fs[k].name| <= 10 && OneLine(fs[k].name)
    requires forall k | 0 <= k < |fs| :: |ValueText(fs[k].value)| <= vs && OneLine(ValueText(fs[k].value))
    ensures |FieldsText(fs)| <= (vs + 14) * |fs| && OneLine(FieldsText(fs))
  {
    hide ValueText;
    if fs != [] {
      FieldsShort(fs[1..], vs);
      assert |FieldsText(fs)| == |fs[0].name| + 3 + |ValueText(fs[0].value)| + 1 + |FieldsText(fs[1..])|;
      assert (vs + 14) * |fs| == (vs + 14) * |fs[1..]| + (vs + 14);
      var h := Pat(fs[0].name);
      assert OneLine(h) && OneLine(ValueText(fs[0].value)) && OneLine(FieldsText(fs[1..]));
      hide Pat;
      assert FieldsText(fs) == h + (ValueText(fs[0].value) + ("," + FieldsText(fs[1..])));
    }
  }

  lemma {:induction false} ValueShort(v: Value)
    requires match v case Num(n) => -U64 < n < U64 case Str(s) => |s| < IDENT_LEN && OneLine(s)
    ensures |ValueText(v)| <= 130 && OneLine(ValueText(v))
  {
    hide Decimal, Escaped;
    match v
    case Num(n) => DecimalShort(n);
    case Str(s) => EscapedShort(s);
  }

  /** The line of a device fits the reader's buffer. */
  lemma {:induction false} RowFits(d: Device, i: nat)
    requires Publishable(d)
    ensures |Row(d, i)| < LINE_MAX && OneLine(Row(d, i))
  {
    hide Decimal, Escaped, FieldsText, PgnsText, ValueText;
    var fs := DeviceFields(d);
    forall k | 0 <= k < |fs|
      ensures |fs[k].name| <= 10 && OneLine(fs[k].name)
      ensures |ValueText(fs[k].value)| <= 130 && OneLine(ValueText(fs[k].value))
    {
      ValueShort(fs[k].value);
    }
    FieldsShort(fs, 130);
    PgnsShort(d.pgns, 0);
    var f, g := FieldsText(fs), PgnsText(d.pgns, 0);
    assert Row(d, i) == Comma(i) + "{" + f + "\"pgns\":[" + g + "]}";
  }

  // ----- the whole file

  lemma {:induction false} LineTaken(l: string, t: string)
    requires OneLine(l) && |l| < LINE_MAX
    ensures l + "\n" + t != ""
    ensures LineEnd(l + "\n" + t) == |l| + 1
    ensures (l + "\n" + t)[..|l| + 1] == l + "\n" && (l + "\n" + t)[|l| + 1..] == t
  {
    var s := l + "\n" + t;
    assert s[|l|] == '\n';
    FirstIs(s, 0, if |s| < LINE_MAX then |s| else LINE_MAX, Newline, |l|);
  }

  function Views(ds: seq<Device>): (r: seq<Entry>)
    ensures |r| == |ds|
  {
    seq(|ds|, i requires 0 <= i < |ds| => View(ds[i]))
  }

  lemma {:induction false} BracketIgnored(l: string)
    requires |l| == 2 && l[0] != '"' && l[1] != '"'
    ensures EntryOf(l).None?
  {
    var p := Pat("src");
    assert |l[1..]| == 1 && l[1..][1..] == "";
    assert p[0] == '"';
    assert !(p <= l) && !(p <= l[1..]) && !(p <= "");
    assert After("", p).None?;
    assert After(l[1..], p).None?;
    assert After(l, p).None?;
  }

  lemma {:induction false} Closed(got: seq<Entry>)
    requires LineEnd("]\n") == 2 && EntryOf("]\n").None?
    ensures Loaded("]\n", got) == got
  {
    hide EntryOf, LineEnd;
    assert "]\n"[..2] == "]\n" && "]\n"[2..] == "";
    assert Loaded("", got) == got;
  }

  lemma {:induction false} RowsRead(ds: seq<Device>, i: nat, got: seq<Entry>)
    requires i <= |ds| <= MAX_DEVICES && got == Views(ds)[..i]
    requires forall k | 0 <= k < |ds| :: Publishable(ds[k])
    ensures Loaded(RowsText(ds, i), got) == Views(ds)
    decreases |ds| - i
  {
    hide EntryOf, Row, View, LineEnd, OneLine;
    if i == |ds| {
      assert "]" + "\n" + "" == "]\n";
      OneChar(']');
      LineTaken("]", "");
      BracketIgnored("]\n");
      Closed(got);
    } else {
      RowFits(ds[i], i);
      LineTaken(Row(ds[i], i), RowsText(ds, i + 1));
      RowRead(ds[i], i);
      RowsRead(ds, i + 1, got + [View(ds[i])]);
    }
  }

  lemma OneChar(c: char)
    requires c != '\n'
    ensures OneLine([c])
  {
  }

  /** Publication round trip: whatever quotes, backslashes and key look-alikes the
      strings hold, the reader shows every device, in order, with its address, its
      strings, its counters (up to what a signed 64-bit long holds) and its PGNs. */
  lemma {:induction false} PublishedReadBack(ds: seq<Device>)
    requires |ds| <= MAX_DEVICES && forall k | 0 <= k < |ds| :: Publishable(ds[k])
    ensures Loaded(Json(ds), []) == Views(ds)
  {
    hide EntryOf, RowsText, LineEnd, OneLine;
    OneChar('[');
    LineTaken("[", RowsText(ds, 0));
    assert Json(ds) == "[" + "\n" + RowsText(ds, 0);
    assert "[" + "\n" == "[\n";
    BracketIgnored("[\n");
    RowsRead(ds, 0, []);
  }

  /** However long the text, no more than 64 entries are read. */
  lemma {:induction false} LoadedFew(t: string, got: seq<Entry>)
    requires |got| <= 64
    ensures |Loaded(t, got)| <= 64
    decreases |t|
  {
    hide EntryOf, LineEnd;
    if t != "" {
      var rest := t[LineEnd(t)..];
      LoadedFew(rest, got);
      if EntryOf(t[..LineEnd(t)]).Some? && |got| < MAX_DEVICES { LoadedFew(rest, got + [EntryOf(t[..LineEnd(t)]).value]); }
    }
  }

  /** A number whose key stands nowhere in the line is 0, and such a text is empty. */
  lemma {:induction false} MissingRead(line: string, key: string)
    ensures (forall i | 0 <= i <= |line| :: !(Pat(key) <= line[i..])) ==> NumOr0(line, key) == 0
    ensures (forall i | 0 <= i <= |line| :: !(Pat(key) + "\"" <= line[i..])) ==> GetStr(line, key, 48) == ""
  {
    if forall i | 0 <= i <= |line| :: !(Pat(key) <= line[i..]) { NotFound(line, Pat(key)); }
    if forall i | 0 <= i <= |line| :: !(Pat(key) + "\"" <= line[i..]) { NotFound(line, Pat(key) + "\""); }
  }

  lemma {:induction false} NotFound(t: string, pat: string)
    requires forall i | 0 <= i <= |t| :: !(pat <= t[i..])
    ensures After(t, pat) == None
  {
    assert t[0..] == t;
    if t != "" {
      forall i | 0 <= i <= |t[1..]| ensures !(pat <= t[1..][i..]) {
        assert t[1..][i..] == t[i + 1..];
      }
      NotFound(t[1..], pat);
    }
  }

  /** One read of the file takes a line with its line feed, or 4095 characters of a longer one, or what is left. */
  lemma {:induction false} LineRead(t: string)
    requires t != ""
    ensures var e := LineEnd(t);
            && 0 < e <= |t| && e <= 4095 && (forall i | 0 <= i < e - 1 :: t[i] != '\n')
            && (t[e - 1] == '\n' || e == 4095 || e == |t|)
  {
    var m := if |t| < LINE_MAX then |t| else LINE_MAX;
    var f := First(t, 0, m, Newline);
    assert forall i | 0 <= i < f :: !Newline.At(t[i]);
    assert f < m ==> Newline.At(t[f]);
  }

  /** The list of PGNs ends at its bracket: no object behind it belongs to it. */
  lemma {:induction false} ListEnds(a: string, t: string)
    requires forall i | 0 <= i < |a| :: a[i] !in "{]"
    ensures NextObject(a + ("]" + t)) == None
    ensures NextObject(a + ("{" + t)) == Some("{" + t)
  {
    CharFound(a, "]" + t, ']');
    CharFound(a, "{" + t, '{');
    CharLater(a, "]" + t, '{');
    CharLater(a, "{" + t, ']');
  }

  lemma {:induction false} CharFound(a: string, t: string, c: char)
    requires (forall i | 0 <= i < |a| :: a[i] != c) && t != "" && t[0] == c
    ensures FromChar(a + t, c) == Some(t)
  {
    if a == "" {
      assert a + t == t;
    } else {
      assert (a + t)[0] == a[0] && (a + t)[1..] == a[1..] + t;
      CharFound(a[1..], t, c);
    }
  }

  lemma {:induction false} CharLater(a: string, t: string, c: char)
    requires (forall i | 0 <= i < |a| :: a[i] != c) && t != "" && t[0] != c
    ensures FromChar(a + t, c).Some? ==> |FromChar(a + t, c).value| < |t|
  {
    if a == "" {
      assert a + t == t;
    } else {
      assert (a + t)[0] == a[0] && (a + t)[1..] == a[1..] + t;
      CharLater(a[1..], t, c);
    }
  }
}
