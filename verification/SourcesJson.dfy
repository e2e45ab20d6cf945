/** The published list of devices is a JSON text: an array of one object for each device. */
module SourcesJson {
  import opened CText
  import opened CNumber
  import opened JsonText
  import R = RegistrySpec
  import S = SourcesSpec

  /** The characters of a string, with quotes and backslashes escaped. */
  function Chars(s: string): (cs: seq<Char>)
    ensures |cs| == |s|
  {
    seq(|s|, i requires 0 <= i < |s| => if s[i] == '"' || s[i] == '\\' then Escape(s[i]) else Plain(s[i]))
  }

  function Named(name: string, v: Json): Member { Member("", Chars(name), "", "", v, "") }

  function ValueTree(v: S.Value): Json {
    match v
    case Num(n) => JBare(Decimal(n))
    case Str(s) => JString(Chars(s))
  }

  function Members(fs: seq<S.Field>): (ms: seq<Member>)
    ensures |ms| == |fs| && forall i | 0 <= i < |ms| :: ms[i] == Named(fs[i].name, ValueTree(fs[i].value))
  {
    seq(|fs|, i requires 0 <= i < |fs| => Named(fs[i].name, ValueTree(fs[i].value)))
  }

  function PgnTree(p: R.PgnCount): Json {
    JObject([Named("pgn", JBare(Decimal(p.pgn))), Named("count", JBare(Decimal(p.count)))], "")
  }

  function PgnElements(ps: seq<R.PgnCount>): (es: seq<Element>)
    ensures |es| == |ps| && forall i | 0 <= i < |es| :: es[i] == Element("", PgnTree(ps[i]), "")
  {
    seq(|ps|, i requires 0 <= i < |ps| => Element("", PgnTree(ps[i]), ""))
  }

  function DeviceTree(d: R.Device): Json {
    JObject(Members(S.DeviceFields(d)) + [Named("pgns", JArray(PgnElements(d.pgns), ""))], "")
  }

  /** The elements from the i-th on: the first stands on a line of its own behind the bracket. */
  function Elements(ds: seq<R.Device>, i: nat): (es: seq<Element>)
    requires i <= |ds|
    ensures |es| == |ds| - i && forall k | 0 <= k < |es| :: es[k] == Element(if i + k == 0 then "\n" else "", DeviceTree(ds[i + k]), "\n")
  {
    seq(|ds| - i, k requires 0 <= k < |ds| - i => Element(if i + k == 0 then "\n" else "", DeviceTree(ds[i + k]), "\n"))
  }

  function ArrayTree(ds: seq<R.Device>): Json { JArray(Elements(ds, 0), if ds == [] then "\n" else "") }

  // ----- the texts

  lemma {:induction false} CharsPrinted(s: string)
    ensures PrintChars(Chars(s)) == S.Escaped(s)
  {
    if s != "" {
      CharsPrinted(s[1..]);
      assert Chars(s)[1..] == Chars(s[1..]);
    }
  }

  /** A string without NUL is shown, and stands for itself. */
  lemma {:induction false} CharsStand(s: string)
    requires NoNul(s)
    ensures ValidChars(Chars(s)) && Text(Chars(s)) == s
  {
    if s != "" {
      CharsStand(s[1..]);
      assert Chars(s)[1..] == Chars(s[1..]);
      assert [s[0]] + s[1..] == s;
    }
  }

  ghost predicate NoNul(s: string) { forall i | 0 <= i < |s| :: s[i] != '\0' }

  lemma {:induction false} Unescaped(s: string)
    requires forall i | 0 <= i < |s| :: !S.NeedsEscape(s[i])
    ensures S.Escaped(s) == s
  {
    if s != "" {
      Unescaped(s[1..]);
      assert [s[0]] + s[1..] == s;
    }
  }

  lemma {:induction false} ValuePrinted(v: S.Value)
    ensures Print(ValueTree(v)) == S.ValueText(v)
  {
    if v.Str? { CharsPrinted(v.s); }
  }

  ghost predicate PlainName(s: string) { forall i | 0 <= i < |s| :: !S.NeedsEscape(s[i]) }

  lemma {:induction false} NamePrinted(name: string)
    requires PlainName(name)
    ensures PrintString(Chars(name)) + ":" == S.Pat(name)
  {
    CharsPrinted(name);
    Unescaped(name);
    hide PrintChars;
  }

  lemma {:induction false} FirstMember(m: Member, rest: seq<Member>)
    requires m.ws == "" && m.ws2 == "" && m.ws3 == "" && m.ws4 == ""
    ensures PrintMembers([m] + rest) ==
            PrintString(m.key) + ":" + Print(m.value) + (if rest == [] then "" else ",") + PrintMembers(rest)
  {
    hide Print, PrintString;
    var ms := [m] + rest;
    assert ms[0] == m && ms[1..] == rest;
    var k, v, r := PrintString(m.key), Print(m.value), PrintMembers(rest);
    var sep := Separator(|ms|);
    assert PrintMembers(ms) == "" + (k + ("" + (":" + ("" + (v + ("" + (sep + r)))))));
    assert k + (":" + (v + (sep + r))) == k + ":" + v + sep + r;
  }

  lemma {:induction false} FieldsPrinted(fs: seq<S.Field>, last: Member)
    requires forall i | 0 <= i < |fs| :: PlainName(fs[i].name)
    ensures PrintMembers(Members(fs) + [last]) == S.FieldsText(fs) + PrintMembers([last])
  {
    hide Print, PrintString, PrintMembers, PlainName;
    if fs == [] {
      assert Members(fs) + [last] == [last];
    } else {
      var m, rest := Members(fs)[0], Members(fs[1..]) + [last];
      assert Members(fs)[1..] == Members(fs[1..]);
      assert Members(fs) + [last] == [m] + rest;
      FirstMember(m, rest);
      FieldsPrinted(fs[1..], last);
      NamePrinted(fs[0].name);
      ValuePrinted(fs[0].value);
      FieldsJoined(S.Pat(fs[0].name), S.ValueText(fs[0].value), S.FieldsText(fs[1..]), PrintMembers([last]));
    }
  }

  lemma FieldsJoined(pat: string, v: string, t: string, r: string)
    ensures pat + v + "," + (t + r) == (pat + (v + ("," + t))) + r
  {
  }

  lemma {:induction false} OneMember(m: Member)
    requires m.ws == "" && m.ws2 == "" && m.ws3 == "" && m.ws4 == ""
    ensures PrintMembers([m]) == PrintString(m.key) + ":" + Print(m.value)
  {
    hide Print, PrintString;
    assert [m] + [] == [m];
    assert PrintMembers([]) == "" by { NoMembers(); }
    FirstMember(m, []);
  }

  lemma NoMembers()
    ensures PrintMembers([]) == "" && PrintElements([]) == ""
  {
  }

  lemma {:induction false} PgnPrinted(p: R.PgnCount)
    ensures Print(PgnTree(p)) == S.PgnText(p)
  {
    hide PrintMembers, PrintString, PlainName;
    var f := [S.Field("pgn", S.Num(p.pgn))];
    var last := Named("count", JBare(Decimal(p.count)));
    NamesPlain();
    assert Members(f) + [last] == [Named("pgn", JBare(Decimal(p.pgn))), last];
    FieldsPrinted(f, last);
    OneMember(last);
    NamePrinted("count");
    assert Print(PgnTree(p)) == "{" + (S.FieldsText(f) + (S.Pat("count") + Decimal(p.count))) + "" + "}";
  }

  lemma NamesPlain()
    ensures PlainName("src") && PlainName("ident") && PlainName("mfg") && PlainName("model") && PlainName("serial")
    ensures PlainName("seen") && PlainName("pgns") && PlainName("pgn") && PlainName("count")
  {
  }

  lemma {:induction false} FirstElement(e: Element, rest: seq<Element>)
    ensures PrintElements([e] + rest) ==
            e.ws + Print(e.value) + e.ws2 + (if rest == [] then "" else ",") + PrintElements(rest)
  {
    hide Print;
    var es := [e] + rest;
    assert es[0] == e && es[1..] == rest;
    var v, r, sep := Print(e.value), PrintElements(rest), Separator(|es|);
    assert PrintElements(es) == e.ws + (v + (e.ws2 + (sep + r)));
  }

  lemma PgnsStep(ps: seq<R.PgnCount>, j: nat)
    requires j <= |ps|
    ensures S.PgnsText(ps, j) == if j == |ps| then "" else S.Comma(j) + (S.PgnText(ps[j]) + S.PgnsText(ps, j + 1))
  {
  }

  lemma {:induction false} PgnElementsStep(ps: seq<R.PgnCount>, j: nat)
    requires j < |ps|
    ensures PgnElements(ps[j..]) == [Element("", PgnTree(ps[j]), "")] + PgnElements(ps[j + 1..])
  {
    hide PgnTree;
  }

  lemma {:induction false} PgnsPrinted(ps: seq<R.PgnCount>, j: nat)
    requires j <= |ps|
    ensures S.PgnsText(ps, j) == (if 0 < j < |ps| then "," else "") + PrintElements(PgnElements(ps[j..]))
    decreases |ps| - j
  {
    hide Print, PrintElements, PgnElements, PgnTree, S.PgnText, S.PgnsText;
    PgnsStep(ps, j);
    if j == |ps| {
      assert PgnElements(ps[j..]) == [];
      NoMembers();
    } else {
      var rest := PgnElements(ps[j + 1..]);
      PgnElementsStep(ps, j);
      FirstElement(Element("", PgnTree(ps[j]), ""), rest);
      PgnsPrinted(ps, j + 1);
      PgnPrinted(ps[j]);
      PgnsJoined(S.Comma(j), S.PgnText(ps[j]), if j + 1 < |ps| then "," else "", PrintElements(rest));
    }
  }

  lemma PgnsJoined(c: string, p: string, sep: string, r: string)
    ensures c + (p + (sep + r)) == c + ("" + p + "" + sep + r)
  {
  }

  lemma {:induction false} DevicePrinted(d: R.Device, i: nat)
    ensures S.Row(d, i) == (if i == 0 then "" else ",") + Print(DeviceTree(d))
  {
    hide PrintMembers, PrintElements, PrintString, S.FieldsText, S.PgnsText, PlainName;
    var fs := S.DeviceFields(d);
    var list := JArray(PgnElements(d.pgns), "");
    var last := Named("pgns", list);
    NamesPlain();
    FieldsPrinted(fs, last);
    OneMember(last);
    NamePrinted("pgns");
    PgnsPrinted(d.pgns, 0);
    assert d.pgns[0..] == d.pgns;
    var t := S.PgnsText(d.pgns, 0);
    assert Print(list) == "[" + t + "" + "]";
    RowJoined(S.FieldsText(fs), S.Pat("pgns"), t);
    assert Print(DeviceTree(d)) == "{" + (S.FieldsText(fs) + (S.Pat("pgns") + ("[" + t + "]"))) + "" + "}";
  }

  lemma RowJoined(f: string, pat: string, t: string)
    ensures "{" + (f + (pat + "[")) + (t + "]}") == "{" + (f + (pat + ("[" + t + "]"))) + "" + "}"
  {
  }

  lemma RowsStep(ds: seq<R.Device>, i: nat)
    requires i <= |ds|
    ensures S.RowsText(ds, i) == if i == |ds| then "]\n" else S.Row(ds[i], i) + "\n" + S.RowsText(ds, i + 1)
  {
  }

  lemma {:induction false} ElementsStep(ds: seq<R.Device>, i: nat)
    requires i < |ds|
    ensures Elements(ds, i) == [Element(if i == 0 then "\n" else "", DeviceTree(ds[i]), "\n")] + Elements(ds, i + 1)
  {
    hide DeviceTree;
  }

  lemma {:induction false} RowsPrinted(ds: seq<R.Device>, i: nat)
    requires i <= |ds|
    ensures (if i == 0 && ds != [] then "\n" else "") + S.RowsText(ds, i) ==
            (if 0 < i < |ds| then "," else "") + PrintElements(Elements(ds, i)) + "]\n"
    decreases |ds| - i
  {
    hide Print, PrintElements, Elements, DeviceTree, S.Row, S.RowsText;
    RowsStep(ds, i);
    if i == |ds| {
      assert Elements(ds, i) == [];
      NoMembers();
    } else {
      var rest := Elements(ds, i + 1);
      ElementsStep(ds, i);
      FirstElement(Element(if i == 0 then "\n" else "", DeviceTree(ds[i]), "\n"), rest);
      RowsPrinted(ds, i + 1);
      DevicePrinted(ds[i], i);
      RowsJoined(i == 0, Print(DeviceTree(ds[i])), if i + 1 < |ds| then "," else "", PrintElements(rest));
    }
  }

  lemma RowsJoined(first: bool, p: string, sep: string, r: string)
    ensures (if first then "\n" else "") + ((if first then "" else ",") + p + "\n" + (sep + r + "]\n"))
         == (if first then "" else ",") + ((if first then "\n" else "") + p + "\n" + sep + r) + "]\n"
  {
  }

  lemma NoRows()
    ensures S.Json([]) == "[\n]\n"
  {
  }

  // ----- the tree

  ghost predicate StringIs(m: Member, name: string, s: string) {
    Text(m.key) == name && m.value.JString? && Text(m.value.chars) == s
  }

  ghost predicate NumberIs(m: Member, name: string, n: int) {
    Text(m.key) == name && m.value == JBare(Decimal(n))
  }

  ghost predicate ShowsPgn(v: Json, p: R.PgnCount) {
    && v.JObject? && |v.members| == 2
    && NumberIs(v.members[0], "pgn", p.pgn) && NumberIs(v.members[1], "count", p.count)
  }

  ghost predicate ShowsPgns(v: Json, ps: seq<R.PgnCount>) {
    v.JArray? && |v.elems| == |ps| && forall i | 0 <= i < |ps| :: ShowsPgn(v.elems[i].value, ps[i])
  }

  /** The object of a device: its seven members, by name. */
  ghost predicate Shows(v: Json, d: R.Device) {
    && v.JObject? && |v.members| == 7
    && NumberIs(v.members[0], "src", d.src)
    && StringIs(v.members[1], "ident", d.ident)
    && StringIs(v.members[2], "mfg", d.mfg)
    && StringIs(v.members[3], "model", d.model)
    && StringIs(v.members[4], "serial", d.serial)
    && NumberIs(v.members[5], "seen", d.seen)
    && Text(v.members[6].key) == "pgns" && ShowsPgns(v.members[6].value, d.pgns)
  }

  ghost predicate CStrings(d: R.Device) { NoNul(d.ident) && NoNul(d.mfg) && NoNul(d.model) && NoNul(d.serial) }

  lemma {:induction false} DecimalBare(n: int)
    ensures Valid(JBare(Decimal(n)))
  {
  }

  lemma {:induction false} NamedStands(name: string, v: Json)
    requires NoNul(name) && Valid(v)
    ensures ValidMember(Named(name, v)) && Text(Named(name, v).key) == name
  {
    hide ValidChars;
    CharsStand(name);
  }

  lemma NamesStand()
    ensures NoNul("src") && NoNul("ident") && NoNul("mfg") && NoNul("model") && NoNul("serial")
    ensures NoNul("seen") && NoNul("pgns") && NoNul("pgn") && NoNul("count")
  {
  }

  lemma {:induction false} PgnShown(p: R.PgnCount)
    ensures Valid(PgnTree(p)) && ShowsPgn(PgnTree(p), p)
  {
    hide NoNul, ValidMember;
    NamesStand();
    DecimalBare(p.pgn);
    DecimalBare(p.count);
    NamedStands("pgn", JBare(Decimal(p.pgn)));
    NamedStands("count", JBare(Decimal(p.count)));
  }

  lemma {:induction false} PgnsShown(ps: seq<R.PgnCount>)
    ensures var v := JArray(PgnElements(ps), ""); Valid(v) && ShowsPgns(v, ps)
  {
    hide ShowsPgn, PgnTree;
    forall i | 0 <= i < |ps| ensures ValidElement(PgnElements(ps)[i]) && ShowsPgn(PgnElements(ps)[i].value, ps[i]) {
      PgnShown(ps[i]);
    }
  }

  lemma {:induction false} FieldShown(f: S.Field)
    requires NoNul(f.name) && (f.value.Str? ==> NoNul(f.value.s))
    ensures var m := Named(f.name, ValueTree(f.value));
            && ValidMember(m)
            && match f.value
               case Num(n) => NumberIs(m, f.name, n)
               case Str(s) => StringIs(m, f.name, s)
  {
    hide NoNul, ValidMember;
    match f.value {
      case Num(n) => DecimalBare(n);
      case Str(s) => CharsStand(s);
    }
    NamedStands(f.name, ValueTree(f.value));
  }

  lemma {:induction false} DeviceShown(d: R.Device)
    requires CStrings(d)
    ensures Valid(DeviceTree(d)) && Shows(DeviceTree(d), d)
  {
    hide NoNul, ValidMember, NumberIs, StringIs, ShowsPgns;
    NamesStand();
    var fs := S.DeviceFields(d);
    var list := JArray(PgnElements(d.pgns), "");
    PgnsShown(d.pgns);
    NamedStands("pgns", list);
    forall i | 0 <= i < 6
      ensures ValidMember(DeviceTree(d).members[i])
      ensures match fs[i].value
              case Num(n) => NumberIs(DeviceTree(d).members[i], fs[i].name, n)
              case Str(s) => StringIs(DeviceTree(d).members[i], fs[i].name, s)
    {
      FieldShown(fs[i]);
    }
    assert DeviceTree(d).members[6] == Named("pgns", list);
  }

  /** What is published is a JSON text: an array with one object for each device, in order,
      each with its seven members and the list of its PGNs; a line feed closes it. */
  lemma {:induction false} PublishedIsJson(ds: seq<R.Device>)
    requires forall i | 0 <= i < |ds| :: CStrings(ds[i])
    ensures var v := ArrayTree(ds);
            && Valid(v) && v.JArray? && Print(v) + "\n" == S.Json(ds)
            && |v.elems| == |ds| && forall i | 0 <= i < |ds| :: Shows(v.elems[i].value, ds[i])
  {
    hide CStrings, DeviceTree, Shows, PrintElements, S.RowsText;
    var v := ArrayTree(ds);
    forall i | 0 <= i < |ds| ensures ValidElement(v.elems[i]) && Shows(v.elems[i].value, ds[i]) {
      DeviceShown(ds[i]);
    }
    RowsPrinted(ds, 0);
    NoMembers();
    var e := PrintElements(v.elems);
    assert Print(v) == "[" + e + v.end + "]";
    if ds == [] {
      assert v.elems == [];
      NoRows();
    } else {
      assert e + "]\n" == "\n" + S.RowsText(ds, 0);
      assert "[" + ("\n" + S.RowsText(ds, 0)) == S.Json(ds);
      assert Print(v) + "\n" == "[" + (e + "]\n");
    }
  }
}
