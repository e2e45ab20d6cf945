/** The published list of devices and what is read back from it, as functions:
    src/sources.c. A pointer into a C string is the suffix it points at. */
module SourcesSpec {
  import opened CText
  import opened CNumber
  import opened RegistrySpec

  const LINE_MAX := 4095
  const U64 := 0x1_0000_0000_0000_0000

  // ----- writing

  predicate NeedsEscape(c: char) { c == '"' || c == '\\' }

  function Escaped(s: string): string {
    if s == "" then ""
    else (if NeedsEscape(s[0]) then ['\\', s[0]] else [s[0]]) + Escaped(s[1..])
  }

  datatype Value = Num(n: int) | Str(s: string)
  datatype Field = Field(name: string, value: Value)

  /** "key": */
  function Pat(key: string): string { "\"" + key + "\":" }

  function ValueText(v: Value): string {
    match v
    case Num(n) => Decimal(n)
    case Str(s) => "\"" + Escaped(s) + "\""
  }

  /** Fields, each followed by a comma. */
  function FieldsText(fs: seq<Field>): string {
    if fs == [] then "" else Pat(fs[0].name) + (ValueText(fs[0].value) + ("," + FieldsText(fs[1..])))
  }

  function Comma(i: nat): string { if i == 0 then "" else "," }

  function PgnText(p: PgnCount): string {
    "{" + (FieldsText([Field("pgn", Num(p.pgn))]) + (Pat("count") + (Decimal(p.count) + "}")))
  }

  function PgnsText(ps: seq<PgnCount>, j: nat): string
    requires j <= |ps|
    decreases |ps| - j
  {
    if j == |ps| then "" else Comma(j) + (PgnText(ps[j]) + PgnsText(ps, j + 1))
  }

  function DeviceFields(d: Device): seq<Field> {
    [Field("src", Num(d.src)), Field("ident", Str(d.ident)), Field("mfg", Str(d.mfg)),
     Field("model", Str(d.model)), Field("serial", Str(d.serial)), Field("seen", Num(d.seen))]
  }

  function PgnsPat(): string { Pat("pgns") + "[" }

  function RowHead(d: Device, i: nat): string {
    Comma(i) + ("{" + (FieldsText(DeviceFields(d)) + PgnsPat()))
  }

  /** The line of the i-th device. */
  function Row(d: Device, i: nat): string {
    RowHead(d, i) + (PgnsText(d.pgns, 0) + "]}")
  }

  function RowsText(ds: seq<Device>, i: nat): string
    requires i <= |ds|
    decreases |ds| - i
  {
    if i == |ds| then "]\n" else Row(ds[i], i) + "\n" + RowsText(ds, i + 1)
  }

  /** The whole document. */
  function Json(ds: seq<Device>): string { "[\n" + RowsText(ds, 0) }

  // ----- reading

  /** strstr, and then past the pattern. */
  function After(t: string, pat: string): Option<string> {
    if pat <= t then Some(t[|pat|..])
    else if t == "" then None
    else After(t[1..], pat)
  }

  /** strchr. */
  function FromChar(t: string, c: char): (r: Option<string>)
    ensures r.Some? ==> 0 < |r.value| <= |t| && r.value[0] == c
  {
    if t == "" then None else if t[0] == c then Some(t) else FromChar(t[1..], c)
  }

  /** The characters up to the closing quote, at most room of them. */
  function Unescaped(t: string, room: nat): string
    decreases |t|
  {
    if t == "" || t[0] == '"' || room == 0 then ""
    else if t[0] == '\\' && |t| > 1 then [t[1]] + Unescaped(t[2..], room - 1)
    else [t[0]] + Unescaped(t[1..], room - 1)
  }

  function GetStr(line: string, key: string, sz: nat): string
    requires sz > 0
  {
    var p := After(line, Pat(key) + "\"");
    if p.None? then "" else Unescaped(p.value, sz - 1)
  }

  function GetNum(line: string, key: string): Option<int> {
    var p := After(line, Pat(key));
    if p.None? then None else Some(Strtol(p.value))
  }

  function NumOr0(line: string, key: string): int {
    var v := GetNum(line, key);
    if v.Some? then v.value else 0
  }

  /** The conversion of a long to an unsigned long. */
  function ToULong(v: int): (r: nat)
    ensures 0 <= v < U64 ==> r == v
  {
    v % U64
  }

  datatype Entry = Entry(src: int, ident: string, mfg: string, model: string, serial: string,
                         seen: nat, pgns: seq<PgnCount>)

  function PgnAt(o: string): PgnCount {
    PgnCount(ToInt(NumOr0(o, "pgn")), ToULong(NumOr0(o, "count")))
  }

  /** The opening brace of the next object of the list, if there is one before the list ends. */
  function NextObject(p: string): (o: Option<string>)
    ensures o.Some? ==> 0 < |o.value| <= |p|
  {
    var o, c := FromChar(p, '{'), FromChar(p, ']');
    if o.None? || (c.Some? && |c.value| > |o.value|) then None else o
  }

  function PgnsRead(p: string, got: seq<PgnCount>): seq<PgnCount>
    decreases |p|
  {
    if p == "" || p[0] == ']' || |got| >= MAX_PGNS || NextObject(p).None? then got
    else
      var o := NextObject(p).value;
      var close := FromChar(o, '}');
      if close.None? then got + [PgnAt(o)] else PgnsRead(close.value[1..], got + [PgnAt(o)])
  }

  function EntryOf(line: string): Option<Entry> {
    var src := GetNum(line, "src");
    if src.None? then None
    else
      var p := After(line, PgnsPat());
      Some(Entry(ToInt(src.value), GetStr(line, "ident", IDENT_LEN), GetStr(line, "mfg", MFG_LEN),
                 GetStr(line, "model", MODEL_LEN), GetStr(line, "serial", SERIAL_LEN),
                 ToULong(NumOr0(line, "seen")), if p.Some? then PgnsRead(p.value, []) else []))
  }

  /** What fgets takes: up to and with the line feed, at most LINE_MAX characters. */
  function LineEnd(t: string): (e: nat)
    requires t != ""
    ensures 0 < e <= |t|
  {
    var m := if |t| < LINE_MAX then |t| else LINE_MAX;
    var f := First(t, 0, m, Newline);
    if f < m then f + 1 else m
  }

  function Loaded(t: string, got: seq<Entry>): seq<Entry>
    decreases |t|
  {
    if t == "" then got
    else
      var e := EntryOf(t[..LineEnd(t)]);
      var rest := t[LineEnd(t)..];
      if e.None? then Loaded(rest, got)
      else if |got| >= MAX_DEVICES then got
      else Loaded(rest, got + [e.value])
  }
}
