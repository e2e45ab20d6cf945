/** JSON texts (section 2 of RFC 8259), with the white space they may hold, and how they are printed. */
module JsonText {

  /** One character of a string: itself, a two-character escape, or a \uXXXX escape. */
  datatype Char = Plain(c: char) | Escape(e: char) | Unicode(hex: string)

  datatype Json =
    | JString(chars: seq<Char>)
    | JBare(text: string)                            // a number, true, false or null
    | JObject(members: seq<Member>, end: string)
    | JArray(elems: seq<Element>, end: string)

  /** The four stretches of white space stand around the key, the colon and the value. */
  datatype Member = Member(ws: string, key: seq<Char>, ws2: string, ws3: string, value: Json, ws4: string)

  datatype Element = Element(ws: string, value: Json, ws2: string)

  predicate IsWs(c: char) { c == ' ' || c == '\t' || c == '\r' || c == '\n' }

  predicate IsBareChar(c: char) {
    'a' <= c <= 'z' || 'A' <= c <= 'Z' || '0' <= c <= '9' || c == '+' || c == '-' || c == '.'
  }

  predicate IsHex(c: char) {
    '0' <= c <= '9' || 'a' <= c <= 'f' || 'A' <= c <= 'F'
  }

  ghost predicate Blank(s: string) {
    forall i | 0 <= i < |s| :: IsWs(s[i])
  }

  ghost predicate ValidChar(ch: Char) {
    match ch
    case Plain(c) => c != '"' && c != '\\' && c != '\0'
    case Escape(e) => e in {'"', '\\', '/', 'b', 'f', 'n', 'r', 't'}
    case Unicode(hex) => |hex| == 4 && forall i | 0 <= i < 4 :: IsHex(hex[i])
  }

  ghost predicate ValidChars(chars: seq<Char>) {
    forall i | 0 <= i < |chars| :: ValidChar(chars[i])
  }

  /** Every JSON value, and more: any word of letters, digits, signs and dots counts as bare. */
  ghost predicate Valid(v: Json)
    decreases v
  {
    match v
    case JString(chars) => ValidChars(chars)
    case JBare(text) => text != "" && forall i | 0 <= i < |text| :: IsBareChar(text[i])
    case JObject(ms, end) => Blank(end) && forall i | 0 <= i < |ms| :: ValidMember(ms[i])
    case JArray(es, end) => Blank(end) && forall i | 0 <= i < |es| :: ValidElement(es[i])
  }

  ghost predicate ValidMember(m: Member)
    decreases m
  {
    Blank(m.ws) && ValidChars(m.key) && Blank(m.ws2) && Blank(m.ws3) && Valid(m.value) && Blank(m.ws4)
  }

  ghost predicate ValidElement(e: Element)
    decreases e
  {
    Blank(e.ws) && Valid(e.value) && Blank(e.ws2)
  }

  function PrintChar(ch: Char): string {
    match ch
    case Plain(c) => [c]
    case Escape(e) => ['\\', e]
    case Unicode(hex) => ['\\', 'u'] + hex
  }

  function PrintChars(chars: seq<Char>): string {
    if chars == [] then "" else PrintChar(chars[0]) + PrintChars(chars[1..])
  }

  function PrintString(chars: seq<Char>): string {
    ['"'] + PrintChars(chars) + ['"']
  }

  function Print(v: Json): string
    decreases v, 1
  {
    match v
    case JString(chars) => PrintString(chars)
    case JBare(text) => text
    case JObject(ms, end) => "{" + PrintMembers(ms) + end + "}"
    case JArray(es, end) => "[" + PrintElements(es) + end + "]"
  }

  /** A comma stands after every part but the last. */
  function Separator(left: nat): string { if left > 1 then "," else "" }

  /** Members with a comma between two of them. */
  function PrintMembers(ms: seq<Member>): string
    decreases ms, 0
  {
    if ms == [] then ""
    else
      var m := ms[0];
      m.ws + (PrintString(m.key) + (m.ws2 + (":" + (m.ws3 + (Print(m.value) + (m.ws4 +
        (Separator(|ms|) + PrintMembers(ms[1..]))))))))
  }

  function PrintElements(es: seq<Element>): string
    decreases es, 0
  {
    if es == [] then ""
    else
      var e := es[0];
      e.ws + (Print(e.value) + (e.ws2 + (Separator(|es|) + PrintElements(es[1..]))))
  }

  /** The characters a string stands for, as the reader takes them: \uXXXX gives '?', \b and \f give their letter. */
  function Meaning(ch: Char): char {
    match ch
    case Plain(c) => c
    case Escape(e) => if e == 'n' then '\n' else if e == 't' then '\t' else if e == 'r' then '\r' else e
    case Unicode(_) => '?'
  }

  function Text(chars: seq<Char>): string {
    if chars == [] then "" else [Meaning(chars[0])] + Text(chars[1..])
  }
}
