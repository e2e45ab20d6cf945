/** What src/jsonl.c reads from a line, as functions of the text that is left.

    A text is a C string: its end is the NUL. conv stands for strtod, given the
    text from where the source calls it. A loop of the source that can stop
    advancing, and then never ends, is the outcome Stuck. */
module JsonlSpec {
  import opened CText
  import opened CNumber
  import opened JsonText

  const MAX_FIELDS := 48
  const KEY_LEN := 48
  const VAL_LEN := 96
  const DESC_LEN := 96
  const TS_LEN := 32
  const NV_KEY_LEN := 24
  const MAX_LIST := 32
  const LIST_FIELDS := 8

  type Conv = string -> real

  datatype Got<+T> = Bad | Stuck | Got(value: T, rest: string)

  function SkipWs(t: string): (r: string)
    ensures |r| <= |t|
    ensures r == "" || !IsWs(r[0])
  {
    if t != "" && IsWs(t[0]) then SkipWs(t[1..]) else t
  }

  // ----- strings

  function Unescape(c: char): char {
    if c == 'n' then '\n' else if c == 't' then '\t' else if c == 'r' then '\r'
    else if c == 'u' then '?' else c
  }

  predicate Escaped(t: string) { |t| > 1 && t[0] == '\\' }

  /** How many characters the next one is written with. */
  function CharLen(t: string): (n: nat)
    requires t != ""
    ensures 0 < n <= |t|
  {
    if !Escaped(t) then 1 else if t[1] == 'u' && |t| >= 6 then 6 else 2
  }

  function CharAt(t: string): char
    requires t != ""
  {
    if Escaped(t) then Unescape(t[1]) else t[0]
  }

  /** The characters up to the closing quote. */
  function ReadChars(t: string): (g: Got<string>)
    ensures !g.Stuck?
    ensures g.Got? ==> |g.rest| < |t|
    decreases |t|
  {
    if t == "" then Bad
    else if t[0] == '"' then Got("", t[1..])
    else
      match ReadChars(t[CharLen(t)..])
      case Got(s, r) => Got([CharAt(t)] + s, r)
      case _ => Bad
  }

  function ParseString(t: string, sz: nat): (g: Got<string>)
    requires sz > 0
    ensures !g.Stuck?
    ensures g.Got? ==> |g.rest| < |t|
  {
    if t == "" || t[0] != '"' then Bad
    else
      match ReadChars(t[1..])
      case Got(s, r) => Got(Copy(s, sz), r)
      case _ => Bad
  }

  // ----- skipping a value

  function SkipChars(t: string): (r: Option<string>)
    ensures r.Some? ==> |r.value| < |t|
    decreases |t|
  {
    if t == "" then None
    else if t[0] == '"' then Some(t[1..])
    else SkipChars(t[if Escaped(t) then 2 else 1..])
  }

  function Closing(open: char): char { if open == '{' then '}' else ']' }

  /** To the bracket that brings the depth of this one kind back to zero. */
  function SkipNest(t: string, open: char, depth: int, quoted: bool): (r: Option<string>)
    ensures r.Some? ==> |r.value| < |t|
    decreases |t|
  {
    if t == "" then None
    else if quoted then
      if Escaped(t) then SkipNest(t[2..], open, depth, true)
      else SkipNest(t[1..], open, depth, t[0] != '"')
    else if t[0] == '"' then SkipNest(t[1..], open, depth, true)
    else if t[0] == open then SkipNest(t[1..], open, depth + 1, false)
    else if t[0] == Closing(open) then
      if depth == 1 then Some(t[1..]) else SkipNest(t[1..], open, depth - 1, false)
    else SkipNest(t[1..], open, depth, false)
  }

  predicate EndsBare(c: char) { c == ',' || c == '}' || c == ']' }

  function SkipBare(t: string): (r: string)
    ensures |r| <= |t|
    decreases |t|
  {
    if t == "" || EndsBare(t[0]) then t else SkipBare(t[1..])
  }

  function SkipValue(t: string): (r: Option<string>)
    ensures r.Some? ==> |r.value| <= |t|
  {
    var u := SkipWs(t);
    if u != "" && u[0] == '"' then SkipChars(u[1..])
    else if u != "" && (u[0] == '{' || u[0] == '[') then SkipNest(u, u[0], 0, false)
    else Some(SkipBare(u))
  }

  // ----- the head of a loop over members

  datatype Next =
    | End(rest: string)                 // past the closing brace, or at the end of the text
    | Again(rest: string)               // past a comma or a value without key
    | AtKey(key: string, rest: string)  // past the colon
    | Broken
    | Hung

  function NextKey(t: string, sz: nat): (n: Next)
    requires t != "" && sz > 0
    ensures n.End? || n.Again? || n.AtKey? ==> |n.rest| < |t|
  {
    var u := SkipWs(t);
    if u == "" then End("")
    else if u[0] == '}' then End(u[1..])
    else if u[0] == ',' then Again(u[1..])
    else if u[0] != '"' then
      match SkipValue(u)
      case None => Broken
      case Some(r) => if |r| < |u| then Again(r) else Hung
    else
      match ParseString(u, sz)
      case Got(key, r) =>
        var v := SkipWs(r);
        if v != "" && v[0] == ':' then AtKey(key, v[1..]) else Broken
      case _ => Broken
  }

  // ----- the value of a field

  datatype FieldType = TNull | TNum | TStr | TNv

  datatype Reading = Reading(typ: FieldType, num: real, str: string)

  datatype NvState = NvState(num: real, str: string, gotValue: bool, gotName: bool)

  function NvLoop(t: string, st: NvState, conv: Conv): (g: Got<NvState>)
    ensures g.Got? ==> |g.rest| <= |t|
    decreases |t|
  {
    if t == "" then Got(st, "")
    else
      match NextKey(t, NV_KEY_LEN)
      case End(r) => Got(st, r)
      case Again(r) => NvLoop(r, st, conv)
      case Broken => Bad
      case Hung => Stuck
      case AtKey(key, r) =>
        match NvStep(key, SkipWs(r), st, conv)
        case Got(st', r') => NvLoop(r', st', conv)
        case _ => Bad
  }

  /** One member of a {"value":..,"name":..} object, read from q. */
  function NvStep(key: string, q: string, st: NvState, conv: Conv): (g: Got<NvState>)
    ensures !g.Stuck?
    ensures g.Got? ==> |g.rest| <= |q|
  {
    if key == "value" && q != "" && q[0] == '"' then
      match ParseString(q, VAL_LEN)
      case Got(s, r) => Got(st.(str := s, num := conv(s), gotValue := true), r)
      case _ => Bad
    else if key == "value" then
      match SkipValue(q)
      case Some(r) => Got(st.(num := conv(q), gotValue := true), r)
      case None => Bad
    else if key == "name" then
      match ParseString(q, VAL_LEN)
      case Got(s, r) => Got(st.(str := s, gotName := true), r)
      case _ => Bad
    else
      match SkipValue(q)
      case Some(r) => Got(st, r)
      case None => Bad
  }

  function NvReading(st: NvState): Reading {
    Reading(if st.gotValue || st.gotName then TNv else TNull, st.num, st.str)
  }

  predicate EndsToken(c: char) { EndsBare(c) || IsWs(c) }

  function TokenLen(t: string): (n: nat)
    ensures n <= |t|
    ensures forall i | 0 <= i < n :: !EndsToken(t[i])
    ensures n < |t| ==> EndsToken(t[n])
  {
    if t == "" || EndsToken(t[0]) then 0 else 1 + TokenLen(t[1..])
  }

  /** A number, true, false or null; from is the text the number conversion is given. */
  function BareReading(token: string, from: string, conv: Conv): Reading {
    if token == "" || token == "null" then Reading(TNull, 0.0, "")
    else if token == "true" then Reading(TNum, 1.0, "true")
    else if token == "false" then Reading(TNum, 0.0, "false")
    else Reading(TNum, conv(from), Copy(token, VAL_LEN))
  }

  function FieldValue(t: string, conv: Conv): (g: Got<Reading>)
    ensures g.Got? ==> |g.rest| <= |t|
  {
    var u := SkipWs(t);
    if u != "" && u[0] == '"' then
      match ParseString(u, VAL_LEN)
      case Got(s, r) => Got(Reading(TStr, 0.0, s), r)
      case _ => Bad
    else if u != "" && u[0] == '{' then
      match NvLoop(u[1..], NvState(0.0, "", false, false), conv)
      case Got(st, r) => Got(NvReading(st), r)
      case Bad => Bad
      case Stuck => Stuck
    else if u != "" && u[0] == '[' then
      match SkipValue(u)
      case Some(r) => Got(Reading(TNull, 0.0, ""), r)
      case None => Bad
    else
      var n := TokenLen(u);
      Got(BareReading(u[..n], u, conv), u[n..])
  }

  // ----- fields and lists

  datatype Field = Field(key: string, value: Reading)

  /** Appends while there is room. */
  function Add<T>(s: seq<T>, x: T, max: nat): seq<T> {
    if |s| < max then s + [x] else s
  }

  function ItemLoop(t: string, fields: seq<Field>, conv: Conv): (g: Got<seq<Field>>)
    ensures g.Got? ==> |g.rest| <= |t|
    decreases |t|
  {
    if t == "" then Got(fields, "")
    else
      match NextKey(t, KEY_LEN)
      case End(r) => Got(fields, r)
      case Again(r) => ItemLoop(r, fields, conv)
      case Broken => Bad
      case Hung => Stuck
      case AtKey(key, r) =>
        match FieldValue(r, conv)
        case Got(v, r') => ItemLoop(r', Add(fields, Field(key, v), LIST_FIELDS), conv)
        case Bad => Bad
        case Stuck => Stuck
  }

  function ListLoop(t: string, items: seq<seq<Field>>, conv: Conv): (g: Got<seq<seq<Field>>>)
    ensures g.Got? ==> |g.rest| <= |t|
    decreases |t|
  {
    if t == "" then Got(items, "")
    else
      var u := SkipWs(t);
      if u == "" then Got(items, "")
      else if u[0] == ']' then Got(items, u[1..])
      else if u[0] == ',' then ListLoop(u[1..], items, conv)
      else if u[0] == '{' && |items| < MAX_LIST then
        match ItemLoop(u[1..], [], conv)
        case Got(item, r) => ListLoop(r, items + [item], conv)
        case Bad => Bad
        case Stuck => Stuck
      else
        match SkipValue(u)
        case None => Bad
        case Some(r) => if |r| < |u| then ListLoop(r, items, conv) else Stuck
  }

  datatype Message = Message(
    hasSrc: bool, hasPgn: bool, hasPrio: bool, hasDst: bool,
    src: int, pgn: int, prio: int, dst: int,
    timestamp: string, description: string,
    fields: seq<Field>, items: seq<seq<Field>>, isHeader: bool)

  const Empty := Message(false, false, false, false, -1, -1, -1, -1, "", "", [], [], false)

  function FieldsLoop(t: string, m: Message, conv: Conv): (g: Got<Message>)
    ensures g.Got? ==> |g.rest| <= |t|
    decreases |t|
  {
    if t == "" then Got(m, "")
    else
      match NextKey(t, KEY_LEN)
      case End(r) => Got(m, r)
      case Again(r) => FieldsLoop(r, m, conv)
      case Broken => Bad
      case Hung => Stuck
      case AtKey(key, r) =>
        match FieldStep(key, r, m, conv)
        case Got(m', r') => FieldsLoop(r', m', conv)
        case Bad => Bad
        case Stuck => Stuck
  }

  /** One member of "fields", read from r: the repeated "list" is kept apart. */
  function FieldStep(key: string, r: string, m: Message, conv: Conv): (g: Got<Message>)
    ensures g.Got? ==> |g.rest| <= |r|
  {
    var q := SkipWs(r);
    if key == "list" && q != "" && q[0] == '[' then
      match ListLoop(q[1..], m.items, conv)
      case Got(items, r') => Got(m.(items := items), r')
      case Bad => Bad
      case Stuck => Stuck
    else
      match FieldValue(r, conv)
      case Got(v, r') => Got(m.(fields := Add(m.fields, Field(key, v), MAX_FIELDS)), r')
      case Bad => Bad
      case Stuck => Stuck
  }

  // ----- the message

  function IntAt(p: string): int { ToInt(Strtol(p)) }

  /** Skips the value at p and keeps m. */
  function Skipping(p: string, m: Message): (g: Got<Message>)
    ensures !g.Stuck? && (g.Got? ==> |g.rest| <= |p|)
  {
    match SkipValue(p)
    case Some(r) => Got(m, r)
    case None => Bad
  }

  /** One member of the message, read from p. */
  function TopStep(key: string, p: string, m: Message, conv: Conv): (g: Got<Message>)
    ensures g.Got? ==> |g.rest| <= |p|
  {
    if key == "src" then Skipping(p, m.(src := IntAt(p), hasSrc := true))
    else if key == "pgn" then Skipping(p, m.(pgn := IntAt(p), hasPgn := true))
    else if key == "prio" then Skipping(p, m.(prio := IntAt(p), hasPrio := true))
    else if key == "dst" then Skipping(p, m.(dst := IntAt(p), hasDst := true))
    else if key == "timestamp" then
      match ParseString(p, TS_LEN)
      case Got(s, r) => Got(m.(timestamp := s), r)
      case _ => Bad
    else if key == "description" then
      match ParseString(p, DESC_LEN)
      case Got(s, r) => Got(m.(description := s), r)
      case _ => Bad
    else if key == "fields" then
      if p == "" || p[0] != '{' then Bad else FieldsLoop(p[1..], m, conv)
    else if key == "version" then Skipping(p, m.(isHeader := true))
    else Skipping(p, m)
  }

  function TopLoop(t: string, m: Message, conv: Conv): (g: Got<Message>)
    ensures g.Got? ==> |g.rest| <= |t|
    decreases |t|
  {
    if t == "" then Got(m, "")
    else
      match NextKey(t, KEY_LEN)
      case End(r) => Got(m, r)
      case Again(r) => TopLoop(r, m, conv)
      case Broken => Bad
      case Hung => Stuck
      case AtKey(key, r) =>
        match TopStep(key, SkipWs(r), m, conv)
        case Got(m', r') => TopLoop(r', m', conv)
        case Bad => Bad
        case Stuck => Stuck
  }

  datatype Outcome = Rejected | Hangs | Parsed(msg: Message)

  /** jsonl_parse: useful lines carry a PGN or are the version header. */
  function Parse(line: string, conv: Conv): Outcome {
    var u := SkipWs(line);
    if u == "" || u[0] != '{' then Rejected
    else
      match TopLoop(u[1..], Empty, conv)
      case Bad => Rejected
      case Stuck => Hangs
      case Got(m, _) => if m.isHeader || m.hasPgn then Parsed(m) else Rejected
  }
}
