/** How one line of an INI file is read: src/inimerge.c, the parsing helpers.
    A text is a sequence of bytes without NUL, a line one of its CText.Lines. */
module IniText {
  import opened CText

  const SEC_LEN := 32
  const KEY_LEN := 64
  const VAL_LEN := 256

  function LowerAll(s: string): (r: string)
    ensures |r| == |s|
    ensures forall i | 0 <= i < |s| :: r[i] == Lower(s[i])
  {
    seq(|s|, i requires 0 <= i < |s| => Lower(s[i]))
  }

  /** Section names that the configuration reader treats alike get one name. */
  function Canonical(s: string): string {
    var l := LowerAll(s);
    if l == "priorities" || l == "priorites" then "priority"
    else if l == "rates" then "rate"
    else if l == "talkers" then "talker"
    else if l == "sentences" then "sentence"
    else l
  }

  lemma {:induction false} CanonicalIdempotent(s: string)
    ensures Canonical(Canonical(s)) == Canonical(s)
  {
    assert LowerAll(LowerAll(s)) == LowerAll(s);
    assert LowerAll("priority") == "priority";
    assert LowerAll("rate") == "rate";
    assert LowerAll("talker") == "talker";
    assert LowerAll("sentence") == "sentence";
  }

  /** "[name]", possibly indented: the canonical section name. */
  function ParseSection(line: string): Option<string> {
    var b := First(line, 0, |line|, NonBlank);
    if b == |line| || line[b] != '[' then None
    else
      var close := First(line, b + 1, |line|, CloseBracket);
      if close == |line| then None
      else Some(Canonical(Copy(Trim(line, b + 1, close), SEC_LEN)))
  }

  /** Where the comment of a line starts; the length of the line without one. */
  function CommentAt(line: string): (r: nat)
    ensures r <= |line|
    ensures forall i | 0 <= i < r :: line[i] != ';' && line[i] != '#'
    ensures r < |line| ==> line[r] == ';' || line[r] == '#'
  {
    var r := First(line, 0, |line|, CommentStart);
    assert forall i | 0 <= i < r :: !CommentStart.At(line[i]);
    r
  }

  datatype KeyAt = KeyAt(key: string, eq: nat)

  /** "key = value", the sign standing before any comment: the key and where the sign is. */
  function ParseKeyValue(line: string): (r: Option<KeyAt>)
    ensures r.Some? ==> r.value.eq < CommentAt(line) && line[r.value.eq] == '=' && r.value.key != ""
  {
    var lim := CommentAt(line);
    var eq := First(line, 0, lim, Equals);
    if eq == lim then None
    else
      var key := Copy(Trim(line, 0, eq), KEY_LEN);
      if key == "" then None else Some(KeyAt(key, eq))
  }

  /** The value after the sign at eq, up to the comment. */
  function ValueAfter(line: string, eq: nat): string
    requires eq < CommentAt(line)
  {
    Copy(Trim(line, eq + 1, CommentAt(line)), VAL_LEN)
  }

  datatype Kind = Header(sec: string) | KeyValue(key: string, eq: nat) | Other

  /** A section line is recognised first, then a key line; anything else is kept as it is. */
  function KindOf(line: string): (k: Kind)
    ensures k.KeyValue? ==> k.eq < CommentAt(line) && line[k.eq] == '=' && k.key != ""
  {
    var s := ParseSection(line);
    if s.Some? then Header(s.value)
    else
      var kv := ParseKeyValue(line);
      if kv.Some? then KeyValue(kv.value.key, kv.value.eq) else Other
  }

  /** One "key = value" of a text, under the section it stands in. */
  datatype Entry = Entry(sec: string, key: string, val: string)

  /** The entries of a run of lines that starts under section cur. */
  function Entries(lines: seq<string>, cur: string): seq<Entry> {
    if lines == [] then []
    else match KindOf(lines[0])
      case Header(sec) => Entries(lines[1..], sec)
      case KeyValue(key, eq) => [Entry(cur, key, ValueAfter(lines[0], eq))] + Entries(lines[1..], cur)
      case Other => Entries(lines[1..], cur)
  }

  /** The section a run of lines ends under. */
  function SectionAfter(lines: seq<string>, cur: string): string {
    if lines == [] then cur
    else match KindOf(lines[0])
      case Header(sec) => SectionAfter(lines[1..], sec)
      case _ => SectionAfter(lines[1..], cur)
  }

  lemma {:induction false} EntriesAppend(a: seq<string>, b: seq<string>, cur: string)
    ensures Entries(a + b, cur) == Entries(a, cur) + Entries(b, SectionAfter(a, cur))
    ensures SectionAfter(a + b, cur) == SectionAfter(b, SectionAfter(a, cur))
  {
    hide KindOf, ValueAfter;
    if a == [] {
      assert a + b == b;
    } else {
      assert (a + b)[0] == a[0];
      assert (a + b)[1..] == a[1..] + b;
      match KindOf(a[0])
      case Header(sec) => EntriesAppend(a[1..], b, sec);
      case _ => EntriesAppend(a[1..], b, cur);
    }
  }
}
