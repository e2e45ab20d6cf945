/** What src/inimerge.c writes, as a function of the two texts.

    The source keeps one "done" flag an entry; here the flags are the log, the
    indices of the entries already written, in the order they were written. */
module IniMergeSpec {
  import opened CText
  import opened IniText

  const MAX_ENTRIES := 256
  const MAX_SECTIONS := 24

  predicate HasHeader(lines: seq<string>, sec: string) {
    exists i :: 0 <= i < |lines| && KindOf(lines[i]) == Header(sec)
  }

  /** The distinct sections of a text, in order of appearance, after those already known. */
  function Sections(lines: seq<string>, known: seq<string>): seq<string> {
    if lines == [] then known
    else match KindOf(lines[0])
      case Header(sec) => Sections(lines[1..], if sec in known then known else known + [sec])
      case _ => Sections(lines[1..], known)
  }

  /** The old text so far: lines written, entries written, section being read. */
  datatype State = State(out: seq<string>, log: seq<nat>, cur: string)

  /** The first entry from i on that is still to be written for this key, or |es|. */
  function Find(es: seq<Entry>, log: seq<nat>, sec: string, key: string, i: nat): (r: nat)
    requires i <= |es|
    ensures i <= r <= |es|
    ensures r < |es| ==> r !in log && es[r].sec == sec && es[r].key == key
    ensures forall j | i <= j < r :: j in log || es[j].sec != sec || es[j].key != key
    decreases |es| - i
  {
    if i == |es| || (i !in log && es[i].sec == sec && es[i].key == key) then i
    else Find(es, log, sec, key, i + 1)
  }

  /** The entries from i on that a section still lacks. */
  function Missing(es: seq<Entry>, log: seq<nat>, sec: string, i: nat): (r: seq<nat>)
    requires i <= |es|
    ensures forall k | 0 <= k < |r| :: i <= r[k] < |es| && r[k] !in log && es[r[k]].sec == sec
    ensures forall j | i <= j < |es| && es[j].sec == sec :: j in log || j in r
    ensures forall k, m | 0 <= k < m < |r| :: r[k] < r[m]
    decreases |es| - i
  {
    if i == |es| then []
    else if i !in log && es[i].sec == sec then [i] + Missing(es, log, sec, i + 1)
    else Missing(es, log, sec, i + 1)
  }

  function NewLine(e: Entry): string { e.key + " = " + e.val }

  ghost predicate InRange(es: seq<Entry>, idx: seq<nat>) {
    forall k | 0 <= k < |idx| :: idx[k] < |es|
  }

  function NewLines(es: seq<Entry>, idx: seq<nat>): (r: seq<string>)
    requires InRange(es, idx)
    ensures |r| == |idx|
    ensures forall k | 0 <= k < |idx| :: r[k] == NewLine(es[idx[k]])
  {
    seq(|idx|, k requires 0 <= k < |idx| => NewLine(es[idx[k]]))
  }

  function Spaces(n: nat): (r: string)
    ensures |r| == n
    ensures forall i | 0 <= i < n :: r[i] == ' '
  {
    seq(n, _ => ' ')
  }

  /** Width given to the blanks between a new value and the comment after it. */
  function Padding(line: string, eq: nat, val: string): (n: nat)
    requires eq < CommentAt(line)
    ensures n > 0
  {
    var oldw := CommentAt(line) - (eq + 1);
    var neww := 1 + |val|;
    if oldw > neww then oldw - neww else 2
  }

  /** An old key line carrying a new value. */
  function Rewrite(line: string, eq: nat, val: string): string
    requires eq < CommentAt(line)
  {
    line[..eq + 1] + " " + val +
    if CommentAt(line) == |line| then "" else Spaces(Padding(line, eq, val)) + line[CommentAt(line)..]
  }

  /** The missing entries of section sec written at the end of what is there. */
  function Flush(es: seq<Entry>, s: State, sec: string): State {
    var idx := Missing(es, s.log, sec, 0);
    State(s.out + NewLines(es, idx), s.log + idx, s.cur)
  }

  /** Entries under no section are never flushed while the old text is read. */
  function FlushCurrent(es: seq<Entry>, s: State): State {
    if s.cur == "" then s else Flush(es, s, s.cur)
  }

  function Step(es: seq<Entry>, s: State, line: string): State {
    match KindOf(line)
    case Header(sec) =>
      var f := FlushCurrent(es, s);
      State(f.out + [line], f.log, sec)
    case KeyValue(key, eq) =>
      var i := Find(es, s.log, s.cur, key, 0);
      if i == |es| then s
      else State(s.out + [Rewrite(line, eq, es[i].val)], s.log + [i], s.cur)
    case Other => State(s.out + [line], s.log, s.cur)
  }

  function After(es: seq<Entry>, s: State, lines: seq<string>): State
    decreases |lines|
  {
    if lines == [] then s else After(es, Step(es, s, lines[0]), lines[1..])
  }

  /** The two lines that open a section at the end of the file. */
  function SectionLines(sec: string): seq<string> { ["", "[" + sec + "]"] }

  /** Sections of the new text that the old one lacks, when an entry is left for them. */
  function AddSections(es: seq<Entry>, s: State, secs: seq<string>, prior: seq<string>): State
    decreases |secs|
  {
    if secs == [] then s
    else if HasHeader(prior, secs[0]) || Missing(es, s.log, secs[0], 0) == [] then
      AddSections(es, s, secs[1..], prior)
    else
      AddSections(es, Flush(es, State(s.out + SectionLines(secs[0]), s.log, secs[0]), secs[0]), secs[1..], prior)
  }

  const Start := State([], [], "")

  function MergeLines(es: seq<Entry>, secs: seq<string>, prior: seq<string>): State {
    AddSections(es, FlushCurrent(es, After(es, Start, prior)), secs, prior)
  }

  /** The merged text, or nothing when the new text is over the table bounds. */
  function Merge(oldText: string, newText: string): Option<string> {
    var es := Entries(Lines(newText), "");
    var secs := Sections(Lines(newText), []);
    if |es| > MAX_ENTRIES || |secs| > MAX_SECTIONS then None
    else Some(Unlines(MergeLines(es, secs, Lines(oldText)).out))
  }
}
