/** How the lines that the merge writes are read again. */
module IniLines {
  import opened CText
  import opened IniText
  import opened IniMergeSpec

  predicate PlainChar(c: char) { c != '\n' && c != ';' && c != '#' }

  ghost predicate Plain(s: string) {
    forall i | 0 <= i < |s| :: PlainChar(s[i])
  }

  ghost predicate Without(s: string, c: char) {
    forall i | 0 <= i < |s| :: s[i] != c
  }

  /** What every entry read from a text satisfies, cut or not. */
  ghost predicate Sound(e: Entry) {
    && e.key != "" && !IsBlank(e.key[0])
    && Plain(e.key) && Without(e.key, '=') && |e.key| < KEY_LEN
    && Plain(e.val) && |e.val| < VAL_LEN
    && (e.key[0] == '[' ==> Without(e.key, ']') && Without(e.val, ']'))
  }

  ghost predicate AllSound(es: seq<Entry>) {
    forall i | 0 <= i < |es| :: Sound(es[i])
  }

  /** A section name that reads back as itself between brackets. */
  ghost predicate SoundSection(sec: string) {
    && Without(sec, ']') && OneLine(sec) && |sec| < SEC_LEN && Canonical(sec) == sec
  }

  lemma {:induction false} KeyLineFirst(line: string, key: string, eq: nat)
    requires KindOf(line) == KeyValue(key, eq)
    ensures ParseSection(line) == None
    ensures var f := First(line, 0, eq, NonBlank); f < eq && key[0] == line[f]
  {
    hide ParseSection, CommentAt, Trim, Copy, First;
    CopyTrim(line, 0, eq, KEY_LEN);
  }

  lemma {:induction false} NoSection(line: string, f: nat)
    requires ParseSection(line) == None
    requires f == First(line, 0, |line|, NonBlank) < |line| && line[f] == '['
    ensures forall i | f < i < |line| :: line[i] != ']'
  {
    hide Canonical, Copy, Trim;
    forall i | f < i < |line| ensures line[i] != ']' {
      assert !CloseBracket.At(line[i]);
    }
  }

  /** A line with a key is no section line: an opening bracket there is never closed. */
  lemma {:induction false} KeyLineBrackets(line: string, key: string, eq: nat)
    requires KindOf(line) == KeyValue(key, eq)
    ensures var f := First(line, 0, |line|, NonBlank);
            f < eq && key[0] == line[f] && (key[0] == '[' ==> forall i | f < i < |line| :: line[i] != ']')
  {
    hide *;
    KeyLineFirst(line, key, eq);
    var f := First(line, 0, eq, NonBlank);
    FirstIs(line, 0, |line|, NonBlank, f);
    if key[0] == '[' { NoSection(line, f); }
  }

  lemma {:induction false} KeyLineParts(line: string, key: string, eq: nat)
    requires KindOf(line) == KeyValue(key, eq)
    ensures eq == First(line, 0, CommentAt(line), Equals)
    ensures key == Copy(Trim(line, 0, eq), KEY_LEN)
    ensures forall i | 0 <= i < eq :: line[i] != '='
    ensures ValueAfter(line, eq) == Copy(Trim(line, eq + 1, CommentAt(line)), VAL_LEN)
  {
    assert forall i | 0 <= i < eq :: !Equals.At(line[i]);
  }

  /** The parts above make a key line. */
  lemma {:induction false} KeyLineFromParts(line: string, key: string, eq: nat)
    requires ParseSection(line) == None
    requires eq < CommentAt(line) && eq == First(line, 0, CommentAt(line), Equals)
    requires key == Copy(Trim(line, 0, eq), KEY_LEN) && key != ""
    ensures KindOf(line) == KeyValue(key, eq)
  {
    hide First, CommentAt, Copy, Trim, ParseSection;
  }

  lemma {:induction false} KeySound(line: string, key: string, eq: nat)
    requires OneLine(line) && KindOf(line) == KeyValue(key, eq)
    ensures key != "" && !IsBlank(key[0])
    ensures Plain(key) && Without(key, '=') && |key| < KEY_LEN
    ensures key[0] == '[' ==> Without(key, ']')
  {
    hide KindOf, CommentAt, Trim, Copy;
    KeyLineBrackets(line, key, eq);
    KeyLineParts(line, key, eq);
    CopyTrim(line, 0, eq, KEY_LEN);
    var f := First(line, 0, eq, NonBlank);
    FirstIs(line, 0, |line|, NonBlank, f);
  }

  lemma {:induction false} ValueSound(line: string, key: string, eq: nat)
    requires OneLine(line) && KindOf(line) == KeyValue(key, eq)
    ensures Plain(ValueAfter(line, eq)) && |ValueAfter(line, eq)| < VAL_LEN
    ensures key != "" && key[0] == '[' ==> Without(ValueAfter(line, eq), ']')
  {
    hide KindOf, CommentAt, Trim, Copy, ValueAfter;
    KeyLineBrackets(line, key, eq);
    KeyLineParts(line, key, eq);
    CopyTrim(line, eq + 1, CommentAt(line), VAL_LEN);
  }

  lemma {:induction false} EntrySound(line: string, key: string, eq: nat, cur: string)
    requires OneLine(line) && KindOf(line) == KeyValue(key, eq)
    ensures Sound(Entry(cur, key, ValueAfter(line, eq)))
  {
    hide KindOf, ValueAfter, CommentAt;
    KeySound(line, key, eq);
    ValueSound(line, key, eq);
  }

  lemma {:induction false} EntriesSound(lines: seq<string>, cur: string)
    requires AllOneLine(lines)
    ensures AllSound(Entries(lines, cur))
  {
    hide KindOf, ValueAfter, Sound, OneLine;
    if lines != [] {
      TailOneLine(lines);
      match KindOf(lines[0])
      case Header(sec) => EntriesSound(lines[1..], sec);
      case KeyValue(key, eq) =>
        EntriesSound(lines[1..], cur);
        EntrySound(lines[0], key, eq, cur);
      case Other => EntriesSound(lines[1..], cur);
    }
  }

  /** A line made of a key part, its sign, a value, blanks, then nothing or a comment. */
  ghost predicate Assembled(line: string, pre: string, val: string, pad: nat, comment: string) {
    && |line| == |pre| + 2 + |val| + pad + |comment|
    && line[..|pre|] == pre
    && line[|pre|] == '=' && line[|pre| + 1] == ' '
    && line[|pre| + 2..|pre| + 2 + |val|] == val
    && (forall i | |pre| + 2 + |val| <= i < |pre| + 2 + |val| + pad :: line[i] == ' ')
    && line[|pre| + 2 + |val| + pad..] == comment
  }

  lemma {:induction false} AssembledChars(line: string, pre: string, val: string, pad: nat, comment: string)
    requires Assembled(line, pre, val, pad, comment)
    ensures forall i | 0 <= i < |pre| :: line[i] == pre[i]
    ensures forall i | |pre| + 2 <= i < |pre| + 2 + |val| :: line[i] == val[i - |pre| - 2]
    ensures line[|pre|] == '=' && line[|pre| + 1] == ' '
    ensures forall i | |pre| + 2 + |val| <= i < |pre| + 2 + |val| + pad :: line[i] == ' '
    ensures |line| == |pre| + 2 + |val| + pad + |comment|
    ensures forall i | |pre| + 2 + |val| + pad <= i < |line| :: line[i] == comment[i - (|pre| + 2 + |val| + pad)]
  {
    var c := |pre| + 2 + |val| + pad;
    assert forall i | 0 <= i < |pre| :: line[..|pre|][i] == line[i];
    assert forall i | |pre| + 2 <= i < |pre| + 2 + |val| :: line[|pre| + 2..|pre| + 2 + |val|][i - |pre| - 2] == line[i];
    assert forall i | c <= i < |line| :: line[c..][i - c] == line[i];
  }

  lemma {:induction false} AssembledComment(line: string, pre: string, val: string, pad: nat, comment: string)
    requires Assembled(line, pre, val, pad, comment)
    requires Plain(pre) && Plain(val)
    requires comment == "" || CommentStart.At(comment[0])
    ensures CommentAt(line) == |pre| + 2 + |val| + pad
    ensures Without(pre, '=') ==> First(line, 0, CommentAt(line), Equals) == |pre|
  {
    var c := |pre| + 2 + |val| + pad;
    AssembledChars(line, pre, val, pad, comment);
    forall i | 0 <= i < c ensures !CommentStart.At(line[i]) {
      assert i < |pre| ==> PlainChar(pre[i]);
      assert |pre| + 2 <= i < |pre| + 2 + |val| ==> PlainChar(val[i - |pre| - 2]);
    }
    FirstIs(line, 0, |line|, CommentStart, c);
    if Without(pre, '=') {
      FirstIs(line, 0, c, Equals, |pre|);
    }
  }

  lemma {:induction false} AssembledNoSection(line: string, pre: string, val: string, pad: nat, comment: string)
    requires Assembled(line, pre, val, pad, comment)
    requires First(pre, 0, |pre|, NonBlank) < |pre|
    requires pre[First(pre, 0, |pre|, NonBlank)] == '[' ==>
               Without(pre, ']') && Without(val, ']') && Without(comment, ']')
    ensures ParseSection(line) == None
  {
    hide Canonical, Trim, Copy, First;
    AssembledChars(line, pre, val, pad, comment);
    var f := First(pre, 0, |pre|, NonBlank);
    FirstIs(line, 0, |line|, NonBlank, f);
    if line[f] == '[' {
      AssembledWithout(line, pre, val, pad, comment, ']');
      FirstIs(line, f + 1, |line|, CloseBracket, |line|);
    }
  }

  lemma {:induction false} AssembledWithout(line: string, pre: string, val: string, pad: nat, comment: string, c: char)
    requires Assembled(line, pre, val, pad, comment)
    requires Without(pre, c) && Without(val, c) && Without(comment, c) && c != '=' && c != ' '
    ensures Without(line, c)
  {
    AssembledChars(line, pre, val, pad, comment);
    hide Assembled;
    var n := |pre| + 2 + |val| + pad;
    forall i | 0 <= i < |line| ensures line[i] != c {
      assert i < |pre| ==> pre[i] != c;
      assert |pre| + 2 <= i < |pre| + 2 + |val| ==> val[i - |pre| - 2] != c;
      assert n <= i ==> comment[i - n] != c;
    }
  }

  /** How an assembled line is read. */
  lemma {:induction false} AssembledRead(line: string, pre: string, key: string, val: string, pad: nat, comment: string)
    requires Assembled(line, pre, val, pad, comment)
    requires Plain(pre) && Without(pre, '=') && Plain(val)
    requires comment == "" || CommentStart.At(comment[0])
    requires key == Copy(Trim(pre, 0, |pre|), KEY_LEN) && key != ""
    requires key[0] == '[' ==> Without(pre, ']') && Without(val, ']') && Without(comment, ']')
    ensures KindOf(line) == KeyValue(key, |pre|)
    ensures CommentAt(line) == |pre| + 2 + |val| + pad
  {
    hide KindOf, CommentAt, Trim, Copy, ParseSection, Plain, Without;
    AssembledComment(line, pre, val, pad, comment);
    CopyTrim(pre, 0, |pre|, KEY_LEN);
    AssembledNoSection(line, pre, val, pad, comment);
    assert line[..|pre|] == pre[..|pre|];
    TrimSame(line, pre, |pre|);
    KeyLineFromParts(line, key, |pre|);
  }

  lemma {:induction false} AssembledValue(line: string, pre: string, val: string, pad: nat, comment: string)
    requires Assembled(line, pre, val, pad, comment)
    requires CommentAt(line) == |pre| + 2 + |val| + pad
    requires Trimmed(val) && |val| < VAL_LEN
    ensures ValueAfter(line, |pre|) == val
  {
    hide CommentAt, Trim;
    TrimIs(line, |pre| + 1, CommentAt(line), |pre| + 2, |pre| + 2 + |val|);
  }

  lemma {:induction false} RewriteAssembled(line: string, eq: nat, val: string)
    requires eq < CommentAt(line) && line[eq] == '='
    ensures var c := CommentAt(line);
            Assembled(Rewrite(line, eq, val), line[..eq], val,
                      if c == |line| then 0 else Padding(line, eq, val), line[c..])
  {
    var c := CommentAt(line);
    var r := Rewrite(line, eq, val);
    assert line[..eq + 1] == line[..eq] + "=";
    if c == |line| {
      assert r == line[..eq] + "=" + " " + val;
    } else {
      assert r == line[..eq] + "=" + " " + val + Spaces(Padding(line, eq, val)) + line[c..];
    }
  }

  /** Assembled lines with the same parts are the same line. */
  lemma {:induction false} AssembledUnique(a: string, b: string, pre: string, val: string, pad: nat, comment: string)
    requires Assembled(a, pre, val, pad, comment) && Assembled(b, pre, val, pad, comment)
    ensures a == b
  {
    AssembledChars(a, pre, val, pad, comment);
    AssembledChars(b, pre, val, pad, comment);
    forall i | 0 <= i < |a| ensures a[i] == b[i] { }
  }

  /** The parts of a rewritten line. */
  lemma {:induction false} RewriteParts(line: string, key: string, eq: nat, e: Entry)
    requires OneLine(line) && KindOf(line) == KeyValue(key, eq)
    requires Sound(e) && e.key == key
    ensures var r, c := Rewrite(line, eq, e.val), CommentAt(line);
            var pad := if c == |line| then 0 else Padding(line, eq, e.val);
            && Assembled(r, line[..eq], e.val, pad, line[c..])
            && KindOf(r) == KeyValue(key, eq)
            && CommentAt(r) == eq + 2 + |e.val| + pad
  {
    hide KindOf, CommentAt, Rewrite, Trim, Copy, First, Assembled;
    var c := CommentAt(line);
    var pre, comment := line[..eq], line[c..];
    var pad := if c == |line| then 0 else Padding(line, eq, e.val);
    RewriteAssembled(line, eq, e.val);
    KeyLineParts(line, key, eq);
    KeyLineBrackets(line, key, eq);
    TrimSame(line, pre, eq);
    AssembledRead(Rewrite(line, eq, e.val), pre, key, e.val, pad, comment);
  }

  /** A rewritten line is read under the same key and is rewritten to itself. */
  lemma {:induction false} RewriteRead(line: string, key: string, eq: nat, e: Entry)
    requires OneLine(line) && KindOf(line) == KeyValue(key, eq)
    requires Sound(e) && e.key == key
    ensures KindOf(Rewrite(line, eq, e.val)) == KeyValue(key, eq)
    ensures Trimmed(e.val) ==> ValueAfter(Rewrite(line, eq, e.val), eq) == e.val
    ensures Rewrite(Rewrite(line, eq, e.val), eq, e.val) == Rewrite(line, eq, e.val)
    ensures OneLine(Rewrite(line, eq, e.val))
  {
    hide KindOf, ValueAfter, CommentAt, Rewrite, Assembled;
    var c := CommentAt(line);
    var pre, comment := line[..eq], line[c..];
    var pad := if c == |line| then 0 else Padding(line, eq, e.val);
    var r := Rewrite(line, eq, e.val);
    RewriteParts(line, key, eq, e);
    if Trimmed(e.val) { AssembledValue(r, pre, e.val, pad, comment); }
    RewriteOneLine(line, r, pre, e.val, pad, comment);
    RewriteAgain(line, eq, e.val);
  }

  lemma {:induction false} RewriteOneLine(line: string, r: string, pre: string, val: string, pad: nat, comment: string)
    requires Assembled(r, pre, val, pad, comment)
    requires OneLine(pre) && OneLine(comment) && Plain(val)
    ensures OneLine(r)
  {
    AssembledChars(r, pre, val, pad, comment);
    assert forall i | 0 <= i < |val| :: PlainChar(val[i]);
  }

  lemma {:induction false} RewriteAgain(line: string, eq: nat, val: string)
    requires eq < CommentAt(line) && line[eq] == '='
    requires eq < CommentAt(Rewrite(line, eq, val))
    requires CommentAt(Rewrite(line, eq, val)) ==
             eq + 2 + |val| + if CommentAt(line) == |line| then 0 else Padding(line, eq, val)
    ensures Rewrite(Rewrite(line, eq, val), eq, val) == Rewrite(line, eq, val)
  {
    hide CommentAt, Rewrite;
    var c := CommentAt(line);
    var pad := if c == |line| then 0 else Padding(line, eq, val);
    var r := Rewrite(line, eq, val);
    RewriteAssembled(line, eq, val);
    assert r[..eq] == line[..eq];
    assert r[CommentAt(r)..] == line[c..];
    RewriteAssembled(r, eq, val);
    AssembledUnique(r, Rewrite(r, eq, val), line[..eq], val, pad, line[c..]);
  }

  lemma {:induction false} NewLineAssembled(e: Entry)
    ensures Assembled(NewLine(e), e.key + " ", e.val, 0, "")
  {
    assert NewLine(e) == (e.key + " ") + "=" + " " + e.val;
  }

  /** An appended "key = value" line is read as its entry and is rewritten to itself. */
  lemma {:induction false} NewLineRead(e: Entry)
    requires Sound(e) && Trimmed(e.key)
    ensures KindOf(NewLine(e)) == KeyValue(e.key, |e.key| + 1)
    ensures Trimmed(e.val) ==> ValueAfter(NewLine(e), |e.key| + 1) == e.val
    ensures Rewrite(NewLine(e), |e.key| + 1, e.val) == NewLine(e)
    ensures OneLine(NewLine(e))
  {
    hide KindOf, ValueAfter, CommentAt, Rewrite, Trim, First;
    var pre := e.key + " ";
    var l := NewLine(e);
    assert pre[0..|e.key|] == e.key;
    TrimIs(pre, 0, |pre|, 0, |e.key|);
    NewLineAssembled(e);
    hide Assembled, Copy;
    AssembledRead(l, pre, e.key, e.val, 0, "");
    if Trimmed(e.val) { AssembledValue(l, pre, e.val, 0, ""); }
    AssembledChars(l, pre, e.val, 0, "");
    RewriteAssembled(l, |pre|, e.val);
    assert l[..|pre|] == pre && l[|l|..] == "";
    AssembledUnique(l, Rewrite(l, |pre|, e.val), pre, e.val, 0, "");
  }

  lemma {:induction false} SectionLinesRead(sec: string)
    requires SoundSection(sec) && Trimmed(sec)
    ensures KindOf("") == Other
    ensures KindOf("[" + sec + "]") == Header(sec)
    ensures OneLine("") && OneLine("[" + sec + "]")
  {
    var l := "[" + sec + "]";
    assert ParseSection(l) == Some(sec) by {
      hide Canonical, Trim, First;
      FirstIs(l, 0, |l|, NonBlank, 0);
      assert forall i | 1 <= i < 1 + |sec| :: l[i] == sec[i - 1];
      FirstIs(l, 1, |l|, CloseBracket, 1 + |sec|);
      assert l[1..1 + |sec|] == sec;
      TrimIs(l, 1, 1 + |sec|, 1, 1 + |sec|);
    }
    hide Canonical, Trim, Copy;
  }
}
