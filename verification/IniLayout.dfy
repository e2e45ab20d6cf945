/** The merge keeps the layout of the old text, and merging the same new text
    again changes nothing. */
module IniLayout {
  import opened CText
  import opened IniText
  import opened IniMergeSpec
  import opened IniLines
  import opened IniMeaning
  import opened IniMeaningTheorem

  // ----- one rewritten line

  /** Only the value changes; the comment keeps its column when the new value
      is shorter than what stood between the sign and the comment. */
  lemma {:induction false} RewriteKeepsLayout(line: string, key: string, eq: nat, e: Entry)
    requires OneLine(line) && KindOf(line) == KeyValue(key, eq)
    requires Sound(e) && e.key == key
    ensures var r, c := Rewrite(line, eq, e.val), CommentAt(line);
            && eq < CommentAt(r)
            && r[..eq + 1] == line[..eq + 1]
            && r[CommentAt(r)..] == line[c..]
            && r[eq + 2..eq + 2 + |e.val|] == e.val
            && (c < |line| && 1 + |e.val| < c - (eq + 1) ==> CommentAt(r) == c)
            && (c < |line| && 1 + |e.val| >= c - (eq + 1) ==> CommentAt(r) == eq + 1 + 1 + |e.val| + 2)
  {
    hide KindOf, CommentAt, Rewrite, Sound;
    var c := CommentAt(line);
    var pre, comment := line[..eq], line[c..];
    var pad := if c == |line| then 0 else Padding(line, eq, e.val);
    var r := Rewrite(line, eq, e.val);
    RewriteAssembled(line, eq, e.val);
    RewriteParts(line, key, eq, e);
    assert r[..eq + 1] == pre + "=" == line[..eq + 1];
  }

  // ----- lines that are no key lines

  /** The lines of a text that carry no key: sections, comments, blank lines, anything not understood. */
  function Frame(lines: seq<string>): seq<string> {
    if lines == [] then []
    else (if KindOf(lines[0]).KeyValue? then [] else [lines[0]]) + Frame(lines[1..])
  }

  /** The lines that open the given sections. */
  function Openers(secs: seq<string>): seq<string> {
    if secs == [] then [] else SectionLines(secs[0]) + Openers(secs[1..])
  }

  lemma {:induction false} FrameAppend(a: seq<string>, b: seq<string>)
    ensures Frame(a + b) == Frame(a) + Frame(b)
  {
    hide KindOf;
    if a == [] {
      assert a + b == b;
    } else {
      assert (a + b)[0] == a[0] && (a + b)[1..] == a[1..] + b;
      FrameAppend(a[1..], b);
    }
  }

  lemma {:induction false} FrameOne(line: string)
    ensures Frame([line]) == if KindOf(line).KeyValue? then [] else [line]
  {
    hide KindOf;
    assert Frame([]) == [];
  }

  lemma FrameNone()
    ensures Frame([]) == []
  {
  }

  lemma {:induction false} FrameNewLines(es: seq<Entry>, idx: seq<nat>)
    requires InRange(es, idx) && AllSound(es)
    requires forall k | 0 <= k < |idx| :: Trimmed(es[idx[k]].key)
    ensures Frame(NewLines(es, idx)) == []
  {
    hide KindOf, NewLine, Sound;
    if idx != [] {
      NewLineRead(es[idx[0]]);
      FrameNewLines(es, idx[1..]);
      NewLinesCons(es, idx);
      FrameOne(NewLine(es[idx[0]]));
      FrameAppend([NewLine(es[idx[0]])], NewLines(es, idx[1..]));
    } else {
      assert NewLines(es, idx) == [];
    }
  }

  lemma {:induction false} FlushFrame(es: seq<Entry>, s: State, sec: string)
    requires AllSound(es) && NamesReadable(es, [])
    ensures Frame(Flush(es, s, sec).out) == Frame(s.out)
  {
    hide KindOf, NewLine, Sound, Frame;
    var idx := Missing(es, s.log, sec, 0);
    FrameNewLines(es, idx);
    FrameAppend(s.out, NewLines(es, idx));
  }

  lemma {:induction false} StepFrame(es: seq<Entry>, s: State, line: string)
    requires OneLine(line) && AllSound(es) && NamesReadable(es, [])
    ensures Frame(Step(es, s, line).out) == Frame(s.out) + Frame([line])
  {
    hide KindOf, NewLine, Rewrite, Sound, Frame, Flush, OneLine;
    FrameOne(line);
    match KindOf(line) {
      case Header(sec) =>
        if s.cur != "" { FlushFrame(es, s, s.cur); }
        FrameAppend(FlushCurrent(es, s).out, [line]);
      case KeyValue(key, eq) =>
        var i := Find(es, s.log, s.cur, key, 0);
        if i < |es| {
          RewriteRead(line, key, eq, es[i]);
          FrameOne(Rewrite(line, eq, es[i].val));
          FrameAppend(s.out, [Rewrite(line, eq, es[i].val)]);
        }
      case Other =>
        FrameAppend(s.out, [line]);
    }
  }

  lemma {:induction false} AfterFrame(es: seq<Entry>, s: State, lines: seq<string>)
    requires AllOneLine(lines) && AllSound(es) && NamesReadable(es, [])
    ensures Frame(After(es, s, lines).out) == Frame(s.out) + Frame(lines)
    decreases |lines|
  {
    hide Step, KindOf, Sound, OneLine;
    if lines != [] {
      TailOneLine(lines);
      StepFrame(es, s, lines[0]);
      AfterFrame(es, Step(es, s, lines[0]), lines[1..]);
      FrameAppend([lines[0]], lines[1..]);
      assert lines == [lines[0]] + lines[1..];
    }
  }

  lemma {:induction false} AddSectionsFrame(es: seq<Entry>, s: State, secs: seq<string>, prior: seq<string>)
    returns (added: seq<string>)
    requires AllSoundSections(secs) && AllSound(es) && NamesReadable(es, secs)
    ensures Frame(AddSections(es, s, secs, prior).out) == Frame(s.out) + Openers(added)
    ensures forall i | 0 <= i < |added| :: added[i] in secs && !HasHeader(prior, added[i])
    decreases |secs|
  {
    hide KindOf, NewLine, Sound, SoundSection, HasHeader, Flush, Frame;
    if secs == [] {
      added := [];
    } else if HasHeader(prior, secs[0]) || Missing(es, s.log, secs[0], 0) == [] {
      added := AddSectionsFrame(es, s, secs[1..], prior);
    } else {
      var t := State(s.out + SectionLines(secs[0]), s.log, secs[0]);
      SectionLinesRead(secs[0]);
      FrameOne("");
      FrameOne("[" + secs[0] + "]");
      FrameAppend([""], ["[" + secs[0] + "]"]);
      assert SectionLines(secs[0]) == [""] + ["[" + secs[0] + "]"];
      FrameAppend(s.out, SectionLines(secs[0]));
      FlushFrame(es, t, secs[0]);
      var more := AddSectionsFrame(es, Flush(es, t, secs[0]), secs[1..], prior);
      added := [secs[0]] + more;
    }
  }

  /** Every line of the old text that carries no key stands in the merged text,
      as it is and in order; the only others there open sections the old text lacks. */
  lemma {:induction false} MergeKeepsFrame(oldText: string, newText: string) returns (added: seq<string>)
    requires Merge(oldText, newText).Some?
    requires NamesReadable(Entries(Lines(newText), ""), Sections(Lines(newText), []))
    ensures Frame(Lines(Merge(oldText, newText).value)) == Frame(Lines(oldText)) + Openers(added)
    ensures forall i | 0 <= i < |added| ::
              added[i] in Sections(Lines(newText), []) && !HasHeader(Lines(oldText), added[i])
  {
    hide Lines, Entries, Sections, Frame, After, AddSections, Flush, Unlines, HasHeader;
    var lines, prior := Lines(newText), Lines(oldText);
    var es, secs := Entries(lines, ""), Sections(lines, []);
    LinesAreOneLine(newText);
    LinesAreOneLine(oldText);
    EntriesSound(lines, "");
    SectionsSound(lines, []);
    FrameNone();
    AfterFrame(es, Start, prior);
    var a := After(es, Start, prior);
    if a.cur != "" { FlushFrame(es, a, a.cur); }
    added := AddSectionsFrame(es, FlushCurrent(es, a), secs, prior);
    MergeOneLine(es, secs, prior);
    LinesUnlines(MergeLines(es, secs, prior).out);
  }

  // ----- the merged lines hold no line feed

  lemma {:induction false} FlushOneLine(es: seq<Entry>, s: State, sec: string)
    requires AllSound(es) && NamesReadable(es, []) && AllOneLine(s.out)
    ensures AllOneLine(Flush(es, s, sec).out)
  {
    hide Sound, KindOf;
    var idx := Missing(es, s.log, sec, 0);
    forall k | 0 <= k < |idx| ensures OneLine(NewLines(es, idx)[k]) {
      NewLineRead(es[idx[k]]);
    }
  }

  lemma {:induction false} AfterOneLine(es: seq<Entry>, s: State, lines: seq<string>)
    requires AllSound(es) && NamesReadable(es, []) && AllOneLine(s.out) && AllOneLine(lines)
    ensures AllOneLine(After(es, s, lines).out)
    decreases |lines|
  {
    hide Sound, KindOf, Rewrite, OneLine, Flush;
    if lines != [] {
      TailOneLine(lines);
      if s.cur != "" { FlushOneLine(es, s, s.cur); }
      if KindOf(lines[0]).KeyValue? {
        var i := Find(es, s.log, s.cur, KindOf(lines[0]).key, 0);
        if i < |es| { RewriteRead(lines[0], KindOf(lines[0]).key, KindOf(lines[0]).eq, es[i]); }
      }
      AfterOneLine(es, Step(es, s, lines[0]), lines[1..]);
    }
  }

  lemma {:induction false} AddSectionsOneLine(es: seq<Entry>, s: State, secs: seq<string>, prior: seq<string>)
    requires AllSound(es) && NamesReadable(es, secs) && AllOneLine(s.out) && AllSoundSections(secs)
    ensures AllOneLine(AddSections(es, s, secs, prior).out)
    decreases |secs|
  {
    hide Sound, KindOf, OneLine, Flush, SoundSection, HasHeader;
    if secs != [] {
      if HasHeader(prior, secs[0]) || Missing(es, s.log, secs[0], 0) == [] {
        AddSectionsOneLine(es, s, secs[1..], prior);
      } else {
        SectionLinesRead(secs[0]);
        var t := State(s.out + SectionLines(secs[0]), s.log, secs[0]);
        FlushOneLine(es, t, secs[0]);
        AddSectionsOneLine(es, Flush(es, t, secs[0]), secs[1..], prior);
      }
    }
  }

  lemma {:induction false} MergeOneLine(es: seq<Entry>, secs: seq<string>, prior: seq<string>)
    requires AllSound(es) && NamesReadable(es, secs) && AllSoundSections(secs) && AllOneLine(prior)
    ensures AllOneLine(MergeLines(es, secs, prior).out)
  {
    hide Sound, KindOf, OneLine, Flush, After, AddSections, SoundSection;
    AfterOneLine(es, Start, prior);
    var a := After(es, Start, prior);
    if a.cur != "" { FlushOneLine(es, a, a.cur); }
    AddSectionsOneLine(es, FlushCurrent(es, a), secs, prior);
  }
}
