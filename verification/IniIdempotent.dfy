/** Merging the same new text into its own result changes nothing. */
module IniIdempotent {
  import opened CText
  import opened IniText
  import opened IniMergeSpec
  import opened IniLines
  import opened IniMeaning
  import opened IniMeaningTheorem
  import opened IniLayout

  /** Reading the lines written so far as an old text leads to where they were written. */
  ghost predicate Replays(es: seq<Entry>, s: State) {
    After(es, Start, s.out) == s
  }

  lemma {:induction false} AfterAppend(es: seq<Entry>, s: State, a: seq<string>, b: seq<string>)
    ensures After(es, s, a + b) == After(es, After(es, s, a), b)
    decreases |a|
  {
    hide Step;
    if a == [] {
      assert a + b == b;
    } else {
      assert (a + b)[0] == a[0] && (a + b)[1..] == a[1..] + b;
      AfterAppend(es, Step(es, s, a[0]), a[1..], b);
    }
  }

  lemma {:induction false} AfterOne(es: seq<Entry>, s: State, line: string)
    ensures After(es, s, [line]) == Step(es, s, line)
  {
    hide Step;
    assert After(es, Step(es, s, line), []) == Step(es, s, line);
  }

  /** Writing the first missing entry leaves the others missing. */
  lemma {:induction false} MissingTail(es: seq<Entry>, log: seq<nat>, sec: string, i: nat)
    requires i <= |es| && Missing(es, log, sec, i) != []
    ensures var m := Missing(es, log, sec, i); Missing(es, log + [m[0]], sec, i) == m[1..]
    decreases |es| - i
  {
    var m := Missing(es, log, sec, i);
    if i !in log && es[i].sec == sec {
      assert i in log + [i];
      MissingLater(es, log, sec, i, i + 1);
    } else {
      MissingTail(es, log, sec, i + 1);
      assert m[0] > i;
      assert (i in log + [m[0]]) == (i in log);
    }
  }

  lemma {:induction false} FirstMissingFound(es: seq<Entry>, log: seq<nat>, sec: string)
    requires Missing(es, log, sec, 0) != []
    ensures var i := Missing(es, log, sec, 0)[0]; Find(es, log, sec, es[i].key, 0) == i
  {
    var m := Missing(es, log, sec, 0);
    var f := Find(es, log, sec, es[m[0]].key, 0);
    if f < m[0] {
      assert false;
    }
  }

  /** Flushed lines, read again, write the same entries in the same order. */
  lemma {:induction false} NewLinesReplay(es: seq<Entry>, s: State, idx: seq<nat>)
    requires InRange(es, idx) && idx == Missing(es, s.log, s.cur, 0)
    requires AllSound(es) && NamesReadable(es, [])
    ensures After(es, s, NewLines(es, idx)) == Written(s, NewLines(es, idx), idx)
    decreases |idx|
  {
    hide KindOf, NewLine, Rewrite, Sound, Step, Missing, After, NewLines, Find;
    if idx == [] {
      NoNewLines(es, s, idx);
    } else {
      var i, line, more := idx[0], NewLine(es[idx[0]]), idx[1..];
      FirstMissingFound(es, s.log, s.cur);
      StepNewLine(es, s, i);
      MissingTail(es, s.log, s.cur, 0);
      NewLinesReplay(es, Written(s, [line], [i]), more);
      NewLinesCons(es, idx);
      AfterAppend(es, s, [line], NewLines(es, more));
      AfterOne(es, s, line);
      WrittenTwice(s, [line], NewLines(es, more), [i], more);
      assert [i] + more == idx;
    }
  }

  function Written(s: State, lines: seq<string>, idx: seq<nat>): State {
    State(s.out + lines, s.log + idx, s.cur)
  }

  lemma {:induction false} WrittenTwice(s: State, a: seq<string>, b: seq<string>, i: seq<nat>, j: seq<nat>)
    ensures Written(Written(s, a, i), b, j) == Written(s, a + b, i + j)
  {
    assert s.out + a + b == s.out + (a + b) && s.log + i + j == s.log + (i + j);
  }

  lemma {:induction false} NoNewLines(es: seq<Entry>, s: State, idx: seq<nat>)
    requires idx == []
    ensures NewLines(es, idx) == []
    ensures After(es, s, NewLines(es, idx)) == Written(s, NewLines(es, idx), idx) == s
  {
    hide Step;
    assert s.out + [] == s.out && s.log + [] == s.log;
    assert After(es, s, []) == s;
  }

  lemma {:induction false} StepNewLine(es: seq<Entry>, s: State, i: nat)
    requires i < |es| && Sound(es[i]) && Trimmed(es[i].key)
    requires Find(es, s.log, s.cur, es[i].key, 0) == i
    ensures Step(es, s, NewLine(es[i])) == Written(s, [NewLine(es[i])], [i])
  {
    hide KindOf, NewLine, Rewrite, Sound, Find;
    NewLineRead(es[i]);
  }

  lemma {:induction false} FlushReplays(es: seq<Entry>, s: State)
    requires Replays(es, s) && AllSound(es) && NamesReadable(es, [])
    ensures Replays(es, Flush(es, s, s.cur))
  {
    hide Step, Sound, NewLine, After;
    var idx := Missing(es, s.log, s.cur, 0);
    NewLinesReplay(es, s, idx);
    AfterAppend(es, Start, s.out, NewLines(es, idx));
  }

  lemma {:induction false} NoneMissing(es: seq<Entry>, log: seq<nat>, sec: string, i: nat)
    requires i <= |es| && Closed(es, log, sec)
    ensures Missing(es, log, sec, i) == []
    decreases |es| - i
  {
    if i < |es| {
      NoneMissing(es, log, sec, i + 1);
    }
  }

  /** Nothing is flushed when nothing is missing. */
  lemma {:induction false} FlushIdle(es: seq<Entry>, s: State, sec: string)
    requires Closed(es, s.log, sec)
    ensures Flush(es, s, sec) == s
  {
    hide NewLine;
    NoneMissing(es, s.log, sec, 0);
    assert NewLines(es, []) == [];
    assert s.out + [] == s.out && s.log + [] == s.log;
  }

  lemma {:induction false} StepReplays(es: seq<Entry>, s: State, line: string)
    requires Replays(es, s) && OneLine(line) && AllSound(es) && NamesReadable(es, [])
    ensures Replays(es, Step(es, s, line))
  {
    hide KindOf, NewLine, Rewrite, Sound, OneLine, After, Flush, Find;
    var t := Step(es, s, line);
    match KindOf(line) {
      case Header(sec) =>
        var f := FlushCurrent(es, s);
        if s.cur != "" {
          FlushReplays(es, s);
          FlushCloses(es, s, s.cur);
          FlushKeeps(es, s, s.cur);
          FlushIdle(es, f, f.cur);
        }
        AfterAppend(es, Start, f.out, [line]);
        AfterOne(es, f, line);
      case KeyValue(key, eq) =>
        var i := Find(es, s.log, s.cur, key, 0);
        if i < |es| {
          var r := Rewrite(line, eq, es[i].val);
          RewriteRead(line, key, eq, es[i]);
          AfterAppend(es, Start, s.out, [r]);
          AfterOne(es, s, r);
        }
      case Other =>
        AfterAppend(es, Start, s.out, [line]);
        AfterOne(es, s, line);
    }
  }

  lemma FlushKeeps(es: seq<Entry>, s: State, sec: string)
    ensures Flush(es, s, sec).cur == s.cur
    ensures s.out <= Flush(es, s, sec).out && s.log <= Flush(es, s, sec).log
  {
  }

  lemma {:induction false} AfterReplays(es: seq<Entry>, s: State, lines: seq<string>)
    requires Replays(es, s) && AllOneLine(lines) && AllSound(es) && NamesReadable(es, [])
    ensures Replays(es, After(es, s, lines))
    decreases |lines|
  {
    hide Step, Sound, OneLine, Replays;
    if lines != [] {
      TailOneLine(lines);
      StepReplays(es, s, lines[0]);
      AfterReplays(es, Step(es, s, lines[0]), lines[1..]);
    }
  }

  /** Nothing is missing from the section that the lines end under. */
  ghost predicate Settled(es: seq<Entry>, s: State) {
    s.cur != "" ==> Closed(es, s.log, s.cur)
  }

  lemma {:induction false} OpenReplays(es: seq<Entry>, s: State, sec: string)
    requires Replays(es, s) && Settled(es, s) && SoundSection(sec) && Trimmed(sec)
    ensures Replays(es, State(s.out + SectionLines(sec), s.log, sec))
  {
    hide KindOf, Flush, After, Closed, SoundSection;
    SectionLinesRead(sec);
    var header := "[" + sec + "]";
    var b := State(s.out + [""], s.log, s.cur);
    AfterAppend(es, Start, s.out, [""]);
    AfterOne(es, s, "");
    if s.cur != "" { FlushIdle(es, b, b.cur); }
    AfterAppend(es, Start, b.out, [header]);
    AfterOne(es, b, header);
    assert s.out + [""] + [header] == s.out + SectionLines(sec);
  }

  lemma {:induction false} AddSectionsReplays(es: seq<Entry>, s: State, secs: seq<string>, prior: seq<string>)
    requires Replays(es, s) && Settled(es, s)
    requires AllSound(es) && NamesReadable(es, secs) && AllSoundSections(secs)
    ensures var t := AddSections(es, s, secs, prior); Replays(es, t) && Settled(es, t) && s.out <= t.out
    decreases |secs|
  {
    hide Flush, Replays, Sound, SoundSection, HasHeader, Closed;
    if secs != [] {
      if HasHeader(prior, secs[0]) || Missing(es, s.log, secs[0], 0) == [] {
        AddSectionsReplays(es, s, secs[1..], prior);
      } else {
        var t := State(s.out + SectionLines(secs[0]), s.log, secs[0]);
        OpenReplays(es, s, secs[0]);
        FlushReplays(es, t);
        FlushCloses(es, t, secs[0]);
        FlushKeeps(es, t, secs[0]);
        AddSectionsReplays(es, Flush(es, t, secs[0]), secs[1..], prior);
      }
    }
  }

  lemma {:induction false} HeaderGrows(a: seq<string>, b: seq<string>, sec: string)
    requires a <= b && HasHeader(a, sec)
    ensures HasHeader(b, sec)
  {
    hide KindOf;
    var i :| 0 <= i < |a| && KindOf(a[i]) == Header(sec);
    assert b[i] == a[i];
  }

  /** Section lines are kept. */
  lemma {:induction false} AfterHeaders(es: seq<Entry>, s: State, lines: seq<string>, sec: string)
    requires HasHeader(s.out, sec) || HasHeader(lines, sec)
    ensures HasHeader(After(es, s, lines).out, sec)
    decreases |lines|
  {
    hide KindOf, Flush, Rewrite, Find;
    if lines != [] {
      FlushKeeps(es, s, s.cur);
      var t := Step(es, s, lines[0]);
      assert s.out <= t.out;
      HeaderCons(lines, sec);
      if KindOf(lines[0]) == Header(sec) {
        assert KindOf(t.out[|t.out| - 1]) == Header(sec);
      } else if HasHeader(s.out, sec) {
        HeaderGrows(s.out, t.out, sec);
      }
      AfterHeaders(es, t, lines[1..], sec);
    }
  }

  lemma {:induction false} AddSectionsIdle(es: seq<Entry>, s: State, secs: seq<string>, prior: seq<string>)
    requires forall i | 0 <= i < |secs| :: HasHeader(prior, secs[i]) || Closed(es, s.log, secs[i])
    ensures AddSections(es, s, secs, prior) == s
    decreases |secs|
  {
    hide HasHeader, Flush;
    if secs != [] {
      if !HasHeader(prior, secs[0]) { NoneMissing(es, s.log, secs[0], 0); }
      AddSectionsIdle(es, s, secs[1..], prior);
    }
  }

  lemma {:induction false} MergeLinesAgain(es: seq<Entry>, secs: seq<string>, prior: seq<string>)
    requires AllSound(es) && NamesReadable(es, secs) && AllSoundSections(secs) && AllOneLine(prior)
    ensures MergeLines(es, secs, MergeLines(es, secs, prior).out) == MergeLines(es, secs, prior)
  {
    hide After, AddSections, Flush, HasHeader, Closed, Sound, SoundSection, OneLine;
    var a := After(es, Start, prior);
    assert Replays(es, Start) by { AfterStart(es); }
    AfterReplays(es, Start, prior);
    var f := FlushCurrent(es, a);
    if a.cur != "" {
      FlushReplays(es, a);
      FlushCloses(es, a, a.cur);
      FlushKeeps(es, a, a.cur);
    }
    AddSectionsReplays(es, f, secs, prior);
    var t := MergeLines(es, secs, prior);
    forall i | 0 <= i < |secs| ensures HasHeader(t.out, secs[i]) || Closed(es, t.log, secs[i]) {
      if HasHeader(prior, secs[i]) {
        AfterHeaders(es, Start, prior, secs[i]);
        HeaderGrows(a.out, t.out, secs[i]);
      } else {
        AddSectionsCloses(es, f, secs, prior, secs[i]);
      }
    }
    if t.cur != "" { FlushIdle(es, t, t.cur); }
    AddSectionsIdle(es, t, secs, t.out);
  }

  lemma AfterStart(es: seq<Entry>)
    ensures After(es, Start, []) == Start
  {
  }

  /** Merging the same new text a second time returns the first result. */
  lemma {:induction false} MergeIsIdempotent(oldText: string, newText: string)
    requires Merge(oldText, newText).Some?
    requires NamesReadable(Entries(Lines(newText), ""), Sections(Lines(newText), []))
    ensures Merge(Merge(oldText, newText).value, newText) == Merge(oldText, newText)
  {
    hide Lines, Entries, Sections, MergeLines, Unlines;
    var lines, prior := Lines(newText), Lines(oldText);
    var es, secs := Entries(lines, ""), Sections(lines, []);
    LinesAreOneLine(newText);
    LinesAreOneLine(oldText);
    EntriesSound(lines, "");
    SectionsSound(lines, []);
    MergeOneLine(es, secs, prior);
    LinesUnlines(MergeLines(es, secs, prior).out);
    MergeLinesAgain(es, secs, prior);
  }
}
