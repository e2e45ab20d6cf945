/** The merge does not depend on how a section is spelled, in either text. */
module IniAliases {
  import opened CText
  import opened IniText
  import opened IniMergeSpec
  import opened IniLines
  import opened IniNames

  /** Lines around one section line. */
  function Around(before: seq<string>, name: string, behind: seq<string>): seq<string> {
    before + ["[" + name + "]"] + behind
  }

  /** A text that can hold the line of a section. */
  ghost predicate Named(name: string) { OneLine(name) && Without(name, ']') }

  lemma {:induction false} AroundLines(before: seq<string>, name: string, behind: seq<string>)
    requires AllOneLine(before) && AllOneLine(behind) && Named(name)
    ensures Lines(Unlines(Around(before, name, behind))) == Around(before, name, behind)
  {
    hide OneLine;
    BracketsOneLine(name);
    assert AllOneLine(Around(before, name, behind));
    LinesUnlines(Around(before, name, behind));
  }

  lemma {:induction false} BracketsOneLine(name: string)
    requires OneLine(name)
    ensures OneLine("[" + name + "]")
  {
  }

  lemma {:induction false} SameKind(a: string, b: string)
    requires Named(a) && Named(b) && SameSection(Bare(a), Bare(b))
    ensures KindOf("[" + a + "]") == KindOf("[" + b + "]") && KindOf("[" + a + "]").Header?
  {
    hide SameSection, Bare, ParseSection;
    BracketsRead(a);
    BracketsRead(b);
    SectionsSame(a, b);
  }

  // ----- in the new text

  lemma {:induction false} SectionsAppend(a: seq<string>, b: seq<string>, known: seq<string>)
    ensures Sections(a + b, known) == Sections(b, Sections(a, known))
  {
    hide KindOf;
    if a == [] {
      assert a + b == b;
    } else {
      assert (a + b)[0] == a[0] && (a + b)[1..] == a[1..] + b;
      match KindOf(a[0])
      case Header(sec) => SectionsAppend(a[1..], b, if sec in known then known else known + [sec]);
      case _ => SectionsAppend(a[1..], b, known);
    }
  }

  lemma {:induction false} HeaderAround(before: seq<string>, line: string, behind: seq<string>, sec: string)
    requires KindOf(line) == Header(sec)
    ensures Entries(before + [line] + behind, "") == Entries(before, "") + Entries(behind, sec)
    ensures var known := Sections(before, []);
            Sections(before + [line] + behind, []) == Sections(behind, if sec in known then known else known + [sec])
  {
    hide KindOf, ValueAfter;
    EntriesAppend(before + [line], behind, "");
    EntriesAppend(before, [line], "");
    SectionsAppend(before + [line], behind, []);
    SectionsAppend(before, [line], []);
    OneHeader(line, sec, SectionAfter(before, ""), Sections(before, []));
  }

  lemma {:induction false} OneHeader(line: string, sec: string, cur: string, known: seq<string>)
    requires KindOf(line) == Header(sec)
    ensures Entries([line], cur) == [] && SectionAfter([line], cur) == sec
    ensures Sections([line], known) == if sec in known then known else known + [sec]
  {
    hide KindOf;
    assert [line][1..] == [];
  }

  /** Another spelling of a section in the new text does not change the result. */
  lemma {:induction false} NewSpelling(oldText: string, before: seq<string>, a: string, b: string, behind: seq<string>)
    requires AllOneLine(before) && AllOneLine(behind) && Named(a) && Named(b) && SameSection(Bare(a), Bare(b))
    ensures Merge(oldText, Unlines(Around(before, a, behind))) == Merge(oldText, Unlines(Around(before, b, behind)))
  {
    hide KindOf, ValueAfter, Lines, Unlines, MergeLines, SameSection, Bare, Entries, Sections;
    AroundLines(before, a, behind);
    AroundLines(before, b, behind);
    SameKind(a, b);
    var sec := KindOf("[" + a + "]").sec;
    HeaderAround(before, "[" + a + "]", behind, sec);
    HeaderAround(before, "[" + b + "]", behind, sec);
  }

  /** A new text of more than 256 entries or 24 sections is refused, and no other. */
  lemma {:induction false} MergeBounds(oldText: string, newText: string)
    ensures Merge(oldText, newText).None? <==>
            |Entries(Lines(newText), "")| > 256 || |Sections(Lines(newText), [])| > 24
  {
    hide Entries, Sections, Lines, MergeLines, Unlines;
  }

  // ----- in the old text

  /** The same behind more lines. */
  function Behind(out: seq<string>, s: State): State { State(out + s.out, s.log, s.cur) }

  lemma {:induction false} BehindTwice(a: seq<string>, b: seq<string>, s: State)
    ensures Behind(a, Behind(b, s)) == Behind(a + b, s)
  {
    assert a + (b + s.out) == a + b + s.out;
  }

  lemma {:induction false} FlushBehind(es: seq<Entry>, out: seq<string>, s: State, sec: string)
    ensures Flush(es, Behind(out, s), sec) == Behind(out, Flush(es, s, sec))
    ensures FlushCurrent(es, Behind(out, s)) == Behind(out, FlushCurrent(es, s))
  {
    hide Missing, NewLines;
    var idx := Missing(es, s.log, sec, 0);
    assert out + s.out + NewLines(es, idx) == out + (s.out + NewLines(es, idx));
    if s.cur != "" {
      var cur := Missing(es, s.log, s.cur, 0);
      assert out + s.out + NewLines(es, cur) == out + (s.out + NewLines(es, cur));
    }
  }

  lemma {:induction false} StepBehind(es: seq<Entry>, out: seq<string>, s: State, line: string)
    ensures Step(es, Behind(out, s), line) == Behind(out, Step(es, s, line))
  {
    hide KindOf, Flush, FlushCurrent, Rewrite, Find;
    FlushBehind(es, out, s, s.cur);
    var f := FlushCurrent(es, s);
    assert out + f.out + [line] == out + (f.out + [line]);
    assert out + s.out + [line] == out + (s.out + [line]);
    match KindOf(line) {
      case KeyValue(key, eq) =>
        var i := Find(es, s.log, s.cur, key, 0);
        if i < |es| {
          var r := Rewrite(line, eq, es[i].val);
          assert out + s.out + [r] == out + (s.out + [r]);
        }
      case _ =>
    }
  }

  lemma {:induction false} AfterBehind(es: seq<Entry>, out: seq<string>, s: State, lines: seq<string>)
    ensures After(es, Behind(out, s), lines) == Behind(out, After(es, s, lines))
    decreases |lines|
  {
    hide Step, Behind;
    if lines != [] {
      StepBehind(es, out, s, lines[0]);
      AfterBehind(es, out, Step(es, s, lines[0]), lines[1..]);
    }
  }

  lemma {:induction false} AfterAppend(es: seq<Entry>, s: State, a: seq<string>, b: seq<string>)
    ensures After(es, s, a + b) == After(es, After(es, s, a), b)
    decreases |a|
  {
    hide Step;
    if a == [] {
      assert a + b == b;
    } else {
      assert (a + b)[0] == a[0] && (a + b)[1..] == a[1..] + b;
      AfterAppend(es, Step(es, s, a[0]), a[1..], b);
    }
  }

  lemma {:induction false} AddBehind(es: seq<Entry>, out: seq<string>, s: State, secs: seq<string>, prior: seq<string>)
    ensures AddSections(es, Behind(out, s), secs, prior) == Behind(out, AddSections(es, s, secs, prior))
    decreases |secs|
  {
    hide HasHeader, Missing, Flush;
    if secs != [] {
      if HasHeader(prior, secs[0]) || Missing(es, s.log, secs[0], 0) == [] {
        AddBehind(es, out, s, secs[1..], prior);
      } else {
        var t := State(s.out + SectionLines(secs[0]), s.log, secs[0]);
        assert out + s.out + SectionLines(secs[0]) == out + t.out;
        FlushBehind(es, out, t, secs[0]);
        AddBehind(es, out, Flush(es, t, secs[0]), secs[1..], prior);
      }
    }
  }

  lemma {:induction false} AddSame(es: seq<Entry>, s: State, secs: seq<string>, p: seq<string>, q: seq<string>)
    requires forall sec :: HasHeader(p, sec) <==> HasHeader(q, sec)
    ensures AddSections(es, s, secs, p) == AddSections(es, s, secs, q)
    decreases |secs|
  {
    hide HasHeader, Missing, Flush;
    if secs != [] {
      AddSame(es, s, secs[1..], p, q);
      AddSame(es, Flush(es, State(s.out + SectionLines(secs[0]), s.log, secs[0]), secs[0]), secs[1..], p, q);
    }
  }

  lemma {:induction false} HeadersSame(before: seq<string>, x: string, y: string, behind: seq<string>, sec: string)
    requires KindOf(x) == KindOf(y)
    ensures HasHeader(before + [x] + behind, sec) <==> HasHeader(before + [y] + behind, sec)
  {
    hide KindOf;
    var p, q := before + [x] + behind, before + [y] + behind;
    assert |p| == |q| && forall i | 0 <= i < |p| :: KindOf(p[i]) == KindOf(q[i]);
  }

  /** The lines of a merge whose old text has the section line x there: what stands before it and behind it. */
  lemma {:induction false} MergeAround(es: seq<Entry>, secs: seq<string>, before: seq<string>, x: string, behind: seq<string>, sec: string)
    requires KindOf(x) == Header(sec)
    ensures var f := FlushCurrent(es, After(es, Start, before));
            var t := After(es, State([], f.log, sec), behind);
            MergeLines(es, secs, before + [x] + behind).out
            == (f.out + [x]) + AddSections(es, FlushCurrent(es, t), secs, before + [x] + behind).out
  {
    hide KindOf, FlushCurrent, Step, AddSections, After;
    var prior := before + [x] + behind;
    var a := After(es, Start, before);
    var f := FlushCurrent(es, a);
    var head := f.out + [x];
    AfterAppend(es, Start, before + [x], behind);
    AfterAppend(es, Start, before, [x]);
    OneStep(es, a, x);
    HeaderStep(es, a, x, sec);
    var s := State([], f.log, sec);
    assert Step(es, a, x) == Behind(head, s);
    AfterBehind(es, head, s, behind);
    FlushBehind(es, head, After(es, s, behind), "");
    AddBehind(es, head, FlushCurrent(es, After(es, s, behind)), secs, prior);
  }

  lemma {:induction false} OneStep(es: seq<Entry>, s: State, x: string)
    ensures After(es, s, [x]) == Step(es, s, x)
  {
    hide Step;
    assert [x][1..] == [];
  }

  lemma HeaderStep(es: seq<Entry>, s: State, x: string, sec: string)
    requires KindOf(x) == Header(sec)
    ensures Step(es, s, x) == State(FlushCurrent(es, s).out + [x], FlushCurrent(es, s).log, sec)
  {
  }

  /** Another spelling of a section in the old text changes that line of the result and no other. */
  lemma {:induction false} OldSpelling(before: seq<string>, a: string, b: string, behind: seq<string>, newText: string)
    requires AllOneLine(before) && AllOneLine(behind) && Named(a) && Named(b) && SameSection(Bare(a), Bare(b))
    requires Merge(Unlines(Around(before, a, behind)), newText).Some?
    ensures exists p, q ::
              && Merge(Unlines(Around(before, a, behind)), newText) == Some(Unlines(p + ["[" + a + "]"] + q))
              && Merge(Unlines(Around(before, b, behind)), newText) == Some(Unlines(p + ["[" + b + "]"] + q))
  {
    hide KindOf, Lines, Unlines, FlushCurrent, After, AddSections, SameSection, Bare, Entries, Sections, HasHeader, MergeLines;
    var es, secs := Entries(Lines(newText), ""), Sections(Lines(newText), []);
    var x, y := "[" + a + "]", "[" + b + "]";
    AroundLines(before, a, behind);
    AroundLines(before, b, behind);
    SameKind(a, b);
    var sec := KindOf(x).sec;
    MergeAround(es, secs, before, x, behind, sec);
    MergeAround(es, secs, before, y, behind, sec);
    var f := FlushCurrent(es, After(es, Start, before));
    var t := FlushCurrent(es, After(es, State([], f.log, sec), behind));
    forall s ensures HasHeader(before + [x] + behind, s) <==> HasHeader(before + [y] + behind, s) {
      HeadersSame(before, x, y, behind, s);
    }
    AddSame(es, t, secs, before + [x] + behind, before + [y] + behind);
    var q := AddSections(es, t, secs, before + [x] + behind).out;
    assert Merge(Unlines(Around(before, a, behind)), newText) == Some(Unlines(f.out + [x] + q));
  }

  /** A key line under one spelling of a section is rewritten in place by an entry under another. */
  lemma {:induction false} AliasRewritten(a: string, b: string, line: string, wanted: string, key: string, eq: nat, eq2: nat)
    requires Named(a) && Named(b) && SameSection(Bare(a), Bare(b)) && OneLine(line) && OneLine(wanted)
    requires KindOf(line) == KeyValue(key, eq) && KindOf(wanted) == KeyValue(key, eq2)
    ensures Merge(Unlines(["[" + a + "]", line]), Unlines(["[" + b + "]", wanted]))
         == Some(Unlines(["[" + a + "]", Rewrite(line, eq, ValueAfter(wanted, eq2))]))
  {
    hide KindOf, Lines, Unlines, Rewrite, SameSection, Bare, ValueAfter, Sections, Entries, MergeLines, CommentAt;
    var x, y := "[" + a + "]", "[" + b + "]";
    AroundLines([], a, [line]);
    AroundLines([], b, [wanted]);
    assert Around([], a, [line]) == [x, line] && Around([], b, [wanted]) == [] + [y] + [wanted] == [y, wanted];
    SameKind(a, b);
    var sec := KindOf(x).sec;
    NoLines();
    HeaderAround([], y, [wanted], sec);
    OneKey(wanted, key, eq2, sec);
    var es := [Entry(sec, key, ValueAfter(wanted, eq2))];
    assert [] + es == es && [] + [sec] == [sec];
    assert Entries([y, wanted], "") == es && Sections([y, wanted], []) == [sec];
    OneRewritten(es, x, line, key, eq, sec);
  }

  lemma NoLines()
    ensures Entries([], "") == [] && Sections([], []) == []
  {
  }

  lemma {:induction false} OneKey(line: string, key: string, eq: nat, sec: string)
    requires KindOf(line) == KeyValue(key, eq)
    ensures Entries([line], sec) == [Entry(sec, key, ValueAfter(line, eq))]
    ensures Sections([line], [sec]) == [sec]
  {
    hide KindOf, ValueAfter;
    assert [line][1..] == [];
  }

  lemma {:induction false} OneRewritten(es: seq<Entry>, x: string, line: string, key: string, eq: nat, sec: string)
    requires KindOf(x) == Header(sec) && KindOf(line) == KeyValue(key, eq)
    requires |es| == 1 && es[0].sec == sec && es[0].key == key
    ensures MergeLines(es, [sec], [x, line]).out == [x, Rewrite(line, eq, es[0].val)]
  {
    hide KindOf, Rewrite;
    var prior := [x, line];
    var s := State([x], [], sec);
    var t := State([x, Rewrite(line, eq, es[0].val)], [0], sec);
    assert prior[1..] == [line] && [line][1..] == [];
    assert Step(es, Start, x) == s;
    assert Step(es, s, line) == t;
    OneStep(es, s, line);
    assert After(es, Start, prior) == After(es, s, [line]) == t;
    assert Missing(es, [0], sec, 0) == [];
    assert FlushCurrent(es, t) == t by { assert t.out + NewLines(es, []) == t.out; }
    assert HasHeader(prior, sec) by { assert prior[0] == x; }
    var none: seq<string> := [];
    assert [sec][1..] == none;
    assert AddSections(es, t, [sec], prior) == AddSections(es, t, none, prior) == t;
  }
}
