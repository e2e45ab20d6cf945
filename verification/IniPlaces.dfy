/** Where the lines of the merged text come from: every old line stays in its place, with
    its layout, and new lines are added only before a section line or at the end. */
module IniPlaces {
  import opened CText
  import opened IniText
  import opened IniMergeSpec
  import opened IniLines
  import opened IniMeaning
  import opened IniMeaningTheorem
  import opened IniLayout
  import opened IniIdempotent
  import opened Sets

  /** The line r is the key line with another value: the same text up to the sign, the same
      comment, and in the same column when the value is shorter than what stood before it,
      else behind two blanks. */
  ghost predicate SameLayout(line: string, eq: nat, r: string) {
    var c := CommentAt(line);
    var d := CommentAt(r);
    && eq < c && eq < d && r[..eq + 1] == line[..eq + 1] && r[d..] == line[c..]
    && exists val: string ::
         && eq + 2 + |val| <= d && r[eq + 1] == ' ' && r[eq + 2..eq + 2 + |val|] == val
         && (c < |line| ==> d == if 1 + |val| < c - (eq + 1) then c else eq + 1 + 1 + |val| + 2)
  }

  /** What an old line may become: a key line may get another value, any other line stays. */
  ghost predicate Carried(line: string, r: string) {
    match KindOf(line)
    case KeyValue(_, eq) => SameLayout(line, eq, r)
    case _ => r == line
  }

  // ----- which key lines stay

  /** The section that line i stands in. */
  function SectionAt(prior: seq<string>, i: nat): string
    requires i <= |prior|
  {
    SectionAfter(prior[..i], "")
  }

  /** A named section that was left before line i: what it lacked was written there. */
  ghost predicate LeftBefore(prior: seq<string>, i: nat, sec: string)
    requires i <= |prior|
  {
    sec != "" && exists j :: 0 <= j < i && KindOf(prior[j]).Header? && SectionAt(prior, j) == sec
  }

  /** How many lines before line i have the section and key. */
  function Earlier(prior: seq<string>, i: nat, sec: string, key: string): nat
    requires i <= |prior|
  {
    Count(Entries(prior[..i], ""), sec, key)
  }

  /** The new text has an entry for the key line: its section was not left yet, and has more
      entries of the key than there were lines of it so far. */
  ghost predicate Stays(es: seq<Entry>, prior: seq<string>, i: nat)
    requires i < |prior| && KindOf(prior[i]).KeyValue?
  {
    var sec, key := SectionAt(prior, i), KindOf(prior[i]).key;
    !LeftBefore(prior, i, sec) && Earlier(prior, i, sec, key) < Count(es, sec, key)
  }

  /** Where the merge stands after i old lines. */
  function StateAt(es: seq<Entry>, prior: seq<string>, i: nat): State
    requires i <= |prior|
  {
    After(es, Start, prior[..i])
  }

  lemma {:induction false} StateStep(es: seq<Entry>, prior: seq<string>, i: nat)
    requires i < |prior|
    ensures StateAt(es, prior, i + 1) == Step(es, StateAt(es, prior, i), prior[i])
    ensures SectionAt(prior, i + 1) == SectionAfter([prior[i]], SectionAt(prior, i))
    ensures Entries(prior[..i + 1], "") == Entries(prior[..i], "") + Entries([prior[i]], SectionAt(prior, i))
  {
    hide Step, Entries, SectionAfter;
    assert prior[..i + 1] == prior[..i] + [prior[i]];
    AfterAppend(es, Start, prior[..i], [prior[i]]);
    AfterOne(es, StateAt(es, prior, i), prior[i]);
    EntriesAppend(prior[..i], [prior[i]], "");
  }

  /** The entries logged of a section and key after i lines: all of them once the section was
      left, else one for each line so far, as long as there are any. */
  ghost predicate Accounted(es: seq<Entry>, prior: seq<string>, i: nat, sec: string, key: string)
    requires i <= |prior|
  {
    var s := StateAt(es, prior, i);
    && InRange(es, s.log) && Distinct(s.log) && s.cur == SectionAt(prior, i)
    && Logged(es, s.log, sec, key) ==
       if LeftBefore(prior, i, sec) then Count(es, sec, key) else Min(Count(es, sec, key), Earlier(prior, i, sec, key))
  }

  lemma {:induction false} LeftLater(prior: seq<string>, i: nat, sec: string)
    requires i < |prior|
    ensures LeftBefore(prior, i + 1, sec) <==>
            LeftBefore(prior, i, sec) || (sec != "" && KindOf(prior[i]).Header? && SectionAt(prior, i) == sec)
  {
    hide KindOf, SectionAt;
    if LeftBefore(prior, i, sec) {
      var j :| 0 <= j < i && KindOf(prior[j]).Header? && SectionAt(prior, j) == sec;
      assert 0 <= j < i + 1;
    }
  }

  lemma {:induction false} ClosedLogged(es: seq<Entry>, log: seq<nat>, sec: string, key: string)
    requires InRange(es, log) && Distinct(log) && IniMeaning.Closed(es, log, sec)
    ensures Logged(es, log, sec, key) == Count(es, sec, key)
  {
    var i := Find(es, log, sec, key, 0);
    NoneLeft(es, log, sec, key);
  }

  lemma {:induction false} HeaderAccounted(es: seq<Entry>, s: State, line: string, sec: string, key: string)
    requires InRange(es, s.log) && Distinct(s.log) && KindOf(line).Header?
    ensures var t := Step(es, s, line);
            && InRange(es, t.log) && Distinct(t.log)
            && Logged(es, t.log, sec, key) == if s.cur == sec && sec != "" then Count(es, sec, key) else Logged(es, s.log, sec, key)
  {
    hide KindOf, NewLine, Logged;
    if s.cur != "" {
      if s.cur == sec {
        var f := Flush(es, s, s.cur);
        FlushCloses(es, s, s.cur);
        ClosedLogged(es, f.log, sec, key);
      } else {
        FlushOther(es, s, s.cur, sec, key);
      }
    }
  }

  lemma {:induction false} LineCounted(line: string, cur: string, sec: string, key: string)
    ensures Count(Entries([line], cur), sec, key) ==
            if KindOf(line).KeyValue? then One(Entry(cur, KindOf(line).key, ""), sec, key) else 0
  {
    hide KindOf, ValueAfter, Entries;
    ReadOne(line, cur);
    if KindOf(line).KeyValue? {
      CountOne(Entry(cur, KindOf(line).key, ValueAfter(line, KindOf(line).eq)), sec, key);
    } else {
      assert Count([], sec, key) == 0;
    }
  }

  lemma {:induction false} EarlierStep(prior: seq<string>, i: nat, sec: string, key: string)
    requires i < |prior|
    ensures var cur, line := SectionAt(prior, i), prior[i];
            && Earlier(prior, i + 1, sec, key) == Earlier(prior, i, sec, key)
               + (if KindOf(line).KeyValue? then One(Entry(cur, KindOf(line).key, ""), sec, key) else 0)
            && SectionAt(prior, i + 1) == if KindOf(line).Header? then KindOf(line).sec else cur
  {
    hide KindOf, Entries, Count, One;
    var cur, line := SectionAt(prior, i), prior[i];
    StateStep([], prior, i);
    LineCounted(line, cur, sec, key);
    CountAppend(Entries(prior[..i], ""), Entries([line], cur), sec, key);
    ReadOne(line, cur);
  }

  lemma {:induction false} StepAccounted(es: seq<Entry>, prior: seq<string>, i: nat, sec: string, key: string)
    requires i < |prior| && Accounted(es, prior, i, sec, key)
    ensures Accounted(es, prior, i + 1, sec, key)
  {
    hide KindOf, Entries, SectionAfter, SectionAt, LeftBefore, StateAt, Logged, Count, Earlier, Flush, Distinct, InRange, Rewrite, Find;
    var s, line := StateAt(es, prior, i), prior[i];
    StateStep(es, prior, i);
    LeftLater(prior, i, sec);
    EarlierStep(prior, i, sec, key);
    match KindOf(line) {
      case Header(_) => HeaderAccounted(es, s, line, sec, key);
      case KeyValue(k, _) =>
        LoggedBound(es, s.log, sec, key);
        KeyStepLogs(es, s.log, s.cur, k, sec, key);
      case Other =>
    }
  }

  lemma {:induction false} AllAccounted(es: seq<Entry>, prior: seq<string>, i: nat, sec: string, key: string)
    requires i <= |prior|
    ensures Accounted(es, prior, i, sec, key)
    decreases i
  {
    if i == 0 {
      assert prior[..0] == [] && Pick(es, []) == [];
      assert Count([], sec, key) == 0 && Entries([], "") == [] && SectionAfter([], "") == "";
      assert StateAt(es, prior, 0) == Start;
    } else {
      hide Accounted;
      AllAccounted(es, prior, i - 1, sec, key);
      StepAccounted(es, prior, i - 1, sec, key);
    }
  }

  /** A key line finds an entry exactly when it stays. */
  lemma {:induction false} FindsWhenStays(es: seq<Entry>, prior: seq<string>, i: nat)
    requires i < |prior| && KindOf(prior[i]).KeyValue?
    ensures var s := StateAt(es, prior, i);
            && s.cur == SectionAt(prior, i)
            && (Find(es, s.log, s.cur, KindOf(prior[i]).key, 0) < |es| <==> Stays(es, prior, i))
  {
    var s, key := StateAt(es, prior, i), KindOf(prior[i]).key;
    hide KindOf, SectionAt, LeftBefore, StateAt, Logged, Count, Earlier;
    AllAccounted(es, prior, i, SectionAt(prior, i), key);
    var j := Find(es, s.log, s.cur, key, 0);
    if j < |es| {
      LogOne(es, s.log, j, s.cur, key);
      LoggedBound(es, s.log + [j], s.cur, key);
    } else {
      NoneLeft(es, s.log, s.cur, key);
    }
  }

  // ----- where the lines stand

  /** The origin of a merged line: an old line, or the new text. */
  type Origin = Option<nat>

  /** The lines written when the first n old lines were read. */
  ghost predicate Placed(es: seq<Entry>, out: seq<string>, prior: seq<string>, n: nat, from: seq<Origin>) {
    && n <= |prior| && |from| == |out|
    && (forall k | 0 <= k < |from| && from[k].Some? :: from[k].value < n && Carried(prior[from[k].value], out[k]))
    && (forall j, k | 0 <= j < k < |from| && from[j].Some? && from[k].Some? :: from[j].value < from[k].value)
    && (forall i | 0 <= i < n :: Some(i) in from <==> (KindOf(prior[i]).KeyValue? ==> Stays(es, prior, i)))
    && (forall k | 0 <= k && k + 1 < |from| && from[k].None? && from[k + 1].Some? ::
          KindOf(prior[from[k + 1].value]).Header?)
  }

  /** No new line stands last. */
  ghost predicate Closed(from: seq<Origin>) { from == [] || from[|from| - 1].Some? }

  lemma {:induction false} LayoutKept(line: string, key: string, eq: nat, e: Entry)
    requires OneLine(line) && KindOf(line) == KeyValue(key, eq) && Sound(e) && e.key == key
    ensures Carried(line, Rewrite(line, eq, e.val))
  {
    RewriteKeepsLayout(line, key, eq, e);
    var r := Rewrite(line, eq, e.val);
    assert r[eq + 1] == ' ';
    assert |r| >= eq + 2 + |e.val|;
    RewriteCommentAfter(line, key, eq, e);
    hide KindOf, Rewrite, Sound, CommentAt;
    assert SameLayout(line, eq, r);
  }

  lemma {:induction false} RewriteCommentAfter(line: string, key: string, eq: nat, e: Entry)
    requires OneLine(line) && KindOf(line) == KeyValue(key, eq) && Sound(e) && e.key == key
    ensures CommentAt(Rewrite(line, eq, e.val)) >= eq + 2 + |e.val|
  {
    hide KindOf, CommentAt, Rewrite, Sound;
    RewriteAssembled(line, eq, e.val);
    RewriteParts(line, key, eq, e);
  }

  /** New lines at the end keep the old ones in place. */
  lemma {:induction false} NewPlaced(es: seq<Entry>, out: seq<string>, prior: seq<string>, n: nat, from: seq<Origin>, lines: seq<string>)
    returns (from': seq<Origin>)
    requires Placed(es, out, prior, n, from)
    ensures from' == from + seq(|lines|, _ => None) && Placed(es, out + lines, prior, n, from')
  {
    hide KindOf, Carried, Stays;
    from' := from + seq(|lines|, _ => None);
    forall i | 0 <= i < n ensures Some(i) in from' <==> Some(i) in from { }
  }

  /** The next old line is written: any line but a section line only behind an old line. */
  lemma {:induction false} OldPlaced(es: seq<Entry>, out: seq<string>, prior: seq<string>, n: nat, from: seq<Origin>, r: string)
    requires Placed(es, out, prior, n, from) && n < |prior| && Carried(prior[n], r)
    requires Closed(from) || KindOf(prior[n]).Header?
    requires KindOf(prior[n]).KeyValue? ==> Stays(es, prior, n)
    ensures Placed(es, out + [r], prior, n + 1, from + [Some(n)])
  {
    hide KindOf, Carried, Stays;
    var from' := from + [Some(n)];
    assert from'[|from|] == Some(n);
    forall i | 0 <= i < n ensures Some(i) in from' <==> Some(i) in from { }
  }

  /** A key line without entry is left out. */
  lemma {:induction false} KeyDropped(es: seq<Entry>, out: seq<string>, prior: seq<string>, n: nat, from: seq<Origin>)
    requires Placed(es, out, prior, n, from) && n < |prior| && KindOf(prior[n]).KeyValue? && !Stays(es, prior, n)
    ensures Placed(es, out, prior, n + 1, from)
  {
    hide KindOf, Carried, Stays;
  }

  lemma {:induction false} StepPlaced(es: seq<Entry>, s: State, prior: seq<string>, n: nat, from: seq<Origin>)
    returns (from': seq<Origin>)
    requires n < |prior| && s == StateAt(es, prior, n) && Placed(es, s.out, prior, n, from) && Closed(from)
    requires AllOneLine(prior) && AllSound(es)
    ensures Placed(es, Step(es, s, prior[n]).out, prior, n + 1, from') && Closed(from')
  {
    hide KindOf, Rewrite, Sound, OneLine, Placed, SameLayout, NewLine, CommentAt, Stays, StateAt, SectionAt;
    var line := prior[n];
    assert OneLine(line);
    match KindOf(line)
    case Header(sec) =>
      from' := from;
      if s.cur != "" {
        from' := NewPlaced(es, s.out, prior, n, from, NewLines(es, Missing(es, s.log, s.cur, 0)));
      }
      OldPlaced(es, FlushCurrent(es, s).out, prior, n, from', line);
      from' := from' + [Some(n)];
    case KeyValue(key, eq) =>
      var i := Find(es, s.log, s.cur, key, 0);
      FindsWhenStays(es, prior, n);
      if i < |es| {
        LayoutKept(line, key, eq, es[i]);
        OldPlaced(es, s.out, prior, n, from, Rewrite(line, eq, es[i].val));
        from' := from + [Some(n)];
      } else {
        KeyDropped(es, s.out, prior, n, from);
        from' := from;
      }
    case Other =>
      OldPlaced(es, s.out, prior, n, from, line);
      from' := from + [Some(n)];
  }

  lemma {:induction false} AfterPlaced(es: seq<Entry>, s: State, prior: seq<string>, n: nat, from: seq<Origin>)
    returns (from': seq<Origin>)
    requires n <= |prior| && s == StateAt(es, prior, n) && Placed(es, s.out, prior, n, from) && Closed(from)
    requires AllOneLine(prior) && AllSound(es)
    ensures Placed(es, After(es, s, prior[n..]).out, prior, |prior|, from') && Closed(from')
    decreases |prior| - n
  {
    hide Step, Placed, OneLine, Sound, Closed, Entries, SectionAt, StateAt;
    if n == |prior| {
      from' := from;
    } else {
      assert prior[n..][0] == prior[n] && prior[n..][1..] == prior[n + 1..];
      StateStep(es, prior, n);
      from' := StepPlaced(es, s, prior, n, from);
      from' := AfterPlaced(es, Step(es, s, prior[n]), prior, n + 1, from');
    }
  }

  lemma {:induction false} AddedPlaced(es: seq<Entry>, s: State, secs: seq<string>, prior: seq<string>, from: seq<Origin>)
    returns (from': seq<Origin>)
    requires Placed(es, s.out, prior, |prior|, from)
    ensures Placed(es, AddSections(es, s, secs, prior).out, prior, |prior|, from')
    decreases |secs|
  {
    hide Placed, HasHeader, NewLine;
    from' := from;
    if secs != [] {
      if HasHeader(prior, secs[0]) || Missing(es, s.log, secs[0], 0) == [] {
        from' := AddedPlaced(es, s, secs[1..], prior, from);
      } else {
        var t := State(s.out + SectionLines(secs[0]), s.log, secs[0]);
        from' := NewPlaced(es, s.out, prior, |prior|, from, SectionLines(secs[0]));
        from' := NewPlaced(es, t.out, prior, |prior|, from', NewLines(es, Missing(es, s.log, secs[0], 0)));
        from' := AddedPlaced(es, Flush(es, t, secs[0]), secs[1..], prior, from');
      }
    }
  }

  /** The merge keeps every line in its place: the merged lines that come from the old text
      stand in the old order; all old lines that are no key lines are among them, as they
      are, and just those key lines that the new text has an entry for, each with its text
      up to the sign, its comment and the comment's column; a new line is never followed by
      an old one but a section line. */
  lemma {:induction false} MergeKeepsPlaces(oldText: string, newText: string) returns (from: seq<Origin>)
    requires Merge(oldText, newText).Some?
    requires NamesReadable(Entries(Lines(newText), ""), Sections(Lines(newText), []))
    ensures Placed(Entries(Lines(newText), ""), Lines(Merge(oldText, newText).value), Lines(oldText), |Lines(oldText)|, from)
  {
    hide Lines, Entries, Sections, After, AddSections, StateAt, Unlines, HasHeader, Placed, NewLine, OneLine;
    var lines, prior := Lines(newText), Lines(oldText);
    var es, secs := Entries(lines, ""), Sections(lines, []);
    LinesAreOneLine(newText);
    LinesAreOneLine(oldText);
    EntriesSound(lines, "");
    SectionsSound(lines, []);
    assert Placed(es, [], prior, 0, []) by { NothingPlaced(es, prior); }
    assert prior[0..] == prior;
    assert StateAt(es, prior, 0) == Start by { StartState(es, prior); }
    from := AfterPlaced(es, Start, prior, 0, []);
    var a := After(es, Start, prior);
    if a.cur != "" {
      from := NewPlaced(es, a.out, prior, |prior|, from, NewLines(es, Missing(es, a.log, a.cur, 0)));
    }
    from := AddedPlaced(es, FlushCurrent(es, a), secs, prior, from);
    MergeOneLine(es, secs, prior);
    LinesUnlines(MergeLines(es, secs, prior).out);
  }

  lemma NothingPlaced(es: seq<Entry>, prior: seq<string>)
    ensures Placed(es, [], prior, 0, [])
  {
  }

  lemma {:induction false} StartState(es: seq<Entry>, prior: seq<string>)
    ensures StateAt(es, prior, 0) == Start
  {
    assert prior[..0] == [];
  }
}
