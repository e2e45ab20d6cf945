/** The main statement about meaning, and the exact condition for it. */
module IniMeaningTheorem {
  import opened CText
  import opened IniText
  import opened IniMergeSpec
  import opened IniLines
  import opened IniMeaning
  import opened Sets

  // ----- sections of a text

  lemma {:induction false} SectionsAre(lines: seq<string>, known: seq<string>, sec: string)
    ensures sec in Sections(lines, known) <==> sec in known || HasHeader(lines, sec)
  {
    hide KindOf;
    if lines != [] {
      var k := if KindOf(lines[0]).Header? && KindOf(lines[0]).sec !in known
               then known + [KindOf(lines[0]).sec] else known;
      SectionsAre(lines[1..], k, sec);
      HeaderCons(lines, sec);
    }
  }

  lemma {:induction false} HeaderCons(lines: seq<string>, sec: string)
    requires lines != []
    ensures HasHeader(lines, sec) <==> KindOf(lines[0]) == Header(sec) || HasHeader(lines[1..], sec)
  {
    hide KindOf;
    if HasHeader(lines, sec) && KindOf(lines[0]) != Header(sec) {
      var i :| 0 <= i < |lines| && KindOf(lines[i]) == Header(sec);
      assert lines[1..][i - 1] == lines[i];
    }
    if HasHeader(lines[1..], sec) {
      var i :| 0 <= i < |lines[1..]| && KindOf(lines[1..][i]) == Header(sec);
      assert lines[i + 1] == lines[1..][i];
    }
  }

  lemma {:induction false} EntrySections(lines: seq<string>, cur: string, i: nat)
    requires i < |Entries(lines, cur)|
    ensures Entries(lines, cur)[i].sec == cur || HasHeader(lines, Entries(lines, cur)[i].sec)
  {
    hide KindOf, ValueAfter, HasHeader;
    match KindOf(lines[0])
    case Header(sec) =>
      EntrySections(lines[1..], sec, i);
      HeaderCons(lines, Entries(lines, cur)[i].sec);
    case KeyValue(_, _) =>
      if i > 0 {
        EntrySections(lines[1..], cur, i - 1);
        HeaderCons(lines, Entries(lines, cur)[i].sec);
      }
    case Other =>
      EntrySections(lines[1..], cur, i);
      HeaderCons(lines, Entries(lines, cur)[i].sec);
  }

  lemma {:induction false} CanonicalChars(name: string, c: char)
    requires Without(name, c) && (c == ']' || c == '\n')
    ensures Without(Canonical(name), c)
  {
    var l := LowerAll(name);
    assert Without(l, c) by {
      forall i | 0 <= i < |l| ensures l[i] != c { assert name[i] != c; }
    }
    hide LowerAll;
    assert Without("priority", c) && Without("rate", c) && Without("talker", c) && Without("sentence", c);
  }

  lemma {:induction false} HeaderSound(line: string, sec: string)
    requires OneLine(line) && KindOf(line) == Header(sec)
    ensures SoundSection(sec)
  {
    hide Trim, Copy, CommentAt, Canonical, First;
    var b := First(line, 0, |line|, NonBlank);
    var close := First(line, b + 1, |line|, CloseBracket);
    var name := Copy(Trim(line, b + 1, close), SEC_LEN);
    assert sec == Canonical(name);
    CanonicalIdempotent(name);
    CopyTrim(line, b + 1, close, SEC_LEN);
    assert forall i | b < i < close :: !CloseBracket.At(line[i]);
    CanonicalChars(name, ']');
    CanonicalChars(name, '\n');
    CanonicalLength(name);
  }

  lemma CanonicalLength(name: string)
    requires |name| < SEC_LEN
    ensures |Canonical(name)| < SEC_LEN
  {
  }

  lemma {:induction false} SectionsSound(lines: seq<string>, known: seq<string>)
    requires AllOneLine(lines) && AllSoundSections(known)
    ensures AllSoundSections(Sections(lines, known))
  {
    hide KindOf, OneLine, SoundSection;
    if lines != [] {
      TailOneLine(lines);
      if KindOf(lines[0]).Header? {
        HeaderSound(lines[0], KindOf(lines[0]).sec);
      }
      var k := if KindOf(lines[0]).Header? && KindOf(lines[0]).sec !in known
               then known + [KindOf(lines[0]).sec] else known;
      SectionsSound(lines[1..], k);
    }
  }

  // ----- entries under no section

  lemma {:induction false} CountNone(es: seq<Entry>, sec: string, key: string)
    requires forall i | 0 <= i < |es| :: es[i].sec != sec || es[i].key != key
    ensures Count(es, sec, key) == 0
  {
    if es != [] {
      CountNone(es[1..], sec, key);
    }
  }

  lemma {:induction false} CountSome(es: seq<Entry>, i: nat)
    requires i < |es|
    ensures Count(es, es[i].sec, es[i].key) > 0
  {
    if i > 0 {
      CountSome(es[1..], i - 1);
    }
  }

  /** Whatever is left is not in the log. */
  lemma {:induction false} RestPending(es: seq<Entry>, log: seq<nat>, n: nat, k: nat) returns (i: nat)
    requires n <= |es| && k < |Rest(es, log, n)|
    ensures i < n && i !in log && Rest(es, log, n)[k] == es[i]
  {
    if n - 1 !in log && k == |Rest(es, log, n - 1)| {
      i := n - 1;
    } else {
      i := RestPending(es, log, n - 1, k);
    }
  }

  function Min(a: nat, b: nat): nat { if a < b then a else b }

  /** Entries of another section or key leave a count as it is. */
  lemma {:induction false} LogOther(es: seq<Entry>, log: seq<nat>, idx: seq<nat>, sec: string, key: string)
    requires InRange(es, log) && InRange(es, idx)
    requires forall k | 0 <= k < |idx| :: es[idx[k]].sec != sec || es[idx[k]].key != key
    ensures Count(Pick(es, log + idx), sec, key) == Count(Pick(es, log), sec, key)
  {
    assert Pick(es, log + idx) == Pick(es, log) + Pick(es, idx);
    CountAppend(Pick(es, log), Pick(es, idx), sec, key);
    CountNone(Pick(es, idx), sec, key);
  }

  /** How many entries of a section and key are logged. */
  function Logged(es: seq<Entry>, log: seq<nat>, sec: string, key: string): nat
    requires InRange(es, log)
  {
    Count(Pick(es, log), sec, key)
  }

  lemma {:induction false} FlushOther(es: seq<Entry>, s: State, flushed: string, sec: string, key: string)
    requires InRange(es, s.log) && Distinct(s.log) && flushed != sec
    ensures var t := Flush(es, s, flushed);
            InRange(es, t.log) && Distinct(t.log) && Logged(es, t.log, sec, key) == Logged(es, s.log, sec, key)
  {
    hide NewLine, Pick, Count;
    LogOther(es, s.log, Missing(es, s.log, flushed, 0), sec, key);
  }

  lemma {:induction false} LogOne(es: seq<Entry>, log: seq<nat>, i: nat, sec: string, key: string)
    requires InRange(es, log) && Distinct(log) && i < |es| && i !in log
    ensures InRange(es, log + [i]) && Distinct(log + [i])
    ensures Logged(es, log + [i], sec, key) == Logged(es, log, sec, key) + One(es[i], sec, key)
  {
    hide Count;
    assert Pick(es, log + [i]) == Pick(es, log) + [es[i]];
    CountAppend(Pick(es, log), [es[i]], sec, key);
    CountOne(es[i], sec, key);
  }

  /** When no entry with the key is left, all of them are logged. */
  lemma {:induction false} NoneLeft(es: seq<Entry>, log: seq<nat>, sec: string, key: string)
    requires InRange(es, log) && Distinct(log)
    requires Find(es, log, sec, key, 0) == |es|
    ensures Logged(es, log, sec, key) == Count(es, sec, key)
  {
    hide Pick, Distinct;
    Partition(es, log, sec, key);
    var rest := Rest(es, log, |es|);
    forall k | 0 <= k < |rest| ensures rest[k].sec != sec || rest[k].key != key {
      var j := RestPending(es, log, |es|, k);
    }
    hide Count, Rest, Find;
    CountNone(rest, sec, key);
  }

  /** A key line uses up one entry of its section and key, while there is one. */
  lemma {:induction false} KeyStepLogs(es: seq<Entry>, log: seq<nat>, cur: string, k: string, sec: string, key: string)
    requires InRange(es, log) && Distinct(log)
    ensures var i := Find(es, log, cur, k, 0);
            var log' := if i == |es| then log else log + [i];
            InRange(es, log') && Distinct(log') && Logged(es, log', sec, key) ==
              Min(Count(es, sec, key), Logged(es, log, sec, key) + One(Entry(cur, k, ""), sec, key))
  {
    hide Logged, Distinct, Count, Find, InRange;
    LoggedBound(es, log, sec, key);
    var i := Find(es, log, cur, k, 0);
    if i < |es| {
      LogOne(es, log, i, sec, key);
      LoggedBound(es, log + [i], sec, key);
    } else if cur == sec && k == key {
      NoneLeft(es, log, sec, key);
    }
  }

  function One(e: Entry, sec: string, key: string): nat {
    if e.sec == sec && e.key == key then 1 else 0
  }

  lemma {:induction false} CountOne(e: Entry, sec: string, key: string)
    ensures Count([e], sec, key) == One(e, sec, key)
  {
    assert Count([], sec, key) == 0;
  }

  lemma {:induction false} StepUnnamed(es: seq<Entry>, s: State, line: string, key: string)
    requires InRange(es, s.log) && Distinct(s.log)
    ensures var t := Step(es, s, line);
            && InRange(es, t.log) && Distinct(t.log)
            && t.cur == SectionAfter([line], s.cur)
            && Logged(es, t.log, "", key) ==
               Min(Count(es, "", key), Logged(es, s.log, "", key) + Count(Entries([line], s.cur), "", key))
  {
    hide KindOf, ValueAfter, Rewrite, Entries, SectionAfter, Logged, Flush, Distinct, Find, InRange;
    ReadOne(line, s.cur);
    assert Count([], "", key) == 0;
    LoggedBound(es, s.log, "", key);
    match KindOf(line) {
      case Header(sec) =>
        if s.cur != "" { FlushOther(es, s, s.cur, "", key); }
      case KeyValue(k, eq) =>
        CountOne(Entry(s.cur, k, ValueAfter(line, eq)), "", key);
        hide Count;
        KeyStepLogs(es, s.log, s.cur, k, "", key);
      case Other =>
    }
  }

  lemma {:induction false} LoggedBound(es: seq<Entry>, log: seq<nat>, sec: string, key: string)
    requires InRange(es, log) && Distinct(log)
    ensures Logged(es, log, sec, key) <= Count(es, sec, key)
  {
    Partition(es, log, sec, key);
  }

  lemma {:induction false} AfterUnnamed(es: seq<Entry>, s: State, lines: seq<string>, key: string)
    requires InRange(es, s.log) && Distinct(s.log)
    ensures var t := After(es, s, lines);
            && InRange(es, t.log) && Distinct(t.log)
            && Logged(es, t.log, "", key) ==
               Min(Count(es, "", key), Logged(es, s.log, "", key) + Count(Entries(lines, s.cur), "", key))
    decreases |lines|
  {
    hide Step, Logged, Distinct, Entries, SectionAfter;
    if lines == [] {
      LoggedBound(es, s.log, "", key);
      assert Count(Entries([], s.cur), "", key) == 0 by { NoEntries(s.cur); }
    } else {
      var one, more := [lines[0]], lines[1..];
      StepUnnamed(es, s, lines[0], key);
      AfterUnnamed(es, Step(es, s, lines[0]), more, key);
      assert lines == one + more;
      EntriesAppend(one, more, s.cur);
      CountAppend(Entries(one, s.cur), Entries(more, SectionAfter(one, s.cur)), "", key);
    }
  }

  lemma NoEntries(cur: string)
    ensures Entries([], cur) == []
  {
  }

  lemma {:induction false} AddSectionsUnnamed(es: seq<Entry>, s: State, secs: seq<string>, prior: seq<string>, key: string)
    requires InRange(es, s.log) && Distinct(s.log)
    requires HasHeader(prior, "") || "" !in secs
    ensures var t := AddSections(es, s, secs, prior);
            && InRange(es, t.log) && Distinct(t.log)
            && Logged(es, t.log, "", key) == Logged(es, s.log, "", key)
    decreases |secs|
  {
    hide HasHeader, Logged, Flush, Distinct;
    if secs != [] {
      if HasHeader(prior, secs[0]) || Missing(es, s.log, secs[0], 0) == [] {
        AddSectionsUnnamed(es, s, secs[1..], prior, key);
      } else {
        var u := State(s.out + SectionLines(secs[0]), s.log, secs[0]);
        FlushOther(es, u, secs[0], "", key);
        AddSectionsUnnamed(es, Flush(es, u, secs[0]), secs[1..], prior, key);
      }
    }
  }

  // ----- the theorem

  /** Entries under no section find their place: either the new text opens a
      section with an empty name that the old one lacks, or the old text has,
      under no section, at least as many lines of each key. */
  ghost predicate UnnamedFit(es: seq<Entry>, secs: seq<string>, prior: seq<string>) {
    || ("" in secs && !HasHeader(prior, ""))
    || forall key :: Count(es, "", key) <= Count(Entries(prior, ""), "", key)
  }

  /** The new text as the merge sees it: its entries and its sections. */
  ghost predicate ReadFrom(es: seq<Entry>, secs: seq<string>, lines: seq<string>) {
    es == Entries(lines, "") && secs == Sections(lines, [])
  }

  lemma {:induction false} NamedClosed(es: seq<Entry>, secs: seq<string>, lines: seq<string>, prior: seq<string>, sec: string)
    requires ReadFrom(es, secs, lines)
    requires sec != "" || ("" in secs && !HasHeader(prior, ""))
    ensures Closed(es, MergeLines(es, secs, prior).log, sec)
  {
    hide KindOf, ValueAfter, After, AddSections, FlushCurrent, Entries, HasHeader;
    var s := FlushCurrent(es, After(es, Start, prior));
    if HasHeader(prior, sec) {
      AfterCloses(es, Start, prior, sec);
    } else if sec !in secs {
      if !Closed(es, s.log, sec) {
        var i :| 0 <= i < |es| && es[i].sec == sec && i !in s.log;
        EntrySections(lines, "", i);
        SectionsAre(lines, [], sec);
        assert false;
      }
    }
    AddSectionsCloses(es, s, secs, prior, sec);
  }

  lemma {:induction false} UnnamedCount(es: seq<Entry>, secs: seq<string>, prior: seq<string>, key: string)
    requires HasHeader(prior, "") || "" !in secs
    ensures var log := MergeLines(es, secs, prior).log;
            InRange(es, log) &&
            Count(Pick(es, log), "", key) == Min(Count(es, "", key), Count(Entries(prior, ""), "", key))
  {
    hide KindOf, ValueAfter, After, AddSections, Entries, HasHeader, Flush;
    assert Logged(es, [], "", key) == 0;
    AfterUnnamed(es, Start, prior, key);
    var a := After(es, Start, prior);
    if a.cur != "" { FlushOther(es, a, a.cur, "", key); }
    AddSectionsUnnamed(es, FlushCurrent(es, a), secs, prior, key);
  }

  /** Nothing is left over exactly when the entries under no section fit. */
  lemma {:induction false} NothingLeft(es: seq<Entry>, secs: seq<string>, lines: seq<string>, prior: seq<string>)
    requires ReadFrom(es, secs, lines)
    requires InRange(es, MergeLines(es, secs, prior).log) && Distinct(MergeLines(es, secs, prior).log)
    ensures Rest(es, MergeLines(es, secs, prior).log, |es|) == [] <==> UnnamedFit(es, secs, prior)
    ensures forall e | e in Rest(es, MergeLines(es, secs, prior).log, |es|) :: e.sec == ""
  {
    hide MergeLines, HasHeader, Pick, ReadFrom;
    var log := MergeLines(es, secs, prior).log;
    var rest := Rest(es, log, |es|);
    forall k | 0 <= k < |rest| ensures rest[k].sec == "" && !("" in secs && !HasHeader(prior, "")) {
      var i := RestPending(es, log, |es|, k);
      if rest[k].sec != "" || ("" in secs && !HasHeader(prior, "")) {
        NamedClosed(es, secs, lines, prior, rest[k].sec);
        assert false;
      }
    }
    assert rest != [] ==> rest[0].sec == "" && !("" in secs && !HasHeader(prior, ""));
    if !("" in secs && !HasHeader(prior, "")) {
      forall key ensures Count(rest, "", key) ==
                         Count(es, "", key) - Min(Count(es, "", key), Count(Entries(prior, ""), "", key)) {
        UnnamedCount(es, secs, prior, key);
        Partition(es, log, "", key);
      }
      if rest != [] {
        CountSome(rest, 0);
        assert Count(es, "", rest[0].key) > Count(Entries(prior, ""), "", rest[0].key);
      } else {
        forall key ensures Count(es, "", key) <= Count(Entries(prior, ""), "", key) {
          assert Count(rest, "", key) == 0;
        }
      }
    }
  }

  /** Reading the merged text gives back the entries of the new text, each as
      often as it stands there, exactly when the entries under no section fit.
      Whatever the old text, no entry is invented and none under a named section is lost. */
  lemma {:induction false} MergeKeepsMeaning(oldText: string, newText: string)
    requires Merge(oldText, newText).Some?
    requires var es, secs := Entries(Lines(newText), ""), Sections(Lines(newText), []);
             NamesReadable(es, secs) && ValuesReadable(es)
    ensures var es, read := Entries(Lines(newText), ""), Entries(Lines(Merge(oldText, newText).value), "");
            && multiset(read) <= multiset(es)
            && (forall e: Entry | e.sec != "" :: multiset(read)[e] == multiset(es)[e])
            && (multiset(read) == multiset(es) <==>
                UnnamedFit(es, Sections(Lines(newText), []), Lines(oldText)))
  {
    hide Lines, Entries, Sections, MergeLines, UnnamedFit, Pick, Unlines;
    var lines, prior := Lines(newText), Lines(oldText);
    var es, secs := Entries(lines, ""), Sections(lines, []);
    LinesAreOneLine(newText);
    LinesAreOneLine(oldText);
    EntriesSound(lines, "");
    SectionsSound(lines, []);
    MergeFaithful(es, secs, prior);
    var s := MergeLines(es, secs, prior);
    LinesUnlines(s.out);
    var rest := Rest(es, s.log, |es|);
    NothingLeft(es, secs, lines, prior);
    Partition(es, s.log, "", "");
    forall e: Entry | e.sec != "" ensures multiset(rest)[e] == 0 {
      assert e !in rest;
    }
    if multiset(Pick(es, s.log)) == multiset(es) {
      assert |multiset(es)| == |multiset(Pick(es, s.log))| + |multiset(rest)|;
    }
  }

  /** An entry under no section is lost when the old text has no line for it. */
  lemma {:induction false} UnnamedEntryLost()
    ensures Merge("", "k = 1\n") == Some("")
    ensures Entries(Lines("k = 1\n"), "") == [Entry("", "k", "1")]
  {
    hide KindOf, ValueAfter, Lines, Rewrite;
    var e := Entry("", "k", "1");
    assert Lines("") == [] by { NoLines(); }
    assert NewLine(e) == "k = 1";
    NewLineRead(e);
    LinesCons("k = 1", "");
    assert "k = 1" + "\n" + "" == "k = 1\n";
    ReadOne("k = 1", "");
    SectionsNone("k = 1", 3);
  }

  lemma NoLines()
    ensures Lines("") == []
  {
  }

  lemma {:induction false} SectionsNone(line: string, eq: nat)
    requires KindOf(line).KeyValue?
    ensures Sections([line], []) == []
  {
    hide KindOf;
    assert Sections([], []) == [];
  }

  // ----- when names and values are readable

  /** No key, value or section name of the line fills its buffer. */
  ghost predicate Uncut(line: string) {
    match KindOf(line)
    case Header(_) =>
      var b := First(line, 0, |line|, NonBlank);
      b < |line| && |Trim(line, b + 1, First(line, b + 1, |line|, CloseBracket))| < SEC_LEN
    case KeyValue(_, eq) =>
      |Trim(line, 0, eq)| < KEY_LEN && |Trim(line, eq + 1, CommentAt(line))| < VAL_LEN
    case Other => true
  }

  lemma {:induction false} UncutKey(line: string, cur: string)
    requires Uncut(line) && KindOf(line).KeyValue?
    ensures Trimmed(KindOf(line).key) && Trimmed(ValueAfter(line, KindOf(line).eq))
  {
    hide First, TailEnd, Canonical;
    var eq := KindOf(line).eq;
    KeyLineParts(line, KindOf(line).key, eq);
    TrimIsTrimmed(line, 0, eq);
    TrimIsTrimmed(line, eq + 1, CommentAt(line));
  }

  lemma CanonicalTrimmed(s: string)
    requires Trimmed(s)
    ensures Trimmed(Canonical(s))
  {
  }

  lemma {:induction false} UncutHeader(line: string)
    requires Uncut(line) && KindOf(line).Header?
    ensures Trimmed(KindOf(line).sec)
  {
    hide First, Trim, CommentAt, Canonical, Trimmed;
    var b := First(line, 0, |line|, NonBlank);
    TrimIsTrimmed(line, b + 1, First(line, b + 1, |line|, CloseBracket));
    CanonicalTrimmed(Trim(line, b + 1, First(line, b + 1, |line|, CloseBracket)));
  }

  lemma {:induction false} UncutReadable(lines: seq<string>, cur: string, known: seq<string>)
    requires forall i | 0 <= i < |lines| :: Uncut(lines[i])
    requires forall i | 0 <= i < |known| :: Trimmed(known[i])
    ensures NamesReadable(Entries(lines, cur), Sections(lines, known))
    ensures ValuesReadable(Entries(lines, cur))
  {
    hide KindOf, ValueAfter, Uncut, Trimmed;
    if lines != [] {
      assert Uncut(lines[0]);
      assert forall i | 0 <= i < |lines[1..]| :: lines[1..][i] == lines[i + 1];
      match KindOf(lines[0])
      case Header(sec) =>
        UncutHeader(lines[0]);
        UncutReadable(lines[1..], sec, if sec in known then known else known + [sec]);
      case KeyValue(_, _) =>
        UncutKey(lines[0], cur);
        UncutReadable(lines[1..], cur, known);
      case Other =>
        UncutReadable(lines[1..], cur, known);
    }
  }
}
