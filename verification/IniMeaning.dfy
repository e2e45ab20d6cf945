/** The merge keeps meaning: what is read back from the merged text are the
    entries of the new text, and exactly when that can fail. */
module IniMeaning {
  import opened CText
  import opened IniText
  import opened IniMergeSpec
  import opened IniLines
  import opened Sets

  /** The entries at the given indices, in that order. */
  function Pick(es: seq<Entry>, idx: seq<nat>): (r: seq<Entry>)
    requires InRange(es, idx)
    ensures |r| == |idx|
    ensures forall k | 0 <= k < |idx| :: r[k] == es[idx[k]]
  {
    seq(|idx|, k requires 0 <= k < |idx| => es[idx[k]])
  }

  /** Among the first n entries, those not logged. */
  function Rest(es: seq<Entry>, log: seq<nat>, n: nat): seq<Entry>
    requires n <= |es|
  {
    if n == 0 then []
    else Rest(es, log, n - 1) + if n - 1 in log then [] else [es[n - 1]]
  }

  /** No key or section name of the new text was cut to a text that ends in a blank. */
  ghost predicate NamesReadable(es: seq<Entry>, secs: seq<string>) {
    && (forall i | 0 <= i < |es| :: Trimmed(es[i].key))
    && (forall i | 0 <= i < |secs| :: Trimmed(secs[i]))
  }

  ghost predicate ValuesReadable(es: seq<Entry>) {
    forall i | 0 <= i < |es| :: Trimmed(es[i].val)
  }

  ghost predicate AllSoundSections(secs: seq<string>) {
    forall i | 0 <= i < |secs| :: SoundSection(secs[i])
  }

  // ----- what is read back is what was logged

  /** The written lines are read as the logged entries, in the logged order. */
  ghost predicate Faithful(es: seq<Entry>, s: State) {
    && InRange(es, s.log) && Distinct(s.log)
    && AllOneLine(s.out)
    && Entries(s.out, "") == Pick(es, s.log)
    && SectionAfter(s.out, "") == s.cur
  }

  /** Lines added to what was written add what they read as. */
  lemma {:induction false} AppendFaithful(es: seq<Entry>, s: State, lines: seq<string>, idx: seq<nat>, cur: string)
    requires Faithful(es, s) && AllOneLine(lines)
    requires InRange(es, idx) && Distinct(s.log + idx)
    requires Entries(lines, s.cur) == Pick(es, idx) && SectionAfter(lines, s.cur) == cur
    ensures Faithful(es, State(s.out + lines, s.log + idx, cur))
  {
    hide Entries, SectionAfter, OneLine;
    EntriesAppend(s.out, lines, "");
    assert Pick(es, s.log + idx) == Pick(es, s.log) + Pick(es, idx);
  }

  lemma {:induction false} ReadOne(line: string, cur: string)
    ensures KindOf(line).KeyValue? ==>
              Entries([line], cur) == [Entry(cur, KindOf(line).key, ValueAfter(line, KindOf(line).eq))]
    ensures !KindOf(line).KeyValue? ==> Entries([line], cur) == []
    ensures SectionAfter([line], cur) == if KindOf(line).Header? then KindOf(line).sec else cur
  {
    hide KindOf, ValueAfter;
    assert Entries([], cur) == [];
  }

  lemma {:induction false} MissingLater(es: seq<Entry>, log: seq<nat>, sec: string, m: nat, i: nat)
    requires m < i <= |es|
    ensures Missing(es, log + [m], sec, i) == Missing(es, log, sec, i)
    decreases |es| - i
  {
    hide Missing;
    MissingStep(es, log + [m], sec, i);
    MissingStep(es, log, sec, i);
    if i < |es| {
      MissingLater(es, log, sec, m, i + 1);
      assert (i in log + [m]) == (i in log);
    }
  }

  lemma MissingStep(es: seq<Entry>, log: seq<nat>, sec: string, i: nat)
    requires i <= |es|
    ensures Missing(es, log, sec, i) ==
            if i == |es| then []
            else if i !in log && es[i].sec == sec then [i] + Missing(es, log, sec, i + 1)
            else Missing(es, log, sec, i + 1)
  {
  }

  lemma PickCons(es: seq<Entry>, idx: seq<nat>)
    requires InRange(es, idx) && idx != []
    ensures Pick(es, idx) == [es[idx[0]]] + Pick(es, idx[1..])
  {
  }

  lemma {:induction false} NewLinesCons(es: seq<Entry>, idx: seq<nat>)
    requires InRange(es, idx) && idx != []
    ensures NewLines(es, idx) == [NewLine(es[idx[0]])] + NewLines(es, idx[1..])
  {
    hide NewLine;
  }

  lemma {:induction false} NewLinesRead(es: seq<Entry>, idx: seq<nat>, cur: string)
    requires InRange(es, idx) && AllSound(es)
    requires forall k | 0 <= k < |idx| :: es[idx[k]].sec == cur && Trimmed(es[idx[k]].key)
    ensures AllOneLine(NewLines(es, idx))
    ensures SectionAfter(NewLines(es, idx), cur) == cur
    ensures ValuesReadable(es) ==> Entries(NewLines(es, idx), cur) == Pick(es, idx)
  {
    hide KindOf, ValueAfter, NewLine, OneLine, Sound, Entries, SectionAfter, NewLines, Pick;
    if idx != [] {
      var e, more := es[idx[0]], idx[1..];
      NewLineRead(e);
      NewLinesRead(es, more, cur);
      NewLinesCons(es, idx);
      PickCons(es, idx);
      ReadOne(NewLine(e), cur);
      assert [NewLine(e)] + NewLines(es, more) == NewLines(es, idx);
      EntriesAppend([NewLine(e)], NewLines(es, more), cur);
    } else {
      assert NewLines(es, idx) == [] && Pick(es, idx) == [];
      ReadNone(cur);
    }
  }

  lemma ReadNone(cur: string)
    ensures Entries([], cur) == [] && SectionAfter([], cur) == cur
  {
  }

  lemma {:induction false} FlushFaithful(es: seq<Entry>, s: State)
    requires Faithful(es, s) && AllSound(es) && NamesReadable(es, []) && ValuesReadable(es)
    ensures Faithful(es, Flush(es, s, s.cur))
  {
    hide Sound, Entries, SectionAfter, OneLine, NewLine;
    var idx := Missing(es, s.log, s.cur, 0);
    NewLinesRead(es, idx, s.cur);
    AppendFaithful(es, s, NewLines(es, idx), idx, s.cur);
  }

  lemma {:induction false} StepFaithful(es: seq<Entry>, s: State, line: string)
    requires Faithful(es, s) && OneLine(line)
    requires AllSound(es) && NamesReadable(es, []) && ValuesReadable(es)
    ensures Faithful(es, Step(es, s, line))
  {
    hide KindOf, ValueAfter, Rewrite, Sound, OneLine, Entries, SectionAfter, NewLine;
    ReadOne(line, s.cur);
    match KindOf(line) {
      case Header(sec) =>
        if s.cur != "" { FlushFaithful(es, s); }
        var f := FlushCurrent(es, s);
        assert Pick(es, []) == [] && f.log + [] == f.log;
        AppendFaithful(es, f, [line], [], sec);
      case KeyValue(key, eq) =>
        var i := Find(es, s.log, s.cur, key, 0);
        if i < |es| {
          RewriteRead(line, key, eq, es[i]);
          ReadOne(Rewrite(line, eq, es[i].val), s.cur);
          assert Pick(es, [i]) == [es[i]];
          AppendFaithful(es, s, [Rewrite(line, eq, es[i].val)], [i], s.cur);
        }
      case Other =>
        assert Pick(es, []) == [] && s.log + [] == s.log;
        AppendFaithful(es, s, [line], [], s.cur);
    }
  }

  lemma {:induction false} AfterFaithful(es: seq<Entry>, s: State, lines: seq<string>)
    requires Faithful(es, s) && AllOneLine(lines)
    requires AllSound(es) && NamesReadable(es, []) && ValuesReadable(es)
    ensures Faithful(es, After(es, s, lines))
    decreases |lines|
  {
    hide Step, Faithful, OneLine, NamesReadable, ValuesReadable, AllSound;
    if lines != [] {
      TailOneLine(lines);
      StepFaithful(es, s, lines[0]);
      AfterFaithful(es, Step(es, s, lines[0]), lines[1..]);
    }
  }

  lemma {:induction false} AddSectionsFaithful(es: seq<Entry>, s: State, secs: seq<string>, prior: seq<string>)
    requires Faithful(es, s) && AllSoundSections(secs)
    requires AllSound(es) && NamesReadable(es, secs) && ValuesReadable(es)
    ensures Faithful(es, AddSections(es, s, secs, prior))
    decreases |secs|
  {
    hide Sound, OneLine, Entries, SectionAfter, NewLine, HasHeader, KindOf, SoundSection;
    if secs != [] {
      if HasHeader(prior, secs[0]) || Missing(es, s.log, secs[0], 0) == [] {
        AddSectionsFaithful(es, s, secs[1..], prior);
      } else {
        var t := State(s.out + SectionLines(secs[0]), s.log, secs[0]);
        SectionLinesRead(secs[0]);
        ReadOne("", s.cur);
        ReadOne("[" + secs[0] + "]", s.cur);
        EntriesAppend([""], ["[" + secs[0] + "]"], s.cur);
        assert SectionLines(secs[0]) == [""] + ["[" + secs[0] + "]"];
        assert Pick(es, []) == [] && s.log + [] == s.log;
        AppendFaithful(es, s, SectionLines(secs[0]), [], secs[0]);
        FlushFaithful(es, t);
        AddSectionsFaithful(es, Flush(es, t, secs[0]), secs[1..], prior);
      }
    }
  }

  lemma {:induction false} MergeFaithful(es: seq<Entry>, secs: seq<string>, prior: seq<string>)
    requires AllSound(es) && AllSoundSections(secs) && AllOneLine(prior)
    requires NamesReadable(es, secs) && ValuesReadable(es)
    ensures Faithful(es, MergeLines(es, secs, prior))
  {
    hide After, Flush, AddSections;
    assert Pick(es, []) == [];
    AfterFaithful(es, Start, prior);
    var a := After(es, Start, prior);
    if a.cur != "" { FlushFaithful(es, a); }
    AddSectionsFaithful(es, FlushCurrent(es, a), secs, prior);
  }

  // ----- what was logged and what was not make up the new text

  lemma {:induction false} RestRemove(es: seq<Entry>, log: seq<nat>, i: nat, n: nat) returns (a: seq<Entry>, b: seq<Entry>)
    requires i < n <= |es| && i !in log
    ensures Rest(es, log, n) == a + [es[i]] + b
    ensures Rest(es, log + [i], n) == a + b
  {
    if n - 1 == i {
      a, b := Rest(es, log, i), [];
      RestSame(es, log, i, i);
    } else {
      a, b := RestRemove(es, log, i, n - 1);
      var last := if n - 1 in log then [] else [es[n - 1]];
      assert (n - 1 in log + [i]) == (n - 1 in log);
      assert a + [es[i]] + b + last == a + [es[i]] + (b + last);
      b := b + last;
    }
  }

  lemma {:induction false} RestSame(es: seq<Entry>, log: seq<nat>, i: nat, n: nat)
    requires n <= i && n <= |es|
    ensures Rest(es, log + [i], n) == Rest(es, log, n)
  {
    if n > 0 {
      RestSame(es, log, i, n - 1);
      assert (n - 1 in log + [i]) == (n - 1 in log);
    }
  }

  lemma {:induction false} RestAll(es: seq<Entry>, n: nat)
    requires n <= |es|
    ensures Rest(es, [], n) == es[..n]
  {
    if n > 0 {
      RestAll(es, n - 1);
      assert es[..n] == es[..n - 1] + [es[n - 1]];
    }
  }

  /** How many entries stand under a section with a key. */
  function Count(es: seq<Entry>, sec: string, key: string): nat {
    if es == [] then 0
    else (if es[0].sec == sec && es[0].key == key then 1 else 0) + Count(es[1..], sec, key)
  }

  lemma {:induction false} CountAppend(a: seq<Entry>, b: seq<Entry>, sec: string, key: string)
    ensures Count(a + b, sec, key) == Count(a, sec, key) + Count(b, sec, key)
  {
    if a == [] {
      assert a + b == b;
    } else {
      assert (a + b)[0] == a[0] && (a + b)[1..] == a[1..] + b;
      CountAppend(a[1..], b, sec, key);
    }
  }

  lemma {:induction false} Partition(es: seq<Entry>, log: seq<nat>, sec: string, key: string)
    requires InRange(es, log) && Distinct(log)
    ensures multiset(es) == multiset(Pick(es, log)) + multiset(Rest(es, log, |es|))
    ensures Count(es, sec, key) == Count(Pick(es, log), sec, key) + Count(Rest(es, log, |es|), sec, key)
    decreases |log|
  {
    if log == [] {
      assert Pick(es, log) == [];
      RestAll(es, |es|);
      assert es[..|es|] == es;
    } else {
      var l, i := log[..|log| - 1], log[|log| - 1];
      assert log == l + [i];
      Partition(es, l, sec, key);
      var a, b := RestRemove(es, l, i, |es|);
      assert Pick(es, log) == Pick(es, l) + [es[i]];
      CountAppend(Pick(es, l), [es[i]], sec, key);
      CountAppend(a + [es[i]], b, sec, key);
      CountAppend(a, [es[i]], sec, key);
      CountAppend(a, b, sec, key);
    }
  }

  // ----- every entry under a named section is written

  ghost predicate Closed(es: seq<Entry>, log: seq<nat>, sec: string) {
    forall i | 0 <= i < |es| && es[i].sec == sec :: i in log
  }

  lemma {:induction false} FlushCloses(es: seq<Entry>, s: State, sec: string)
    ensures Closed(es, Flush(es, s, sec).log, sec)
  {
    var idx := Missing(es, s.log, sec, 0);
    forall i | 0 <= i < |es| && es[i].sec == sec ensures i in s.log + idx { }
  }

  lemma {:induction false} AfterCloses(es: seq<Entry>, s: State, lines: seq<string>, sec: string)
    requires sec != ""
    requires s.cur == sec || HasHeader(lines, sec) || Closed(es, s.log, sec)
    ensures Closed(es, FlushCurrent(es, After(es, s, lines)).log, sec)
    decreases |lines|
  {
    hide KindOf, NewLine, Rewrite;
    if lines == [] {
      FlushCloses(es, s, s.cur);
    } else {
      FlushCloses(es, s, s.cur);
      var t := Step(es, s, lines[0]);
      assert s.log <= t.log;
      if HasHeader(lines, sec) && KindOf(lines[0]) != Header(sec) {
        var i :| 0 <= i < |lines| && KindOf(lines[i]) == Header(sec);
        assert lines[1..][i - 1] == lines[i];
      }
      AfterCloses(es, t, lines[1..], sec);
    }
  }

  lemma {:induction false} AddSectionsCloses(es: seq<Entry>, s: State, secs: seq<string>, prior: seq<string>, sec: string)
    requires Closed(es, s.log, sec) || (sec in secs && !HasHeader(prior, sec))
    ensures Closed(es, AddSections(es, s, secs, prior).log, sec)
    decreases |secs|
  {
    hide HasHeader, NewLine;
    if secs != [] {
      if HasHeader(prior, secs[0]) || Missing(es, s.log, secs[0], 0) == [] {
        AddSectionsCloses(es, s, secs[1..], prior, sec);
      } else {
        var t := Flush(es, State(s.out + SectionLines(secs[0]), s.log, secs[0]), secs[0]);
        FlushCloses(es, State(s.out + SectionLines(secs[0]), s.log, secs[0]), secs[0]);
        assert s.log <= t.log;
        AddSectionsCloses(es, t, secs[1..], prior, sec);
      }
    }
  }
}
