/** src/inimerge.c: the merge as it runs, loop by loop, against IniMergeSpec.Merge. */
module IniMerge {
  import opened CText
  import opened IniText
  import opened IniMergeSpec
  import opened IniMeaning

  // ----- scanning

  /** Moves from b to the first character the scan stops at, or to e. */
  method Scan(s: string, b: nat, e: nat, stop: Stop) returns (r: nat)
    requires b <= e <= |s|
    ensures r == First(s, b, e, stop)
  {
    r := b;
    while r < e && !stop.At(s[r])
      invariant b <= r <= e
      invariant First(s, r, e, stop) == First(s, b, e, stop)
    {
      r := r + 1;
    }
  }

  method CopyTrimmed(s: string, b: nat, e: nat, sz: nat) returns (r: string)
    requires b <= e <= |s| && sz > 0
    ensures r == Copy(Trim(s, b, e), sz)
  {
    var lo := Scan(s, b, e, NonBlank);
    var hi := e;
    while hi > lo && IsTailBlank(s[hi - 1])
      invariant lo <= hi <= e
      invariant TailEnd(s, lo, hi) == TailEnd(s, lo, e)
    {
      hi := hi - 1;
    }
    r := s[lo..hi];
    if |r| >= sz {
      r := r[..sz - 1];
    }
  }

  method ReadSection(line: string) returns (sec: Option<string>)
    ensures sec == ParseSection(line)
  {
    var b := Scan(line, 0, |line|, NonBlank);
    if b >= |line| || line[b] != '[' {
      return None;
    }
    var close := Scan(line, b + 1, |line|, CloseBracket);
    if close >= |line| {
      return None;
    }
    var name := CopyTrimmed(line, b + 1, close, SEC_LEN);
    sec := Some(Canonical(name));
  }

  method FindComment(line: string) returns (c: nat)
    ensures c == CommentAt(line)
  {
    c := Scan(line, 0, |line|, CommentStart);
  }

  method ReadKeyValue(line: string) returns (kv: Option<KeyAt>)
    ensures kv == ParseKeyValue(line)
  {
    var lim := FindComment(line);
    var eq := Scan(line, 0, lim, Equals);
    if eq >= lim {
      return None;
    }
    var key := CopyTrimmed(line, 0, eq, KEY_LEN);
    if key == "" {
      return None;
    }
    kv := Some(KeyAt(key, eq));
  }

  // ----- walking a text line by line

  lemma {:induction false} FirstShift(s: string, p: nat, b: nat, stop: Stop)
    requires p <= b <= |s|
    ensures First(s[p..], b - p, |s| - p, stop) == First(s, b, |s|, stop) - p
  {
    var t := s[p..];
    var r := First(s, b, |s|, stop) - p;
    forall i | b - p <= i < r ensures !stop.At(t[i]) {
      assert t[i] == s[p + i];
    }
    FirstIs(t, b - p, |t|, stop, r);
  }

  lemma {:induction false} LinesStep(t: string, e: nat)
    requires t != "" && e == First(t, 0, |t|, Newline)
    ensures Lines(t) == [t[..e]] + Lines(if e < |t| then t[e + 1..] else "")
  {
    hide First;
  }

  lemma {:induction false} LinesFrom(text: string, p: nat, e: nat)
    requires p < |text| && e == First(text, p, |text|, Newline)
    ensures Lines(text[p..]) == [text[p..e]] + Lines(text[if e < |text| then e + 1 else e..])
  {
    hide First, Lines;
    var t := text[p..];
    assert First(t, 0, |t|, Newline) == e - p by { FirstShift(text, p, p, Newline); }
    LinesStep(t, e - p);
    assert t[..e - p] == text[p..e];
    assert e < |text| ==> t[e - p + 1..] == text[e + 1..];
    assert e == |text| ==> text[e..] == "";
  }

  /** The line that starts at p, and where the next one starts. */
  method NextLine(text: string, p: nat) returns (line: string, next: nat)
    requires p < |text|
    ensures p < next <= |text|
    ensures Lines(text[p..]) == [line] + Lines(text[next..])
  {
    hide Lines, First;
    var e := Scan(text, p, |text|, Newline);
    line := text[p..e];
    next := if e < |text| then e + 1 else e;
    LinesFrom(text, p, e);
  }

  // ----- the index of the new text

  lemma {:induction false} SectionsGrow(lines: seq<string>, known: seq<string>)
    ensures |known| <= |Sections(lines, known)|
  {
    hide KindOf;
    if lines != [] {
      if KindOf(lines[0]).Header? && KindOf(lines[0]).sec !in known {
        SectionsGrow(lines[1..], known + [KindOf(lines[0]).sec]);
      } else {
        SectionsGrow(lines[1..], known);
      }
    }
  }

  method IsKnown(secs: seq<string>, sec: string) returns (known: bool)
    ensures known <==> sec in secs
  {
    for i := 0 to |secs|
      invariant sec !in secs[..i]
    {
      if secs[i] == sec {
        return true;
      }
    }
    return false;
  }

  datatype NewText = NewText(entries: seq<Entry>, secs: seq<string>)

  /** The entries and sections of the new text, or nothing when a table is full. */
  method IndexNew(text: string) returns (r: Option<NewText>)
    ensures var es, secs := Entries(Lines(text), ""), Sections(Lines(text), []);
            r == if |es| > MAX_ENTRIES || |secs| > MAX_SECTIONS then None else Some(NewText(es, secs))
  {
    hide ParseSection, ParseKeyValue, ValueAfter, Lines;
    ghost var es, secs := Entries(Lines(text), ""), Sections(Lines(text), []);
    var cur := "";
    var ents: seq<Entry>, names: seq<string> := [], [];
    var p := 0;
    assert text[0..] == text;
    while p < |text|
      invariant p <= |text|
      invariant |ents| <= MAX_ENTRIES && |names| <= MAX_SECTIONS
      invariant ents + Entries(Lines(text[p..]), cur) == es
      invariant Sections(Lines(text[p..]), names) == secs
      decreases |text| - p
    {
      var line, next := NextLine(text, p);
      ghost var rest := Lines(text[next..]);
      assert ([line] + rest)[1..] == rest;
      var sec := ReadSection(line);
      if sec.Some? {
        cur := sec.value;
        var known := IsKnown(names, cur);
        if !known {
          SectionsGrow(rest, names + [cur]);
          assert Sections(rest, names + [cur]) == secs;
          if |names| >= MAX_SECTIONS {
            assert |secs| > MAX_SECTIONS;
            return None;
          }
          names := names + [cur];
        }
      } else {
        var kv := ReadKeyValue(line);
        if kv.Some? {
          var cm := FindComment(line);
          var val := CopyTrimmed(line, kv.value.eq + 1, cm, VAL_LEN);
          var e := Entry(cur, kv.value.key, val);
          assert val == ValueAfter(line, kv.value.eq) by { ValueAfterIs(line, kv.value.eq); }
          assert ents + ([e] + Entries(rest, cur)) == ents + [e] + Entries(rest, cur);
          assert ents + [e] + Entries(rest, cur) == es;
          if |ents| >= MAX_ENTRIES {
            assert |es| > MAX_ENTRIES;
            return None;
          }
          ents := ents + [e];
        }
      }
      p := next;
    }
    assert text[p..] == "";
    assert Lines("") == [] by { LinesNone(); }
    assert Entries([], cur) == [] && Sections([], names) == names;
    assert ents == es && names == secs;
    r := Some(NewText(ents, names));
  }

  lemma ValueAfterIs(line: string, eq: nat)
    requires eq < CommentAt(line)
    ensures ValueAfter(line, eq) == Copy(Trim(line, eq + 1, CommentAt(line)), VAL_LEN)
  {
  }

  lemma LinesNone()
    ensures Lines("") == []
  {
  }

  // ----- bounded output

  /** The output buffer: full is all that was asked to be written. */
  class Out {
    const buf: array<char>
    var len: nat
    var ok: bool
    ghost var full: string

    ghost predicate Valid()
      reads this, buf
    {
      if ok then |full| == len < buf.Length && buf[..len] == full && buf[len] == '\0'
      else |full| + 1 > buf.Length
    }

    constructor (out: array<char>)
      requires out.Length > 0
      modifies out
      ensures Valid() && buf == out && full == ""
    {
      buf, len, ok, full := out, 0, true, "";
      new;
      buf[0] := '\0';
    }

    method Emit(s: string)
      requires Valid()
      modifies this, buf
      ensures Valid() && full == old(full) + s
    {
      full := full + s;
      if !ok {
        return;
      }
      if len + |s| + 1 > buf.Length {
        ok := false;
        return;
      }
      forall i | 0 <= i < |s| {
        buf[len + i] := s[i];
      }
      len := len + |s|;
      buf[len] := '\0';
    }
  }

  // ----- the done flags

  /** done[i] says that entry i is in the log. */
  ghost predicate Flags(done: array<bool>, n: nat, log: seq<nat>)
    reads done
  {
    n <= done.Length && forall i | 0 <= i < n :: done[i] <==> i in log
  }

  method FindEntry(es: seq<Entry>, done: array<bool>, sec: string, key: string, ghost log: seq<nat>)
    returns (i: nat)
    requires Flags(done, |es|, log)
    ensures i == Find(es, log, sec, key, 0)
  {
    i := 0;
    while i < |es| && (done[i] || es[i].sec != sec || es[i].key != key)
      invariant i <= |es|
      invariant Find(es, log, sec, key, i) == Find(es, log, sec, key, 0)
    {
      i := i + 1;
    }
  }

  lemma {:induction false} UnlinesOne(line: string)
    ensures Unlines([line]) == line + "\n"
  {
    assert Unlines([]) == "";
  }

  lemma {:induction false} UnlinesSnoc(out: seq<string>, line: string)
    ensures Unlines(out + [line]) == Unlines(out) + (line + "\n")
  {
    UnlinesAppend(out, [line]);
    UnlinesOne(line);
  }

  /** "key = value", the pieces written one after the other. */
  method WriteEntry(o: Out, e: Entry, ghost out: seq<string>)
    requires o.Valid() && o.full == Unlines(out)
    modifies o, o.buf
    ensures o.Valid() && o.full == Unlines(out + [NewLine(e)])
  {
    o.Emit(e.key);
    o.Emit(" = ");
    o.Emit(e.val);
    o.Emit("\n");
    UnlinesSnoc(out, NewLine(e));
    assert Unlines(out) + e.key + " = " + e.val + "\n" == Unlines(out) + (NewLine(e) + "\n");
  }

  lemma FlagOne(done: array<bool>, n: nat, log: seq<nat>, i: nat)
    requires n <= done.Length && i < n && done[i]
    requires forall j | 0 <= j < n && j != i :: done[j] <==> j in log
    ensures Flags(done, n, log + [i])
  {
  }

  /** Flushing one entry at a time. */
  function FlushFrom(es: seq<Entry>, s: State, sec: string, i: nat): State
    requires i <= |es|
    decreases |es| - i
  {
    if i == |es| then s
    else if i !in s.log && es[i].sec == sec then
      FlushFrom(es, State(s.out + [NewLine(es[i])], s.log + [i], s.cur), sec, i + 1)
    else FlushFrom(es, s, sec, i + 1)
  }

  /** The first candidate is missing or not, and the others are looked at without it. */
  lemma {:induction false} MissingFirst(es: seq<Entry>, log: seq<nat>, sec: string, i: nat)
    requires i < |es|
    ensures if i !in log && es[i].sec == sec then Missing(es, log, sec, i) == [i] + Missing(es, log + [i], sec, i + 1)
            else Missing(es, log, sec, i) == Missing(es, log, sec, i + 1)
  {
    hide Missing;
    MissingStep(es, log, sec, i);
    MissingLater(es, log, sec, i, i + 1);
  }

  lemma {:induction false} FlushedFirst(es: seq<Entry>, s: State, i: nat, more: seq<nat>)
    requires i < |es| && InRange(es, more)
    ensures s.out + [NewLine(es[i])] + NewLines(es, more) == s.out + NewLines(es, [i] + more)
    ensures s.log + [i] + more == s.log + ([i] + more)
  {
    hide NewLine;
    assert ([i] + more)[1..] == more;
    NewLinesCons(es, [i] + more);
  }

  lemma {:induction false} FlushFromIs(es: seq<Entry>, s: State, sec: string, i: nat)
    requires i <= |es|
    ensures var idx := Missing(es, s.log, sec, i);
            FlushFrom(es, s, sec, i) == State(s.out + NewLines(es, idx), s.log + idx, s.cur)
    decreases |es| - i
  {
    hide NewLine, NewLines, Missing;
    if i == |es| {
      MissingStep(es, s.log, sec, |es|);
      NoNewLines(es, s.out);
      assert s.log + [] == s.log;
    } else {
      MissingFirst(es, s.log, sec, i);
      if i !in s.log && es[i].sec == sec {
        FlushFromIs(es, State(s.out + [NewLine(es[i])], s.log + [i], s.cur), sec, i + 1);
        FlushedFirst(es, s, i, Missing(es, s.log + [i], sec, i + 1));
      } else {
        FlushFromIs(es, s, sec, i + 1);
      }
    }
  }

  method FlushSection(o: Out, es: seq<Entry>, done: array<bool>, sec: string, ghost s: State)
    requires o.Valid() && o.full == Unlines(s.out) && Flags(done, |es|, s.log)
    modifies o, o.buf, done
    ensures o.Valid() && o.full == Unlines(Flush(es, s, sec).out)
    ensures Flags(done, |es|, Flush(es, s, sec).log)
  {
    hide Unlines, NewLine, Flush;
    ghost var t := s;
    for i := 0 to |es|
      invariant o.Valid() && o.full == Unlines(t.out) && Flags(done, |es|, t.log)
      invariant FlushFrom(es, t, sec, i) == FlushFrom(es, s, sec, 0)
    {
      if done[i] || es[i].sec != sec {
        continue;
      }
      WriteEntry(o, es[i], t.out);
      done[i] := true;
      FlagOne(done, |es|, t.log, i);
      t := State(t.out + [NewLine(es[i])], t.log + [i], t.cur);
    }
    assert t == Flush(es, s, sec) by { FlushIs(es, s, sec); }
  }

  lemma {:induction false} FlushIs(es: seq<Entry>, s: State, sec: string)
    ensures FlushFrom(es, s, sec, 0) == Flush(es, s, sec)
  {
    FlushFromIs(es, s, sec, 0);
  }

  lemma {:induction false} NoNewLines(es: seq<Entry>, out: seq<string>)
    ensures out + NewLines(es, []) == out
  {
    assert NewLines(es, []) == [];
  }

  // ----- the merge

  method WriteLine(o: Out, line: string, ghost out: seq<string>)
    requires o.Valid() && o.full == Unlines(out)
    modifies o, o.buf
    ensures o.Valid() && o.full == Unlines(out + [line])
  {
    o.Emit(line);
    o.Emit("\n");
    UnlinesSnoc(out, line);
    assert Unlines(out) + line + "\n" == Unlines(out) + (line + "\n");
  }

  method WriteSpaces(o: Out, n: nat)
    requires o.Valid()
    modifies o, o.buf
    ensures o.Valid() && o.full == old(o.full) + Spaces(n)
  {
    for i := 0 to n
      invariant o.Valid() && o.full == old(o.full) + Spaces(i)
    {
      o.Emit(" ");
      assert Spaces(i) + " " == Spaces(i + 1);
    }
  }

  /** A key line with its new value, the comment put back in its column. */
  method WriteRewritten(o: Out, line: string, eq: nat, val: string, ghost out: seq<string>)
    requires o.Valid() && o.full == Unlines(out) && eq < CommentAt(line)
    modifies o, o.buf
    ensures o.Valid() && o.full == Unlines(out + [Rewrite(line, eq, val)])
  {
    hide Unlines, CommentAt, Spaces;
    ghost var before := o.full;
    o.Emit(line[..eq + 1]);
    o.Emit(" ");
    o.Emit(val);
    var cm := FindComment(line);
    if cm < |line| {
      var oldw := cm - (eq + 1);
      var neww := 1 + |val|;
      WriteSpaces(o, if oldw > neww then oldw - neww else 2);
      o.Emit(line[cm..]);
    }
    o.Emit("\n");
    ghost var r := Rewrite(line, eq, val);
    assert o.full == before + (r + "\n") by { RewritePieces(line, eq, val, before); }
    UnlinesSnoc(out, r);
  }

  lemma {:induction false} RewritePieces(line: string, eq: nat, val: string, before: string)
    requires eq < CommentAt(line)
    ensures var c := CommentAt(line);
            before + (Rewrite(line, eq, val) + "\n") ==
            if c == |line| then before + line[..eq + 1] + " " + val + "\n"
            else before + line[..eq + 1] + " " + val + Spaces(Padding(line, eq, val)) + line[c..] + "\n"
  {
    hide CommentAt, Spaces, Padding;
  }

  method HasMissing(es: seq<Entry>, done: array<bool>, sec: string, ghost log: seq<nat>) returns (any: bool)
    requires Flags(done, |es|, log)
    ensures any <==> Missing(es, log, sec, 0) != []
  {
    any := false;
    var j := 0;
    while j < |es| && !any
      invariant j <= |es|
      invariant if any then Missing(es, log, sec, 0) != []
                else Missing(es, log, sec, j) == Missing(es, log, sec, 0)
    {
      any := !done[j] && es[j].sec == sec;
      j := j + 1;
    }
  }

  /** seen[i] says that section i stands among the lines read. */
  ghost predicate Seen(seen: array<bool>, secs: seq<string>, read: seq<string>)
    reads seen
  {
    |secs| <= seen.Length && forall i | 0 <= i < |secs| :: seen[i] <==> HasHeader(read, secs[i])
  }

  lemma {:induction false} HeaderSnoc(read: seq<string>, line: string, sec: string)
    ensures HasHeader(read + [line], sec) <==> HasHeader(read, sec) || KindOf(line) == Header(sec)
  {
    hide KindOf;
    var all := read + [line];
    if HasHeader(read, sec) {
      var i :| 0 <= i < |read| && KindOf(read[i]) == Header(sec);
      assert all[i] == read[i];
    }
    if KindOf(line) == Header(sec) {
      assert all[|read|] == line;
    }
  }

  method MarkSeen(secs: seq<string>, seen: array<bool>, cur: string, ghost read: seq<string>, ghost line: string)
    requires Seen(seen, secs, read) && KindOf(line) == Header(cur)
    modifies seen
    ensures Seen(seen, secs, read + [line])
  {
    hide KindOf, HasHeader;
    for i := 0 to |secs|
      invariant forall j | 0 <= j < i :: seen[j] <==> HasHeader(read + [line], secs[j])
      invariant forall j | i <= j < |secs| :: seen[j] <==> HasHeader(read, secs[j])
    {
      HeaderSnoc(read, line, secs[i]);
      if secs[i] == cur {
        seen[i] := true;
      }
    }
  }

  lemma {:induction false} SeenSame(seen: array<bool>, secs: seq<string>, read: seq<string>, line: string)
    requires Seen(seen, secs, read) && !KindOf(line).Header?
    ensures Seen(seen, secs, read + [line])
  {
    hide KindOf, HasHeader;
    forall i | 0 <= i < |secs| ensures seen[i] <==> HasHeader(read + [line], secs[i]) {
      HeaderSnoc(read, line, secs[i]);
    }
  }

  /** One line of the old text. */
  method MergeLine(o: Out, es: seq<Entry>, done: array<bool>, secs: seq<string>, seen: array<bool>,
                   cur: string, line: string, ghost s: State, ghost read: seq<string>)
    returns (cur': string)
    requires done != seen
    requires o.Valid() && o.full == Unlines(s.out) && s.cur == cur
    requires Flags(done, |es|, s.log) && Seen(seen, secs, read)
    modifies o, o.buf, done, seen
    ensures var t := Step(es, s, line);
            && o.Valid() && o.full == Unlines(t.out) && t.cur == cur'
            && Flags(done, |es|, t.log) && Seen(seen, secs, read + [line])
  {
    hide ParseSection, ParseKeyValue, Rewrite, Unlines, CommentAt, Missing, Find, HasHeader, Flush;
    var sec := ReadSection(line);
    cur' := cur;
    if sec.Some? {
      if cur != "" {
        FlushSection(o, es, done, cur, s);
      }
      cur' := sec.value;
      MarkSeen(secs, seen, cur', read, line);
      WriteLine(o, line, FlushCurrent(es, s).out);
    } else {
      SeenSame(seen, secs, read, line);
      var kv := ReadKeyValue(line);
      if kv.Some? {
        var found := FindEntry(es, done, cur, kv.value.key, s.log);
        if found < |es| {
          WriteRewritten(o, line, kv.value.eq, es[found].val, s.out);
          done[found] := true;
          FlagOne(done, |es|, s.log, found);
        }
      } else {
        WriteLine(o, line, s.out);
      }
    }
  }

  /** Sections that the old text lacks, at the end. */
  method WriteNewSections(o: Out, es: seq<Entry>, done: array<bool>, secs: seq<string>, seen: array<bool>,
                          ghost s: State, ghost prior: seq<string>)
    requires o.Valid() && o.full == Unlines(s.out)
    requires Flags(done, |es|, s.log) && Seen(seen, secs, prior) && done != seen
    modifies o, o.buf, done
    ensures o.Valid() && o.full == Unlines(AddSections(es, s, secs, prior).out)
  {
    hide Unlines, HasHeader, Flush;
    ghost var t := s;
    assert secs[0..] == secs;
    for i := 0 to |secs|
      invariant o.Valid() && o.full == Unlines(t.out)
      invariant Flags(done, |es|, t.log)
      invariant AddSections(es, t, secs[i..], prior) == AddSections(es, s, secs, prior)
    {
      assert secs[i..][0] == secs[i] && secs[i..][1..] == secs[i + 1..];
      if seen[i] {
        continue;
      }
      var any := HasMissing(es, done, secs[i], t.log);
      if !any {
        continue;
      }
      o.Emit("\n[");
      o.Emit(secs[i]);
      o.Emit("]\n");
      UnlinesSection(t.out, secs[i]);
      t := State(t.out + SectionLines(secs[i]), t.log, secs[i]);
      FlushSection(o, es, done, secs[i], t);
      t := Flush(es, t, secs[i]);
    }
    assert secs[|secs|..] == [];
  }

  lemma {:induction false} UnlinesSection(out: seq<string>, sec: string)
    ensures Unlines(out + SectionLines(sec)) == Unlines(out) + "\n[" + sec + "]\n"
  {
    UnlinesSnoc(out, "");
    UnlinesSnoc(out + [""], "[" + sec + "]");
    assert out + [""] + ["[" + sec + "]"] == out + SectionLines(sec);
    assert Unlines(out) + ("" + "\n") + ("[" + sec + "]" + "\n") == Unlines(out) + "\n[" + sec + "]\n";
  }

  /** ini_merge: the merged text and its length, or -1 when the new text is over
      the table bounds or the result does not fit with its NUL. */
  method Run(oldText: string, newText: string, out: array<char>) returns (n: int)
    modifies out
    ensures match Merge(oldText, newText)
            case None => n == -1
            case Some(text) =>
              if |text| + 1 > out.Length then n == -1
              else n == |text| && out[..n] == text && out[n] == '\0'
  {
    hide Unlines, Lines, Step, AddSections, HasHeader, Flush, Entries, Sections;
    var index := IndexNew(newText);
    if out.Length == 0 || index.None? {
      return -1;
    }
    var es, secs := index.value.entries, index.value.secs;
    var done := new bool[MAX_ENTRIES](_ => false);
    var seen := new bool[MAX_SECTIONS](_ => false);
    var o := new Out(out);
    var cur := "";
    ghost var s, read, prior := Start, [], Lines(oldText);
    assert oldText[0..] == oldText;
    assert Unlines([]) == "" by { UnlinesNone(); }
    assert Seen(seen, secs, []) by { NoHeaders(secs); }
    var p := 0;
    while p < |oldText|
      invariant p <= |oldText|
      invariant o.buf == out && o.Valid() && o.full == Unlines(s.out) && s.cur == cur
      invariant Flags(done, |es|, s.log) && Seen(seen, secs, read)
      invariant read + Lines(oldText[p..]) == prior
      invariant After(es, s, Lines(oldText[p..])) == After(es, Start, prior)
      decreases |oldText| - p
    {
      var line, next := NextLine(oldText, p);
      ghost var rest := Lines(oldText[next..]);
      assert ([line] + rest)[1..] == rest;
      assert read + ([line] + rest) == read + [line] + rest;
      cur := MergeLine(o, es, done, secs, seen, cur, line, s, read);
      s, read := Step(es, s, line), read + [line];
      p := next;
    }
    assert oldText[p..] == "";
    LinesNone();
    assert read == prior;
    if cur != "" {
      FlushSection(o, es, done, cur, s);
    }
    WriteNewSections(o, es, done, secs, seen, FlushCurrent(es, s), prior);
    n := if o.ok then o.len else -1;
  }

  lemma UnlinesNone()
    ensures Unlines([]) == ""
  {
  }

  lemma NoHeaders(secs: seq<string>)
    ensures forall i | 0 <= i < |secs| :: !HasHeader([], secs[i])
  {
  }
}
