/** The file of pairs between the daemon and the frame filter, and what the
    filter drops: src/daemon.c (dropset_write) and src/canfilter.c. */
module CanFilter {
  import opened CText
  import opened CNumber
  import opened DropSet
  import opened DropHistory
  import opened DropKeys

  const FDROP_MAX := 128
  const FILE_LINE := 128

  /** A line of the file, without its line feed. */
  function PairLine(p: Pair): string { Decimal(p.pgn) + " " + Decimal(p.src) }

  /** The comment lines that open the file: any that the reader's buffer can hold. */
  ghost predicate Notes(notes: seq<string>) {
    forall i | 0 <= i < |notes| ::
      notes[i] != "" && notes[i][0] == '#' && OneLine(notes[i]) && |notes[i]| + 2 <= FILE_LINE
  }

  function PairLines(ps: seq<Pair>): (r: seq<string>)
    ensures |r| == |ps| && forall i | 0 <= i < |r| :: r[i] == PairLine(ps[i])
  {
    seq(|ps|, i requires 0 <= i < |ps| => PairLine(ps[i]))
  }

  function File(notes: seq<string>, ps: seq<Pair>): string { Unlines(notes + PairLines(ps)) }

  datatype Scanned = Scanned(value: int, rest: string)

  function AfterDigits(t: string): string {
    if t != "" && IsDigit(t[0]) then AfterDigits(t[1..]) else t
  }

  /** %d of sscanf: blanks, a sign, at least one digit. */
  function ScanInt(t: string): Option<Scanned> {
    if t != "" && IsSpace(t[0]) then ScanInt(t[1..])
    else
      var u := if t != "" && (t[0] == '-' || t[0] == '+') then t[1..] else t;
      if u != "" && IsDigit(u[0]) then Some(Scanned(ToInt(Strtol(t)), AfterDigits(u))) else None
  }

  /** A line of the file as the filter reads it: comments and anything else give nothing. */
  function ReadPair(line: string): Option<Pair> {
    if line != "" && line[0] == '#' then None
    else
      match ScanInt(line)
      case None => None
      case Some(a) =>
        match ScanInt(a.rest)
        case None => None
        case Some(b) => Some(Pair(a.value, b.value))
  }

  /** drop_load: the first max pairs of the lines. */
  function Loaded(lines: seq<string>, max: nat): (r: seq<Pair>)
    ensures |r| <= max
  {
    if lines == [] || max == 0 then []
    else
      match ReadPair(lines[0])
      case None => Loaded(lines[1..], max)
      case Some(p) => [p] + Loaded(lines[1..], max - 1)
  }

  method Load(lines: seq<string>, max: nat) returns (set': seq<Pair>)
    ensures set' == Loaded(lines, max)
  {
    set' := [];
    var i := 0;
    assert lines[0..] == lines && [] + Loaded(lines, max) == Loaded(lines, max);
    while |set'| < max && i < |lines|
      invariant i <= |lines| && |set'| <= max
      invariant set' + Loaded(lines[i..], max - |set'|) == Loaded(lines, max)
    {
      assert lines[i..][0] == lines[i] && lines[i..][1..] == lines[i + 1..];
      var p := ReadPair(lines[i]);
      if p.Some? {
        assert set' + ([p.value] + Loaded(lines[i + 1..], max - |set'| - 1)) ==
               set' + [p.value] + Loaded(lines[i + 1..], max - |set'| - 1);
        set' := set' + [p.value];
      }
      i := i + 1;
    }
    assert i == |lines| ==> lines[i..] == [];
  }

  /** drop_has: src -1 in the set stands for every source. */
  method Has(drops: seq<Pair>, pgn: int, src: int) returns (b: bool)
    ensures b <==> Pair(pgn, src) in drops || Pair(pgn, -1) in drops
  {
    for i := 0 to |drops|
      invariant Pair(pgn, src) !in drops[..i] && Pair(pgn, -1) !in drops[..i]
    {
      if drops[i].pgn == pgn && (drops[i].src == src || drops[i].src == -1) {
        assert drops[i] in drops;
        return true;
      }
    }
    return false;
  }

  // ----- the file is read back

  ghost predicate IntPairs(ps: seq<Pair>) {
    forall i | 0 <= i < |ps| :: IsInt(ps[i].pgn) && IsInt(ps[i].src)
  }

  lemma {:induction false} DigitsPassed(s: string, rest: string)
    requires forall i | 0 <= i < |s| :: IsDigit(s[i])
    requires NoDigitFirst(rest)
    ensures AfterDigits(s + rest) == rest
  {
    if s == "" {
      assert s + rest == rest;
    } else {
      assert (s + rest)[0] == s[0] && (s + rest)[1..] == s[1..] + rest;
      DigitsPassed(s[1..], rest);
    }
  }

  lemma {:induction false} ScanDecimal(n: int, rest: string)
    requires IsInt(n) && NoDigitFirst(rest)
    ensures ScanInt(Decimal(n) + rest) == Some(Scanned(n, rest))
  {
    hide Strtol, Digits;
    var t := Decimal(n) + rest;
    DecimalRead(n, rest);
    if n < 0 {
      assert t[1..] == Digits(-n) + rest;
      assert (Digits(-n) + rest)[0] == Digits(-n)[0];
      DigitsPassed(Digits(-n), rest);
    } else {
      assert t[0] == Digits(n)[0];
      DigitsPassed(Digits(n), rest);
    }
  }

  lemma {:induction false} PairRead(p: Pair)
    requires IsInt(p.pgn) && IsInt(p.src)
    ensures ReadPair(PairLine(p)) == Some(p)
  {
    hide ScanInt, Decimal;
    var line := PairLine(p);
    assert line == Decimal(p.pgn) + (" " + Decimal(p.src));
    ScanDecimal(p.pgn, " " + Decimal(p.src));
    assert line[0] == Decimal(p.pgn)[0];
    SpaceSkipped(Decimal(p.src));
    ScanDecimal(p.src, "");
    assert Decimal(p.src) + "" == Decimal(p.src);
  }

  lemma {:induction false} SpaceSkipped(t: string)
    ensures ScanInt(" " + t) == ScanInt(t)
  {
    assert (" " + t)[1..] == t;
  }

  lemma {:induction false} PairsRead(ps: seq<Pair>, max: nat)
    requires IntPairs(ps)
    ensures Loaded(PairLines(ps), max) == if |ps| <= max then ps else ps[..max]
  {
    hide ReadPair, PairLine;
    if ps != [] && max > 0 {
      PairRead(ps[0]);
      assert PairLines(ps)[1..] == PairLines(ps[1..]);
      PairsRead(ps[1..], max - 1);
    } else if ps == [] {
      assert PairLines(ps) == [];
    }
  }

  lemma {:induction false} DecimalShort(n: int)
    requires IsInt(n)
    ensures |Decimal(n)| <= 11
    ensures OneLine(Decimal(n))
  {
    DigitsShort(if n < 0 then -n else n, 10);
  }

  /** The lines of the file, none longer than the reader's buffer. */
  lemma {:induction false} FileLines(notes: seq<string>, ps: seq<Pair>)
    requires Notes(notes) && IntPairs(ps)
    ensures Lines(File(notes, ps)) == notes + PairLines(ps)
    ensures forall i | 0 <= i < |Lines(File(notes, ps))| :: |Lines(File(notes, ps))[i]| + 2 <= FILE_LINE
  {
    hide Lines, Unlines, Decimal, OneLine;
    var ls := notes + PairLines(ps);
    forall i | 0 <= i < |ls| ensures OneLine(ls[i]) && |ls[i]| + 2 <= FILE_LINE {
      if i < |notes| {
        assert ls[i] == notes[i];
      } else {
        var p := ps[i - |notes|];
        assert ls[i] == PairLine(p);
        DecimalShort(p.pgn);
        DecimalShort(p.src);
        PairOneLine(p);
      }
    }
    LinesUnlines(ls);
  }

  lemma {:induction false} PairOneLine(p: Pair)
    requires OneLine(Decimal(p.pgn)) && OneLine(Decimal(p.src))
    ensures OneLine(PairLine(p))
  {
    hide Decimal;
  }

  lemma {:induction false} NotesSkipped(notes: seq<string>, lines: seq<string>, max: nat)
    requires Notes(notes)
    ensures Loaded(notes + lines, max) == Loaded(lines, max)
  {
    hide ReadPair, OneLine;
    if notes == [] {
      assert notes + lines == lines;
    } else if max > 0 {
      var all := notes + lines;
      assert all[0] == notes[0] && all[1..] == notes[1..] + lines;
      assert ReadPair(notes[0]) == None by { NoteSkipped(notes[0]); }
      NotesSkipped(notes[1..], lines, max);
    }
  }

  lemma NoteSkipped(line: string)
    requires line != "" && line[0] == '#'
    ensures ReadPair(line) == None
  {
  }

  /** The filter holds the pairs of the file in their order, the first 128 when there are more. */
  lemma {:induction false} FileRead(notes: seq<string>, ps: seq<Pair>)
    requires Notes(notes) && IntPairs(ps)
    ensures Loaded(Lines(File(notes, ps)), FDROP_MAX) == if |ps| <= FDROP_MAX then ps else ps[..FDROP_MAX]
  {
    hide Loaded, Lines, File, Notes, IntPairs;
    FileLines(notes, ps);
    PairsRead(ps, FDROP_MAX);
    NotesSkipped(notes, PairLines(ps), FDROP_MAX);
  }

  // ----- from verdicts to frames

  /** The set the filter loads after a publication. */
  function Drops(notes: seq<string>, ops: seq<Op>, now: nat, noN2k: seq<int>): seq<Pair> {
    var t := Run(ops + [Publish(now)]);
    Loaded(Lines(File(notes, Published(t, |t|) + Wildcards(noN2k))), FDROP_MAX)
  }

  ghost predicate IntVerdicts(ops: seq<Op>) {
    forall x | x in Verdicts(ops) :: IsInt(x.pair.pgn) && IsInt(x.pair.src)
  }

  /** A frame is dropped only for a PGN cut for every source, or when its
      sender lost its latest verdict for the PGN within the last 8000 ms. */
  lemma {:induction false} OnlyLosersDropped(notes: seq<string>, ops: seq<Op>, now: nat, noN2k: seq<int>, pgn: int, src: int)
    requires Notes(notes) && Trusted(ops, now) && IntVerdicts(ops)
    requires forall x | x in Verdicts(ops) :: x.pair.src >= 0
    requires forall k | 0 <= k < |noN2k| :: IsInt(noN2k[k])
    requires Pair(pgn, src) in Drops(notes, ops, now, noN2k) || Pair(pgn, -1) in Drops(notes, ops, now, noN2k)
    ensures pgn in noN2k || (
              var l := Latest(Verdicts(ops), Pair(pgn, src));
              l.Some? && l.value.loser && l.value.time <= now && now - l.value.time <= DROP_TIMEOUT_MS)
  {
    hide Run, Published, Loaded, Lines, File, Latest, Notes;
    var t := Run(ops + [Publish(now)]);
    var out := Published(t, |t|);
    var ps := out + Wildcards(noN2k);
    PublishedLost(ops, now);
    forall i | 0 <= i < |ps| ensures IsInt(ps[i].pgn) && IsInt(ps[i].src) {
      if i < |out| {
        assert out[i] in out && ps[i] == out[i];
        assert Latest(Verdicts(ops), out[i]).value in Verdicts(ops);
      } else {
        assert ps[i] == Wildcards(noN2k)[i - |out|];
      }
    }
    FileRead(notes, ps);
    var q := if Pair(pgn, src) in Drops(notes, ops, now, noN2k) then Pair(pgn, src) else Pair(pgn, -1);
    assert q in ps;
    if q in out {
      assert Latest(Verdicts(ops), q).value in Verdicts(ops);
    }
  }
}
