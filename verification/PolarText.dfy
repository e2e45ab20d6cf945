/** Reading a polar from its text: src/polar.c. What a cell says, a number or
    nothing, is a parameter. */
module PolarText {
  import opened CText
  import opened CNumber
  import opened ArbiterSpec
  import opened PolarSpec

  const MAX_TWS := 64
  const MAX_TWA := 256

  /** The number of a cell: blanks dropped, a decimal comma accepted, and nothing for other text. */
  type Num = string -> Option<real>

  // ----- cells

  function CellEnd(s: string, i: nat, sep: char): (e: nat)
    requires i <= |s|
    ensures i <= e <= |s| && (e < |s| ==> s[e] == sep) && forall k | i <= k < e :: s[k] != sep
    decreases |s| - i
  {
    if i == |s| || s[i] == sep then i else CellEnd(s, i + 1, sep)
  }

  /** The cells of a line; there is always one. */
  function Cells(s: string, sep: char): (cs: seq<string>)
    ensures cs != []
    decreases |s|
  {
    var e := CellEnd(s, 0, sep);
    [s[..e]] + if e == |s| then [] else Cells(s[e + 1..], sep)
  }

  // ----- the axes

  /** The wind speeds of the header, from its cell i on; cells without a number are passed over. */
  function Winds(cs: seq<string>, i: nat, num: Num, got: seq<real>): (r: Option<seq<real>>)
    requires i <= |cs|
    ensures r.Some? && Sorted(got) && |got| <= MAX_TWS ==> Sorted(r.value) && |r.value| <= MAX_TWS
    decreases |cs| - i
  {
    if i == |cs| then Some(got)
    else
      var v := num(cs[i]);
      if v.None? then Winds(cs, i + 1, num, got)
      else if |got| >= MAX_TWS || (got != [] && v.value < got[|got| - 1]) then None
      else Winds(cs, i + 1, num, got + [v.value])
  }

  /** The n speeds of a row: what the cell does not say is 0. */
  function Speeds(cs: seq<string>, num: Num, n: nat): (r: seq<real>)
    ensures |r| == n
  {
    if n == 0 then []
    else Speeds(cs, num, n - 1) + [if n < |cs| && num(cs[n]).Some? then num(cs[n]).value else 0.0]
  }

  /** The rows of the table; lines without an angle are passed over, but not in a full table. */
  function Rows(ls: seq<string>, i: nat, sep: char, num: Num, t: Table): (r: Option<Table>)
    requires i <= |ls|
    ensures r.Some? && Forming(t) ==> Forming(r.value) && r.value.tws == t.tws
    decreases |ls| - i
  {
    if i == |ls| then Some(t)
    else if |t.twa| >= MAX_TWA then None
    else
      var cs := Cells(ls[i], sep);
      var v := num(cs[0]);
      if v.None? then Rows(ls, i + 1, sep, num, t)
      else if t.twa != [] && v.value < t.twa[|t.twa| - 1] then None
      else Rows(ls, i + 1, sep, num, t.(twa := t.twa + [v.value], spd := t.spd + [Speeds(cs, num, |t.tws|)]))
  }

  ghost predicate Forming(t: Table) {
    && Sorted(t.twa) && Sorted(t.tws) && |t.twa| <= MAX_TWA && |t.tws| <= MAX_TWS
    && |t.spd| == |t.twa| && forall i | 0 <= i < |t.spd| :: |t.spd[i]| == |t.tws|
  }

  // ----- the text

  predicate Leading(c: char) { c == '\r' || c == '\n' || c == ' ' || c == '\t' }

  function Skip(s: string): string { if s != "" && Leading(s[0]) then Skip(s[1..]) else s }

  /** The text behind a byte order mark. */
  function NoMark(s: string): string { if "\U{EF}\U{BB}\U{BF}" <= s then s[3..] else s }

  function Separator(header: string): Option<char> {
    if ';' in header then Some(';') else if '\t' in header then Some('\t') else if ',' in header then Some(',') else None
  }

  function TableOf(lines: seq<string>, num: Num): (r: Option<Table>)
    requires lines != []
    ensures r.Some? ==> Accepted(r.value)
  {
    var sep := Separator(lines[0]);
    if !PrefixNoCase("TWA", lines[0]) || sep.None? then None
    else
      var tws := Winds(Cells(lines[0], sep.value), 1, num, []);
      if tws.None? || tws.value == [] then None
      else
        var t := Rows(lines[1..], 0, sep.value, num, Table([], tws.value, []));
        if t.None? || t.value.twa == [] then None else t
  }

  /** polar_parse_string: every table that it accepts has its axes in order and a speed for each pair. */
  function Parsed(text: string, num: Num): (r: Option<Table>)
    ensures r.Some? ==> Accepted(r.value)
  {
    var lines := Lines(Skip(NoMark(text)));
    if lines == [] then None else TableOf(lines, num)
  }

  // ----- a printed table reads back

  function Joined(cs: seq<string>, sep: char): string
    requires cs != []
  {
    if |cs| == 1 then cs[0] else cs[0] + [sep] + Joined(cs[1..], sep)
  }

  type Show = real -> string

  function Shown(v: seq<real>, show: Show): (r: seq<string>)
    ensures |r| == |v| && forall i | 0 <= i < |v| :: r[i] == show(v[i])
  {
    seq(|v|, i requires 0 <= i < |v| => show(v[i]))
  }

  function HeaderText(t: Table, show: Show, sep: char): string { Joined(["TWA\\TWS"] + Shown(t.tws, show), sep) }

  function RowText(t: Table, i: nat, show: Show, sep: char): string
    requires i < |t.twa| == |t.spd|
  {
    Joined([show(t.twa[i])] + Shown(t.spd[i], show), sep)
  }

  function RowTexts(t: Table, show: Show, sep: char): (r: seq<string>)
    requires |t.twa| == |t.spd|
    ensures |r| == |t.twa| && forall i | 0 <= i < |r| :: r[i] == RowText(t, i, show, sep)
  {
    seq(|t.twa|, i requires 0 <= i < |t.twa| => RowText(t, i, show, sep))
  }

  function Printed(t: Table, show: Show, sep: char): string
    requires |t.twa| == |t.spd|
  {
    Unlines([HeaderText(t, show, sep)] + RowTexts(t, show, sep))
  }

  /** The number is shown without separators or line feeds, and reads back. */
  ghost predicate ReadsBack(x: real, show: Show, num: Num) {
    num(show(x)) == Some(x) && forall i | 0 <= i < |show(x)| :: show(x)[i] !in {';', '\t', ',', '\n'}
  }

  ghost predicate AllReadBack(v: seq<real>, show: Show, num: Num) {
    forall i | 0 <= i < |v| :: ReadsBack(v[i], show, num)
  }

  /** The table's own numbers read back from how they are shown. */
  ghost predicate Faithful(t: Table, show: Show, num: Num) {
    AllReadBack(t.twa, show, num) && AllReadBack(t.tws, show, num)
    && forall i | 0 <= i < |t.spd| :: AllReadBack(t.spd[i], show, num)
  }

  ghost predicate Lacks(s: string, sep: char) { forall i | 0 <= i < |s| :: s[i] != sep }

  ghost predicate Bare(s: string) {
    Lacks(s, ';') && Lacks(s, '\t') && Lacks(s, ',') && OneLine(s)
  }

  lemma {:induction false} ShownBare(x: real, show: Show, num: Num)
    requires ReadsBack(x, show, num)
    ensures num(show(x)) == Some(x) && Bare(show(x))
  {
    var s := show(x);
    assert forall i | 0 <= i < |s| :: s[i] !in {';', '\t', ',', '\n'};
  }

  /** Cells that show numbers: bare, and each reading back as its number. */
  lemma {:induction false} AllShown(v: seq<real>, show: Show, num: Num)
    requires AllReadBack(v, show, num)
    ensures forall i | 0 <= i < |v| :: Bare(Shown(v, show)[i]) && num(Shown(v, show)[i]) == Some(v[i])
  {
    hide ReadsBack, Bare;
    forall i | 0 <= i < |v| ensures Bare(Shown(v, show)[i]) && num(Shown(v, show)[i]) == Some(v[i]) {
      ShownBare(v[i], show, num);
    }
  }

  lemma {:induction false} CellsJoined(cs: seq<string>, sep: char)
    requires cs != [] && forall i | 0 <= i < |cs| :: Lacks(cs[i], sep)
    ensures Cells(Joined(cs, sep), sep) == cs
  {
    var s := Joined(cs, sep);
    assert Lacks(cs[0], sep);
    if |cs| == 1 {
      assert CellEnd(s, 0, sep) == |s|;
      assert s[..|s|] == s;
    } else {
      var more := Joined(cs[1..], sep);
      assert forall i | 0 <= i < |cs[0]| :: s[i] == cs[0][i];
      assert s[|cs[0]|] == sep;
      assert CellEnd(s, 0, sep) == |cs[0]|;
      assert s[..|cs[0]|] == cs[0] && s[|cs[0]| + 1..] == more;
      CellsJoined(cs[1..], sep);
    }
  }

  lemma {:induction false} JoinedOneLine(cs: seq<string>, sep: char)
    requires cs != [] && sep != '\n' && forall i | 0 <= i < |cs| :: OneLine(cs[i])
    ensures OneLine(Joined(cs, sep))
    ensures |cs| > 1 ==> sep in Joined(cs, sep)
    ensures cs[0] <= Joined(cs, sep)
  {
    assert OneLine(cs[0]);
    if |cs| > 1 {
      JoinedOneLine(cs[1..], sep);
      assert Joined(cs, sep)[|cs[0]|] == sep;
    }
  }

  lemma {:induction false} WindsBack(cs: seq<string>, i: nat, num: Num, tws: seq<real>)
    requires 1 <= i <= |cs| == |tws| + 1 && Sorted(tws) && |tws| <= MAX_TWS
    requires forall k | 0 <= k < |tws| :: num(cs[k + 1]) == Some(tws[k])
    ensures Winds(cs, i, num, tws[..i - 1]) == Some(tws)
    decreases |cs| - i
  {
    if i == |cs| {
      assert tws[..i - 1] == tws;
    } else {
      assert num(cs[(i - 1) + 1]) == Some(tws[i - 1]);
      assert tws[..i - 1] + [tws[i - 1]] == tws[..i];
      WindsBack(cs, i + 1, num, tws);
    }
  }

  lemma {:induction false} SpeedsBack(cs: seq<string>, num: Num, row: seq<real>, n: nat)
    requires |cs| == |row| + 1 && n <= |row| && forall k | 0 <= k < |row| :: num(cs[k + 1]) == Some(row[k])
    ensures Speeds(cs, num, n) == row[..n]
  {
    if n > 0 {
      SpeedsBack(cs, num, row, n - 1);
      assert num(cs[(n - 1) + 1]) == Some(row[n - 1]);
    }
  }

  lemma {:induction false} RowBack(t: Table, i: nat, show: Show, num: Num, sep: char)
    requires Accepted(t) && i < |t.twa| && Faithful(t, show, num) && sep in {';', '\t', ','}
    ensures var cs := Cells(RowText(t, i, show, sep), sep);
            num(cs[0]) == Some(t.twa[i]) && Speeds(cs, num, |t.tws|) == t.spd[i]
    ensures OneLine(RowText(t, i, show, sep))
  {
    hide ReadsBack, Shown, Joined, Cells;
    var rest := Shown(t.spd[i], show);
    var cs := [show(t.twa[i])] + rest;
    ShownBare(t.twa[i], show, num);
    AllShown(t.spd[i], show, num);
    CellsJoined(cs, sep);
    JoinedOneLine(cs, sep);
    forall k | 0 <= k < |t.spd[i]| ensures num(cs[k + 1]) == Some(t.spd[i][k]) {
      assert cs[k + 1] == rest[k];
    }
    SpeedsBack(cs, num, t.spd[i], |t.tws|);
    assert t.spd[i][..|t.tws|] == t.spd[i];
  }

  lemma {:induction false} RowsBack(t: Table, i: nat, show: Show, num: Num, sep: char)
    requires Accepted(t) && Forming(t) && i <= |t.twa| && Faithful(t, show, num) && sep in {';', '\t', ','}
    ensures Rows(RowTexts(t, show, sep), i, sep, num, Table(t.twa[..i], t.tws, t.spd[..i])) == Some(t)
    decreases |t.twa| - i
  {
    hide Faithful, RowText, Cells, Speeds;
    if i == |t.twa| {
      assert t.twa[..i] == t.twa && t.spd[..i] == t.spd;
    } else {
      RowBack(t, i, show, num, sep);
      assert t.twa[..i] + [t.twa[i]] == t.twa[..i + 1] && t.spd[..i] + [t.spd[i]] == t.spd[..i + 1];
      RowsBack(t, i + 1, show, num, sep);
    }
  }

  lemma {:induction false} HeaderBack(t: Table, show: Show, num: Num, sep: char)
    requires Accepted(t) && Forming(t) && Faithful(t, show, num) && sep in {';', '\t', ','}
    ensures var h := HeaderText(t, show, sep);
            && OneLine(h) && PrefixNoCase("TWA", h) && Separator(h) == Some(sep)
            && Winds(Cells(h, sep), 1, num, []) == Some(t.tws)
  {
    hide Winds, Cells, ReadsBack, Shown;
    var rest := Shown(t.tws, show);
    var cs := ["TWA\\TWS"] + rest;
    var h := Joined(cs, sep);
    AllShown(t.tws, show, num);
    forall i | 0 <= i < |cs| ensures Bare(cs[i]) {
      assert i > 0 ==> cs[i] == rest[i - 1];
    }
    CellsJoined(cs, sep);
    JoinedOneLine(cs, sep);
    assert h[..3] == "TWA";
    OnlySeparator(cs, sep, ';');
    OnlySeparator(cs, sep, '\t');
    OnlySeparator(cs, sep, ',');
    forall k | 0 <= k < |t.tws| ensures num(cs[k + 1]) == Some(t.tws[k]) {
      assert cs[k + 1] == rest[k];
    }
    WindsBack(cs, 1, num, t.tws);
    assert t.tws[..0] == [];
  }

  lemma {:induction false} OnlySeparator(cs: seq<string>, sep: char, c: char)
    requires cs != [] && forall i | 0 <= i < |cs| :: Lacks(cs[i], c)
    ensures c in Joined(cs, sep) ==> c == sep
  {
    assert Lacks(cs[0], c);
    if |cs| > 1 {
      OnlySeparator(cs[1..], sep, c);
    }
  }

  /** A table that fits, printed with any of the three separators, is accepted and reads back the same,
      however its numbers are shown, as long as each of them reads back. */
  lemma {:induction false} PrintedReadsBack(t: Table, show: Show, num: Num, sep: char)
    requires Accepted(t) && Forming(t) && Faithful(t, show, num) && sep in {';', '\t', ','}
    ensures Parsed(Printed(t, show, sep), num) == Some(t)
  {
    hide Faithful, HeaderText, RowText, Rows, Winds, Lines, Unlines, OneLine, Cells;
    var h, rs := HeaderText(t, show, sep), RowTexts(t, show, sep);
    var ls := [h] + rs;
    HeaderBack(t, show, num, sep);
    forall i | 0 <= i < |ls| ensures OneLine(ls[i]) {
      if i > 0 { RowBack(t, i - 1, show, num, sep); }
    }
    LinesUnlines(ls);
    StartsAtOnce(Unlines(ls), h, ls);
    RowsBack(t, 0, show, num, sep);
    assert t.twa[..0] == [] && t.spd[..0] == [] && ls[1..] == rs;
  }

  lemma {:induction false} StartsAtOnce(s: string, h: string, ls: seq<string>)
    requires ls != [] && ls[0] == h && s == Unlines(ls) && PrefixNoCase("TWA", h)
    ensures Skip(NoMark(s)) == s
  {
    assert Lower(h[0]) == 't';
    assert s[0] == h[0];
  }

  // ----- whole numbers as an instance

  function ShowWhole(x: real): string { if x < 0.0 then "-" else Digits(x.Floor) }

  function NumWhole(s: string): Option<real> {
    if s != "" && forall i | 0 <= i < |s| :: IsDigit(s[i]) then Some(ReadDigits(s, 0) as real) else None
  }

  ghost predicate AllWhole(v: seq<real>) {
    forall i | 0 <= i < |v| :: v[i] >= 0.0 && v[i] == v[i].Floor as real
  }

  lemma {:induction false} WholeReadsBack(x: real)
    requires x >= 0.0 && x == x.Floor as real
    ensures ReadsBack(x, ShowWhole, NumWhole)
  {
    DigitsRead(x.Floor, "");
    assert Digits(x.Floor) + "" == Digits(x.Floor);
    NothingRead("", x.Floor);
  }

  /** A table of whole angles, winds and speeds, shown in decimal digits, is accepted and reads back the same. */
  lemma {:induction false} WholeTableReadsBack(t: Table, sep: char)
    requires Accepted(t) && Forming(t) && sep in {';', '\t', ','}
    requires AllWhole(t.twa) && AllWhole(t.tws) && forall i | 0 <= i < |t.spd| :: AllWhole(t.spd[i])
    ensures Parsed(Printed(t, ShowWhole, sep), NumWhole) == Some(t)
  {
    hide ReadsBack, Parsed, Printed;
    forall x: real | x >= 0.0 && x == x.Floor as real ensures ReadsBack(x, ShowWhole, NumWhole) {
      WholeReadsBack(x);
    }
    PrintedReadsBack(t, ShowWhole, NumWhole, sep);
  }
}
