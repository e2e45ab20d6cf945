/** Which texts are polars, and what table each of them gives: src/polar.c. */
module PolarTable {
  import opened CText
  import opened ArbiterSpec
  import opened PolarSpec
  import opened PolarText

  // ----- the axes

  /** The numbers of those cells that have one. */
  function Numbers(cs: seq<string>, num: Num): seq<real> {
    if cs == [] then [] else (if num(cs[0]).Some? then [num(cs[0]).value] else []) + Numbers(cs[1..], num)
  }

  lemma {:induction false} SortedSnoc(v: seq<real>, x: real)
    requires Sorted(v)
    ensures Sorted(v + [x]) <==> v == [] || v[|v| - 1] <= x
  {
    var u := v + [x];
    if v != [] && Sorted(u) { assert u[|v| - 1] <= u[|v|]; }
  }

  lemma {:induction false} SortedStart(v: seq<real>, w: seq<real>)
    requires Sorted(v + w)
    ensures Sorted(v)
  {
    assert forall i | 0 <= i < |v| :: (v + w)[i] == v[i];
  }

  lemma {:induction false} WindsAre(cs: seq<string>, i: nat, num: Num, got: seq<real>)
    requires i <= |cs| && Sorted(got) && |got| <= MAX_TWS
    ensures var all := got + Numbers(cs[i..], num);
            Winds(cs, i, num, got) == if |all| <= 64 && Sorted(all) then Some(all) else None
    decreases |cs| - i
  {
    if i == |cs| {
      assert cs[i..] == [] && got + [] == got;
    } else {
      assert cs[i..][0] == cs[i] && cs[i..][1..] == cs[i + 1..];
      var v, rest := num(cs[i]), Numbers(cs[i + 1..], num);
      if v.None? {
        assert [] + rest == rest;
        WindsAre(cs, i + 1, num, got);
      } else {
        assert got + ([v.value] + rest) == (got + [v.value]) + rest;
        SortedSnoc(got, v.value);
        if |got| < MAX_TWS && Sorted(got + [v.value]) {
          WindsAre(cs, i + 1, num, got + [v.value]);
        } else if Sorted(got + ([v.value] + rest)) {
          SortedStart(got + [v.value], rest);
        }
      }
    }
  }

  // ----- the rows

  /** The cells of the lines whose first cell is a number. */
  function AngleLines(ls: seq<string>, sep: char, num: Num): (r: seq<seq<string>>)
    ensures forall k | 0 <= k < |r| :: r[k] != [] && num(r[k][0]).Some?
  {
    if ls == [] then []
    else
      var cs := Cells(ls[0], sep);
      (if num(cs[0]).Some? then [cs] else []) + AngleLines(ls[1..], sep, num)
  }

  function Angles(rows: seq<seq<string>>, num: Num): (r: seq<real>)
    requires forall k | 0 <= k < |rows| :: rows[k] != [] && num(rows[k][0]).Some?
    ensures |r| == |rows| && forall k | 0 <= k < |r| :: r[k] == num(rows[k][0]).value
  {
    seq(|rows|, k requires 0 <= k < |rows| => num(rows[k][0]).value)
  }

  /** A row's speed for a wind: the number in its column, 0 without one. */
  ghost predicate SpeedsAre(cs: seq<string>, num: Num, row: seq<real>, n: nat) {
    |row| == n && forall j | 0 <= j < n ::
      row[j] == if j + 1 < |cs| && num(cs[j + 1]).Some? then num(cs[j + 1]).value else 0.0
  }

  lemma {:induction false} SpeedsRead(cs: seq<string>, num: Num, n: nat)
    ensures SpeedsAre(cs, num, Speeds(cs, num, n), n)
  {
    if n > 0 { SpeedsRead(cs, num, n - 1); }
  }

  /** Before no line there are 256 rows already: then the table is full, even for a line without an angle. */
  ghost predicate Room(rows: nat, ls: seq<string>, sep: char, num: Num) {
    forall k | 0 <= k < |ls| :: rows + |AngleLines(ls[..k], sep, num)| < 256
  }

  lemma {:induction false} RoomFirst(rows: nat, ls: seq<string>, sep: char, num: Num)
    requires ls != []
    ensures Room(rows, ls, sep, num) <==>
            rows < 256 && Room(rows + if num(Cells(ls[0], sep)[0]).Some? then 1 else 0, ls[1..], sep, num)
  {
    hide Cells;
    var more := if num(Cells(ls[0], sep)[0]).Some? then 1 else 0;
    assert ls[..0] == [];
    forall k | 1 <= k < |ls|
      ensures |AngleLines(ls[..k], sep, num)| == more + |AngleLines(ls[1..][..k - 1], sep, num)|
    {
      assert ls[..k][0] == ls[0] && ls[..k][1..] == ls[1..][..k - 1];
    }
    if Room(rows, ls, sep, num) {
      assert rows + |AngleLines(ls[..0], sep, num)| < 256;
      forall k | 0 <= k < |ls| - 1 ensures rows + more + |AngleLines(ls[1..][..k], sep, num)| < 256 {
        assert rows + |AngleLines(ls[..k + 1], sep, num)| < 256;
      }
    }
  }

  /** The rows of a table: those there, and one for each line with an angle. */
  ghost predicate RowsAre(t: Table, rows: seq<seq<string>>, num: Num, u: Table)
    requires forall k | 0 <= k < |rows| :: rows[k] != [] && num(rows[k][0]).Some?
  {
    && u.tws == t.tws && u.twa == t.twa + Angles(rows, num)
    && |u.spd| == |t.spd| + |rows| && u.spd[..|t.spd|] == t.spd
    && forall k | 0 <= k < |rows| :: SpeedsAre(rows[k], num, u.spd[|t.spd| + k], |t.tws|)
  }

  lemma {:induction false} AnglesFirst(ls: seq<string>, i: nat, sep: char, num: Num)
    requires i < |ls|
    ensures var cs := Cells(ls[i], sep);
            AngleLines(ls[i..], sep, num) == (if num(cs[0]).Some? then [cs] else []) + AngleLines(ls[i + 1..], sep, num)
    ensures ls[i..] != [] && ls[i..][0] == ls[i] && ls[i..][1..] == ls[i + 1..]
  {
    hide Cells;
    assert ls[i..][0] == ls[i] && ls[i..][1..] == ls[i + 1..];
  }

  lemma {:induction false} AnglesJoined(cs: seq<string>, rest: seq<seq<string>>, num: Num, twa: seq<real>)
    requires cs != [] && num(cs[0]).Some? && forall k | 0 <= k < |rest| :: rest[k] != [] && num(rest[k][0]).Some?
    ensures twa + Angles([cs] + rest, num) == (twa + [num(cs[0]).value]) + Angles(rest, num)
  {
    assert Angles([cs] + rest, num) == [num(cs[0]).value] + Angles(rest, num);
  }

  /** A line with an angle adds a row, when there is room and the angle is not below the last one. */
  lemma {:induction false} RowsStep(ls: seq<string>, i: nat, sep: char, num: Num, t: Table)
    requires i < |ls|
    ensures var cs := Cells(ls[i], sep);
            var u := t.(twa := t.twa + [if num(cs[0]).Some? then num(cs[0]).value else 0.0], spd := t.spd + [Speeds(cs, num, |t.tws|)]);
            Rows(ls, i, sep, num, t) ==
            if |t.twa| >= 256 then None
            else if num(cs[0]).None? then Rows(ls, i + 1, sep, num, t)
            else if t.twa != [] && num(cs[0]).value < t.twa[|t.twa| - 1] then None
            else Rows(ls, i + 1, sep, num, u)
  {
    hide Cells, Speeds;
  }

  lemma {:induction false} RowsFrom(ls: seq<string>, i: nat, sep: char, num: Num, t: Table)
    requires i <= |ls| && Forming(t)
    ensures var rows := AngleLines(ls[i..], sep, num);
            var r := Rows(ls, i, sep, num, t);
            && (r.Some? <==> Room(|t.twa|, ls[i..], sep, num) && Sorted(t.twa + Angles(rows, num)))
            && (r.Some? ==> RowsAre(t, rows, num, r.value))
    decreases |ls| - i
  {
    hide Cells, Speeds, SpeedsAre, Rows, RowsAre, Room, AngleLines, Angles;
    if i == |ls| {
      assert ls[i..] == [];
      NoRows(ls, sep, num, t);
    } else {
      var cs := Cells(ls[i], sep);
      var v := num(cs[0]);
      var rest := AngleLines(ls[i + 1..], sep, num);
      AnglesFirst(ls, i, sep, num);
      RoomFirst(|t.twa|, ls[i..], sep, num);
      RowsStep(ls, i, sep, num, t);
      if v.None? {
        assert [] + rest == rest;
        if |t.twa| < 256 { RowsFrom(ls, i + 1, sep, num, t); }
      } else {
        var row := Speeds(cs, num, |t.tws|);
        AnglesJoined(cs, rest, num, t.twa);
        SortedSnoc(t.twa, v.value);
        if |t.twa| < 256 && Sorted(t.twa + [v.value]) {
          var u := t.(twa := t.twa + [v.value], spd := t.spd + [row]);
          RowsFrom(ls, i + 1, sep, num, u);
          SpeedsRead(cs, num, |t.tws|);
          var r := Rows(ls, i + 1, sep, num, u);
          if r.Some? { RowsJoined(t, cs, row, rest, num, r.value); }
        } else if Sorted((t.twa + [v.value]) + Angles(rest, num)) {
          SortedStart(t.twa + [v.value], Angles(rest, num));
        }
      }
    }
  }

  lemma {:induction false} NoRows(ls: seq<string>, sep: char, num: Num, t: Table)
    requires Forming(t)
    ensures AngleLines([], sep, num) == [] && Room(|t.twa|, [], sep, num) && Sorted(t.twa + Angles([], num))
    ensures Rows(ls, |ls|, sep, num, t) == Some(t) && RowsAre(t, [], num, t)
  {
    assert t.twa + Angles([], num) == t.twa;
  }

  lemma {:induction false} RowsJoined(t: Table, cs: seq<string>, row: seq<real>, rest: seq<seq<string>>, num: Num, u: Table)
    requires cs != [] && num(cs[0]).Some? && (forall k | 0 <= k < |rest| :: rest[k] != [] && num(rest[k][0]).Some?)
    requires SpeedsAre(cs, num, row, |t.tws|)
    requires RowsAre(t.(twa := t.twa + [num(cs[0]).value], spd := t.spd + [row]), rest, num, u)
    ensures RowsAre(t, [cs] + rest, num, u)
  {
    hide SpeedsAre;
    var n := |t.spd|;
    var rows := [cs] + rest;
    assert Angles(rows, num) == [num(cs[0]).value] + Angles(rest, num);
    assert u.spd[..n + 1] == t.spd + [row];
    assert u.spd[..n] == u.spd[..n + 1][..n] == t.spd;
    forall k | 0 <= k < |rows| ensures SpeedsAre(rows[k], num, u.spd[n + k], |t.tws|) {
      if k == 0 {
        assert u.spd[n] == u.spd[..n + 1][n] == row;
      } else {
        assert rows[k] == rest[k - 1] && u.spd[n + k] == u.spd[n + 1 + (k - 1)];
      }
    }
  }

  // ----- the text

  /** The semicolon when the header has one, else the tabulator, else the comma. */
  ghost predicate Separates(header: string, sep: char) {
    || (sep == ';' && ';' in header)
    || (sep == '\t' && ';' !in header && '\t' in header)
    || (sep == ',' && ';' !in header && '\t' !in header && ',' in header)
  }

  /** The lines are those of this table. */
  ghost predicate IsPolar(lines: seq<string>, num: Num, t: Table) {
    exists sep ::
      && lines != [] && StartsNoCase(lines[0], "TWA") && Separates(lines[0], sep)
      && t.tws == Numbers(Cells(lines[0], sep)[1..], num) && 1 <= |t.tws| <= 64 && Sorted(t.tws)
      && var rows := AngleLines(lines[1..], sep, num);
         && rows != [] && Room(0, lines[1..], sep, num)
         && t.twa == Angles(rows, num) && Sorted(t.twa)
         && |t.spd| == |rows| && forall k | 0 <= k < |rows| :: SpeedsAre(rows[k], num, t.spd[k], |t.tws|)
  }

  lemma {:induction false} HeaderIs(header: string)
    ensures PrefixNoCase("TWA", header) <==> StartsNoCase(header, "TWA")
    ensures forall sep :: Separator(header) == Some(sep) <==> Separates(header, sep)
  {
    if |header| >= 3 {
      forall i | 0 <= i < 3 ensures Lower("TWA"[i]) == Lower(header[i]) <==> SameLetter("TWA"[i], header[i]) {
        LowerSame("TWA"[i], header[i]);
      }
    }
  }

  lemma {:induction false} SameRows(rows: seq<seq<string>>, num: Num, n: nat, a: seq<seq<real>>, b: seq<seq<real>>)
    requires |a| == |b| == |rows| && forall k | 0 <= k < |rows| :: SpeedsAre(rows[k], num, a[k], n) && SpeedsAre(rows[k], num, b[k], n)
    ensures a == b
  {
    forall k | 0 <= k < |rows| ensures a[k] == b[k] {
      assert SpeedsAre(rows[k], num, a[k], n) && SpeedsAre(rows[k], num, b[k], n);
    }
  }

  lemma {:induction false} TableIs(lines: seq<string>, num: Num, t: Table)
    requires lines != []
    ensures TableOf(lines, num) == Some(t) <==> IsPolar(lines, num, t)
  {
    hide Cells, SpeedsAre, StartsNoCase, PrefixNoCase, Separates, Separator, Room, AngleLines, Numbers, Winds, Rows;
    HeaderIs(lines[0]);
    var sep := Separator(lines[0]);
    if PrefixNoCase("TWA", lines[0]) && sep.Some? {
      var cs := Cells(lines[0], sep.value);
      WindsAre(cs, 1, num, []);
      var all := [] + Numbers(cs[1..], num);
      assert all == Numbers(cs[1..], num);
      if 1 <= |all| <= 64 && Sorted(all) {
        var none := Table([], all, []);
        assert Forming(none);
        RowsFrom(lines[1..], 0, sep.value, num, none);
        assert lines[1..][0..] == lines[1..];
        var rows := AngleLines(lines[1..], sep.value, num);
        assert [] + Angles(rows, num) == Angles(rows, num);
        var r := Rows(lines[1..], 0, sep.value, num, none);
        if r.Some? && rows != [] { FirstRows(none, rows, num, r.value); }
        if r.Some? && IsPolar(lines, num, t) { SameRows(rows, num, |all|, r.value.spd, t.spd); }
      }
    }
  }

  lemma {:induction false} FirstRows(none: Table, rows: seq<seq<string>>, num: Num, u: Table)
    requires (forall k | 0 <= k < |rows| :: rows[k] != [] && num(rows[k][0]).Some?) && RowsAre(none, rows, num, u)
    requires none.twa == [] && none.spd == []
    ensures u.twa == Angles(rows, num) && |u.spd| == |rows| && u.tws == none.tws
    ensures forall k | 0 <= k < |rows| :: SpeedsAre(rows[k], num, u.spd[k], |u.tws|)
  {
    hide SpeedsAre;
    forall k | 0 <= k < |rows| ensures SpeedsAre(rows[k], num, u.spd[k], |u.tws|) {
      assert u.spd[|none.spd| + k] == u.spd[k];
    }
  }

  /** What stands before the header: blanks and line breaks, behind a byte order mark or not. */
  lemma {:induction false} LeadSkipped(lead: string, text: string, num: Num)
    requires (forall i | 0 <= i < |lead| :: lead[i] in " \t\r\n") && text != "" && text[0] !in " \t\r\n"
    ensures Parsed("\U{EF}\U{BB}\U{BF}" + (lead + text), num) == (if Lines(text) == [] then None else TableOf(Lines(text), num))
    ensures lead + text != "" && (lead + text)[0] != '\U{EF}' ==>
              Parsed(lead + text, num) == (if Lines(text) == [] then None else TableOf(Lines(text), num))
  {
    hide Lines, TableOf;
    var mark := "\U{EF}\U{BB}\U{BF}";
    assert (mark + (lead + text))[3..] == lead + text && mark <= mark + (lead + text);
    BlanksSkipped(lead, text);
  }

  lemma {:induction false} BlanksSkipped(lead: string, text: string)
    requires (forall i | 0 <= i < |lead| :: lead[i] in " \t\r\n") && text != "" && text[0] !in " \t\r\n"
    ensures Skip(lead + text) == text
  {
    if lead == "" {
      assert lead + text == text;
    } else {
      assert (lead + text)[0] == lead[0] && (lead + text)[1..] == lead[1..] + text;
      BlanksSkipped(lead[1..], text);
    }
  }
}
