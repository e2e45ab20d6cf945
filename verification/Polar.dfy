/** A polar table as it is filled and searched: src/polar.c. */
module Polar {
  import opened CText
  import opened ArbiterSpec
  import opened PolarSpec
  import opened PolarText

  class Reader {
    var twa: seq<real>
    var tws: seq<real>
    var spd: seq<seq<real>>

    ghost function Contents(): Table
      reads this
    {
      Table(twa, tws, spd)
    }

    constructor ()
      ensures Contents() == Table([], [], [])
    {
      twa, tws, spd := [], [], [];
    }

    /** hdr_cell over the cells of the header. */
    method Header(cs: seq<string>, num: Num) returns (ok: bool)
      requires tws == [] && cs != []
      modifies this`tws
      ensures var w := Winds(cs, 1, num, []); ok == w.Some? && (ok ==> tws == w.value)
    {
      var i := 1;
      while i < |cs|
        invariant 1 <= i <= |cs| && Winds(cs, i, num, tws) == Winds(cs, 1, num, [])
      {
        var v := num(cs[i]);
        if v.Some? {
          if |tws| >= MAX_TWS || (|tws| > 0 && v.value < tws[|tws| - 1]) {
            return false;
          }
          tws := tws + [v.value];
        }
        i := i + 1;
      }
      return true;
    }

    /** row_cell over the cells of a line that has an angle. */
    method Row(cs: seq<string>, num: Num) returns (row: seq<real>)
      ensures row == Speeds(cs, num, |tws|)
    {
      row := [];
      var k: nat := 0;
      while k < |tws|
        invariant k <= |tws| && row == Speeds(cs, num, k)
      {
        k := k + 1;
        var v := if k < |cs| then num(cs[k]) else None;
        row := row + [if v.Some? then v.value else 0.0];
      }
    }

    /** The loop over the lines below the header. */
    method Body(ls: seq<string>, sep: char, num: Num) returns (ok: bool)
      modifies this`twa, this`spd
      ensures var t := Rows(ls, 0, sep, num, old(Contents())); ok == t.Some? && (ok ==> Contents() == t.value)
    {
      hide Cells, Speeds;
      var i := 0;
      while i < |ls|
        invariant i <= |ls| && Rows(ls, i, sep, num, Contents()) == Rows(ls, 0, sep, num, old(Contents()))
      {
        if |twa| >= MAX_TWA {
          return false;
        }
        var cs := Cells(ls[i], sep);
        var v := num(cs[0]);
        if v.Some? {
          if |twa| > 0 && v.value < twa[|twa| - 1] {
            return false;
          }
          var row := Row(cs, num);
          spd := spd + [row];
          twa := twa + [v.value];
        }
        i := i + 1;
      }
      return true;
    }

    /** polar_parse_string. */
    method Parse(text: string, num: Num) returns (ok: bool)
      requires Contents() == Table([], [], [])
      modifies this
      ensures var t := Parsed(text, num); ok == t.Some? && (ok ==> Contents() == t.value && Accepted(Contents()))
    {
      hide Lines, Cells, Rows, Winds;
      var lines := Lines(Skip(NoMark(text)));
      if lines == [] {
        return false;
      }
      var header := lines[0];
      var sep := Separator(header);
      if !PrefixNoCase("TWA", header) || sep.None? {
        return false;
      }
      ok := Header(Cells(header, sep.value), num);
      if !ok || |tws| < 1 {
        return false;
      }
      ok := Body(lines[1..], sep.value, num);
      return ok && |twa| >= 1;
    }
  }

  /** bracket. */
  method FindBracket(v: seq<real>, x: real) returns (i: nat)
    requires v != []
    ensures i == Bracket(v, x)
    ensures Sorted(v) && v[0] <= x <= v[|v| - 1] ==> v[i] <= x <= v[if |v| > 1 then i + 1 else i]
  {
    if |v| < 2 {
      return 0;
    }
    i := 0;
    while i < |v| - 2
      invariant i <= |v| - 2 && BracketFrom(v, x, i) == BracketFrom(v, x, 0)
    {
      if x < v[i + 1] {
        return;
      }
      i := i + 1;
    }
  }
}
