/** Lines from which the reader of src/jsonl.c always returns: those whose brackets close in
    order, however else they depart from JSON. Any cut of a printed object is one of them. */
module JsonlOrderly {
  import opened CText
  import opened JsonText
  import opened JsonlSpec
  import opened JsonlSkip
  import opened JsonlHang

  /** Where the scan stands: before a member or an element, behind a colon, behind a key, in a bare word. */
  datatype Spot = AtMember | AtValue | AfterKey | InWord

  /** Every \u of the string is followed by four characters that neither close it nor escape. */
  predicate WholeEscapes(t: string)
    decreases |t|
  {
    t == "" || t[0] == '"' ||
    if Escaped(t) then
      (t[1] == 'u' ==> forall i | 2 <= i < 6 && i < |t| :: t[i] != '"' && t[i] != '\\') && WholeEscapes(t[2..])
    else WholeEscapes(t[1..])
  }

  /** Behind a string that starts at spot: a member's key awaits its colon. */
  function AfterString(open: seq<char>, at: Spot): Spot {
    if at.AtMember? && open != [] && open[0] == '{' then AfterKey else AtMember
  }

  /** Up to the end of the text, or until the brackets in open, innermost first, are closed:
      closers are of the kind last opened, and bare words hold neither brackets nor quotes.
      Commas, values and members may be missing, or stand where JSON has none. */
  predicate Orderly(open: seq<char>, at: Spot, t: string)
    decreases |t|
  {
    if t == "" || open == [] then true
    else if IsWs(t[0]) then Orderly(open, at, t[1..])
    else if at.AfterKey? then t[0] == ':' && Orderly(open, AtValue, t[1..])
    else if t[0] == ',' then Orderly(open, AtMember, t[1..])
    else if t[0] == '}' || t[0] == ']' then t[0] == Closing(open[0]) && Orderly(open[1..], AtMember, t[1..])
    else if t[0] == '"' then
      && !at.InWord?
      && WholeEscapes(t[1..])
      && match SkipChars(t[1..])
         case Some(r) => Orderly(open, AfterString(open, at), r)
         case None => true
    else if t[0] == '{' || t[0] == '[' then !at.InWord? && Orderly([t[0]] + open, AtMember, t[1..])
    else Orderly(open, InWord, t[1..])
  }

  predicate OrderlyLine(line: string) {
    var u := SkipWs(line);
    u != "" && u[0] == '{' ==> Orderly(['{'], AtMember, u[1..])
  }

  // ----- one step each

  lemma {:induction false} BlanksOrderly(open: seq<char>, at: Spot, t: string)
    ensures Orderly(open, at, t) == Orderly(open, at, SkipWs(t))
  {
    if open != [] && t != "" && IsWs(t[0]) {
      BlanksOrderly(open, at, t[1..]);
    }
  }

  /** A word that is over leaves the scan before a member. */
  lemma {:induction false} WordOver(open: seq<char>, t: string)
    requires Orderly(open, InWord, t)
    ensures Orderly(open, AtMember, t)
  {
    if open != [] && t != "" && IsWs(t[0]) {
      WordOver(open, t[1..]);
    }
  }

  /** The two ways in which the source goes through a string end at the same quote. */
  lemma {:induction false} SameEnd(t: string)
    requires WholeEscapes(t)
    ensures ReadChars(t).Got? == SkipChars(t).Some?
    ensures ReadChars(t).Got? ==> SkipChars(t) == Some(ReadChars(t).rest)
    decreases |t|
  {
    if t != "" && t[0] != '"' {
      var n := if Escaped(t) then 2 else 1;
      var u := t[n..];
      SameEnd(u);
      if CharLen(t) == 6 {
        assert forall i | 0 <= i < 4 :: u[i] == t[2 + i];
        FourPlain(u);
        assert u[4..] == t[6..];
        SameEnd(t[6..]);
      }
    }
  }

  lemma {:induction false} FourPlain(u: string)
    requires |u| >= 4 && forall i | 0 <= i < 4 :: u[i] != '"' && u[i] != '\\'
    ensures SkipChars(u) == SkipChars(u[4..])
    ensures WholeEscapes(u) == WholeEscapes(u[4..])
  {
    OnePlain(u);
    OnePlain(u[1..]);
    OnePlain(u[2..]);
    OnePlain(u[3..]);
    assert u[1..][1..] == u[2..] && u[2..][1..] == u[3..] && u[3..][1..] == u[4..];
  }

  lemma OnePlain(u: string)
    requires u != "" && u[0] != '"' && u[0] != '\\'
    ensures SkipChars(u) == SkipChars(u[1..])
    ensures WholeEscapes(u) == WholeEscapes(u[1..])
  {
  }

  lemma {:induction false} QuotedNest(t: string, open: char, d: int)
    ensures SkipNest(t, open, d, true) == match SkipChars(t) case Some(r) => SkipNest(r, open, d, false) case None => None
    decreases |t|
  {
    if t != "" && t[0] != '"' {
      QuotedNest(t[if Escaped(t) then 2 else 1..], open, d);
    }
  }

  lemma {:induction false} BarePassed(open: seq<char>, t: string)
    requires Orderly(open, InWord, t)
    ensures Orderly(open, AtMember, SkipBare(t))
    decreases |t|
  {
    if open != [] && t != "" && !EndsBare(t[0]) {
      BarePassed(open, t[1..]);
    } else {
      WordOver(open, t);
    }
  }

  // ----- over a whole value

  function Count(s: seq<char>, c: char): nat {
    if s == [] then 0 else (if s[0] == c then 1 else 0) + Count(s[1..], c)
  }

  lemma {:induction false} CountLast(s: seq<char>, c: char)
    requires s != [] && s[|s| - 1] == c
    ensures Count(s, c) >= 1 && (|s| > 1 && s[0] == c ==> Count(s, c) > 1)
  {
    if |s| > 1 {
      CountLast(s[1..], c);
    }
  }

  /** What has been opened in a value that starts with the bracket c, innermost first. */
  ghost predicate Inner(inner: seq<char>, c: char) {
    inner != [] && inner[|inner| - 1] == c && forall i | 0 <= i < |inner| :: IsOpen(inner[i])
  }

  lemma {:induction false} OpenerCounted(inner: seq<char>, open: seq<char>, at: Spot, t: string, c: char)
    requires Inner(inner, c) && t != "" && IsOpen(t[0]) && Orderly(inner + open, at, t)
    ensures var more := [t[0]] + inner;
            && Inner(more, c) && Orderly(more + open, AtMember, t[1..])
            && SkipNest(t, c, Count(inner, c), false) == SkipNest(t[1..], c, Count(more, c), false)
  {
    assert [t[0]] + (inner + open) == ([t[0]] + inner) + open;
    assert ([t[0]] + inner)[1..] == inner;
  }

  lemma {:induction false} CloserCounted(inner: seq<char>, open: seq<char>, at: Spot, t: string, c: char)
    requires Inner(inner, c) && t != "" && (t[0] == '}' || t[0] == ']') && Orderly(inner + open, at, t)
    ensures var r := SkipNest(t, c, Count(inner, c), false);
            if |inner| > 1 then
              Inner(inner[1..], c) && Orderly(inner[1..] + open, AtMember, t[1..])
              && r == SkipNest(t[1..], c, Count(inner[1..], c), false)
            else r == Some(t[1..]) && Orderly(open, AtMember, t[1..])
  {
    var all := inner + open;
    assert all[0] == inner[0] && all[1..] == inner[1..] + open;
    CountLast(inner, c);
    if |inner| == 1 { assert inner[1..] + open == open; }
  }

  lemma {:induction false} OtherCounted(inner: seq<char>, open: seq<char>, at: Spot, t: string, c: char) returns (to: Spot)
    requires Inner(inner, c) && t != "" && !IsOpen(t[0]) && t[0] != '}' && t[0] != ']' && t[0] != '"'
    requires Orderly(inner + open, at, t)
    ensures Orderly(inner + open, to, t[1..])
    ensures SkipNest(t, c, Count(inner, c), false) == SkipNest(t[1..], c, Count(inner, c), false)
  {
    to := if IsWs(t[0]) then at else if t[0] == ',' then AtMember else if at.AfterKey? then AtValue else InWord;
  }

  lemma {:induction false} StringCounted(inner: seq<char>, open: seq<char>, at: Spot, t: string, c: char)
    requires Inner(inner, c) && t != "" && t[0] == '"' && Orderly(inner + open, at, t)
    ensures match SkipChars(t[1..])
            case None => SkipNest(t, c, Count(inner, c), false) == None
            case Some(r) =>
              && Orderly(inner + open, AfterString(inner + open, at), r)
              && SkipNest(t, c, Count(inner, c), false) == SkipNest(r, c, Count(inner, c), false)
  {
    hide SkipChars, WholeEscapes;
    QuotedNest(t[1..], c, Count(inner, c));
  }

  /** Counting brackets of one kind ends at the bracket that closes the value, since what
      has been opened in it holds that kind until then. */
  lemma {:induction false} NestPassed(inner: seq<char>, open: seq<char>, at: Spot, t: string, c: char)
    requires Inner(inner, c) && Orderly(inner + open, at, t)
    ensures var r := SkipNest(t, c, Count(inner, c), false);
            r.Some? ==> Orderly(open, AtMember, r.value)
    decreases |t|
  {
    hide SkipNest, SkipChars, Orderly, Count, Inner, AfterString;
    if t == "" {
      NothingNested(c, Count(inner, c));
    } else if t[0] == '"' {
      StringCounted(inner, open, at, t, c);
      match SkipChars(t[1..]) {
        case Some(r) => NestPassed(inner, open, AfterString(inner + open, at), r, c);
        case None =>
      }
    } else if IsOpen(t[0]) {
      OpenerCounted(inner, open, at, t, c);
      NestPassed([t[0]] + inner, open, AtMember, t[1..], c);
    } else if t[0] == '}' || t[0] == ']' {
      CloserCounted(inner, open, at, t, c);
      if |inner| > 1 { NestPassed(inner[1..], open, AtMember, t[1..], c); }
    } else {
      var to := OtherCounted(inner, open, at, t, c);
      NestPassed(inner, open, to, t[1..], c);
    }
  }

  lemma NothingNested(c: char, d: int)
    ensures SkipNest("", c, d, false) == None
  {
  }

  /** Skipping a value goes to where the scan is before the next member. */
  lemma {:induction false} ValuePassed(open: seq<char>, at: Spot, u: string)
    requires Orderly(open, at, u) && open != [] && (at.AtMember? || at.AtValue?)
    requires u != "" && u[0] == '"' ==> AfterString(open, at).AtMember?
    requires u == "" || !IsWs(u[0])
    ensures SkipValue(u).Some? ==> Orderly(open, AtMember, SkipValue(u).value)
  {
    hide SkipChars, WholeEscapes, SkipNest;
    if u != "" && IsOpen(u[0]) {
      NestPassed([u[0]], open, AtMember, u[1..], u[0]);
      OneOpened(u);
    } else if u != "" && u[0] != '"' && !EndsBare(u[0]) {
      BarePassed(open, u[1..]);
    }
  }

  lemma {:induction false} OneOpened(u: string)
    requires u != "" && IsOpen(u[0])
    ensures SkipNest(u, u[0], 0, false) == SkipNest(u[1..], u[0], Count([u[0]], u[0]), false)
  {
  }

  lemma {:induction false} TokenPassed(open: seq<char>, u: string)
    requires Orderly(open, InWord, u)
    ensures Orderly(open, AtMember, u[TokenLen(u)..])
  {
    if u == "" || EndsToken(u[0]) {
      WordOver(open, u);
    } else if open != [] {
      TokenPassed(open, u[1..]);
      assert u[TokenLen(u)..] == u[1..][TokenLen(u[1..])..];
    }
  }

  // ----- the theorem

  function Bracket(level: Level): char { if level.InList? then '[' else '{' }

  function Brackets(levels: seq<Level>): seq<char> {
    if levels == [] then [] else [Bracket(levels[0])] + Brackets(levels[1..])
  }

  lemma {:induction false} PushBracket(level: Level, levels: seq<Level>)
    ensures Brackets([level] + levels) == [Bracket(level)] + Brackets(levels)
  {
    assert ([level] + levels)[1..] == levels;
  }

  /** The value of a member leaves the scan where the reader goes on. */
  lemma {:induction false} WayPassed(level: Level, levels: seq<Level>, key: string, q: string)
    requires levels != [] && Orderly(Brackets(levels), AtValue, q) && (q == "" || !IsWs(q[0]))
    ensures match ValueWay(level, key, q)
            case Into(inner, r) => Orderly(Brackets([inner] + levels), AtMember, r)
            case Past(r) => Orderly(Brackets(levels), AtMember, r)
            case Refused => true
  {
    hide ReadChars, SkipChars, WholeEscapes, SkipValue, TokenLen;
    var open := Brackets(levels);
    ValuePassed(open, AtValue, q);
    if q != "" && q[0] == '"' {
      SameEnd(q[1..]);
    } else if q != "" && !IsOpen(q[0]) {
      TokenPassed(open, q);
    }
    PushBracket(InFields, levels);
    PushBracket(InValue, levels);
    PushBracket(InList, levels);
  }

  lemma {:induction false} OrderlyGoesOn(levels: seq<Level>, t: string, n: nat)
    requires Orderly(Brackets(levels), AtMember, t)
    ensures !Blocked(levels, t, n)
    decreases |t|
  {
    hide SkipChars, ReadChars, WholeEscapes, SkipValue, SkipWs, ValueWay;
    var u := SkipWs(t);
    if levels != [] && u != "" {
      var open := Brackets(levels);
      BlanksOrderly(open, AtMember, t);
      assert open[1..] == Brackets(levels[1..]);
      if u[0] == ',' {
        OrderlyGoesOn(levels, u[1..], n);
      } else if u[0] == '}' || u[0] == ']' {
        OrderlyGoesOn(levels[1..], u[1..], n);
      } else if levels[0].InList? && u[0] == '{' && n < MAX_LIST {
        PushBracket(InItem, levels);
        OrderlyGoesOn([InItem] + levels, u[1..], n + 1);
      } else if levels[0].InList? || u[0] != '"' {
        ValuePassed(open, AtMember, u);
        var r := SkipValue(u);
        if r.Some? && |r.value| < |u| { OrderlyGoesOn(levels, r.value, n); }
      } else {
        StartsBare(u);
        KeyGoesOn(levels, u, n);
      }
    }
  }

  lemma {:induction false} KeyGoesOn(levels: seq<Level>, u: string, n: nat)
    requires levels != [] && !levels[0].InList? && u != "" && u[0] == '"'
    requires Orderly(Brackets(levels), AtMember, u) && SkipWs(u) == u
    ensures !Blocked(levels, u, n)
    decreases |u|, 0
  {
    hide SkipChars, ReadChars, WholeEscapes, SkipValue, SkipWs, ValueWay;
    var open := Brackets(levels);
    SameEnd(u[1..]);
    match ReadChars(u[1..]) {
      case Got(key, r) =>
        var v := SkipWs(r);
        BlanksOrderly(open, AfterKey, r);
        if v != "" && v[0] == ':' {
          var q := SkipWs(v[1..]);
          BlanksOrderly(open, AtValue, v[1..]);
          WayPassed(levels[0], levels, key, q);
          match ValueWay(levels[0], key, q) {
            case Into(level, p) => OrderlyGoesOn([level] + levels, p, n);
            case Past(p) => OrderlyGoesOn(levels, p, n);
            case Refused =>
          }
        }
      case _ =>
    }
  }

  /** The reader returns from every line whose brackets close in order. */
  lemma {:induction false} OrderlyReturns(line: string, conv: Conv)
    requires OrderlyLine(line)
    ensures Parse(line, conv) != Hangs
  {
    hide Parse, Blocked, Orderly;
    HangsIff(line, conv);
    var u := SkipWs(line);
    if u != "" && u[0] == '{' {
      assert Brackets([InMessage]) == ['{'] by { PushBracket(InMessage, []); assert [InMessage] + [] == [InMessage]; }
      OrderlyGoesOn([InMessage], u[1..], 0);
    }
  }

  // ----- cut lines

  lemma {:induction false} EscapesCut(t: string, s: string)
    requires WholeEscapes(t + s)
    ensures WholeEscapes(t)
    decreases |t|
  {
    var u := t + s;
    assert forall i | 0 <= i < |t| :: u[i] == t[i];
    if t != "" && t[0] != '"' {
      var n := if Escaped(t) then 2 else 1;
      if Escaped(u) && !Escaped(t) {
        assert t[1..] == "";
      } else {
        assert u[n..] == t[n..] + s;
        EscapesCut(t[n..], s);
      }
    }
  }

  lemma {:induction false} StringCut(t: string, s: string)
    requires SkipChars(t).Some?
    ensures SkipChars(t + s) == Some(SkipChars(t).value + s)
    decreases |t|
  {
    var u := t + s;
    assert u[0] == t[0];
    if t[0] == '"' {
      assert u[1..] == t[1..] + s;
    } else {
      var n := if Escaped(t) then 2 else 1;
      assert Escaped(u) == Escaped(t);
      assert u[n..] == t[n..] + s;
      StringCut(t[n..], s);
    }
  }

  lemma {:induction false} OrderlyCut(open: seq<char>, at: Spot, t: string, s: string)
    requires Orderly(open, at, t + s)
    ensures Orderly(open, at, t)
    decreases |t|
  {
    hide SkipChars, WholeEscapes;
    if t != "" && open != [] {
      var u := t + s;
      assert u[0] == t[0] && u[1..] == t[1..] + s;
      if IsWs(t[0]) {
        OrderlyCut(open, at, t[1..], s);
      } else if at.AfterKey? {
        OrderlyCut(open, AtValue, t[1..], s);
      } else if t[0] == ',' {
        OrderlyCut(open, AtMember, t[1..], s);
      } else if t[0] == '}' || t[0] == ']' {
        OrderlyCut(open[1..], AtMember, t[1..], s);
      } else if t[0] == '"' {
        EscapesCut(t[1..], s);
        if SkipChars(t[1..]).Some? {
          StringCut(t[1..], s);
          OrderlyCut(open, AfterString(open, at), SkipChars(t[1..]).value, s);
        }
      } else if IsOpen(t[0]) {
        OrderlyCut([t[0]] + open, AtMember, t[1..], s);
      } else {
        OrderlyCut(open, InWord, t[1..], s);
      }
    }
  }

  lemma {:induction false} LineCut(t: string, s: string)
    requires OrderlyLine(t + s)
    ensures OrderlyLine(t)
  {
    hide Orderly;
    if t != "" && IsWs(t[0]) {
      assert (t + s)[0] == t[0] && (t + s)[1..] == t[1..] + s;
      LineCut(t[1..], s);
    } else if t != "" {
      assert (t + s)[0] == t[0] && (t + s)[1..] == t[1..] + s;
      if t[0] == '{' {
        OrderlyCut(['{'], AtMember, t[1..], s);
      }
    }
  }

  // ----- printed values

  lemma {:induction false} WsOrderly(open: seq<char>, at: Spot, w: string, t: string)
    requires Blank(w)
    ensures Orderly(open, at, w + t) == Orderly(open, at, t)
  {
    hide Orderly;
    BlanksOrderly(open, at, w + t);
    BlanksOrderly(open, at, t);
    WsSkipped(w, t);
  }

  lemma {:induction false} CharsWhole(chars: seq<Char>, r: string)
    requires ValidChars(chars)
    ensures WholeEscapes(PrintChars(chars) + ("\"" + r))
  {
    hide WholeEscapes, ValidChar, PrintChar;
    var t := "\"" + r;
    if chars == [] {
      assert PrintChars(chars) + t == t;
      QuoteEnds(t);
    } else {
      CharsSplit(chars, t);
      CharsWhole(chars[1..], r);
      assert ValidChar(chars[0]);
      CharWhole(chars[0], PrintChars(chars[1..]) + t);
    }
  }

  lemma QuoteEnds(t: string)
    requires t != "" && t[0] == '"'
    ensures WholeEscapes(t)
  {
  }

  lemma {:induction false} CharWhole(ch: Char, u: string)
    requires ValidChar(ch) && WholeEscapes(u)
    ensures WholeEscapes(PrintChar(ch) + u)
  {
    hide WholeEscapes;
    match ch
    case Plain(c) =>
      assert ([c] + u)[1..] == u;
      OnePlain([c] + u);
    case Escape(e) => EscapeWhole(e, u);
    case Unicode(hex) =>
      HexWhole(hex, u);
      assert PrintChar(ch) + u == ['\\', 'u'] + (hex + u);
  }

  lemma {:induction false} EscapeWhole(e: char, u: string)
    requires e != 'u' && WholeEscapes(u)
    ensures WholeEscapes(['\\', e] + u)
  {
    assert (['\\', e] + u)[2..] == u;
  }

  lemma {:induction false} HexWhole(hex: string, u: string)
    requires |hex| == 4 && (forall i | 0 <= i < 4 :: IsHex(hex[i])) && WholeEscapes(u)
    ensures WholeEscapes(['\\', 'u'] + (hex + u))
  {
    var w := hex + u;
    var v := ['\\', 'u'] + w;
    assert v[2..] == w && w[4..] == u;
    assert forall i | 0 <= i < 4 :: w[i] == hex[i];
    FourPlain(w);
    assert forall i | 2 <= i < 6 :: v[i] == hex[i - 2];
  }

  lemma {:induction false} StringOrderly(open: seq<char>, at: Spot, chars: seq<Char>, t: string)
    requires ValidChars(chars) && (at.AtMember? || at.AtValue?)
    requires Orderly(open, AfterString(open, at), t)
    ensures Orderly(open, at, PrintString(chars) + t)
  {
    hide SkipChars, WholeEscapes, PrintString, PrintChars;
    StringSplit(chars, t);
    var u := "\"" + (PrintChars(chars) + ("\"" + t));
    assert u[1..] == PrintChars(chars) + ("\"" + t);
    CharsWhole(chars, t);
    CharsSkipped(chars, t, '{', 1);
  }

  /** The end, or one of , } ] behind blanks. */
  ghost predicate Closes(t: string) {
    var u := SkipWs(t);
    u == "" || EndsBare(u[0])
  }

  lemma {:induction false} BareOrderly(open: seq<char>, at: Spot, text: string, t: string)
    requires !at.AfterKey? && forall i | 0 <= i < |text| :: IsBareChar(text[i])
    requires Closes(t) && Orderly(open, AtMember, t)
    ensures Orderly(open, at, text + t)
    decreases text
  {
    if text == "" {
      assert text + t == t;
      BlanksOrderly(open, AtMember, t);
      BlanksOrderly(open, at, t);
    } else {
      assert (text + t)[0] == text[0] && (text + t)[1..] == text[1..] + t;
      BareOrderly(open, InWord, text[1..], t);
    }
  }

  lemma {:induction false} MarkOrderly(open: seq<char>, at: Spot, c: char, t: string)
    requires open != []
    ensures c == ':' && at.AfterKey? && Orderly(open, AtValue, t) ==> Orderly(open, at, [c] + t)
    ensures c == ',' && !at.AfterKey? && Orderly(open, AtMember, t) ==> Orderly(open, at, [c] + t)
    ensures c == Closing(open[0]) && !at.AfterKey? && Orderly(open[1..], AtMember, t) ==> Orderly(open, at, [c] + t)
    ensures IsOpen(c) && (at.AtMember? || at.AtValue?) && Orderly([c] + open, AtMember, t) ==> Orderly(open, at, [c] + t)
  {
    assert ([c] + t)[1..] == t;
  }

  lemma {:induction false} ValueOrderly(open: seq<char>, at: Spot, v: Json, t: string)
    requires open != [] && Valid(v) && (at.AtMember? || at.AtValue?)
    requires AfterString(open, at).AtMember?
    requires Closes(t) && Orderly(open, AtMember, t)
    ensures Orderly(open, at, Print(v) + t)
    decreases v, 2
  {
    hide Orderly, Print, Closes, ValidMember, ValidElement;
    match v
    case JString(chars) =>
      PrintIs(v);
      StringOrderly(open, at, chars, t);
    case JBare(text) =>
      PrintIs(v);
      BareOrderly(open, at, text, t);
    case JObject(ms, end) =>
      var r := ['}'] + t;
      EndOrderly(['{'] + open, end, t);
      MembersOrderly(['{'] + open, ms, end + r);
      MarkOrderly(open, at, '{', PrintMembers(ms) + (end + r));
      ObjectSplit(ms, end, t);
    case JArray(es, end) =>
      var r := [']'] + t;
      EndOrderly(['['] + open, end, t);
      ElementsOrderly(['['] + open, es, end + r);
      MarkOrderly(open, at, '[', PrintElements(es) + (end + r));
      ArraySplit(es, end, t);
  }

  lemma {:induction false} EndOrderly(open: seq<char>, end: string, t: string)
    requires open != [] && IsOpen(open[0]) && Blank(end) && Orderly(open[1..], AtMember, t)
    ensures var r := end + ([Closing(open[0])] + t);
            Orderly(open, AtMember, r) && Closes(r)
  {
    hide Orderly;
    var r := [Closing(open[0])] + t;
    MarkOrderly(open, AtMember, r[0], t);
    WsOrderly(open, AtMember, end, r);
    WsSkipped(end, r);
    StartsBare(r);
  }

  /** Behind a value: blanks, and a comma before what follows. */
  lemma {:induction false} BehindValue(open: seq<char>, w: string, left: nat, t: string)
    requires open != [] && Blank(w) && Orderly(open, AtMember, t) && (left <= 1 ==> Closes(t))
    ensures var r := w + (Separator(left) + t);
            Orderly(open, AtMember, r) && Closes(r)
  {
    hide Orderly;
    var r := Separator(left) + t;
    if left > 1 {
      MarkOrderly(open, AtMember, ',', t);
      StartsBare(r);
    } else {
      assert r == t;
    }
    WsOrderly(open, AtMember, w, r);
    WsSkipped(w, r);
  }

  lemma {:induction false} MembersOrderly(open: seq<char>, ms: seq<Member>, t: string)
    requires open != [] && open[0] == '{'
    requires forall i | 0 <= i < |ms| :: ValidMember(ms[i])
    requires Closes(t) && Orderly(open, AtMember, t)
    ensures Orderly(open, AtMember, PrintMembers(ms) + t)
    decreases ms, 1
  {
    hide Orderly, Print, PrintString, Valid, ValidChars, Closes, Separator;
    if ms == [] {
      assert PrintMembers(ms) + t == t;
    } else {
      var m := ms[0];
      assert ValidMember(m);
      var t8 := PrintMembers(ms[1..]) + t;
      var t6 := m.ws4 + (Separator(|ms|) + t8);
      var t5 := Print(m.value) + t6;
      var t4 := m.ws3 + t5;
      var t3 := ":" + t4;
      var t2 := m.ws2 + t3;
      MembersSplit(ms, t);
      MembersOrderly(open, ms[1..], t);
      if |ms| == 1 { assert t8 == t; }
      BehindValue(open, m.ws4, |ms|, t8);
      ValueOrderly(open, AtValue, m.value, t6);
      WsOrderly(open, AtValue, m.ws3, t5);
      MarkOrderly(open, AfterKey, ':', t4);
      WsOrderly(open, AfterKey, m.ws2, t3);
      StringOrderly(open, AtMember, m.key, t2);
      WsOrderly(open, AtMember, m.ws, PrintString(m.key) + t2);
    }
  }

  lemma {:induction false} ElementsOrderly(open: seq<char>, es: seq<Element>, t: string)
    requires open != [] && open[0] == '['
    requires forall i | 0 <= i < |es| :: ValidElement(es[i])
    requires Closes(t) && Orderly(open, AtMember, t)
    ensures Orderly(open, AtMember, PrintElements(es) + t)
    decreases es, 1
  {
    hide Orderly, Print, Valid, Closes, Separator;
    if es == [] {
      assert PrintElements(es) + t == t;
    } else {
      var e := es[0];
      assert ValidElement(e);
      var t3 := PrintElements(es[1..]) + t;
      var t1 := e.ws2 + (Separator(|es|) + t3);
      ElementsSplit(es, t);
      ElementsOrderly(open, es[1..], t);
      if |es| == 1 { assert t3 == t; }
      BehindValue(open, e.ws2, |es|, t3);
      ValueOrderly(open, AtMember, e.value, t1);
      WsOrderly(open, AtMember, e.ws, Print(e.value) + t1);
    }
  }

  /** Blanks, a printed object and whatever follows it, cut anywhere: the reader returns. */
  lemma {:induction false} CutObjectReturns(before: string, ms: seq<Member>, end: string, after: string, k: nat, conv: Conv)
    requires Blank(before) && Valid(JObject(ms, end))
    requires k <= |before + (Print(JObject(ms, end)) + after)|
    ensures Parse((before + (Print(JObject(ms, end)) + after))[..k], conv) != Hangs
  {
    hide Parse, Print, PrintMembers, Orderly, ValidMember;
    var u := Print(JObject(ms, end)) + after;
    var line := before + u;
    var r := end + ("}" + after);
    ObjectSplit(ms, end, after);
    NothingOpen(after);
    assert ['{'][1..] == [];
    EndOrderly(['{'], end, after);
    MembersOrderly(['{'], ms, r);
    WsSkipped(before, u);
    StartsBare(u);
    assert u[1..] == PrintMembers(ms) + r;
    assert OrderlyLine(line);
    assert line == line[..k] + line[k..];
    LineCut(line[..k], line[k..]);
    OrderlyReturns(line[..k], conv);
  }

  lemma NothingOpen(t: string)
    ensures Orderly([], AtMember, t)
  {
  }
}
