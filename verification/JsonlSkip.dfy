/** skip_value stops at the end of every well-formed value, although it counts
    brackets of one kind only. */
module JsonlSkip {
  import opened CText
  import opened JsonText
  import opened JsonlSpec

  // ----- printed text, nested to the right, as the reader meets it

  lemma Regroup(a: string, b: string, r: string)
    ensures (a + b) + r == a + (b + r)
  {
  }

  lemma {:induction false} MembersSplit(ms: seq<Member>, r: string)
    requires ms != []
    ensures var m := ms[0];
            PrintMembers(ms) + r ==
            m.ws + (PrintString(m.key) + (m.ws2 + (":" + (m.ws3 + (Print(m.value) + (m.ws4 +
              (Separator(|ms|) + (PrintMembers(ms[1..]) + r))))))))
  {
    hide Print, PrintString, Separator;
    var m := ms[0];
    var p7 := Separator(|ms|) + PrintMembers(ms[1..]);
    var p6 := m.ws4 + p7;
    var p5 := Print(m.value) + p6;
    var p4 := m.ws3 + p5;
    var p3 := ":" + p4;
    var p2 := m.ws2 + p3;
    var p1 := PrintString(m.key) + p2;
    assert PrintMembers(ms) == m.ws + p1;
    hide PrintMembers;
    Regroup(m.ws, p1, r);
    Regroup(PrintString(m.key), p2, r);
    Regroup(m.ws2, p3, r);
    Regroup(":", p4, r);
    Regroup(m.ws3, p5, r);
    Regroup(Print(m.value), p6, r);
    Regroup(m.ws4, p7, r);
    Regroup(Separator(|ms|), PrintMembers(ms[1..]), r);
  }

  lemma {:induction false} ElementsSplit(es: seq<Element>, r: string)
    requires es != []
    ensures var e := es[0];
            PrintElements(es) + r ==
            e.ws + (Print(e.value) + (e.ws2 + (Separator(|es|) + (PrintElements(es[1..]) + r))))
  {
    hide Print, Separator;
    var e := es[0];
    var p3 := Separator(|es|) + PrintElements(es[1..]);
    var p2 := e.ws2 + p3;
    var p1 := Print(e.value) + p2;
    assert PrintElements(es) == e.ws + p1;
    hide PrintElements;
    Regroup(e.ws, p1, r);
    Regroup(Print(e.value), p2, r);
    Regroup(e.ws2, p3, r);
    Regroup(Separator(|es|), PrintElements(es[1..]), r);
  }

  lemma {:induction false} ObjectSplit(ms: seq<Member>, end: string, t: string)
    ensures Print(JObject(ms, end)) + t == ['{'] + (PrintMembers(ms) + (end + (['}'] + t)))
  {
    hide PrintMembers;
    assert Print(JObject(ms, end)) == "{" + PrintMembers(ms) + end + "}";
  }

  lemma {:induction false} ArraySplit(es: seq<Element>, end: string, t: string)
    ensures Print(JArray(es, end)) + t == ['['] + (PrintElements(es) + (end + ([']'] + t)))
  {
    hide PrintElements;
    assert Print(JArray(es, end)) == "[" + PrintElements(es) + end + "]";
  }

  lemma {:induction false} StringSplit(chars: seq<Char>, r: string)
    ensures PrintString(chars) + r == "\"" + (PrintChars(chars) + ("\"" + r))
  {
    hide PrintChars;
  }

  lemma {:induction false} CharsSplit(chars: seq<Char>, r: string)
    requires chars != []
    ensures PrintChars(chars) + r == PrintChar(chars[0]) + (PrintChars(chars[1..]) + r)
  {
    hide PrintChar;
  }

  // ----- white space and strings

  lemma {:induction false} WsSkipped(w: string, t: string)
    requires Blank(w)
    ensures SkipWs(w + t) == SkipWs(t)
  {
    if w == "" {
      assert w + t == t;
    } else {
      assert (w + t)[0] == w[0] && (w + t)[1..] == w[1..] + t;
      WsSkipped(w[1..], t);
    }
  }

  /** A printed character is taken whole. */
  lemma CharTaken(ch: Char, t: string)
    requires ValidChar(ch)
    ensures var u := PrintChar(ch) + t;
            && u != "" && u[0] != '"'
            && CharLen(u) == |PrintChar(ch)| && u[CharLen(u)..] == t && CharAt(u) == Meaning(ch)
  {
  }

  lemma {:induction false} CharsRead(chars: seq<Char>, r: string)
    requires ValidChars(chars)
    ensures ReadChars(PrintChars(chars) + ("\"" + r)) == Got(Text(chars), r)
  {
    hide ValidChar, CharLen, CharAt, PrintChar, Meaning;
    var t := "\"" + r;
    if chars == [] {
      assert PrintChars(chars) + t == t;
      assert t[1..] == r;
    } else {
      CharsSplit(chars, t);
      CharTaken(chars[0], PrintChars(chars[1..]) + t);
      CharsRead(chars[1..], r);
    }
  }

  /** A printed string is read as the characters it stands for, cut to the buffer. */
  lemma {:induction false} StringRead(chars: seq<Char>, r: string, sz: nat)
    requires ValidChars(chars) && sz > 0
    ensures ParseString(PrintString(chars) + r, sz) == Got(Copy(Text(chars), sz), r)
  {
    hide ReadChars, PrintChars, Text, Copy;
    StringSplit(chars, r);
    CharsRead(chars, r);
    assert ("\"" + (PrintChars(chars) + ("\"" + r)))[1..] == PrintChars(chars) + ("\"" + r);
  }

  lemma {:induction false} CharSkipped(ch: Char, t: string, open: char, d: int)
    requires ValidChar(ch)
    ensures SkipChars(PrintChar(ch) + t) == SkipChars(t)
    ensures SkipNest(PrintChar(ch) + t, open, d, true) == SkipNest(t, open, d, true)
  {
    match ch
    case Plain(c) => HexSkipped([c], t, open, d);
    case Escape(e) => PairSkipped(e, t, open, d);
    case Unicode(hex) =>
      HexSkipped(hex, t, open, d);
      PairSkipped('u', hex + t, open, d);
      assert PrintChar(ch) + t == ['\\', 'u'] + (hex + t);
  }

  lemma {:induction false} PairSkipped(e: char, t: string, open: char, d: int)
    ensures SkipChars(['\\', e] + t) == SkipChars(t)
    ensures SkipNest(['\\', e] + t, open, d, true) == SkipNest(t, open, d, true)
  {
    assert (['\\', e] + t)[2..] == t;
  }

  lemma {:induction false} HexSkipped(hex: string, t: string, open: char, d: int)
    requires forall i | 0 <= i < |hex| :: hex[i] != '"' && hex[i] != '\\'
    ensures SkipChars(hex + t) == SkipChars(t)
    ensures SkipNest(hex + t, open, d, true) == SkipNest(t, open, d, true)
  {
    if hex == "" {
      assert hex + t == t;
    } else {
      assert (hex + t)[0] == hex[0] && (hex + t)[1..] == hex[1..] + t;
      HexSkipped(hex[1..], t, open, d);
    }
  }

  lemma {:induction false} CharsSkipped(chars: seq<Char>, r: string, open: char, d: int)
    requires ValidChars(chars)
    ensures SkipChars(PrintChars(chars) + ("\"" + r)) == Some(r)
    ensures SkipNest(PrintChars(chars) + ("\"" + r), open, d, true) == SkipNest(r, open, d, false)
  {
    hide ValidChar, PrintChar;
    var t := "\"" + r;
    if chars == [] {
      assert PrintChars(chars) + t == t;
      assert t[1..] == r;
    } else {
      CharsSplit(chars, t);
      CharSkipped(chars[0], PrintChars(chars[1..]) + t, open, d);
      CharsSkipped(chars[1..], r, open, d);
    }
  }

  // ----- inside brackets

  predicate IsOpen(c: char) { c == '{' || c == '[' }

  /** Characters that no counting loop reacts to. */
  predicate Neutral(c: char) { IsWs(c) || IsBareChar(c) || c == ',' || c == ':' }

  lemma {:induction false} NeutralSkipped(s: string, t: string, open: char, d: int)
    requires IsOpen(open)
    requires forall i | 0 <= i < |s| :: Neutral(s[i])
    ensures SkipNest(s + t, open, d, false) == SkipNest(t, open, d, false)
  {
    if s == "" {
      assert s + t == t;
    } else {
      assert (s + t)[0] == s[0] && (s + t)[1..] == s[1..] + t;
      NeutralSkipped(s[1..], t, open, d);
    }
  }

  lemma {:induction false} StringSkipped(chars: seq<Char>, t: string, open: char, d: int)
    requires IsOpen(open) && ValidChars(chars)
    ensures SkipNest(PrintString(chars) + t, open, d, false) == SkipNest(t, open, d, false)
  {
    hide PrintChars, ValidChars, PrintString;
    StringSplit(chars, t);
    var u := PrintChars(chars) + ("\"" + t);
    assert ("\"" + u)[1..] == u;
    CharsSkipped(chars, t, open, d);
  }

  /** The brackets of a nested value leave the depth as it was. */
  lemma {:induction false} BracketsSkipped(a: char, body: string, t: string, open: char, d: int)
    requires IsOpen(a) && IsOpen(open) && d >= 1
    requires var e := if a == open then d + 1 else d;
             SkipNest(body, open, e, false) == SkipNest([Closing(a)] + t, open, e, false)
    ensures SkipNest([a] + body, open, d, false) == SkipNest(t, open, d, false)
  {
    assert ([a] + body)[1..] == body;
    assert ([Closing(a)] + t)[1..] == t;
  }

  lemma {:induction false} ValueSkipped(v: Json, t: string, open: char, d: int)
    requires Valid(v) && IsOpen(open) && d >= 1
    ensures SkipNest(Print(v) + t, open, d, false) == SkipNest(t, open, d, false)
    decreases v, 2
  {
    hide SkipNest, Print, ValidMember, ValidElement;
    match v
    case JString(chars) =>
      PrintIs(v);
      StringSkipped(chars, t, open, d);
    case JBare(text) =>
      PrintIs(v);
      NeutralSkipped(text, t, open, d);
    case JObject(ms, end) =>
      var e := if '{' == open then d + 1 else d;
      var r := ['}'] + t;
      MembersSkipped(ms, end + r, open, e);
      NeutralSkipped(end, r, open, e);
      BracketsSkipped('{', PrintMembers(ms) + (end + r), t, open, d);
      ObjectSplit(ms, end, t);
    case JArray(es, end) =>
      var e := if '[' == open then d + 1 else d;
      var r := [']'] + t;
      ElementsSkipped(es, end + r, open, e);
      NeutralSkipped(end, r, open, e);
      BracketsSkipped('[', PrintElements(es) + (end + r), t, open, d);
      ArraySplit(es, end, t);
  }

  lemma PrintIs(v: Json)
    ensures v.JString? ==> Print(v) == PrintString(v.chars)
    ensures v.JBare? ==> Print(v) == v.text
  {
  }

  lemma {:induction false} MembersSkipped(ms: seq<Member>, t: string, open: char, d: int)
    requires IsOpen(open) && d >= 1
    requires forall i | 0 <= i < |ms| :: ValidMember(ms[i])
    ensures SkipNest(PrintMembers(ms) + t, open, d, false) == SkipNest(t, open, d, false)
    decreases ms, 1
  {
    hide SkipNest, Print, PrintString, Valid, ValidChars;
    if ms == [] {
      assert PrintMembers(ms) + t == t;
    } else {
      var m := ms[0];
      assert ValidMember(m);
      var sep := Separator(|ms|);
      var t8 := PrintMembers(ms[1..]) + t;
      var t7 := sep + t8;
      var t6 := m.ws4 + t7;
      var t5 := Print(m.value) + t6;
      var t4 := m.ws3 + t5;
      var t3 := ":" + t4;
      var t2 := m.ws2 + t3;
      MembersSplit(ms, t);
      NeutralSkipped(m.ws, PrintString(m.key) + t2, open, d);
      StringSkipped(m.key, t2, open, d);
      NeutralSkipped(m.ws2, t3, open, d);
      NeutralSkipped(":", t4, open, d);
      NeutralSkipped(m.ws3, t5, open, d);
      ValueSkipped(m.value, t6, open, d);
      NeutralSkipped(m.ws4, t7, open, d);
      NeutralSkipped(sep, t8, open, d);
      MembersSkipped(ms[1..], t, open, d);
    }
  }

  lemma {:induction false} ElementsSkipped(es: seq<Element>, t: string, open: char, d: int)
    requires IsOpen(open) && d >= 1
    requires forall i | 0 <= i < |es| :: ValidElement(es[i])
    ensures SkipNest(PrintElements(es) + t, open, d, false) == SkipNest(t, open, d, false)
    decreases es, 1
  {
    hide SkipNest, Print, Valid;
    if es == [] {
      assert PrintElements(es) + t == t;
    } else {
      var e := es[0];
      assert ValidElement(e);
      var sep := Separator(|es|);
      var t3 := PrintElements(es[1..]) + t;
      var t2 := sep + t3;
      var t1 := e.ws2 + t2;
      ElementsSplit(es, t);
      NeutralSkipped(e.ws, Print(e.value) + t1, open, d);
      ValueSkipped(e.value, t1, open, d);
      NeutralSkipped(e.ws2, t2, open, d);
      NeutralSkipped(sep, t3, open, d);
      ElementsSkipped(es[1..], t, open, d);
    }
  }

  // ----- the theorem

  lemma {:induction false} BareSkipped(s: string, t: string)
    requires forall i | 0 <= i < |s| :: !EndsBare(s[i])
    ensures SkipBare(s + t) == SkipBare(t)
  {
    if s == "" {
      assert s + t == t;
    } else {
      assert (s + t)[0] == s[0] && (s + t)[1..] == s[1..] + t;
      BareSkipped(s[1..], t);
    }
  }

  /** What may follow a value: white space, then the end or one of , } ]. */
  ghost predicate Follows(w: string, d: string) {
    Blank(w) && (d == "" || EndsBare(d[0]))
  }

  /** From white space before a well-formed value, skip_value stops right after
      it; after a bare value, where there is no closing mark, past the blanks too. */
  lemma {:induction false} SkipValueStops(before: string, v: Json, w: string, d: string)
    requires Blank(before) && Valid(v) && Follows(w, d)
    ensures SkipValue(before + (Print(v) + (w + d))) == Some(if v.JBare? then d else w + d)
  {
    hide SkipNest, SkipChars, PrintMembers, PrintElements, PrintString;
    var t := w + d;
    var u := Print(v) + t;
    WsSkipped(before, u);
    PrintStarts(v, t);
    assert SkipWs(u) == u;
    match v
    case JString(chars) =>
      StringSplit(chars, t);
      assert u[1..] == PrintChars(chars) + ("\"" + t);
      CharsSkipped(chars, t, '{', 1);
    case JBare(text) =>
      BareSkipped(text, t);
      BareSkipped(w, d);
    case JObject(ms, end) =>
      ObjectSplit(ms, end, t);
      MembersSkipped(ms, end + ("}" + t), '{', 1);
      NeutralSkipped(end, "}" + t, '{', 1);
      OpenClose('{', PrintMembers(ms) + (end + ("}" + t)), t);
    case JArray(es, end) =>
      ArraySplit(es, end, t);
      ElementsSkipped(es, end + ("]" + t), '[', 1);
      NeutralSkipped(end, "]" + t, '[', 1);
      OpenClose('[', PrintElements(es) + (end + ("]" + t)), t);
  }

  lemma {:induction false} OpenClose(open: char, t: string, r: string)
    requires IsOpen(open)
    requires SkipNest(t, open, 1, false) == SkipNest([Closing(open)] + r, open, 1, false)
    ensures SkipNest([open] + t, open, 0, false) == Some(r)
  {
    assert ([open] + t)[1..] == t;
    assert ([Closing(open)] + r)[1..] == r;
  }

  /** A printed value starts with its mark, and never with white space. */
  lemma {:induction false} PrintStarts(v: Json, t: string)
    requires Valid(v)
    ensures var u := Print(v) + t;
            u != "" && !IsWs(u[0]) && match v
              case JString(_) => u[0] == '"'
              case JObject(_, _) => u[0] == '{'
              case JArray(_, _) => u[0] == '['
              case JBare(_) => IsBareChar(u[0])
  {
    hide PrintChars, PrintMembers, PrintElements;
  }
}
