/** On which lines src/jsonl.c does not return: a scan of the line alone, without any of
    the values, that finds a closing bracket of the wrong kind where a loop stands. */
module JsonlHang {
  import opened CText
  import opened JsonText
  import opened JsonlSpec

  /** The loops that can be under way, by what they read the members of, or the repeated list. */
  datatype Level = InMessage | InFields | InItem | InValue | InList

  /** How a member's value is gone through: by a further loop, in one go, or not at all. */
  datatype Way = Into(level: Level, rest: string) | Past(rest: string) | Refused

  function PastString(q: string): (w: Way)
    ensures !w.Into? && (w.Past? ==> |w.rest| <= |q|)
  {
    if q == "" || q[0] != '"' then Refused
    else
      match ReadChars(q[1..])
      case Got(_, r) => Past(r)
      case _ => Refused
  }

  function PastValue(q: string): (w: Way)
    ensures !w.Into? && (w.Past? ==> |w.rest| <= |q|)
  {
    match SkipValue(q)
    case Some(r) => Past(r)
    case None => Refused
  }

  /** The value of a field, q standing at it. */
  function FieldWay(q: string): (w: Way)
    ensures w.Into? || w.Past? ==> |w.rest| <= |q|
  {
    if q != "" && q[0] == '"' then PastString(q)
    else if q != "" && q[0] == '{' then Into(InValue, q[1..])
    else if q != "" && q[0] == '[' then PastValue(q)
    else Past(q[TokenLen(q)..])
  }

  function ValueWay(level: Level, key: string, q: string): (w: Way)
    ensures w.Into? || w.Past? ==> |w.rest| <= |q|
  {
    match level
    case InMessage =>
      if key == "fields" then if q != "" && q[0] == '{' then Into(InFields, q[1..]) else Refused
      else if key == "timestamp" || key == "description" then PastString(q)
      else PastValue(q)
    case InFields => if key == "list" && q != "" && q[0] == '[' then Into(InList, q[1..]) else FieldWay(q)
    case InItem => FieldWay(q)
    case InValue => if (key == "value" && q != "" && q[0] == '"') || key == "name" then PastString(q) else PastValue(q)
    case InList => Refused
  }

  /** The scan from the head of the innermost loop, with n list items so far: whether it comes
      to a square bracket in a loop over members, or to a brace in the loop over the list. */
  function Blocked(levels: seq<Level>, t: string, n: nat): bool
    decreases |t|
  {
    var u := SkipWs(t);
    if levels == [] || u == "" then false
    else if u[0] == ',' then Blocked(levels, u[1..], n)
    else if u[0] == '}' then levels[0].InList? || Blocked(levels[1..], u[1..], n)
    else if u[0] == ']' then !levels[0].InList? || Blocked(levels[1..], u[1..], n)
    else if levels[0].InList? && u[0] == '{' && n < MAX_LIST then Blocked([InItem] + levels, u[1..], n + 1)
    else if levels[0].InList? || u[0] != '"' then
      match SkipValue(u)
      case None => false
      case Some(r) => |r| < |u| && Blocked(levels, r, n)
    else
      match ReadChars(u[1..])
      case Got(key, r) =>
        var v := SkipWs(r);
        if v == "" || v[0] != ':' then false
        else
          (match ValueWay(levels[0], key, SkipWs(v[1..]))
           case Into(level, q) => Blocked([level] + levels, q, n)
           case Past(q) => Blocked(levels, q, n)
           case Refused => false)
      case _ => false
  }

  function WayBlocked(w: Way, levels: seq<Level>, n: nat): bool {
    match w
    case Into(level, q) => Blocked([level] + levels, q, n)
    case Past(q) => Blocked(levels, q, n)
    case Refused => false
  }

  /** A loop hangs, or it ends and what encloses it is blocked further on. */
  ghost predicate Hanging<T>(g: Got<T>, levels: seq<Level>, n: nat) {
    g.Stuck? || (g.Got? && Blocked(levels, g.rest, n))
  }

  // ----- the heads

  lemma {:induction false} CopyIs(s: string, sz: nat, w: string)
    requires |w| + 1 < sz
    ensures Copy(s, sz) == w <==> s == w
  {
  }

  function KeyRoom(level: Level): nat { if level.InValue? then NV_KEY_LEN else KEY_LEN }

  /** Keys cut to the buffer are told apart as the whole keys are. */
  lemma {:induction false} CutKey(level: Level, key: string, q: string)
    ensures ValueWay(level, Copy(key, KeyRoom(level)), q) == ValueWay(level, key, q)
  {
    hide Copy, FieldWay, PastString, PastValue;
    var sz := KeyRoom(level);
    CopyIs(key, sz, "fields");
    CopyIs(key, sz, "timestamp");
    CopyIs(key, sz, "description");
    CopyIs(key, sz, "list");
    CopyIs(key, sz, "value");
    CopyIs(key, sz, "name");
  }

  /** One turn of a loop over members, against the scan. */
  lemma {:induction false} HeadScanned(level: Level, ls: seq<Level>, t: string, n: nat)
    requires !level.InList? && t != ""
    ensures Blocked([level] + ls, t, n) ==
            match NextKey(t, KeyRoom(level))
            case End(r) => Blocked(ls, r, n)
            case Again(r) => Blocked([level] + ls, r, n)
            case Broken => false
            case Hung => true
            case AtKey(key, r) => WayBlocked(ValueWay(level, key, SkipWs(r)), [level] + ls, n)
  {
    hide SkipWs, ReadChars, Copy, SkipNest, SkipChars, ValueWay;
    var levels := [level] + ls;
    assert levels[1..] == ls;
    var u := SkipWs(t);
    if u == "" {
      NothingBlocked(ls, n);
    } else if u[0] == '"' {
      if ReadChars(u[1..]).Got? {
        CutKey(level, ReadChars(u[1..]).value, SkipWs(SkipWs(ReadChars(u[1..]).rest)[if SkipWs(ReadChars(u[1..]).rest) == "" then 0 else 1..]));
      }
    } else {
      SkipStays(t);
    }
  }

  lemma {:induction false} NothingBlocked(levels: seq<Level>, n: nat)
    ensures !Blocked(levels, "", n)
  {
    assert SkipWs("") == "";
  }

  /** Skipping from a mark makes progress but at a closing bracket or a comma. */
  lemma {:induction false} SkipStays(t: string)
    ensures var u := SkipWs(t);
            && SkipWs(u) == u
            && (u != "" && !EndsBare(u[0]) && SkipValue(u).Some? ==> |SkipValue(u).value| < |u|)
            && (u != "" && u[0] == ']' ==> SkipValue(u) == Some(u))
            && (u != "" && u[0] == '}' ==> SkipValue(u) == Some(u))
  {
    hide SkipNest, SkipChars;
  }

  // ----- the loops, innermost first

  lemma {:induction false} StringPast(q: string, sz: nat)
    requires sz > 0
    ensures PastString(q) == match ParseString(q, sz) case Got(_, r) => Past(r) case _ => Refused
  {
    hide ReadChars, Copy;
  }

  lemma {:induction false} NvStepPast(key: string, q: string, st: NvState, conv: Conv)
    ensures ValueWay(InValue, key, q) == match NvStep(key, q, st, conv) case Got(_, r) => Past(r) case _ => Refused
  {
    hide ParseString, PastString, SkipValue;
    StringPast(q, VAL_LEN);
  }

  lemma {:induction false} NvScanned(t: string, st: NvState, conv: Conv, ls: seq<Level>, n: nat)
    ensures Blocked([InValue] + ls, t, n) == Hanging(NvLoop(t, st, conv), ls, n)
    decreases |t|
  {
    hide Blocked, NextKey, NvStep, ValueWay, SkipWs;
    if t == "" {
      NothingBlocked(ls, n);
      NothingBlocked([InValue] + ls, n);
    } else {
      HeadScanned(InValue, ls, t, n);
      match NextKey(t, NV_KEY_LEN) {
        case Again(r) => NvScanned(r, st, conv, ls, n);
        case AtKey(key, r) =>
          var g := NvStep(key, SkipWs(r), st, conv);
          NvStepPast(key, SkipWs(r), st, conv);
          if g.Got? { NvScanned(g.rest, g.value, conv, ls, n); }
        case _ =>
      }
    }
  }

  lemma {:induction false} FieldScanned(r: string, conv: Conv, levels: seq<Level>, n: nat)
    ensures WayBlocked(FieldWay(SkipWs(r)), levels, n) == Hanging(FieldValue(r, conv), levels, n)
  {
    hide Blocked, NvLoop, ParseString, PastString, SkipValue, SkipWs, BareReading, TokenLen;
    var u := SkipWs(r);
    if u != "" && u[0] == '"' {
      StringPast(u, VAL_LEN);
    } else if u != "" && u[0] == '{' {
      NvScanned(u[1..], NvState(0.0, "", false, false), conv, levels, n);
    } else if u != "" && u[0] == '[' {
    } else {
    }
  }

  lemma {:induction false} ItemScanned(t: string, fields: seq<Field>, conv: Conv, ls: seq<Level>, n: nat)
    ensures Blocked([InItem] + ls, t, n) == Hanging(ItemLoop(t, fields, conv), ls, n)
    decreases |t|
  {
    hide Blocked, NextKey, FieldValue, FieldWay, SkipWs, WayBlocked, Add;
    if t == "" {
      NothingBlocked(ls, n);
      NothingBlocked([InItem] + ls, n);
    } else {
      HeadScanned(InItem, ls, t, n);
      match NextKey(t, KEY_LEN) {
        case Again(r) => ItemScanned(r, fields, conv, ls, n);
        case AtKey(key, r) =>
          var g := FieldValue(r, conv);
          FieldScanned(r, conv, [InItem] + ls, n);
          if g.Got? { ItemScanned(g.rest, Add(fields, Field(key, g.value), LIST_FIELDS), conv, ls, n); }
        case _ =>
      }
    }
  }

  lemma {:induction false} ListScanned(t: string, items: seq<seq<Field>>, conv: Conv, ls: seq<Level>)
    ensures var g := ListLoop(t, items, conv);
            Blocked([InList] + ls, t, |items|) == Hanging(g, ls, if g.Got? then |g.value| else 0)
    decreases |t|
  {
    hide SkipWs, SkipValue, ItemLoop;
    var levels := [InList] + ls;
    assert levels[1..] == ls;
    var u := SkipWs(t);
    if u == "" {
      NothingBlocked(ls, |items|);
      if t == "" { assert SkipWs("") == "" by { NothingSkipped(); } }
    } else if u[0] == ',' {
      hide Blocked;
      BlockedAt(levels, t, |items|);
      ListScanned(u[1..], items, conv, ls);
    } else if u[0] == '{' && |items| < MAX_LIST {
      hide Blocked;
      BlockedAt(levels, t, |items|);
      var g := ItemLoop(u[1..], [], conv);
      ItemScanned(u[1..], [], conv, levels, |items| + 1);
      if g.Got? { ListScanned(g.rest, items + [g.value], conv, ls); }
    } else {
      SkipStays(t);
      var r := SkipValue(u);
      if u[0] != ']' && u[0] != '}' && r.Some? {
        ListScanned(r.value, items, conv, ls);
      }
    }
  }

  lemma {:induction false} NothingSkipped()
    ensures SkipWs("") == ""
  {
  }

  /** The scan of the list at a comma or at the brace of an item. */
  lemma {:induction false} BlockedAt(levels: seq<Level>, t: string, n: nat)
    requires levels != [] && levels[0].InList?
    ensures var u := SkipWs(t);
            && (u != "" && u[0] == ',' ==> Blocked(levels, t, n) == Blocked(levels, u[1..], n))
            && (u != "" && u[0] == '{' && n < MAX_LIST ==> Blocked(levels, t, n) == Blocked([InItem] + levels, u[1..], n + 1))
  {
    hide SkipWs, SkipValue;
  }

  lemma {:induction false} FieldsScanned(t: string, m: Message, conv: Conv, ls: seq<Level>)
    ensures var g := FieldsLoop(t, m, conv);
            Blocked([InFields] + ls, t, |m.items|) == Hanging(g, ls, if g.Got? then |g.value.items| else 0)
    decreases |t|
  {
    hide Blocked, NextKey, FieldStep, FieldWay, SkipWs, WayBlocked, ValueWay;
    var n := |m.items|;
    if t == "" {
      NothingBlocked(ls, n);
      NothingBlocked([InFields] + ls, n);
    } else {
      HeadScanned(InFields, ls, t, n);
      match NextKey(t, KEY_LEN) {
        case Again(r) => FieldsScanned(r, m, conv, ls);
        case AtKey(key, r) =>
          var g := FieldStep(key, r, m, conv);
          FieldStepScanned(key, r, m, conv, [InFields] + ls);
          if g.Got? { FieldsScanned(g.rest, g.value, conv, ls); }
        case _ =>
      }
    }
  }

  lemma {:induction false} FieldStepScanned(key: string, r: string, m: Message, conv: Conv, levels: seq<Level>)
    ensures var g := FieldStep(key, r, m, conv);
            WayBlocked(ValueWay(InFields, key, SkipWs(r)), levels, |m.items|)
            == Hanging(g, levels, if g.Got? then |g.value.items| else 0)
  {
    hide Blocked, ListLoop, FieldValue, FieldWay, SkipWs;
    var q := SkipWs(r);
    if key == "list" && q != "" && q[0] == '[' {
      ListScanned(q[1..], m.items, conv, levels);
    } else {
      FieldScanned(r, conv, levels, |m.items|);
    }
  }

  lemma {:induction false} TopStepScanned(key: string, p: string, m: Message, conv: Conv, levels: seq<Level>)
    ensures var g := TopStep(key, p, m, conv);
            WayBlocked(ValueWay(InMessage, key, p), levels, |m.items|)
            == Hanging(g, levels, if g.Got? then |g.value.items| else 0)
  {
    hide Blocked, FieldsLoop;
    if key == "fields" {
      if p != "" && p[0] == '{' {
        FieldsScanned(p[1..], m, conv, levels);
      }
    } else {
      TopStepPast(key, p, m, conv);
    }
  }

  lemma {:induction false} TopStepPast(key: string, p: string, m: Message, conv: Conv)
    requires key != "fields"
    ensures var g := TopStep(key, p, m, conv);
            && !g.Stuck? && (g.Got? ==> g.value.items == m.items)
            && ValueWay(InMessage, key, p) == match g case Got(_, r) => Past(r) case _ => Refused
  {
    hide FieldsLoop, ParseString, PastString, SkipValue, IntAt, FieldWay;
    StringPast(p, TS_LEN);
    StringPast(p, DESC_LEN);
  }

  lemma {:induction false} TopScanned(t: string, m: Message, conv: Conv)
    ensures Blocked([InMessage], t, |m.items|) <==> TopLoop(t, m, conv).Stuck?
    decreases |t|
  {
    hide Blocked, NextKey, TopStep, SkipWs, WayBlocked, ValueWay;
    var n := |m.items|;
    assert [InMessage] + [] == [InMessage];
    if t == "" {
      NothingBlocked([InMessage], n);
    } else {
      HeadScanned(InMessage, [], t, n);
      match NextKey(t, KEY_LEN) {
        case End(r) => AllClosed(r, n);
        case Again(r) => TopScanned(r, m, conv);
        case AtKey(key, r) =>
          var g := TopStep(key, SkipWs(r), m, conv);
          TopStepScanned(key, SkipWs(r), m, conv, [InMessage]);
          if g.Got? { TopScanned(g.rest, g.value, conv); }
        case _ =>
      }
    }
  }

  lemma AllClosed(t: string, n: nat)
    ensures !Blocked([], t, n)
  {
  }

  /** The scan of a whole line. */
  function LineBlocked(line: string): bool {
    var u := SkipWs(line);
    u != "" && u[0] == '{' && Blocked([InMessage], u[1..], 0)
  }

  /** The reader does not return exactly from the lines in which the scan is blocked: whatever
      numbers the conversion reads, and whatever is in the other values. */
  lemma {:induction false} HangsIff(line: string, conv: Conv)
    ensures Parse(line, conv) == Hangs <==> LineBlocked(line)
  {
    hide TopLoop, Blocked, SkipWs;
    var u := SkipWs(line);
    if u != "" && u[0] == '{' {
      TopScanned(u[1..], Empty, conv);
    }
  }

  // ----- the two heads where a loop stops advancing

  /** The loop over the list stops advancing exactly at a brace that closes nothing. */
  lemma {:induction false} StrayBraceHangs(t: string, items: seq<seq<Field>>, conv: Conv)
    requires t != ""
    ensures var u := SkipWs(t);
            u != "" && u[0] != ',' && u[0] != ']' && SkipValue(u) == Some(u) <==> u != "" && u[0] == '}'
    ensures SkipWs(t) != "" && SkipWs(t)[0] == '}' ==> ListLoop(t, items, conv) == Stuck
  {
    hide SkipNest, SkipChars, ItemLoop;
    SkipStays(t);
  }

  function WithKey(key: string, q: string): string { "\"" + key + "\":" + q }

  /** Such a line, whatever follows: no square bracket stands where a key is expected. */
  lemma {:induction false} StrayBraceLine(t: string, conv: Conv)
    ensures Parse("{\"fields\":{\"list\":[}" + t, conv) == Hangs
  {
    hide *;
    StrayBraceText(t);
    var p := "[" + ("}" + t);
    var q := "{" + WithKey("list", p);
    var line := "{" + WithKey("fields", q);
    OpensLoop(q, p);
    StrayBraceBlocks(p[1..], [InFields, InMessage]);
    assert [InFields] + [InMessage] == [InFields, InMessage];
    IntoScanned(InFields, "list", p, InList, [InMessage]);
    assert [InMessage] + [] == [InMessage];
    IntoScanned(InMessage, "fields", q, InFields, []);
    LineScanned(line);
    HangsIff(line, conv);
  }

  lemma {:induction false} StrayBraceText(t: string)
    ensures "{\"fields\":{\"list\":[}" + t == "{" + WithKey("fields", "{" + WithKey("list", "[" + ("}" + t)))
  {
    var p := "[" + ("}" + t);
    assert "\"list\":[}" + t == WithKey("list", p);
    assert "\"fields\":{\"list\":[}" + t == WithKey("fields", "{" + WithKey("list", p));
  }

  lemma {:induction false} OpensLoop(q: string, p: string)
    requires q != "" && q[0] == '{' && p != "" && p[0] == '['
    ensures ValueWay(InMessage, "fields", q) == Into(InFields, q[1..])
    ensures ValueWay(InFields, "list", p) == Into(InList, p[1..])
    ensures !IsWs(q[0]) && !IsWs(p[0])
  {
  }

  lemma {:induction false} LineScanned(line: string)
    requires line != "" && line[0] == '{'
    ensures LineBlocked(line) == Blocked([InMessage], line[1..], 0)
  {
    hide Blocked;
  }

  lemma {:induction false} StartsBare(t: string)
    requires t != "" && !IsWs(t[0])
    ensures SkipWs(t) == t
  {
  }

  lemma {:induction false} StrayBraceBlocks(c: string, ls: seq<Level>)
    requires c != "" && c[0] == '}'
    ensures Blocked([InList] + ls, c, 0)
  {
    hide SkipValue, ReadChars, ValueWay;
    StartsBare(c);
  }

  /** The scan goes from a key into the value that has a loop of its own. */
  lemma {:induction false} IntoScanned(level: Level, key: string, q: string, into: Level, ls: seq<Level>)
    requires !level.InList? && q != "" && !IsWs(q[0])
    requires forall i | 0 <= i < |key| :: key[i] != '"' && key[i] != '\\'
    requires ValueWay(level, key, q) == Into(into, q[1..])
    ensures Blocked([level] + ls, WithKey(key, q), 0) == Blocked([into] + ([level] + ls), q[1..], 0)
  {
    hide ReadChars, ValueWay, SkipValue, SkipWs;
    var u := WithKey(key, q);
    var r := ":" + q;
    assert u[1..] == key + ("\"" + r) && r[1..] == q;
    StartsBare(u);
    StartsBare(r);
    StartsBare(q);
    PlainRead(key, r);
  }

  lemma {:induction false} PlainRead(key: string, rest: string)
    requires forall i | 0 <= i < |key| :: key[i] != '"' && key[i] != '\\'
    ensures ReadChars(key + ("\"" + rest)) == Got(key, rest)
  {
    var t := key + ("\"" + rest);
    if key == "" {
      assert t == "\"" + rest && t[1..] == rest;
    } else {
      assert t[0] == key[0] && t[1..] == key[1..] + ("\"" + rest);
      assert CharLen(t) == 1 && CharAt(t) == key[0];
      PlainRead(key[1..], rest);
      assert [key[0]] + key[1..] == key;
    }
  }
}
