/** The message a JSON object stands for, read off its tree, and the proof that
    the one-pass reader finds it in every printing of the tree. */
module JsonlTree {
  import opened CText
  import opened CNumber
  import opened JsonText
  import opened JsonlSpec
  import opened JsonlSkip

  // ----- the message of a tree

  function KeyOf(chars: seq<Char>, sz: nat): string
    requires sz > 0
  {
    Copy(Text(chars), sz)
  }

  /** The number of a value that is no string: brackets hold none. */
  function NumOf(v: Json, conv: Conv): real {
    if v.JBare? then conv(v.text) else 0.0
  }

  function NvMember(m: Member, st: NvState, conv: Conv): Option<NvState> {
    var key := KeyOf(m.key, NV_KEY_LEN);
    if key == "value" then
      if m.value.JString? then
        var s := KeyOf(m.value.chars, VAL_LEN);
        Some(st.(str := s, num := conv(s), gotValue := true))
      else Some(st.(num := NumOf(m.value, conv), gotValue := true))
    else if key == "name" then
      if m.value.JString? then Some(st.(str := KeyOf(m.value.chars, VAL_LEN), gotName := true)) else None
    else Some(st)
  }

  function NvMembers(ms: seq<Member>, st: NvState, conv: Conv): Option<NvState> {
    if ms == [] then Some(st)
    else
      match NvMember(ms[0], st, conv)
      case None => None
      case Some(st') => NvMembers(ms[1..], st', conv)
  }

  /** What a bare word is: nothing, a truth value, or a number with its text. */
  function WordReading(text: string, conv: Conv): Reading {
    if text == "null" || text == "" then Reading(TNull, 0.0, "")
    else if text == "true" then Reading(TNum, 1.0, text)
    else if text == "false" then Reading(TNum, 0.0, text)
    else Reading(TNum, conv(text), Copy(text, VAL_LEN))
  }

  /** What a field's value is: a number, a string, a value with a name, or nothing usable. */
  function ReadingOf(v: Json, conv: Conv): Option<Reading> {
    match v
    case JString(chars) => Some(Reading(TStr, 0.0, KeyOf(chars, VAL_LEN)))
    case JBare(text) => Some(WordReading(text, conv))
    case JArray(_, _) => Some(Reading(TNull, 0.0, ""))
    case JObject(ms, _) =>
      match NvMembers(ms, NvState(0.0, "", false, false), conv)
      case None => None
      case Some(st) => Some(Reading(if st.gotValue || st.gotName then TNv else TNull, st.num, st.str))
  }

  function ItemOf(ms: seq<Member>, fields: seq<Field>, conv: Conv): Option<seq<Field>> {
    if ms == [] then Some(fields)
    else
      match ReadingOf(ms[0].value, conv)
      case None => None
      case Some(v) =>
        ItemOf(ms[1..], if |fields| < 8 then fields + [Field(KeyOf(ms[0].key, KEY_LEN), v)] else fields, conv)
  }

  /** The objects of a repeated list, as many as there is room for. */
  function ItemsOf(es: seq<Element>, items: seq<seq<Field>>, conv: Conv): Option<seq<seq<Field>>> {
    if es == [] then Some(items)
    else if es[0].value.JObject? && |items| < MAX_LIST then
      match ItemOf(es[0].value.members, [], conv)
      case None => None
      case Some(item) => ItemsOf(es[1..], items + [item], conv)
    else ItemsOf(es[1..], items, conv)
  }

  function FieldMember(m: Member, msg: Message, conv: Conv): Option<Message> {
    var key := KeyOf(m.key, KEY_LEN);
    if key == "list" && m.value.JArray? then
      match ItemsOf(m.value.elems, msg.items, conv)
      case None => None
      case Some(items) => Some(msg.(items := items))
    else
      match ReadingOf(m.value, conv)
      case None => None
      case Some(v) => Some(if |msg.fields| < 48 then msg.(fields := msg.fields + [Field(key, v)]) else msg)
  }

  function FieldMembers(ms: seq<Member>, msg: Message, conv: Conv): Option<Message> {
    if ms == [] then Some(msg)
    else
      match FieldMember(ms[0], msg, conv)
      case None => None
      case Some(msg') => FieldMembers(ms[1..], msg', conv)
  }

  function IntOf(v: Json): int { ToInt(Strtol(Print(v))) }

  function TopMember(m: Member, msg: Message, conv: Conv): Option<Message> {
    var key := KeyOf(m.key, KEY_LEN);
    if key == "src" then Some(msg.(src := IntOf(m.value), hasSrc := true))
    else if key == "pgn" then Some(msg.(pgn := IntOf(m.value), hasPgn := true))
    else if key == "prio" then Some(msg.(prio := IntOf(m.value), hasPrio := true))
    else if key == "dst" then Some(msg.(dst := IntOf(m.value), hasDst := true))
    else if key == "timestamp" then
      if m.value.JString? then Some(msg.(timestamp := KeyOf(m.value.chars, TS_LEN))) else None
    else if key == "description" then
      if m.value.JString? then Some(msg.(description := KeyOf(m.value.chars, DESC_LEN))) else None
    else if key == "fields" then
      if m.value.JObject? then FieldMembers(m.value.members, msg, conv) else None
    else if key == "version" then Some(msg.(isHeader := true))
    else Some(msg)
  }

  function TopMembers(ms: seq<Member>, msg: Message, conv: Conv): Option<Message> {
    if ms == [] then Some(msg)
    else
      match TopMember(ms[0], msg, conv)
      case None => None
      case Some(msg') => TopMembers(ms[1..], msg', conv)
  }

  function MessageOf(ms: seq<Member>, conv: Conv): Outcome {
    match TopMembers(ms, Empty, conv)
    case None => Rejected
    case Some(m) => if m.isHeader || m.hasPgn then Parsed(m) else Rejected
  }

  // ----- what is asked of strtod

  predicate IsToken(s: string) { s != "" && forall i | 0 <= i < |s| :: IsBareChar(s[i]) }

  /** strtod reads nothing past a word that a mark or white space ends, and no number at a bracket. */
  ghost predicate LikeStrtod(conv: Conv) {
    && (forall s, r | IsToken(s) && (r == "" || EndsToken(r[0])) :: conv(s + r) == conv(s))
    && (forall s: string | s != "" && (s[0] == '{' || s[0] == '[') :: conv(s) == 0.0)
  }

  // ----- where a loop over members stands

  ghost predicate ValidMembers(ms: seq<Member>) {
    forall i | 0 <= i < |ms| :: ValidMember(ms[i])
  }

  /** The members that are left, up to past the closing brace. */
  function Tail(ms: seq<Member>, end: string, rest: string): string {
    PrintMembers(ms) + (end + ("}" + rest))
  }

  /** White space after the first member's value, and what comes then: a comma or the brace. */
  function Gap(ms: seq<Member>, end: string): string
    requires ms != []
  {
    if |ms| > 1 then ms[0].ws4 else ms[0].ws4 + end
  }

  function Mark(ms: seq<Member>, end: string, rest: string): string
    requires ms != []
  {
    if |ms| > 1 then "," + Tail(ms[1..], end, rest) else "}" + rest
  }

  lemma {:induction false} TailSplit(ms: seq<Member>, end: string, rest: string)
    requires ms != []
    ensures var m := ms[0];
            Tail(ms, end, rest) ==
            m.ws + (PrintString(m.key) + (m.ws2 + (":" + (m.ws3 + (Print(m.value) + (Gap(ms, end) + Mark(ms, end, rest)))))))
  {
    hide Print, PrintString, PrintMembers;
    var r := end + ("}" + rest);
    MembersSplit(ms, r);
    if |ms| == 1 {
      assert ms[1..] == [] && PrintMembers([]) == "" by { NoMembers(); }
      assert ms[0].ws4 + ("" + ("" + r)) == ms[0].ws4 + end + ("}" + rest);
    }
  }

  lemma NoMembers()
    ensures PrintMembers([]) == ""
  {
  }

  lemma {:induction false} GapMark(ms: seq<Member>, end: string, rest: string)
    requires ms != [] && ValidMembers(ms) && Blank(end)
    ensures Follows(Gap(ms, end), Mark(ms, end, rest)) && Mark(ms, end, rest) != ""
    ensures ValidMember(ms[0]) && ValidMembers(ms[1..])
  {
    hide Valid, ValidChars, Tail;
    assert ValidMember(ms[0]);
  }

  lemma {:induction false} NextKeyWs(w: string, t: string, sz: nat)
    requires Blank(w) && t != "" && sz > 0
    ensures NextKey(w + t, sz) == NextKey(t, sz)
  {
    hide SkipWs, ParseString, SkipValue;
    WsSkipped(w, t);
  }

  lemma {:induction false} NextKeyComma(t: string, sz: nat)
    requires sz > 0
    ensures NextKey("," + t, sz) == Again(t)
  {
    assert ("," + t)[1..] == t;
    assert SkipWs("," + t) == "," + t;
  }

  lemma {:induction false} NextKeyBrace(w: string, t: string, sz: nat)
    requires Blank(w) && sz > 0
    ensures NextKey(w + ("}" + t), sz) == End(t)
  {
    NextKeyWs(w, "}" + t, sz);
    assert ("}" + t)[1..] == t;
    assert SkipWs("}" + t) == "}" + t;
  }

  /** A loop finds the key of the next member and stands after its colon. */
  lemma {:induction false} KeyFound(ms: seq<Member>, end: string, rest: string, sz: nat)
    requires ms != [] && ValidMembers(ms) && sz > 0
    ensures Tail(ms, end, rest) != ""
    ensures var m := ms[0];
            NextKey(Tail(ms, end, rest), sz) ==
            AtKey(KeyOf(m.key, sz), m.ws3 + (Print(m.value) + (Gap(ms, end) + Mark(ms, end, rest))))
  {
    hide Print, PrintString, ParseString, KeyOf, Gap, Mark, Tail, Valid, ValidChars;
    var m := ms[0];
    assert ValidMember(m);
    TailSplit(ms, end, rest);
    var t4 := m.ws3 + (Print(m.value) + (Gap(ms, end) + Mark(ms, end, rest)));
    var t3 := ":" + t4;
    var t2 := m.ws2 + t3;
    var u := PrintString(m.key) + t2;
    assert u != "" && u[0] == '"' by { StringSplit(m.key, t2); }
    assert SkipWs(u) == u;
    WsSkipped(m.ws, u);
    assert ParseString(u, sz) == Got(KeyOf(m.key, sz), t2) by { KeyRead(m.key, t2, sz); }
    WsSkipped(m.ws2, t3);
    assert SkipWs(t3) == t3 && t3[1..] == t4;
  }

  lemma {:induction false} KeyRead(chars: seq<Char>, r: string, sz: nat)
    requires ValidChars(chars) && sz > 0
    ensures ParseString(PrintString(chars) + r, sz) == Got(KeyOf(chars, sz), r)
  {
    StringRead(chars, r, sz);
  }

  /** Skipping the printed value of a member. */
  lemma {:induction false} ValueSkippedTo(v: Json, w: string, d: string)
    requires Valid(v) && Follows(w, d)
    ensures SkipWs(Print(v) + (w + d)) == Print(v) + (w + d)
    ensures SkipValue(Print(v) + (w + d)) == Some(if v.JBare? then d else w + d)
  {
    hide Print, SkipValue;
    PrintStarts(v, w + d);
    SkipValueStops("", v, w, d);
    assert "" + (Print(v) + (w + d)) == Print(v) + (w + d);
  }

  lemma {:induction false} ValueReached(before: string, v: Json, w: string, d: string)
    requires Blank(before) && Valid(v) && Follows(w, d)
    ensures SkipWs(before + (Print(v) + (w + d))) == Print(v) + (w + d)
  {
    hide Print, SkipValue, SkipWs;
    WsSkipped(before, Print(v) + (w + d));
    ValueSkippedTo(v, w, d);
  }

  // ----- fields

  lemma FollowsToken(w: string, d: string)
    requires Follows(w, d)
    ensures w + d == "" || EndsToken((w + d)[0])
  {
  }

  lemma {:induction false} ConvStops(v: Json, w: string, d: string, conv: Conv)
    requires LikeStrtod(conv) && Valid(v) && !v.JString? && Follows(w, d)
    ensures conv(Print(v) + (w + d)) == NumOf(v, conv)
  {
    hide PrintMembers, PrintElements;
    PrintStarts(v, w + d);
    if v.JBare? {
      FollowsToken(w, d);
      assert IsToken(v.text);
    }
  }

  lemma {:induction false} NvStepRead(m: Member, w: string, d: string, st: NvState, conv: Conv)
    requires LikeStrtod(conv) && ValidMember(m) && Follows(w, d)
    ensures NvStep(KeyOf(m.key, NV_KEY_LEN), Print(m.value) + (w + d), st, conv) ==
            match NvMember(m, st, conv)
            case None => Bad
            case Some(st') => Got(st', if m.value.JBare? then d else w + d)
  {
    hide Print, SkipValue, LikeStrtod, ParseString, KeyOf;
    var v := m.value;
    PrintStarts(v, w + d);
    ValueSkippedTo(v, w, d);
    if v.JString? {
      assert Print(v) == PrintString(v.chars) by { PrintIs(v); }
      KeyRead(v.chars, w + d, VAL_LEN);
    } else {
      ConvStops(v, w, d, conv);
      assert ParseString(Print(v) + (w + d), VAL_LEN) == Bad by { NoString(Print(v) + (w + d), VAL_LEN); }
    }
  }

  lemma NoString(t: string, sz: nat)
    requires sz > 0 && t != "" && t[0] != '"'
    ensures ParseString(t, sz) == Bad
  {
  }

  lemma {:induction false} NvAfter(g: string, ms: seq<Member>, end: string, rest: string, st: NvState, conv: Conv)
    requires ms != [] && ValidMembers(ms) && Blank(end)
    requires g == Mark(ms, end, rest) || g == Gap(ms, end) + Mark(ms, end, rest)
    ensures NvLoop(g, st, conv) == NvLoop(Tail(ms[1..], end, rest), st, conv)
  {
    hide NextKey, NvStep, Tail, Valid, ValidChars;
    LoopHead(g, ms, end, rest, NV_KEY_LEN);
  }

  /** The head of a loop after a value: past the comma, or at the end, as at the members that are left. */
  lemma {:induction false} LoopHead(g: string, ms: seq<Member>, end: string, rest: string, sz: nat)
    requires ms != [] && ValidMembers(ms) && Blank(end) && sz > 0
    requires g == Mark(ms, end, rest) || g == Gap(ms, end) + Mark(ms, end, rest)
    ensures g != ""
    ensures |ms| > 1 ==> NextKey(g, sz) == Again(Tail(ms[1..], end, rest))
    ensures |ms| == 1 ==> Tail(ms[1..], end, rest) != "" &&
                          NextKey(g, sz) == End(rest) == NextKey(Tail(ms[1..], end, rest), sz)
  {
    hide NextKey, Valid, ValidChars;
    GapMark(ms, end, rest);
    if |ms| > 1 {
      hide Tail;
      NextKeyComma(Tail(ms[1..], end, rest), sz);
      NextKeyWs(Gap(ms, end), Mark(ms, end, rest), sz);
    } else {
      assert ms[1..] == [] && Tail([], end, rest) == end + ("}" + rest) by { NoMembers(); }
      NextKeyBrace(end, rest, sz);
      NextKeyBrace("", rest, sz);
      assert "" + ("}" + rest) == "}" + rest;
      NextKeyBrace(Gap(ms, end), rest, sz);
    }
  }

  lemma {:induction false} NvRead(ms: seq<Member>, end: string, rest: string, st: NvState, conv: Conv)
    requires LikeStrtod(conv) && ValidMembers(ms) && Blank(end)
    ensures NvLoop(Tail(ms, end, rest), st, conv) ==
            match NvMembers(ms, st, conv)
            case None => Bad
            case Some(st') => Got(st', rest)
    decreases |ms|
  {
    hide NextKey, NvStep, NvMember, Tail, Gap, Mark, Print, LikeStrtod, Valid, ValidChars, KeyOf;
    if ms == [] {
      TailNone(end, rest, NV_KEY_LEN);
    } else {
      var m, w, d := ms[0], Gap(ms, end), Mark(ms, end, rest);
      GapMark(ms, end, rest);
      KeyFound(ms, end, rest, NV_KEY_LEN);
      ValueReached(m.ws3, m.value, w, d);
      NvStepRead(m, w, d, st, conv);
      match NvMember(m, st, conv) {
        case None =>
        case Some(st') =>
          NvAfter(if m.value.JBare? then d else w + d, ms, end, rest, st', conv);
          NvRead(ms[1..], end, rest, st', conv);
      }
    }
  }

  lemma {:induction false} TailNone(end: string, rest: string, sz: nat)
    requires Blank(end) && sz > 0
    ensures Tail([], end, rest) != "" && NextKey(Tail([], end, rest), sz) == End(rest)
  {
    hide NextKey;
    NoMembers();
    assert Tail([], end, rest) == end + ("}" + rest);
    NextKeyBrace(end, rest, sz);
  }

  lemma {:induction false} TokenRead(s: string, r: string)
    requires forall i | 0 <= i < |s| :: IsBareChar(s[i])
    requires r == "" || EndsToken(r[0])
    ensures TokenLen(s + r) == |s|
  {
    if s == "" {
      assert s + r == r;
    } else {
      assert (s + r)[0] == s[0] && (s + r)[1..] == s[1..] + r;
      TokenRead(s[1..], r);
    }
  }

  /** A field's value is read as what its tree stands for. */
  lemma {:induction false} FieldRead(before: string, v: Json, w: string, d: string, conv: Conv)
    requires LikeStrtod(conv) && Blank(before) && Valid(v) && Follows(w, d)
    ensures FieldValue(before + (Print(v) + (w + d)), conv) ==
            match ReadingOf(v, conv)
            case None => Bad
            case Some(x) => Got(x, w + d)
  {
    hide SkipValue, SkipWs, LikeStrtod, ParseString, KeyOf, BareReading, NvLoop, NvMembers, PrintMembers, PrintElements;
    var r := w + d;
    var u := Print(v) + r;
    ValueReached(before, v, w, d);
    PrintStarts(v, r);
    match v
    case JString(chars) =>
      KeyRead(chars, r, VAL_LEN);
    case JBare(text) =>
      FollowsToken(w, d);
      TokenRead(text, r);
      assert u[..|text|] == text && u[|text|..] == r;
      ConvStops(v, w, d, conv);
      BareReadingSame(text, u, conv);
    case JArray(_, _) =>
      ValueSkippedTo(v, w, d);
    case JObject(ms, end) =>
      ObjectSplit(ms, end, r);
      assert u[1..] == Tail(ms, end, r);
      NvRead(ms, end, r, NvState(0.0, "", false, false), conv);
  }

  lemma BareReadingSame(text: string, u: string, conv: Conv)
    requires conv(u) == conv(text)
    ensures BareReading(text, u, conv) == WordReading(text, conv)
  {
  }

  // ----- items of a list

  lemma {:induction false} ItemRead(ms: seq<Member>, end: string, rest: string, fields: seq<Field>, conv: Conv)
    requires LikeStrtod(conv) && ValidMembers(ms) && Blank(end)
    ensures ItemLoop(Tail(ms, end, rest), fields, conv) ==
            match ItemOf(ms, fields, conv)
            case None => Bad
            case Some(item) => Got(item, rest)
    decreases |ms|
  {
    hide NextKey, FieldValue, ReadingOf, Tail, Gap, Mark, Print, LikeStrtod, Valid, ValidChars, KeyOf;
    if ms == [] {
      TailNone(end, rest, KEY_LEN);
    } else {
      var m, w, d := ms[0], Gap(ms, end), Mark(ms, end, rest);
      GapMark(ms, end, rest);
      KeyFound(ms, end, rest, KEY_LEN);
      FieldRead(m.ws3, m.value, w, d, conv);
      if ReadingOf(m.value, conv).Some? {
        var fields' := Add(fields, Field(KeyOf(m.key, KEY_LEN), ReadingOf(m.value, conv).value), LIST_FIELDS);
        LoopHead(w + d, ms, end, rest, KEY_LEN);
        ItemRead(ms[1..], end, rest, fields', conv);
      }
    }
  }

  ghost predicate ValidElements(es: seq<Element>) {
    forall i | 0 <= i < |es| :: ValidElement(es[i])
  }

  function ListTail(es: seq<Element>, end: string, rest: string): string {
    PrintElements(es) + (end + ("]" + rest))
  }

  function ListGap(es: seq<Element>, end: string): string
    requires es != []
  {
    if |es| > 1 then es[0].ws2 else es[0].ws2 + end
  }

  function ListMark(es: seq<Element>, end: string, rest: string): string
    requires es != []
  {
    if |es| > 1 then "," + ListTail(es[1..], end, rest) else "]" + rest
  }

  lemma {:induction false} ListTailSplit(es: seq<Element>, end: string, rest: string)
    requires es != [] && ValidElements(es) && Blank(end)
    ensures ListTail(es, end, rest) ==
            es[0].ws + (Print(es[0].value) + (ListGap(es, end) + ListMark(es, end, rest)))
    ensures Follows(ListGap(es, end), ListMark(es, end, rest))
    ensures ValidElement(es[0]) && ValidElements(es[1..])
  {
    hide Print, PrintElements, Valid;
    assert ValidElement(es[0]);
    var r := end + ("]" + rest);
    ElementsSplit(es, r);
    if |es| == 1 {
      assert es[1..] == [] && PrintElements([]) == "" by { NoElements(); }
      assert es[0].ws2 + ("" + ("" + r)) == es[0].ws2 + end + ("]" + rest);
    }
  }

  lemma NoElements()
    ensures PrintElements([]) == ""
  {
  }

  lemma {:induction false} ListWs(w: string, t: string, items: seq<seq<Field>>, conv: Conv)
    requires Blank(w)
    ensures ListLoop(w + t, items, conv) == ListLoop(t, items, conv)
  {
    hide ItemLoop, SkipValue, SkipWs;
    WsSkipped(w, t);
    if t == "" {
      assert SkipWs("") == "" by { NoWs(); }
    }
  }

  lemma NoWs()
    ensures SkipWs("") == ""
  {
  }

  lemma {:induction false} ListComma(t: string, items: seq<seq<Field>>, conv: Conv)
    ensures ListLoop("," + t, items, conv) == ListLoop(t, items, conv)
  {
    hide ItemLoop, SkipValue;
    assert SkipWs("," + t) == "," + t;
    assert ("," + t)[1..] == t;
  }

  lemma {:induction false} ListClose(t: string, items: seq<seq<Field>>, conv: Conv)
    ensures ListLoop("]" + t, items, conv) == Got(items, t)
  {
    hide ItemLoop, SkipValue;
    assert SkipWs("]" + t) == "]" + t;
    assert ("]" + t)[1..] == t;
  }

  lemma {:induction false} ListAfter(g: string, es: seq<Element>, end: string, rest: string, items: seq<seq<Field>>, conv: Conv)
    requires es != [] && ValidElements(es) && Blank(end)
    requires g == ListMark(es, end, rest) || g == ListGap(es, end) + ListMark(es, end, rest)
    ensures ListLoop(g, items, conv) == ListLoop(ListTail(es[1..], end, rest), items, conv)
  {
    hide ListLoop, Valid;
    assert ValidElement(es[0]);
    var w, d := ListGap(es, end), ListMark(es, end, rest);
    ListWs(w, d, items, conv);
    if |es| > 1 {
      ListComma(ListTail(es[1..], end, rest), items, conv);
    } else {
      NoElements();
      assert ListTail(es[1..], end, rest) == end + ("]" + rest);
      ListWs(end, "]" + rest, items, conv);
    }
  }

  lemma {:induction false} ListRead(es: seq<Element>, end: string, rest: string, items: seq<seq<Field>>, conv: Conv)
    requires LikeStrtod(conv) && ValidElements(es) && Blank(end)
    ensures ListLoop(ListTail(es, end, rest), items, conv) ==
            match ItemsOf(es, items, conv)
            case None => Bad
            case Some(items') => Got(items', rest)
    decreases |es|
  {
    hide ItemLoop, ItemOf, ListTail, ListGap, ListMark, Print, LikeStrtod, SkipValue, SkipWs;
    if es == [] {
      ListNone(end, rest, items, conv);
    } else {
      var v, w, d := es[0].value, ListGap(es, end), ListMark(es, end, rest);
      ListTailSplit(es, end, rest);
      var u := Print(v) + (w + d);
      ListWs(es[0].ws, u, items, conv);
      PrintStarts(v, w + d);
      ValueSkippedTo(v, w, d);
      if v.JObject? && |items| < MAX_LIST {
        ObjectRead(v, w + d, conv);
        if ItemOf(v.members, [], conv).Some? {
          var items' := items + [ItemOf(v.members, [], conv).value];
          ListAfter(w + d, es, end, rest, items', conv);
          ListRead(es[1..], end, rest, items', conv);
        }
      } else {
        assert |Print(v)| > 0 by { PrintStarts(v, ""); assert Print(v) + "" == Print(v); }
        ListAfter(if v.JBare? then d else w + d, es, end, rest, items, conv);
        ListRead(es[1..], end, rest, items, conv);
      }
    }
  }

  lemma {:induction false} ListNone(end: string, rest: string, items: seq<seq<Field>>, conv: Conv)
    requires Blank(end)
    ensures ListLoop(ListTail([], end, rest), items, conv) == Got(items, rest)
  {
    hide ListLoop;
    NoElements();
    assert ListTail([], end, rest) == end + ("]" + rest);
    ListWs(end, "]" + rest, items, conv);
    ListClose(rest, items, conv);
  }

  lemma {:induction false} ObjectRead(v: Json, r: string, conv: Conv)
    requires LikeStrtod(conv) && Valid(v) && v.JObject?
    ensures ItemLoop((Print(v) + r)[1..], [], conv) ==
            match ItemOf(v.members, [], conv)
            case None => Bad
            case Some(item) => Got(item, r)
  {
    hide ItemLoop, ItemOf, PrintMembers, LikeStrtod;
    ObjectSplit(v.members, v.end, r);
    assert (Print(v) + r)[1..] == Tail(v.members, v.end, r);
    ItemRead(v.members, v.end, r, [], conv);
  }

  // ----- "fields"

  lemma {:induction false} FieldStepRead(m: Member, w: string, d: string, msg: Message, conv: Conv)
    requires LikeStrtod(conv) && ValidMember(m) && Follows(w, d)
    ensures FieldStep(KeyOf(m.key, KEY_LEN), m.ws3 + (Print(m.value) + (w + d)), msg, conv) ==
            match FieldMember(m, msg, conv)
            case None => Bad
            case Some(msg') => Got(msg', w + d)
  {
    hide Print, LikeStrtod, KeyOf, ListLoop, ItemsOf, FieldValue, ReadingOf, SkipWs;
    var v := m.value;
    ValueReached(m.ws3, v, w, d);
    PrintStarts(v, w + d);
    FieldRead(m.ws3, v, w, d, conv);
    if v.JArray? {
      ArraySplit(v.elems, v.end, w + d);
      ArrayTail(v, w + d);
      ListRead(v.elems, v.end, w + d, msg.items, conv);
    }
  }

  lemma {:induction false} ArrayTail(v: Json, r: string)
    requires v.JArray?
    ensures (Print(v) + r)[1..] == ListTail(v.elems, v.end, r)
  {
    hide PrintElements;
    ArraySplit(v.elems, v.end, r);
  }

  lemma {:induction false} FieldsRead(ms: seq<Member>, end: string, rest: string, msg: Message, conv: Conv)
    requires LikeStrtod(conv) && ValidMembers(ms) && Blank(end)
    ensures FieldsLoop(Tail(ms, end, rest), msg, conv) ==
            match FieldMembers(ms, msg, conv)
            case None => Bad
            case Some(msg') => Got(msg', rest)
    decreases |ms|
  {
    hide NextKey, FieldStep, FieldMember, Tail, Gap, Mark, Print, LikeStrtod, Valid, ValidChars, KeyOf;
    if ms == [] {
      TailNone(end, rest, KEY_LEN);
    } else {
      var m, w, d := ms[0], Gap(ms, end), Mark(ms, end, rest);
      GapMark(ms, end, rest);
      KeyFound(ms, end, rest, KEY_LEN);
      FieldStepRead(m, w, d, msg, conv);
      if FieldMember(m, msg, conv).Some? {
        LoopHead(w + d, ms, end, rest, KEY_LEN);
        FieldsRead(ms[1..], end, rest, FieldMember(m, msg, conv).value, conv);
      }
    }
  }

  // ----- the line

  lemma {:induction false} IntStops(v: Json, w: string, d: string)
    requires Valid(v) && Follows(w, d)
    ensures IntAt(Print(v) + (w + d)) == IntOf(v)
  {
    hide Print, Strtol;
    PrintStarts(v, "");
    assert Print(v) + "" == Print(v);
    StrtolStops(Print(v), w + d);
  }

  lemma {:induction false} TopStepRead(m: Member, w: string, d: string, msg: Message, conv: Conv)
    requires LikeStrtod(conv) && ValidMember(m) && Follows(w, d)
    ensures TopStep(KeyOf(m.key, KEY_LEN), Print(m.value) + (w + d), msg, conv) ==
            match TopMember(m, msg, conv)
            case None => Bad
            case Some(msg') =>
              Got(msg', if m.value.JBare? then d else w + d)
  {
    hide Print, LikeStrtod, KeyOf, ParseString, SkipValue, FieldsLoop, FieldMembers, IntAt, IntOf, SkipWs;
    var v := m.value;
    PrintStarts(v, w + d);
    ValueSkippedTo(v, w, d);
    IntStops(v, w, d);
    if v.JString? {
      assert Print(v) == PrintString(v.chars) by { PrintIs(v); }
      KeyRead(v.chars, w + d, TS_LEN);
      KeyRead(v.chars, w + d, DESC_LEN);
    } else {
      NoString(Print(v) + (w + d), TS_LEN);
      NoString(Print(v) + (w + d), DESC_LEN);
    }
    if v.JObject? {
      ObjectTail(v, w + d);
      FieldsRead(v.members, v.end, w + d, msg, conv);
    }
  }

  lemma {:induction false} ObjectTail(v: Json, r: string)
    requires v.JObject?
    ensures (Print(v) + r)[1..] == Tail(v.members, v.end, r)
  {
    hide PrintMembers;
    ObjectSplit(v.members, v.end, r);
  }

  lemma {:induction false} TopRead(ms: seq<Member>, end: string, rest: string, msg: Message, conv: Conv)
    requires LikeStrtod(conv) && ValidMembers(ms) && Blank(end)
    ensures TopLoop(Tail(ms, end, rest), msg, conv) ==
            match TopMembers(ms, msg, conv)
            case None => Bad
            case Some(msg') => Got(msg', rest)
    decreases |ms|
  {
    hide NextKey, TopStep, TopMember, Tail, Gap, Mark, Print, LikeStrtod, Valid, ValidChars, KeyOf, SkipWs;
    if ms == [] {
      TailNone(end, rest, KEY_LEN);
    } else {
      var m, w, d := ms[0], Gap(ms, end), Mark(ms, end, rest);
      GapMark(ms, end, rest);
      KeyFound(ms, end, rest, KEY_LEN);
      ValueReached(m.ws3, m.value, w, d);
      TopStepRead(m, w, d, msg, conv);
      if TopMember(m, msg, conv).Some? {
        LoopHead(if m.value.JBare? then d else w + d, ms, end, rest, KEY_LEN);
        TopRead(ms[1..], end, rest, TopMember(m, msg, conv).value, conv);
      }
    }
  }

  /** Every printing of every JSON object, whatever its keys, their order, its
      white space and what follows it, is read as the message of its tree: it
      never hangs the reader, and it is refused only when the tree is. */
  lemma {:induction false} ParseFindsMessage(before: string, v: Json, after: string, conv: Conv)
    requires LikeStrtod(conv) && Blank(before) && Valid(v) && v.JObject?
    ensures Parse(before + (Print(v) + after), conv) == MessageOf(v.members, conv)
  {
    hide TopLoop, TopMembers, Print, LikeStrtod, SkipWs, PrintMembers;
    var u := Print(v) + after;
    WsSkipped(before, u);
    PrintStarts(v, after);
    assert SkipWs(u) == u by { AtMark(u); }
    ObjectTail(v, after);
    TopRead(v.members, v.end, after, Empty, conv);
  }

  lemma AtMark(u: string)
    requires u != "" && !IsWs(u[0])
    ensures SkipWs(u) == u
  {
  }

  // ----- where the reader hangs

  /** A loop over members stops advancing exactly at a closing bracket where a key is expected. */
  lemma {:induction false} StrayBracketHangs(t: string, sz: nat)
    requires t != "" && sz > 0
    ensures NextKey(t, sz) == Hung <==> SkipWs(t) != "" && SkipWs(t)[0] == ']'
  {
    hide ParseString, SkipNest, SkipChars;
    var u := SkipWs(t);
    if u != "" && u[0] != '"' {
      AtMark(u);
      if u[0] == ']' {
        assert SkipBare(u) == u;
      }
    }
  }

  /** Such a line is never rejected: the source does not return from it. */
  lemma {:induction false} StrayBracketLine(t: string, conv: Conv)
    ensures Parse("{]" + t, conv) == Hangs
  {
    var u := "{]" + t;
    AtMark(u);
    assert u[1..] == "]" + t;
    AtMark("]" + t);
    StrayBracketHangs("]" + t, KEY_LEN);
  }
}
