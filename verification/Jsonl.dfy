/** src/jsonl.c: the one-pass reader as it runs, its pointer an index into the
    line, against the functions of JsonlSpec. */
module Jsonl {
  import opened CText
  import opened JsonText
  import opened JsonlSpec

  /** A result and where the pointer stands after it. */
  datatype At<+T> = Failed | Endless | At(value: T, next: nat)

  ghost predicate Within<T>(s: string, a: At<T>) {
    a.At? ==> a.next <= |s|
  }

  /** The same result with the text that is left. */
  ghost function View<T>(s: string, a: At<T>): Got<T>
    requires Within(s, a)
  {
    match a
    case Failed => Bad
    case Endless => Stuck
    case At(x, n) => Got(x, s[n..])
  }

  lemma Ahead(s: string, p: nat, k: nat)
    requires p + k <= |s|
    ensures s[p..][k..] == s[p + k..]
    ensures forall i | 0 <= i < |s| - p :: s[p..][i] == s[p + i]
  {
  }

  method SkipWsAt(s: string, p: nat) returns (q: nat)
    requires p <= |s|
    ensures p <= q <= |s| && s[q..] == SkipWs(s[p..])
  {
    q := p;
    while q < |s| && IsWs(s[q])
      invariant p <= q <= |s| && SkipWs(s[q..]) == SkipWs(s[p..])
    {
      Ahead(s, q, 1);
      q := q + 1;
    }
  }

  ghost function Prepend(acc: string, g: Got<string>): Got<string> {
    match g
    case Got(s, r) => Got(acc + s, r)
    case _ => g
  }

  lemma {:induction false} PrependChar(acc: string, c: char, g: Got<string>)
    ensures Prepend(acc, Prepend([c], g)) == Prepend(acc + [c], g)
  {
    if g.Got? {
      assert acc + ([c] + g.value) == acc + [c] + g.value;
    }
  }

  lemma ReadChar(t: string)
    requires t != "" && t[0] != '"'
    ensures ReadChars(t) == Prepend([CharAt(t)], ReadChars(t[CharLen(t)..]))
  {
  }

  /** parse_string: the characters go to a buffer of sz, the last for the NUL. */
  method ParseStringAt(s: string, p: nat, sz: nat) returns (a: At<string>)
    requires p <= |s| && sz > 0
    ensures Within(s, a) && View(s, a) == ParseString(s[p..], sz)
  {
    hide ReadChars, Copy;
    if p >= |s| || s[p] != '"' {
      return Failed;
    }
    Ahead(s, p, 1);
    var q := p + 1;
    var dst := "";
    ghost var acc := "";
    assert Copy("", sz) == "";
    while q < |s| && s[q] != '"'
      invariant p < q <= |s|
      invariant dst == Copy(acc, sz)
      invariant Prepend(acc, ReadChars(s[q..])) == Prepend("", ReadChars(s[p + 1..]))
    {
      var c := s[q];
      ghost var t := s[q..];
      var next := q + 1;
      if c == '\\' && q + 1 < |s| {
        c := Unescape(s[q + 1]);
        next := if s[q + 1] == 'u' && q + 5 < |s| then q + 6 else q + 2;
      }
      Ahead(s, q, 1);
      assert c == CharAt(t) && next == q + CharLen(t);
      Ahead(s, q, CharLen(t));
      ReadChar(t);
      PrependChar(acc, c, ReadChars(s[next..]));
      CopySnoc(acc, c, sz);
      acc := acc + [c];
      if |dst| + 1 < sz {
        dst := dst + [c];
      }
      q := next;
    }
    CharsEnd(s[q..]);
    PrependNone(ReadChars(s[p + 1..]));
    if q >= |s| {
      return Failed;
    }
    Ahead(s, q, 1);
    assert acc + "" == acc;
    a := At(dst, q + 1);
  }

  lemma {:induction false} PrependNone(g: Got<string>)
    ensures Prepend("", g) == g
  {
    if g.Got? {
      assert "" + g.value == g.value;
    }
  }

  lemma CharsEnd(t: string)
    ensures t == "" ==> ReadChars(t) == Bad
    ensures t != "" && t[0] == '"' ==> ReadChars(t) == Got("", t[1..])
  {
  }

  lemma {:induction false} CopySnoc(acc: string, c: char, sz: nat)
    requires sz > 0
    ensures Copy(acc + [c], sz) == if |Copy(acc, sz)| + 1 < sz then Copy(acc, sz) + [c] else Copy(acc, sz)
  {
    if |acc| + 1 >= sz {
      assert (acc + [c])[..sz - 1] == acc[..sz - 1];
    }
  }

  ghost predicate Reaches(s: string, r: Option<nat>, spec: Option<string>) {
    (r.Some? ==> r.value <= |s|) && spec == if r.Some? then Some(s[r.value..]) else None
  }

  /** Past the closing quote of the string whose characters start at p. */
  method SkipCharsAt(s: string, p: nat) returns (r: Option<nat>)
    requires p <= |s|
    ensures Reaches(s, r, SkipChars(s[p..]))
  {
    var q := p;
    while q < |s| && s[q] != '"'
      invariant p <= q <= |s| && SkipChars(s[q..]) == SkipChars(s[p..])
    {
      Ahead(s, q, 1);
      if s[q] == '\\' && q + 1 < |s| {
        Ahead(s, q, 2);
        q := q + 1;
      }
      q := q + 1;
    }
    if q < |s| {
      Ahead(s, q, 1);
      return Some(q + 1);
    }
    return None;
  }

  method SkipNestAt(s: string, p: nat) returns (r: Option<nat>)
    requires p < |s| && (s[p] == '{' || s[p] == '[')
    ensures Reaches(s, r, SkipNest(s[p..], s[p], 0, false))
  {
    var open, close := s[p], Closing(s[p]);
    var depth, quoted, q := 0, false, p;
    while q < |s|
      invariant p <= q <= |s|
      invariant SkipNest(s[q..], open, depth, quoted) == SkipNest(s[p..], open, 0, false)
      decreases |s| - q
    {
      Ahead(s, q, 1);
      if quoted {
        if s[q] == '\\' && q + 1 < |s| {
          Ahead(s, q, 2);
          q := q + 2;
          continue;
        }
        if s[q] == '"' {
          quoted := false;
        }
      } else if s[q] == '"' {
        quoted := true;
      } else if s[q] == open {
        depth := depth + 1;
      } else if s[q] == close {
        depth := depth - 1;
        if depth == 0 {
          return Some(q + 1);
        }
      }
      q := q + 1;
    }
    return None;
  }

  method SkipBareAt(s: string, p: nat) returns (q: nat)
    requires p <= |s|
    ensures p <= q <= |s| && s[q..] == SkipBare(s[p..])
  {
    q := p;
    while q < |s| && !EndsBare(s[q])
      invariant p <= q <= |s| && SkipBare(s[q..]) == SkipBare(s[p..])
    {
      Ahead(s, q, 1);
      q := q + 1;
    }
  }

  method SkipValueAt(s: string, p: nat) returns (r: Option<nat>)
    requires p <= |s|
    ensures Reaches(s, r, SkipValue(s[p..]))
  {
    hide SkipWs, SkipChars, SkipNest, SkipBare;
    var q := SkipWsAt(s, p);
    if q < |s| {
      Ahead(s, q, 1);
    }
    if q < |s| && s[q] == '"' {
      r := SkipCharsAt(s, q + 1);
    } else if q < |s| && (s[q] == '{' || s[q] == '[') {
      r := SkipNestAt(s, q);
    } else {
      var e := SkipBareAt(s, q);
      r := Some(e);
    }
  }

  datatype Head = HEnd(next: nat) | HAgain(next: nat) | HKey(key: string, next: nat) | HBroken | HHung

  ghost function HeadView(s: string, h: Head): Next
    requires h.HEnd? || h.HAgain? || h.HKey? ==> h.next <= |s|
  {
    match h
    case HEnd(n) => End(s[n..])
    case HAgain(n) => Again(s[n..])
    case HKey(k, n) => AtKey(k, s[n..])
    case HBroken => Broken
    case HHung => Hung
  }

  /** The head that the four loops over members share. */
  method NextKeyAt(s: string, p: nat, sz: nat) returns (h: Head)
    requires p < |s| && sz > 0
    ensures h.HEnd? || h.HAgain? || h.HKey? ==> p < h.next <= |s|
    ensures HeadView(s, h) == NextKey(s[p..], sz)
  {
    hide SkipWs, ParseString, SkipValue;
    var q := SkipWsAt(s, p);
    if q >= |s| {
      return HEnd(q);
    }
    Ahead(s, q, 1);
    if s[q] == '}' {
      return HEnd(q + 1);
    }
    if s[q] == ',' {
      return HAgain(q + 1);
    }
    if s[q] != '"' {
      var r := SkipValueAt(s, q);
      return if r.None? then HBroken else if r.value > q then HAgain(r.value) else HHung;
    }
    var k := ParseStringAt(s, q, sz);
    if !k.At? {
      return HBroken;
    }
    var v := SkipWsAt(s, k.next);
    if v >= |s| || s[v] != ':' {
      return HBroken;
    }
    Ahead(s, v, 1);
    h := HKey(k.value, v + 1);
  }

  method NvStepAt(key: string, s: string, q: nat, st: NvState, conv: Conv) returns (a: At<NvState>)
    requires q <= |s|
    ensures Within(s, a) && View(s, a) == NvStep(key, s[q..], st, conv)
  {
    hide ParseString, SkipValue;
    if q < |s| { Ahead(s, q, 0); }
    if key == "value" && q < |s| && s[q] == '"' {
      var str := ParseStringAt(s, q, VAL_LEN);
      if !str.At? {
        return Failed;
      }
      return At(st.(str := str.value, num := conv(str.value), gotValue := true), str.next);
    }
    if key == "name" {
      var str := ParseStringAt(s, q, VAL_LEN);
      if !str.At? {
        return Failed;
      }
      return At(st.(str := str.value, gotName := true), str.next);
    }
    var r := SkipValueAt(s, q);
    if r.None? {
      return Failed;
    }
    a := At(if key == "value" then st.(num := conv(s[q..]), gotValue := true) else st, r.value);
  }

  method NvLoopAt(s: string, p: nat, conv: Conv) returns (a: At<NvState>)
    requires p <= |s|
    ensures Within(s, a) && View(s, a) == NvLoop(s[p..], NvState(0.0, "", false, false), conv)
  {
    hide NextKey, NvStep, SkipWs;
    var st := NvState(0.0, "", false, false);
    var q := p;
    while q < |s|
      invariant p <= q <= |s|
      invariant NvLoop(s[q..], st, conv) == NvLoop(s[p..], NvState(0.0, "", false, false), conv)
      decreases |s| - q
    {
      var h := NextKeyAt(s, q, NV_KEY_LEN);
      match h {
        case HEnd(n) => return At(st, n);
        case HAgain(n) => q := n;
        case HBroken => return Failed;
        case HHung => return Endless;
        case HKey(key, n) =>
          var v := SkipWsAt(s, n);
          var x := NvStepAt(key, s, v, st, conv);
          if !x.At? {
            return Failed;
          }
          q, st := x.next, x.value;
      }
    }
    a := At(st, q);
  }

  method TokenEndAt(s: string, p: nat) returns (q: nat)
    requires p <= |s|
    ensures p <= q <= |s| && q - p == TokenLen(s[p..])
  {
    q := p;
    while q < |s| && !EndsToken(s[q])
      invariant p <= q <= |s| && TokenLen(s[p..]) == q - p + TokenLen(s[q..])
    {
      Ahead(s, q, 1);
      q := q + 1;
    }
  }

  method FieldValueAt(s: string, p: nat, conv: Conv) returns (a: At<Reading>)
    requires p <= |s|
    ensures Within(s, a) && View(s, a) == FieldValue(s[p..], conv)
  {
    hide SkipWs, ParseString, SkipValue, NvLoop, TokenLen, BareReading;
    var q := SkipWsAt(s, p);
    if q < |s| { Ahead(s, q, 1); }
    if q < |s| && s[q] == '"' {
      var str := ParseStringAt(s, q, VAL_LEN);
      return if str.At? then At(Reading(TStr, 0.0, str.value), str.next) else Failed;
    }
    if q < |s| && s[q] == '{' {
      var nv := NvLoopAt(s, q + 1, conv);
      return if nv.At? then At(NvReading(nv.value), nv.next) else if nv.Failed? then Failed else Endless;
    }
    if q < |s| && s[q] == '[' {
      var r := SkipValueAt(s, q);
      return if r.Some? then At(Reading(TNull, 0.0, ""), r.value) else Failed;
    }
    var e := TokenEndAt(s, q);
    Ahead(s, q, e - q);
    assert s[q..][..e - q] == s[q..e];
    a := At(BareReading(s[q..e], s[q..], conv), e);
  }

  method ParseItemAt(s: string, p: nat, conv: Conv) returns (a: At<seq<Field>>)
    requires p <= |s|
    ensures Within(s, a) && View(s, a) == ItemLoop(s[p..], [], conv)
  {
    hide NextKey, FieldValue;
    var item: seq<Field> := [];
    var q := p;
    while q < |s|
      invariant p <= q <= |s|
      invariant ItemLoop(s[q..], item, conv) == ItemLoop(s[p..], [], conv)
      decreases |s| - q
    {
      var h := NextKeyAt(s, q, KEY_LEN);
      match h {
        case HEnd(n) => return At(item, n);
        case HAgain(n) => q := n;
        case HBroken => return Failed;
        case HHung => return Endless;
        case HKey(key, n) =>
          var v := FieldValueAt(s, n, conv);
          match v {
            case Failed => return Failed;
            case Endless => return Endless;
            case At(x, n') =>
              if |item| < LIST_FIELDS {
                item := item + [Field(key, x)];
              }
              q := n';
          }
      }
    }
    a := At(item, q);
  }

  datatype Verdict = Done(next: nat) | Refused | Running

  /** The decoded message, filled while the line is read. */
  class MessageReader {
    var hasSrc: bool
    var hasPgn: bool
    var hasPrio: bool
    var hasDst: bool
    var src: int
    var pgn: int
    var prio: int
    var dst: int
    var timestamp: string
    var description: string
    var fields: seq<Field>
    var items: seq<seq<Field>>
    var isHeader: bool

    function Value(): Message
      reads this
    {
      Message(hasSrc, hasPgn, hasPrio, hasDst, src, pgn, prio, dst, timestamp, description, fields, items, isHeader)
    }

    /** What a step leaves: its message and the text that is left, when it comes back. */
    ghost predicate Agrees(s: string, v: Verdict, g: Got<Message>)
      reads this
    {
      match v
      case Done(n) => n <= |s| && g == Got(Value(), s[n..])
      case Refused => g == Bad
      case Running => g == Stuck
    }

    constructor ()
      ensures Value() == Empty
    {
      hasSrc, hasPgn, hasPrio, hasDst, isHeader := false, false, false, false, false;
      src, pgn, prio, dst := -1, -1, -1, -1;
      timestamp, description, fields, items := "", "", [], [];
    }

    method Reset()
      modifies this
      ensures Value() == Empty
    {
      hasSrc, hasPgn, hasPrio, hasDst, isHeader := false, false, false, false, false;
      src, pgn, prio, dst := -1, -1, -1, -1;
      timestamp, description, fields, items := "", "", [], [];
    }

    /** parse_list, from past the opening bracket. */
    method ParseList(s: string, p: nat, conv: Conv) returns (v: Verdict)
      requires p <= |s|
      modifies this`items
      ensures match ListLoop(s[p..], old(items), conv)
              case Got(l, r) => v.Done? && v.next <= |s| && r == s[v.next..] && items == l
              case Bad => v == Refused
              case Stuck => v == Running
    {
      hide SkipWs, ItemLoop, SkipValue;
      var q := p;
      while q < |s|
        invariant p <= q <= |s|
        invariant ListLoop(s[q..], items, conv) == ListLoop(s[p..], old(items), conv)
        decreases |s| - q
      {
        q := SkipWsAt(s, q);
        if q >= |s| {
          return Done(q);
        }
        Ahead(s, q, 1);
        if s[q] == ']' {
          return Done(q + 1);
        }
        if s[q] == ',' {
          q := q + 1;
          continue;
        }
        if s[q] == '{' && |items| < MAX_LIST {
          var item := ParseItemAt(s, q + 1, conv);
          match item {
            case Failed => return Refused;
            case Endless => return Running;
            case At(x, n) =>
              items := items + [x];
              q := n;
          }
        } else {
          var r := SkipValueAt(s, q);
          if r.None? {
            return Refused;
          }
          if r.value <= q {
            return Running;
          }
          q := r.value;
        }
      }
      v := Done(q);
    }

    /** One member of "fields". */
    method FieldMember(key: string, s: string, p: nat, conv: Conv) returns (v: Verdict)
      requires p <= |s|
      modifies this
      ensures Agrees(s, v, FieldStep(key, s[p..], old(Value()), conv))
    {
      hide SkipWs, ListLoop, FieldValue;
      if key == "list" {
        var q := SkipWsAt(s, p);
        if q < |s| && s[q] == '[' {
          Ahead(s, q, 1);
          v := ParseList(s, q + 1, conv);
          return;
        }
      }
      var x := FieldValueAt(s, p, conv);
      match x {
        case Failed => v := Refused;
        case Endless => v := Running;
        case At(value, n) =>
          if |fields| < MAX_FIELDS {
            fields := fields + [Field(key, value)];
          }
          v := Done(n);
      }
    }

    /** parse_fields, from past the opening brace. */
    method ParseFields(s: string, p: nat, conv: Conv) returns (v: Verdict)
      requires p <= |s|
      modifies this
      ensures Agrees(s, v, FieldsLoop(s[p..], old(Value()), conv))
    {
      hide NextKey, FieldStep;
      var q := p;
      while q < |s|
        invariant p <= q <= |s|
        invariant FieldsLoop(s[q..], Value(), conv) == FieldsLoop(s[p..], old(Value()), conv)
        decreases |s| - q
      {
        var h := NextKeyAt(s, q, KEY_LEN);
        match h {
          case HEnd(n) => return Done(n);
          case HAgain(n) => q := n;
          case HBroken => return Refused;
          case HHung => return Running;
          case HKey(key, n) =>
            v := FieldMember(key, s, n, conv);
            if !v.Done? {
              return;
            }
            q := v.next;
        }
      }
      v := Done(q);
    }

    method SkipMember(s: string, p: nat) returns (v: Verdict)
      requires p <= |s|
      ensures Agrees(s, v, Skipping(s[p..], Value()))
    {
      hide SkipValue;
      var r := SkipValueAt(s, p);
      v := if r.Some? then Done(r.value) else Refused;
    }

    /** One member of the message. */
    method TopMember(key: string, s: string, p: nat, conv: Conv) returns (v: Verdict)
      requires p <= |s|
      modifies this
      ensures Agrees(s, v, TopStep(key, s[p..], old(Value()), conv))
    {
      hide SkipValue, ParseString, FieldsLoop, IntAt;
      if key == "src" {
        src, hasSrc := IntAt(s[p..]), true;
        v := SkipMember(s, p);
      } else if key == "pgn" {
        pgn, hasPgn := IntAt(s[p..]), true;
        v := SkipMember(s, p);
      } else if key == "prio" {
        prio, hasPrio := IntAt(s[p..]), true;
        v := SkipMember(s, p);
      } else if key == "dst" {
        dst, hasDst := IntAt(s[p..]), true;
        v := SkipMember(s, p);
      } else if key == "timestamp" {
        var t := ParseStringAt(s, p, TS_LEN);
        if !t.At? {
          return Refused;
        }
        timestamp, v := t.value, Done(t.next);
      } else if key == "description" {
        var t := ParseStringAt(s, p, DESC_LEN);
        if !t.At? {
          return Refused;
        }
        description, v := t.value, Done(t.next);
      } else if key == "fields" {
        if p >= |s| || s[p] != '{' {
          return Refused;
        }
        Ahead(s, p, 1);
        v := ParseFields(s, p + 1, conv);
      } else if key == "version" {
        isHeader := true;
        v := SkipMember(s, p);
      } else {
        v := SkipMember(s, p);
      }
    }

    /** jsonl_parse: Done when the line is useful, Refused when it returns false,
        Running when it does not return. */
    method Parse(line: string, conv: Conv) returns (v: Verdict)
      modifies this
      ensures match JsonlSpec.Parse(line, conv)
              case Parsed(m) => v.Done? && Value() == m
              case Rejected => v == Refused
              case Hangs => v == Running
    {
      hide SkipWs, NextKey, TopStep;
      Reset();
      assert line[0..] == line;
      var q := SkipWsAt(line, 0);
      if q >= |line| || line[q] != '{' {
        return Refused;
      }
      Ahead(line, q, 1);
      ghost var body := line[q + 1..];
      q := q + 1;
      while q < |line|
        invariant q <= |line|
        invariant TopLoop(line[q..], Value(), conv) == TopLoop(body, Empty, conv)
        decreases |line| - q
      {
        var h := NextKeyAt(line, q, KEY_LEN);
        match h {
          case HEnd(n) =>
            break;
          case HAgain(n) => q := n;
          case HBroken => return Refused;
          case HHung => return Running;
          case HKey(key, n) =>
            var p := SkipWsAt(line, n);
            v := TopMember(key, line, p, conv);
            if !v.Done? {
              return;
            }
            q := v.next;
        }
      }
      v := if isHeader || hasPgn then Done(q) else Refused;
    }
  }

  /** jsonl_get: the first field with the key. */
  method Get(fields: seq<Field>, key: string) returns (f: Option<Reading>)
    ensures f.Some? ==> exists i :: 0 <= i < |fields| && fields[i] == Field(key, f.value) &&
                          forall j | 0 <= j < i :: fields[j].key != key
    ensures f.None? ==> forall i | 0 <= i < |fields| :: fields[i].key != key
  {
    for i := 0 to |fields|
      invariant forall j | 0 <= j < i :: fields[j].key != key
    {
      if fields[i].key == key {
        return Some(fields[i].value);
      }
    }
    f := None;
  }
}
