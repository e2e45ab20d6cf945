/** What a JSON object means to the reader of src/jsonl.c, member by member: which one
    of several with the same key counts, what each kind of value stands for, what is kept
    of long lists, and what makes the line useless. */
module JsonlMeaning {
  import opened CText
  import opened CNumber
  import opened JsonText
  import opened JsonlSpec
  import opened JsonlTree
  import JsonlSkip

  predicate Called(m: Member, key: string) { Text(m.key) == key }

  lemma {:induction false} KeyCalled(m: Member, key: string, sz: nat)
    requires |key| + 1 < sz
    ensures KeyOf(m.key, sz) == key <==> Called(m, key)
  {
  }

  /** The value of the last member with the key. */
  function LastCalled(ms: seq<Member>, key: string): (v: Option<Json>)
    ensures v.None? ==> forall i | 0 <= i < |ms| :: !Called(ms[i], key)
    ensures v.Some? ==> exists i :: 0 <= i < |ms| && Called(ms[i], key) && ms[i].value == v.value
                                    && forall j | i < j < |ms| :: !Called(ms[j], key)
  {
    if ms == [] then None
    else
      var v := LastCalled(ms[1..], key);
      if v.Some? then v else if Called(ms[0], key) then Some(ms[0].value) else None
  }

  // ----- values

  /** A member that gives the text of a value with a name: the name, or a value in quotes. */
  predicate GivesText(m: Member) { Called(m, "name") || (Called(m, "value") && m.value.JString?) }

  function LastText(ms: seq<Member>): (v: Option<Json>)
    ensures v.None? ==> forall i | 0 <= i < |ms| :: !GivesText(ms[i])
    ensures v.Some? ==> exists i :: 0 <= i < |ms| && GivesText(ms[i]) && ms[i].value == v.value
                                    && forall j | i < j < |ms| :: !GivesText(ms[j])
  {
    if ms == [] then None
    else
      var v := LastText(ms[1..]);
      if v.Some? then v else if GivesText(ms[0]) then Some(ms[0].value) else None
  }

  ghost predicate TextIs(v: Option<Json>, sz: nat, s: string)
    requires sz > 0
  {
    match v
    case None => s == ""
    case Some(j) => j.JString? && s == Copy(Text(j.chars), sz)
  }

  ghost predicate NumberIs(v: Option<Json>, conv: Conv, x: real) {
    match v
    case None => x == 0.0
    case Some(JString(chars)) => x == conv(Copy(Text(chars), 96))
    case Some(JBare(text)) => x == conv(text)
    case Some(_) => x == 0.0
  }

  /** A value with a name needs that in quotes. */
  predicate Readable(v: Json) {
    v.JObject? ==> forall i | 0 <= i < |v.members| && Called(v.members[i], "name") :: v.members[i].value.JString?
  }

  predicate GivesNv(m: Member) { Called(m, "value") || Called(m, "name") }

  /** What a value stands for. */
  ghost predicate Stands(v: Json, conv: Conv, r: Reading) {
    match v
    case JString(chars) => r == Reading(TStr, 0.0, Copy(Text(chars), 96))
    case JBare(text) =>
      if text == "null" || text == "" then r == Reading(TNull, 0.0, "")
      else if text == "true" then r == Reading(TNum, 1.0, "true")
      else if text == "false" then r == Reading(TNum, 0.0, "false")
      else r == Reading(TNum, conv(text), Copy(text, 96))
    case JArray(_, _) => r == Reading(TNull, 0.0, "")
    case JObject(ms, _) =>
      && r.typ == (if exists i :: 0 <= i < |ms| && GivesNv(ms[i]) then TNv else TNull)
      && NumberIs(LastCalled(ms, "value"), conv, r.num)
      && TextIs(LastText(ms), 96, r.str)
  }

  lemma {:induction false} NvMemberIs(m: Member, st: NvState, conv: Conv)
    ensures var r := NvMember(m, st, conv);
            && (r.None? <==> Called(m, "name") && !m.value.JString?)
            && (r.Some? ==>
                  && r.value.gotValue == (st.gotValue || Called(m, "value"))
                  && r.value.gotName == (st.gotName || Called(m, "name"))
                  && (if Called(m, "value") then NumberIs(Some(m.value), conv, r.value.num) else r.value.num == st.num)
                  && (if GivesText(m) then TextIs(Some(m.value), 96, r.value.str) else r.value.str == st.str))
  {
    hide Text, Copy;
    KeyCalled(m, "value", NV_KEY_LEN);
    KeyCalled(m, "name", NV_KEY_LEN);
  }

  lemma {:induction false} NvFold(ms: seq<Member>, st: NvState, conv: Conv)
    ensures var r := NvMembers(ms, st, conv);
            && (r.None? <==> exists i :: 0 <= i < |ms| && Called(ms[i], "name") && !ms[i].value.JString?)
            && (r.Some? ==>
                  var (v, t) := (LastCalled(ms, "value"), LastText(ms));
                  && (r.value.gotValue <==> st.gotValue || v.Some?)
                  && (r.value.gotName <==> st.gotName || LastCalled(ms, "name").Some?)
                  && (if v.None? then r.value.num == st.num else NumberIs(v, conv, r.value.num))
                  && (if t.None? then r.value.str == st.str else TextIs(t, 96, r.value.str)))
  {
    hide Called, GivesText, NumberIs, TextIs, NvMember;
    if ms != [] {
      NvMemberIs(ms[0], st, conv);
      var s := NvMember(ms[0], st, conv);
      assert forall i | 0 <= i < |ms| - 1 :: ms[1..][i] == ms[i + 1];
      if s.Some? {
        NvFold(ms[1..], s.value, conv);
        if i :| 0 <= i < |ms| && Called(ms[i], "name") && !ms[i].value.JString? {
          assert ms[1..][i - 1] == ms[i];
        }
      }
    }
  }

  /** Every readable value is read as what it stands for, and only an unreadable one is refused. */
  lemma {:induction false} ReadingStands(v: Json, conv: Conv)
    ensures ReadingOf(v, conv).Some? <==> Readable(v)
    ensures ReadingOf(v, conv).Some? ==> Stands(v, conv, ReadingOf(v, conv).value)
  {
    hide Text, Copy, NvMembers;
    if v.JObject? {
      NvFold(v.members, NvState(0.0, "", false, false), conv);
      if ReadingOf(v, conv).Some? { ObjectStands(v, conv); }
    }
  }

  lemma {:induction false} ObjectStands(v: Json, conv: Conv)
    requires v.JObject? && ReadingOf(v, conv).Some?
    ensures Stands(v, conv, ReadingOf(v, conv).value)
  {
    hide Text, Copy, NvMembers, NumberIs, TextIs;
    var ms := v.members;
    var st := NvMembers(ms, NvState(0.0, "", false, false), conv).value;
    NvFold(ms, NvState(0.0, "", false, false), conv);
    NothingGiven(conv);
    NvGiven(ms);
    var r := ReadingOf(v, conv).value;
    assert r == NvReading(st);
    assert TextIs(LastText(ms), 96, r.str);
    assert NumberIs(LastCalled(ms, "value"), conv, r.num);
    assert r.typ == if exists i :: 0 <= i < |ms| && GivesNv(ms[i]) then TNv else TNull;
  }

  lemma {:induction false} NvGiven(ms: seq<Member>)
    ensures (exists i :: 0 <= i < |ms| && GivesNv(ms[i])) <==> LastCalled(ms, "value").Some? || LastCalled(ms, "name").Some?
  {
    hide Called;
    if i :| 0 <= i < |ms| && GivesNv(ms[i]) {
      assert Called(ms[i], "value") || Called(ms[i], "name");
    }
    if LastCalled(ms, "value").Some? {
      var i :| 0 <= i < |ms| && Called(ms[i], "value");
      assert GivesNv(ms[i]);
    }
    if LastCalled(ms, "name").Some? {
      var i :| 0 <= i < |ms| && Called(ms[i], "name");
      assert GivesNv(ms[i]);
    }
  }

  lemma NothingGiven(conv: Conv)
    ensures NumberIs(None, conv, 0.0) && TextIs(None, 96, "")
  {
  }

  /** A field's value, white space before it, is read as what it stands for. */
  lemma {:induction false} FieldStands(ws: string, v: Json, w: string, d: string, conv: Conv)
    requires LikeStrtod(conv) && Blank(ws) && Valid(v) && JsonlSkip.Follows(w, d)
    ensures var g := FieldValue(ws + (Print(v) + (w + d)), conv);
            if Readable(v) then g.Got? && g.rest == w + d && Stands(v, conv, g.value) else g == Bad
  {
    hide LikeStrtod, Valid, Print, FieldValue, Readable, Stands, ReadingOf;
    FieldRead(ws, v, w, d, conv);
    ReadingStands(v, conv);
  }

  // ----- lists of fields

  /** A member's field: its key, cut to the buffer, and what its value stands for. */
  ghost predicate FieldIs(m: Member, conv: Conv, f: Field) {
    f.key == Copy(Text(m.key), 48) && Stands(m.value, conv, f.value)
  }

  function Least(a: nat, b: nat): nat { if a < b then a else b }

  /** The fields of these members follow those there, in order, as many as there is room for. */
  ghost predicate Appended(before: seq<Field>, ms: seq<Member>, conv: Conv, room: nat, after: seq<Field>) {
    && |after| == Least(room, |before| + |ms|) && |before| <= |after|
    && after[..|before|] == before
    && forall i | |before| <= i < |after| :: FieldIs(ms[i - |before|], conv, after[i])
  }

  ghost predicate AllReadable(ms: seq<Member>) { forall i | 0 <= i < |ms| :: Readable(ms[i].value) }

  lemma {:induction false} AppendedOne(before: seq<Field>, m: Member, v: Reading, conv: Conv, room: nat)
    requires |before| <= room && Stands(m.value, conv, v)
    ensures Appended(before, [m], conv, room, Add(before, Field(KeyOf(m.key, KEY_LEN), v), room))
  {
    hide Stands, Text;
  }

  lemma {:induction false} AppendedMore(a: seq<Field>, ms: seq<Member>, b: seq<Field>, ns: seq<Member>, c: seq<Field>, conv: Conv, room: nat)
    requires Appended(a, ms, conv, room, b) && Appended(b, ns, conv, room, c)
    ensures Appended(a, ms + ns, conv, room, c)
  {
    hide FieldIs;
    assert c[..|a|] == c[..|b|][..|a|] == a;
    forall i | |a| <= i < |c| ensures FieldIs((ms + ns)[i - |a|], conv, c[i]) {
      if i < |b| {
        assert c[i] == c[..|b|][i] == b[i];
      }
    }
  }

  lemma AppendedNone(a: seq<Field>, conv: Conv, room: nat)
    requires |a| <= room
    ensures Appended(a, [], conv, room, a)
  {
  }

  lemma {:induction false} ItemFold(ms: seq<Member>, fields: seq<Field>, conv: Conv)
    requires |fields| <= LIST_FIELDS
    ensures var r := ItemOf(ms, fields, conv);
            (r.Some? <==> AllReadable(ms)) && (r.Some? ==> Appended(fields, ms, conv, 8, r.value))
  {
    hide Readable, Stands, ReadingOf, Appended, KeyOf;
    if ms == [] {
      AppendedNone(fields, conv, 8);
    } else {
      var m := ms[0];
      ReadingStands(m.value, conv);
      assert forall i | 0 <= i < |ms| - 1 :: ms[1..][i] == ms[i + 1];
      if ReadingOf(m.value, conv).Some? {
        var v := ReadingOf(m.value, conv).value;
        var more := Add(fields, Field(KeyOf(m.key, KEY_LEN), v), LIST_FIELDS);
        AppendedOne(fields, m, v, conv, 8);
        ItemFold(ms[1..], more, conv);
        var r := ItemOf(ms[1..], more, conv);
        if r.Some? {
          AppendedMore(fields, [m], more, ms[1..], r.value, conv, 8);
          assert [m] + ms[1..] == ms;
        }
        if AllReadable(ms) { assert AllReadable(ms[1..]); }
        assert ms == [m] + ms[1..];
      }
    }
  }

  // ----- the repeated list

  /** The objects among the elements of a list. */
  function Objects(es: seq<Element>): seq<seq<Member>> {
    if es == [] then []
    else (if es[0].value.JObject? then [es[0].value.members] else []) + Objects(es[1..])
  }

  /** The objects follow those there, each with the fields of its first eight members. */
  ghost predicate Listed(before: seq<seq<Field>>, os: seq<seq<Member>>, conv: Conv, after: seq<seq<Field>>) {
    && |after| == Least(32, |before| + |os|) && |before| <= |after|
    && after[..|before|] == before
    && forall i | |before| <= i < |after| :: Appended([], os[i - |before|], conv, 8, after[i])
  }

  /** The objects that there is room for are readable. */
  ghost predicate ListReadable(os: seq<seq<Member>>, room: int) {
    forall i | 0 <= i < |os| && i < room :: AllReadable(os[i])
  }

  lemma {:induction false} ListedMore(a: seq<seq<Field>>, os: seq<seq<Member>>, b: seq<seq<Field>>, ps: seq<seq<Member>>, c: seq<seq<Field>>, conv: Conv)
    requires Listed(a, os, conv, b) && Listed(b, ps, conv, c)
    ensures Listed(a, os + ps, conv, c)
  {
    hide Appended;
    assert c[..|a|] == c[..|b|][..|a|] == a;
    forall i | |a| <= i < |c| ensures Appended([], (os + ps)[i - |a|], conv, 8, c[i]) {
      if i < |b| {
        assert c[i] == c[..|b|][i] == b[i];
      }
    }
  }

  lemma ListedNone(a: seq<seq<Field>>, conv: Conv)
    requires |a| <= 32
    ensures Listed(a, [], conv, a)
  {
  }

  lemma {:induction false} ListedOne(a: seq<seq<Field>>, o: seq<Member>, item: seq<Field>, conv: Conv)
    requires |a| < 32 && Appended([], o, conv, 8, item)
    ensures Listed(a, [o], conv, a + [item])
  {
    hide Appended;
  }

  lemma ListedFull(a: seq<seq<Field>>, os: seq<seq<Member>>, conv: Conv)
    requires |a| == 32
    ensures Listed(a, os, conv, a)
  {
  }

  lemma {:induction false} ListReadableSplit(os: seq<seq<Member>>, ps: seq<seq<Member>>, room: int)
    ensures ListReadable(os + ps, room) <==> ListReadable(os, room) && ListReadable(ps, room - |os|)
  {
    hide AllReadable;
    var all := os + ps;
    if ListReadable(all, room) {
      forall i | 0 <= i < |os| && i < room ensures AllReadable(os[i]) { assert all[i] == os[i]; }
      forall i | 0 <= i < |ps| && i < room - |os| ensures AllReadable(ps[i]) { assert all[|os| + i] == ps[i]; }
    }
    if ListReadable(os, room) && ListReadable(ps, room - |os|) {
      forall i | 0 <= i < |all| && i < room ensures AllReadable(all[i]) {
        if i >= |os| { assert all[i] == ps[i - |os|]; }
      }
    }
  }

  lemma {:induction false} ListFold(es: seq<Element>, items: seq<seq<Field>>, conv: Conv)
    requires |items| <= MAX_LIST
    ensures var r := ItemsOf(es, items, conv);
            && (r.Some? <==> ListReadable(Objects(es), 32 - |items|))
            && (r.Some? ==> Listed(items, Objects(es), conv, r.value))
    decreases |es|
  {
    hide AllReadable, ItemOf, Appended, Listed, ListReadable;
    if es == [] {
      ListedNone(items, conv);
      assert ListReadable([], 32 - |items|) by { NoneUnreadable(32 - |items|); }
    } else if es[0].value.JObject? && |items| < MAX_LIST {
      var o := es[0].value.members;
      ItemFold(o, [], conv);
      ListReadableSplit([o], Objects(es[1..]), 32 - |items|);
      OneReadable(o, 32 - |items|);
      var item := ItemOf(o, [], conv);
      if item.Some? {
        var more := items + [item.value];
        ListFold(es[1..], more, conv);
        var r := ItemsOf(es[1..], more, conv);
        ListedOne(items, o, item.value, conv);
        if r.Some? { ListedMore(items, [o], more, Objects(es[1..]), r.value, conv); }
      }
    } else {
      ListFold(es[1..], items, conv);
      if es[0].value.JObject? {
        ListedFull(items, Objects(es), conv);
        NoRoom(Objects(es));
        NoRoom(Objects(es[1..]));
        ListedSame(items, Objects(es[1..]), conv, ItemsOf(es, items, conv));
      } else {
        assert [] + Objects(es[1..]) == Objects(es[1..]);
      }
    }
  }

  lemma NoneUnreadable(room: int)
    ensures ListReadable([], room)
  {
  }

  lemma NoRoom(os: seq<seq<Member>>)
    ensures ListReadable(os, 0)
  {
  }

  lemma {:induction false} OneReadable(o: seq<Member>, room: int)
    requires room > 0
    ensures ListReadable([o], room) <==> AllReadable(o)
  {
    hide AllReadable;
    assert [o][0] == o;
  }

  lemma {:induction false} ListedSame(a: seq<seq<Field>>, os: seq<seq<Member>>, conv: Conv, r: Option<seq<seq<Field>>>)
    requires |a| == 32 && (r.Some? ==> Listed(a, os, conv, r.value))
    ensures r.Some? ==> r.value == a
  {
    if r.Some? { assert r.value[..32] == r.value; }
  }

  // ----- "fields"

  predicate IsList(m: Member) { Called(m, "list") && m.value.JArray? }

  /** The members that are fields, and the objects of those that are lists. */
  function Plains(ms: seq<Member>): seq<Member> {
    if ms == [] then [] else (if IsList(ms[0]) then [] else [ms[0]]) + Plains(ms[1..])
  }

  function ListObjects(ms: seq<Member>): seq<seq<Member>> {
    if ms == [] then [] else (if IsList(ms[0]) then Objects(ms[0].value.elems) else []) + ListObjects(ms[1..])
  }

  /** The message with these fields and these list objects more, and nothing else changed. */
  ghost predicate Extended(a: Message, ps: seq<Member>, os: seq<seq<Member>>, conv: Conv, b: Message) {
    && b == a.(fields := b.fields, items := b.items)
    && Appended(a.fields, ps, conv, 48, b.fields) && Listed(a.items, os, conv, b.items)
  }

  ghost predicate Fitting(m: Message) { |m.fields| <= 48 && |m.items| <= 32 }

  lemma {:induction false} ExtendedMore(a: Message, ps: seq<Member>, os: seq<seq<Member>>, b: Message,
                                        qs: seq<Member>, us: seq<seq<Member>>, c: Message, conv: Conv)
    requires Extended(a, ps, os, conv, b) && Extended(b, qs, us, conv, c)
    ensures Extended(a, ps + qs, os + us, conv, c)
  {
    hide Appended, Listed;
    AppendedMore(a.fields, ps, b.fields, qs, c.fields, conv, 48);
    ListedMore(a.items, os, b.items, us, c.items, conv);
  }

  lemma {:induction false} ExtendedFits(a: Message, ps: seq<Member>, os: seq<seq<Member>>, conv: Conv, b: Message)
    requires Extended(a, ps, os, conv, b)
    ensures Fitting(b) && |b.items| == Least(32, |a.items| + |os|)
  {
  }

  lemma {:induction false} FieldExtends(m: Member, msg: Message, conv: Conv)
    requires Fitting(msg)
    ensures var r := FieldMember(m, msg, conv);
            && (r.Some? <==> AllReadable(Plains([m])) && ListReadable(ListObjects([m]), 32 - |msg.items|))
            && (r.Some? ==> Extended(msg, Plains([m]), ListObjects([m]), conv, r.value))
  {
    hide Readable, Stands, ReadingOf, Appended, Listed, ItemsOf, ListReadable, Objects, Text, KeyOf;
    KeyCalled(m, "list", KEY_LEN);
    assert [m][1..] == [];
    NoneUnreadable(32 - |msg.items|);
    if IsList(m) {
      assert ListObjects([m]) == Objects(m.value.elems) + [] == Objects(m.value.elems) && Plains([m]) == [];
      ListFold(m.value.elems, msg.items, conv);
      AppendedNone(msg.fields, conv, 48);
    } else {
      assert ListObjects([m]) == [] && Plains([m]) == [m];
      ReadingStands(m.value, conv);
      ListedNone(msg.items, conv);
      assert [m][0] == m;
      if ReadingOf(m.value, conv).Some? { AppendedOne(msg.fields, m, ReadingOf(m.value, conv).value, conv, 48); }
    }
  }

  lemma {:induction false} FirstSplit(ms: seq<Member>)
    requires ms != []
    ensures Plains(ms) == Plains([ms[0]]) + Plains(ms[1..])
    ensures ListObjects(ms) == ListObjects([ms[0]]) + ListObjects(ms[1..])
  {
    hide IsList, Objects;
    assert [ms[0]][1..] == [];
  }

  lemma {:induction false} ReadableSplit(ps: seq<Member>, qs: seq<Member>)
    ensures AllReadable(ps + qs) <==> AllReadable(ps) && AllReadable(qs)
  {
    hide Readable;
    var all := ps + qs;
    if AllReadable(all) {
      forall i | 0 <= i < |ps| ensures Readable(ps[i].value) { assert all[i] == ps[i]; }
      forall i | 0 <= i < |qs| ensures Readable(qs[i].value) { assert all[|ps| + i] == qs[i]; }
    }
  }

  lemma {:induction false} FieldsFold(ms: seq<Member>, msg: Message, conv: Conv)
    requires Fitting(msg)
    ensures var r := FieldMembers(ms, msg, conv);
            && (r.Some? <==> AllReadable(Plains(ms)) && ListReadable(ListObjects(ms), 32 - |msg.items|))
            && (r.Some? ==> Extended(msg, Plains(ms), ListObjects(ms), conv, r.value))
    decreases |ms|
  {
    hide AllReadable, Extended, FieldMember, ListReadable, Plains, ListObjects;
    if ms == [] {
      NothingFolded(msg, conv);
    } else {
      var m, rest := ms[0], ms[1..];
      FieldExtends(m, msg, conv);
      FirstSplit(ms);
      ReadableSplit(Plains([m]), Plains(rest));
      ListReadableSplit(ListObjects([m]), ListObjects(rest), 32 - |msg.items|);
      var r := FieldMember(m, msg, conv);
      if r.Some? {
        ExtendedFits(msg, Plains([m]), ListObjects([m]), conv, r.value);
        RoomLeft(ListObjects(rest), 32 - |msg.items| - |ListObjects([m])|, 32 - |r.value.items|);
        FieldsFold(rest, r.value, conv);
        var t := FieldMembers(rest, r.value, conv);
        if t.Some? {
          ExtendedMore(msg, Plains([m]), ListObjects([m]), r.value, Plains(rest), ListObjects(rest), t.value, conv);
        }
      }
    }
  }

  /** Without room there is nothing to be read. */
  lemma RoomLeft(os: seq<seq<Member>>, a: int, b: int)
    requires a == b || (a <= 0 && b == 0)
    ensures ListReadable(os, a) <==> ListReadable(os, b)
  {
  }

  lemma {:induction false} NothingFolded(msg: Message, conv: Conv)
    requires Fitting(msg)
    ensures AllReadable(Plains([])) && ListReadable(ListObjects([]), 32 - |msg.items|)
    ensures Extended(msg, Plains([]), ListObjects([]), conv, msg)
  {
    AppendedNone(msg.fields, conv, 48);
    ListedNone(msg.items, conv);
  }

  // ----- the line

  /** The fields and the list objects of the members called "fields". */
  function AllPlains(ms: seq<Member>): seq<Member> {
    if ms == [] then []
    else (if Called(ms[0], "fields") && ms[0].value.JObject? then Plains(ms[0].value.members) else []) + AllPlains(ms[1..])
  }

  function AllObjects(ms: seq<Member>): seq<seq<Member>> {
    if ms == [] then []
    else (if Called(ms[0], "fields") && ms[0].value.JObject? then ListObjects(ms[0].value.members) else []) + AllObjects(ms[1..])
  }

  /** A number written without fraction is itself, as an int; what is no number is 0. */
  ghost predicate IntIs(v: Json, x: int) {
    if v.JBare? then x == ToInt(Strtol(v.text)) && forall n | IsInt(n) && v.text == Decimal(n) :: x == n else x == 0
  }

  lemma {:induction false} IntStands(v: Json)
    ensures IntIs(v, IntOf(v))
  {
    if v.JBare? {
      forall n | IsInt(n) && v.text == Decimal(n) ensures ToInt(Strtol(v.text)) == n {
        DecimalRead(n, "");
        assert Decimal(n) + "" == Decimal(n);
      }
    } else {
      hide PrintChars, PrintMembers, PrintElements;
      assert Print(v)[0] in "\"{[";
    }
  }

  ghost predicate IntAfter(v: Option<Json>, has: bool, x: int, has': bool, x': int) {
    if v.None? then has' == has && x' == x else has' && IntIs(v.value, x')
  }

  ghost predicate TextAfter(v: Option<Json>, sz: nat, s: string, s': string)
    requires sz > 0
  {
    if v.None? then s' == s else TextIs(v, sz, s')
  }

  ghost predicate Ints(a: Message, ms: seq<Member>, b: Message) {
    && IntAfter(LastCalled(ms, "src"), a.hasSrc, a.src, b.hasSrc, b.src)
    && IntAfter(LastCalled(ms, "pgn"), a.hasPgn, a.pgn, b.hasPgn, b.pgn)
    && IntAfter(LastCalled(ms, "prio"), a.hasPrio, a.prio, b.hasPrio, b.prio)
    && IntAfter(LastCalled(ms, "dst"), a.hasDst, a.dst, b.hasDst, b.dst)
  }

  ghost predicate Texts(a: Message, ms: seq<Member>, b: Message) {
    && TextAfter(LastCalled(ms, "timestamp"), 32, a.timestamp, b.timestamp)
    && TextAfter(LastCalled(ms, "description"), 96, a.description, b.description)
    && (b.isHeader <==> a.isHeader || LastCalled(ms, "version").Some?)
  }

  ghost predicate Lists(a: Message, ms: seq<Member>, conv: Conv, b: Message) {
    Appended(a.fields, AllPlains(ms), conv, 48, b.fields) && Listed(a.items, AllObjects(ms), conv, b.items)
  }

  /** Of several members with the same key the last one counts; fields and lists add up. */
  ghost predicate After(a: Message, ms: seq<Member>, conv: Conv, b: Message) {
    Ints(a, ms, b) && Texts(a, ms, b) && Lists(a, ms, conv, b)
  }

  /** Texts are in quotes, and "fields" is an object of readable values. */
  ghost predicate MemberReadable(m: Member) {
    && (Called(m, "timestamp") || Called(m, "description") ==> m.value.JString?)
    && (Called(m, "fields") ==> m.value.JObject?)
  }

  ghost predicate LineReadable(ms: seq<Member>, room: int) {
    && (forall i | 0 <= i < |ms| :: MemberReadable(ms[i]))
    && AllReadable(AllPlains(ms)) && ListReadable(AllObjects(ms), room)
  }

  lemma {:induction false} LastOfOne(m: Member, key: string)
    ensures LastCalled([m], key) == if Called(m, key) then Some(m.value) else None
  {
    assert [m][1..] == [];
  }

  lemma {:induction false} LastOfMore(ms: seq<Member>, key: string)
    requires ms != []
    ensures LastCalled(ms, key) ==
            if LastCalled(ms[1..], key).Some? then LastCalled(ms[1..], key) else LastCalled([ms[0]], key)
  {
    LastOfOne(ms[0], key);
  }

  lemma {:induction false} OthersOfOne(m: Member)
    ensures var f := Called(m, "fields") && m.value.JObject?;
            && AllPlains([m]) == (if f then Plains(m.value.members) else [])
            && AllObjects([m]) == (if f then ListObjects(m.value.members) else [])
  {
    hide Plains, ListObjects, Called;
    assert [m][1..] == [];
  }

  lemma {:induction false} OthersOfMore(ms: seq<Member>)
    requires ms != []
    ensures AllPlains(ms) == AllPlains([ms[0]]) + AllPlains(ms[1..])
    ensures AllObjects(ms) == AllObjects([ms[0]]) + AllObjects(ms[1..])
  {
    hide Plains, ListObjects, Called;
    OthersOfOne(ms[0]);
  }

  lemma {:induction false} TopKeys(m: Member)
    ensures var key := KeyOf(m.key, KEY_LEN);
            && (key == "src" <==> Called(m, "src")) && (key == "pgn" <==> Called(m, "pgn"))
            && (key == "prio" <==> Called(m, "prio")) && (key == "dst" <==> Called(m, "dst"))
            && (key == "timestamp" <==> Called(m, "timestamp")) && (key == "description" <==> Called(m, "description"))
            && (key == "fields" <==> Called(m, "fields")) && (key == "version" <==> Called(m, "version"))
  {
    hide Called, KeyOf;
    KeyCalled(m, "src", KEY_LEN);
    KeyCalled(m, "pgn", KEY_LEN);
    KeyCalled(m, "prio", KEY_LEN);
    KeyCalled(m, "dst", KEY_LEN);
    KeyCalled(m, "timestamp", KEY_LEN);
    KeyCalled(m, "description", KEY_LEN);
    KeyCalled(m, "fields", KEY_LEN);
    KeyCalled(m, "version", KEY_LEN);
  }

  lemma {:induction false} LastKeys(m: Member)
    ensures forall key :: LastCalled([m], key) == if Called(m, key) then Some(m.value) else None
  {
    hide LastCalled, Called;
    forall key ensures LastCalled([m], key) == if Called(m, key) then Some(m.value) else None {
      LastOfOne(m, key);
    }
  }

  lemma {:induction false} TextStands(v: Json)
    ensures v.JString? ==> TextIs(Some(v), 32, KeyOf(v.chars, TS_LEN)) && TextIs(Some(v), 96, KeyOf(v.chars, DESC_LEN))
  {
    hide Text, Copy;
  }

  lemma {:induction false} OneLineReadable(m: Member, room: int)
    ensures LineReadable([m], room) <==>
            && MemberReadable(m)
            && (Called(m, "fields") && m.value.JObject? ==>
                  AllReadable(Plains(m.value.members)) && ListReadable(ListObjects(m.value.members), room))
  {
    hide AllReadable, ListReadable, Plains, ListObjects, AllPlains, AllObjects, Called;
    OthersOfOne(m);
    NothingReadable(room);
    assert [m][0] == m;
  }

  lemma NothingReadable(room: int)
    ensures AllReadable([]) && ListReadable([], room)
  {
  }

  lemma OnlyKey(m: Member, key: string)
    requires Called(m, key)
    ensures forall k: string | k != key :: !Called(m, k)
  {
  }

  ghost predicate NoInt(m: Member) { !Called(m, "src") && !Called(m, "pgn") && !Called(m, "prio") && !Called(m, "dst") }

  ghost predicate NoText(m: Member) { !Called(m, "timestamp") && !Called(m, "description") && !Called(m, "version") }

  lemma {:induction false} IntsKept(a: Message, m: Member, b: Message)
    requires NoInt(m) && a.hasSrc == b.hasSrc && a.hasPgn == b.hasPgn && a.hasPrio == b.hasPrio && a.hasDst == b.hasDst
    requires a.src == b.src && a.pgn == b.pgn && a.prio == b.prio && a.dst == b.dst
    ensures Ints(a, [m], b)
  {
    hide Called, LastCalled, IntIs;
    LastKeys(m);
  }

  lemma {:induction false} TextsKept(a: Message, m: Member, b: Message)
    requires NoText(m) && a.timestamp == b.timestamp && a.description == b.description && a.isHeader == b.isHeader
    ensures Texts(a, [m], b)
  {
    hide Called, LastCalled, TextIs;
    LastKeys(m);
  }

  lemma {:induction false} ListsKept(a: Message, m: Member, conv: Conv, b: Message)
    requires Fitting(a) && !Called(m, "fields") && a.fields == b.fields && a.items == b.items
    ensures Lists(a, [m], conv, b)
  {
    hide Called, Appended, Listed, AllPlains, AllObjects, Plains, ListObjects;
    OthersOfOne(m);
    AppendedNone(a.fields, conv, 48);
    ListedNone(a.items, conv);
  }

  lemma {:induction false} IntsChanged(m: Member, a: Message)
    ensures Called(m, "src") ==> Ints(a, [m], a.(src := IntOf(m.value), hasSrc := true)) && NoText(m) && !Called(m, "fields")
    ensures Called(m, "pgn") ==> Ints(a, [m], a.(pgn := IntOf(m.value), hasPgn := true)) && NoText(m) && !Called(m, "fields")
    ensures Called(m, "prio") ==> Ints(a, [m], a.(prio := IntOf(m.value), hasPrio := true)) && NoText(m) && !Called(m, "fields")
    ensures Called(m, "dst") ==> Ints(a, [m], a.(dst := IntOf(m.value), hasDst := true)) && NoText(m) && !Called(m, "fields")
  {
    hide Called, LastCalled, IntIs, IntOf;
    LastKeys(m);
    IntStands(m.value);
    if Called(m, "src") {
      OnlyKey(m, "src");
    } else if Called(m, "pgn") {
      OnlyKey(m, "pgn");
    } else if Called(m, "prio") {
      OnlyKey(m, "prio");
    } else if Called(m, "dst") {
      OnlyKey(m, "dst");
    }
  }

  lemma {:induction false} TextsChanged(m: Member, a: Message)
    ensures Called(m, "timestamp") && m.value.JString? ==>
              Texts(a, [m], a.(timestamp := KeyOf(m.value.chars, TS_LEN))) && NoInt(m) && !Called(m, "fields")
    ensures Called(m, "description") && m.value.JString? ==>
              Texts(a, [m], a.(description := KeyOf(m.value.chars, DESC_LEN))) && NoInt(m) && !Called(m, "fields")
    ensures Called(m, "version") ==> Texts(a, [m], a.(isHeader := true)) && NoInt(m) && !Called(m, "fields")
  {
    hide Called, LastCalled, TextIs, KeyOf;
    LastKeys(m);
    TextStands(m.value);
    if Called(m, "timestamp") {
      OnlyKey(m, "timestamp");
    } else if Called(m, "description") {
      OnlyKey(m, "description");
    } else if Called(m, "version") {
      OnlyKey(m, "version");
    }
  }

  lemma {:induction false} ListsChanged(m: Member, a: Message, conv: Conv, b: Message)
    requires Called(m, "fields") && m.value.JObject?
    requires Extended(a, Plains(m.value.members), ListObjects(m.value.members), conv, b)
    ensures After(a, [m], conv, b)
  {
    hide Called, Appended, Listed, AllPlains, AllObjects, Plains, ListObjects, Ints, Texts;
    OthersOfOne(m);
    OnlyKey(m, "fields");
    IntsKept(a, m, b);
    TextsKept(a, m, b);
  }

  /** Only the part that the key names changes. */
  lemma {:induction false} MemberAfter(m: Member, a: Message, conv: Conv)
    requires Fitting(a)
    ensures var r := TopMember(m, a, conv);
            && (r.Some? <==> LineReadable([m], 32 - |a.items|))
            && (r.Some? ==> After(a, [m], conv, r.value))
  {
    hide Called, Ints, Texts, Lists, AllReadable, ListReadable, FieldMembers, Plains, ListObjects, IntOf, KeyOf, LineReadable, Extended;
    OneLineReadable(m, 32 - |a.items|);
    TopKeys(m);
    IntsChanged(m, a);
    TextsChanged(m, a);
    var r := TopMember(m, a, conv);
    if Called(m, "fields") {
      OnlyKey(m, "fields");
      if m.value.JObject? {
        FieldsFold(m.value.members, a, conv);
        if r.Some? { ListsChanged(m, a, conv, r.value); }
      }
    } else if Called(m, "timestamp") || Called(m, "description") {
      if Called(m, "timestamp") { OnlyKey(m, "timestamp"); } else { OnlyKey(m, "description"); }
      if r.Some? {
        IntsKept(a, m, r.value);
        ListsKept(a, m, conv, r.value);
      }
    } else {
      ListsKept(a, m, conv, r.value);
      if NoInt(m) { IntsKept(a, m, r.value); }
      if NoText(m) { TextsKept(a, m, r.value); }
    }
  }

  lemma {:induction false} AfterMore(a: Message, m: Member, b: Message, rest: seq<Member>, c: Message, conv: Conv)
    requires After(a, [m], conv, b) && After(b, rest, conv, c)
    ensures After(a, [m] + rest, conv, c)
  {
    hide Called, Appended, Listed, AllPlains, AllObjects, Ints, Texts;
    var ms := [m] + rest;
    assert ms[0] == m && ms[1..] == rest;
    OthersOfMore(ms);
    AppendedMore(a.fields, AllPlains([m]), b.fields, AllPlains(rest), c.fields, conv, 48);
    ListedMore(a.items, AllObjects([m]), b.items, AllObjects(rest), c.items, conv);
    IntsMore(a, m, b, rest, c);
    TextsMore(a, m, b, rest, c);
  }

  lemma {:induction false} LastOfBoth(m: Member, rest: seq<Member>)
    ensures forall key :: LastCalled([m] + rest, key) ==
              if LastCalled(rest, key).Some? then LastCalled(rest, key) else LastCalled([m], key)
  {
    hide LastCalled, Called;
    var ms := [m] + rest;
    assert ms[0] == m && ms[1..] == rest;
    forall key ensures LastCalled(ms, key) == if LastCalled(rest, key).Some? then LastCalled(rest, key) else LastCalled([m], key) {
      LastOfMore(ms, key);
    }
  }

  lemma {:induction false} IntsMore(a: Message, m: Member, b: Message, rest: seq<Member>, c: Message)
    requires Ints(a, [m], b) && Ints(b, rest, c)
    ensures Ints(a, [m] + rest, c)
  {
    hide Called, LastCalled, IntIs;
    LastOfBoth(m, rest);
  }

  lemma {:induction false} TextsMore(a: Message, m: Member, b: Message, rest: seq<Member>, c: Message)
    requires Texts(a, [m], b) && Texts(b, rest, c)
    ensures Texts(a, [m] + rest, c)
  {
    hide Called, LastCalled, TextIs;
    LastOfBoth(m, rest);
  }

  lemma {:induction false} LineReadableSplit(m: Member, rest: seq<Member>, room: int)
    ensures LineReadable([m] + rest, room) <==>
            LineReadable([m], room) && LineReadable(rest, room - |AllObjects([m])|)
  {
    hide AllReadable, ListReadable, AllPlains, AllObjects, MemberReadable;
    var ms := [m] + rest;
    assert ms[0] == m && ms[1..] == rest;
    OthersOfMore(ms);
    ReadableSplit(AllPlains([m]), AllPlains(rest));
    ListReadableSplit(AllObjects([m]), AllObjects(rest), room);
    if LineReadable(ms, room) {
      assert MemberReadable(ms[0]);
      forall i | 0 <= i < |rest| ensures MemberReadable(rest[i]) { assert ms[i + 1] == rest[i]; }
    }
    if LineReadable([m], room) && LineReadable(rest, room - |AllObjects([m])|) {
      forall i | 0 <= i < |ms| ensures MemberReadable(ms[i]) {
        if i == 0 { assert MemberReadable([m][0]); }
      }
    }
  }

  lemma {:induction false} AfterFits(a: Message, ms: seq<Member>, conv: Conv, b: Message)
    requires After(a, ms, conv, b)
    ensures Fitting(b) && |b.items| == Least(32, |a.items| + |AllObjects(ms)|)
  {
    hide LastCalled, AllPlains, AllObjects, IntAfter, TextAfter, Called;
  }

  lemma RoomForLine(ms: seq<Member>, a: int, b: int)
    requires a == b || (a <= 0 && b == 0)
    ensures LineReadable(ms, a) <==> LineReadable(ms, b)
  {
    hide AllPlains, AllObjects, Called;
    RoomLeft(AllObjects(ms), a, b);
  }

  lemma {:induction false} TopFold(ms: seq<Member>, msg: Message, conv: Conv)
    requires Fitting(msg)
    ensures var r := TopMembers(ms, msg, conv);
            && (r.Some? <==> LineReadable(ms, 32 - |msg.items|))
            && (r.Some? ==> After(msg, ms, conv, r.value))
    decreases |ms|
  {
    hide TopMember, After, LineReadable, AllObjects, AllPlains;
    if ms == [] {
      NothingAfter(msg, conv);
    } else {
      var m, rest := ms[0], ms[1..];
      assert ms == [m] + rest;
      MemberAfter(m, msg, conv);
      LineReadableSplit(m, rest, 32 - |msg.items|);
      var r := TopMember(m, msg, conv);
      if r.Some? {
        AfterFits(msg, [m], conv, r.value);
        RoomForLine(rest, 32 - |msg.items| - |AllObjects([m])|, 32 - |r.value.items|);
        TopFold(rest, r.value, conv);
        var t := TopMembers(rest, r.value, conv);
        if t.Some? { AfterMore(msg, m, r.value, rest, t.value, conv); }
      }
    }
  }

  lemma {:induction false} NothingAfter(msg: Message, conv: Conv)
    requires Fitting(msg)
    ensures LineReadable([], 32 - |msg.items|) && After(msg, [], conv, msg)
  {
    AppendedNone(msg.fields, conv, 48);
    ListedNone(msg.items, conv);
    NothingReadable(32 - |msg.items|);
  }

  /** A message that nothing is known of. */
  const Unknown := Message(false, false, false, false, -1, -1, -1, -1, "", "", [], [], false)

  /** Every printing of every object is read as what its members stand for, key by key; it is
      useless exactly when a value is unreadable, or there is neither PGN nor version. */
  lemma {:induction false} ParseMeans(before: string, v: Json, after: string, conv: Conv)
    requires LikeStrtod(conv) && Blank(before) && Valid(v) && v.JObject?
    ensures match Parse(before + (Print(v) + after), conv)
            case Hangs => false
            case Rejected =>
              !LineReadable(v.members, 32) || (LastCalled(v.members, "pgn").None? && LastCalled(v.members, "version").None?)
            case Parsed(m) =>
              && LineReadable(v.members, 32) && After(Unknown, v.members, conv, m)
              && (LastCalled(v.members, "pgn").Some? || LastCalled(v.members, "version").Some?)
  {
    hide Parse, TopMembers, LineReadable, Print, LikeStrtod, Valid, AllPlains, AllObjects, LastCalled, Appended, Listed;
    ParseFindsMessage(before, v, after, conv);
    TopFold(v.members, Empty, conv);
  }
}
