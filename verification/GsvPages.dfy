/** The list of satellites in view, four to a sentence: src/mapper.c (PGN 129540), src/nmea0183.c (nmea_gsv). */
module GsvPages {
  import opened CText
  import opened CNumber
  import opened JsonlSpec
  import opened NmeaSpec
  import opened Radix

  const PER_PAGE := 4
  const MAX_SENT := 8

  datatype Satellite = Satellite(prn: int, elevation: Option<real>, azimuth: Option<real>, snr: Option<real>)

  datatype Page = Page(total: nat, number: nat, inView: int, satellites: seq<Satellite>)

  /** The number of the first field with the key, from the i-th on. */
  function NumberIn(item: seq<Field>, key: string, i: nat): Option<real>
    requires i <= |item|
    decreases |item| - i
  {
    if i == |item| then None
    else if item[i].key != key then NumberIn(item, key, i + 1)
    else if item[i].value.typ == TNum || item[i].value.typ == TNv then Some(item[i].value.num)
    else None
  }

  function Truncated(x: real): int { if x < 0.0 then -((-x).Floor) else x.Floor }

  function SatelliteOf(item: seq<Field>): Satellite {
    var prn := NumberIn(item, "PRN", 0);
    Satellite(if prn.Some? then Truncated(prn.value) else 0,
              NumberIn(item, "Elevation", 0), NumberIn(item, "Azimuth", 0), NumberIn(item, "SNR", 0))
  }

  function SatellitesOf(list: seq<seq<Field>>): (r: seq<Satellite>)
    ensures |r| == |list| && forall i | 0 <= i < |r| :: r[i] == SatelliteOf(list[i])
  {
    seq(|list|, i requires 0 <= i < |list| => SatelliteOf(list[i]))
  }

  /** The announced number of satellites, unless it is none or more than there are. */
  function InView(announced: Option<int>, n: nat): int {
    if announced.None? || announced.value <= 0 || announced.value > n then n else announced.value
  }

  /** From 1 to the number of the list the announced number is shown, else that of the list. */
  lemma InViewIs(announced: Option<int>, n: nat)
    ensures InView(announced, n) == if announced.Some? && 1 <= announced.value <= n then announced.value else n
  {
  }

  function Total(n: nat): nat { (n + 3) / PER_PAGE }

  function PageAt(sats: seq<Satellite>, inView: int, p: nat): Page
    requires p < Total(|sats|)
  {
    var last := if PER_PAGE * p + PER_PAGE < |sats| then PER_PAGE * p + PER_PAGE else |sats|;
    Page(Total(|sats|), p + 1, inView, sats[PER_PAGE * p..last])
  }

  function Pages(sats: seq<Satellite>, inView: int): (ps: seq<Page>)
    ensures |ps| == Total(|sats|) && forall p | 0 <= p < |ps| :: ps[p] == PageAt(sats, inView, p)
  {
    seq(Total(|sats|), p requires 0 <= p < Total(|sats|) => PageAt(sats, inView, p))
  }

  /** The first field with the key holds this number. */
  ghost predicate Gives(item: seq<Field>, key: string, x: real) {
    exists i :: 0 <= i < |item| && item[i].key == key && item[i].value.num == x
                && item[i].value.typ in {TNum, TNv} && forall j | 0 <= j < i :: item[j].key != key
  }

  lemma {:induction false} NumberFrom(item: seq<Field>, key: string, from: nat)
    requires from <= |item|
    ensures match NumberIn(item, key, from)
            case None => forall i | from <= i < |item| && item[i].key == key ::
                           item[i].value.typ !in {TNum, TNv} || exists j :: from <= j < i && item[j].key == key
            case Some(x) => exists i :: from <= i < |item| && item[i].key == key && item[i].value.num == x
                              && item[i].value.typ in {TNum, TNv} && forall j | from <= j < i :: item[j].key != key
    decreases |item| - from
  {
    if from < |item| && item[from].key != key {
      NumberFrom(item, key, from + 1);
    }
  }

  lemma {:induction false} NumberIs(item: seq<Field>, key: string)
    ensures forall x :: NumberIn(item, key, 0) == Some(x) <==> Gives(item, key, x)
  {
    hide NumberIn;
    NumberFrom(item, key, 0);
  }

  /** A satellite's values are the numbers under their names; the PRN is cut to an int, and 0 without one. */
  lemma {:induction false} SatelliteIs(item: seq<Field>)
    ensures var s := SatelliteOf(item);
            && (forall x :: s.elevation == Some(x) <==> Gives(item, "Elevation", x))
            && (forall x :: s.azimuth == Some(x) <==> Gives(item, "Azimuth", x))
            && (forall x :: s.snr == Some(x) <==> Gives(item, "SNR", x))
            && (forall x | Gives(item, "PRN", x) ::
                  if x >= 0.0 then s.prn as real <= x < s.prn as real + 1.0 else s.prn as real - 1.0 < x <= s.prn as real)
            && ((forall x :: !Gives(item, "PRN", x)) ==> s.prn == 0)
  {
    hide NumberIn, Gives;
    NumberIs(item, "PRN");
    NumberIs(item, "Elevation");
    NumberIs(item, "Azimuth");
    NumberIs(item, "SNR");
  }

  // ----- the sentence of a page

  function Zeros(n: int): (s: string)
    ensures |s| == if n < 0 then 0 else n
  {
    if n <= 0 then "" else "0" + Zeros(n - 1)
  }

  /** %0*d. */
  function Padded(n: int, w: nat): string {
    if n < 0 then "-" + Zeros(w - 1 - |Digits(-n)|) + Digits(-n) else Zeros(w - |Digits(n)|) + Digits(n)
  }

  /** lround: halves go away from zero. */
  function Round(x: real): int { if x < 0.0 then -((-x + 0.5).Floor) else (x + 0.5).Floor }

  function Optional(x: Option<real>, w: nat): string {
    match x
    case None => ""
    case Some(v) => Padded(Round(v), w)
  }

  function SatelliteFields(s: Satellite): (fs: seq<string>)
    ensures |fs| == 4
  {
    [Padded(s.prn, 2), Optional(s.elevation, 2), Optional(s.azimuth, 3), Optional(s.snr, 2)]
  }

  function AllFields(sats: seq<Satellite>): (fs: seq<string>)
    ensures |fs| == 4 * |sats|
  {
    if sats == [] then [] else AllFields(sats[..|sats| - 1]) + SatelliteFields(sats[|sats| - 1])
  }

  function FieldsOf(p: Page): seq<string> {
    [Decimal(p.total), Decimal(p.number), Padded(p.inView, 2)] + AllFields(p.satellites)
  }

  /** The sentence of a page, unless it is longer than a sentence can be. */
  function SentenceOf(talker: string, p: Page): Option<string> { Sentence(talker, "GSV", FieldsOf(p)) }

  /** The sentences emitted for these pages, as many as the batch holds. */
  function Emitted(talker: string, ps: seq<Page>): (out: seq<string>)
    ensures |out| <= |ps| && |out| <= MAX_SENT
  {
    if ps == [] then []
    else
      var out := Emitted(talker, ps[..|ps| - 1]);
      match SentenceOf(talker, ps[|ps| - 1])
      case Some(s) => if |out| < MAX_SENT then out + [s] else out
      case None => out
  }

  // ----- the loops

  /** The inner loop: up to four satellites from idx on. */
  method TakeFour(list: seq<seq<Field>>, idx: nat) returns (found: seq<Satellite>, next: nat)
    requires idx <= |list|
    ensures next == if idx + PER_PAGE < |list| then idx + PER_PAGE else |list|
    ensures found == SatellitesOf(list)[idx..next]
  {
    hide SatelliteOf;
    found, next := [], idx;
    while |found| < PER_PAGE && next < |list|
      invariant |found| <= PER_PAGE && next == idx + |found| <= |list|
      invariant found == SatellitesOf(list)[idx..next]
    {
      found := found + [SatelliteOf(list[next])];
      next := next + 1;
    }
  }

  /** The sentences for a list of satellites, page by page. */
  method Gsv(talker: string, announced: Option<int>, list: seq<seq<Field>>) returns (out: seq<string>)
    ensures out == Emitted(talker, Pages(SatellitesOf(list), InView(announced, |list|)))
  {
    hide SentenceOf, SatellitesOf, Emitted, PageAt;
    out := [];
    var n := |list|;
    var inView := if announced.Some? then announced.value else n;
    if inView <= 0 || inView > n {
      inView := n;
    }
    ghost var ps := Pages(SatellitesOf(list), inView);
    var total := (n + 3) / PER_PAGE;
    var idx, page := 0, 0;
    assert ps[..0] == [];
    EmittedNext(talker, []);
    while page < total
      invariant page <= total
      invariant idx == if PER_PAGE * page < n then PER_PAGE * page else n
      invariant out == Emitted(talker, ps[..page])
    {
      var found, next := TakeFour(list, idx);
      var p := Page(total, page + 1, inView, found);
      PageIs(SatellitesOf(list), inView, page);
      assert ps[..page + 1][..page] == ps[..page];
      EmittedNext(talker, ps[..page + 1]);
      var s := SentenceOf(talker, p);
      if s.Some? && |out| < MAX_SENT {
        out := out + [s.value];
      }
      idx, page := next, page + 1;
    }
    assert ps[..page] == ps;
  }

  lemma PageIs(sats: seq<Satellite>, inView: int, p: nat)
    requires p < Total(|sats|)
    ensures var next := if PER_PAGE * p + PER_PAGE < |sats| then PER_PAGE * p + PER_PAGE else |sats|;
            PageAt(sats, inView, p) == Page(Total(|sats|), p + 1, inView, sats[PER_PAGE * p..next])
  {
  }

  lemma EmittedNext(talker: string, ps: seq<Page>)
    ensures ps == [] ==> Emitted(talker, ps) == []
    ensures ps != [] ==>
              var out, s := Emitted(talker, ps[..|ps| - 1]), SentenceOf(talker, ps[|ps| - 1]);
              Emitted(talker, ps) == if s.Some? && |out| < MAX_SENT then out + [s.value] else out
  {
  }

  // ----- what the pages hold

  function Listed(ps: seq<Page>): seq<Satellite> {
    if ps == [] then [] else Listed(ps[..|ps| - 1]) + ps[|ps| - 1].satellites
  }

  lemma {:induction false} ListedUpTo(sats: seq<Satellite>, inView: int, p: nat)
    requires p <= Total(|sats|)
    ensures Listed(Pages(sats, inView)[..p]) == sats[..if PER_PAGE * p < |sats| then PER_PAGE * p else |sats|]
  {
    var ps := Pages(sats, inView);
    if p > 0 {
      ListedUpTo(sats, inView, p - 1);
      assert ps[..p][..p - 1] == ps[..p - 1] && ps[..p][p - 1] == PageAt(sats, inView, p - 1);
    }
  }

  /** Every satellite of the list stands in exactly one page, in the order of the list. */
  lemma {:induction false} EachListedOnce(sats: seq<Satellite>, inView: int)
    ensures Listed(Pages(sats, inView)) == sats
  {
    ListedUpTo(sats, inView, Total(|sats|));
    assert Pages(sats, inView)[..Total(|sats|)] == Pages(sats, inView);
    assert sats[..|sats|] == sats;
  }

  /** Pages are numbered from 1 to their number, all but the last hold four satellites, and
      that holds one to four. */
  lemma {:induction false} PagesNumbered(sats: seq<Satellite>, inView: int)
    ensures var ps := Pages(sats, inView);
            forall p | 0 <= p < |ps| ::
              && ps[p].total == |ps| && ps[p].number == p + 1
              && (if p < |ps| - 1 then |ps[p].satellites| == PER_PAGE else 1 <= |ps[p].satellites| <= PER_PAGE)
  {
  }

  // ----- nothing is cut

  lemma {:induction false} ListBound(t: string, items: seq<seq<Field>>, conv: Conv)
    requires |items| <= MAX_LIST
    ensures ListLoop(t, items, conv).Got? ==> |ListLoop(t, items, conv).value| <= MAX_LIST
    decreases |t|
  {
    hide SkipWs, SkipValue, ItemLoop;
    if t != "" {
      var u := SkipWs(t);
      if u != "" && u[0] == ',' {
        ListBound(u[1..], items, conv);
      } else if u != "" && u[0] == '{' && |items| < MAX_LIST {
        var g := ItemLoop(u[1..], [], conv);
        if g.Got? { ListBound(g.rest, items + [g.value], conv); }
      } else if u != "" && u[0] != ']' {
        var r := SkipValue(u);
        if r.Some? && |r.value| < |u| { ListBound(r.value, items, conv); }
      }
    }
  }

  lemma {:induction false} FieldsBound(t: string, m: Message, conv: Conv)
    requires |m.items| <= MAX_LIST
    ensures FieldsLoop(t, m, conv).Got? ==> |FieldsLoop(t, m, conv).value.items| <= MAX_LIST
    decreases |t|
  {
    hide NextKey, FieldStep;
    if t != "" {
      match NextKey(t, KEY_LEN) {
        case Again(r) => FieldsBound(r, m, conv);
        case AtKey(key, r) =>
          StepBound(key, r, m, conv);
          var g := FieldStep(key, r, m, conv);
          if g.Got? { FieldsBound(g.rest, g.value, conv); }
        case _ =>
      }
    }
  }

  lemma {:induction false} StepBound(key: string, r: string, m: Message, conv: Conv)
    requires |m.items| <= MAX_LIST
    ensures FieldStep(key, r, m, conv).Got? ==> |FieldStep(key, r, m, conv).value.items| <= MAX_LIST
  {
    hide ListLoop, FieldValue, SkipWs;
    var q := SkipWs(r);
    if key == "list" && q != "" && q[0] == '[' {
      ListBound(q[1..], m.items, conv);
    }
  }

  lemma {:induction false} TopBound(t: string, m: Message, conv: Conv)
    requires |m.items| <= MAX_LIST
    ensures TopLoop(t, m, conv).Got? ==> |TopLoop(t, m, conv).value.items| <= MAX_LIST
    decreases |t|
  {
    hide NextKey, TopStep, SkipWs;
    if t != "" {
      match NextKey(t, KEY_LEN) {
        case Again(r) => TopBound(r, m, conv);
        case AtKey(key, r) =>
          var p := SkipWs(r);
          TopStepBound(key, p, m, conv);
          var g := TopStep(key, p, m, conv);
          if g.Got? { TopBound(g.rest, g.value, conv); }
        case _ =>
      }
    }
  }

  lemma {:induction false} TopStepBound(key: string, p: string, m: Message, conv: Conv)
    requires |m.items| <= MAX_LIST
    ensures TopStep(key, p, m, conv).Got? ==> |TopStep(key, p, m, conv).value.items| <= MAX_LIST
  {
    hide FieldsLoop, ParseString, SkipValue, IntAt;
    if p != "" { FieldsBound(p[1..], m, conv); }
  }

  /** The reader never yields a list of more than 32 objects. */
  lemma {:induction false} ListFits(line: string, conv: Conv)
    requires Parse(line, conv).Parsed?
    ensures |Parse(line, conv).msg.items| <= MAX_LIST
  {
    hide TopLoop, SkipWs;
    TopBound(SkipWs(line)[1..], Empty, conv);
  }

  lemma {:induction false} EmittedAll(talker: string, ps: seq<Page>)
    requires |ps| <= MAX_SENT && forall p | 0 <= p < |ps| :: SentenceOf(talker, ps[p]).Some?
    ensures var out := Emitted(talker, ps);
            |out| == |ps| && forall p | 0 <= p < |ps| :: out[p] == SentenceOf(talker, ps[p]).value
  {
    hide SentenceOf;
    if ps != [] {
      EmittedAll(talker, ps[..|ps| - 1]);
    }
  }

  ghost predicate UsualValue(x: Option<real>, least: real, most: real) {
    x.Some? ==> least <= x.value <= most
  }

  /** Numbers that fit their columns. */
  ghost predicate Usual(s: Satellite) {
    && 0 <= s.prn < 1000 && UsualValue(s.elevation, -90.0, 90.0) && UsualValue(s.azimuth, 0.0, 360.0)
    && UsualValue(s.snr, 0.0, 99.0)
  }

  lemma {:induction false} DigitsShort(n: nat)
    ensures n < 10 ==> |Digits(n)| == 1
    ensures n < 100 ==> |Digits(n)| <= 2
    ensures n < 1000 ==> |Digits(n)| <= 3
  {
    if n >= 10 { DigitsShort(n / 10); }
  }

  lemma {:induction false} PaddedShort(n: int, w: nat)
    requires -100 < n < 1000 && w <= 3
    ensures |Padded(n, w)| <= 3
  {
    hide Digits;
    DigitsShort(if n < 0 then -n else n);
  }

  lemma {:induction false} OptionalShort(x: Option<real>, w: nat)
    requires UsualValue(x, -90.0, 360.0) && w <= 3
    ensures |Optional(x, w)| <= 3
  {
    hide Padded;
    if x.Some? { PaddedShort(Round(x.value), w); }
  }

  ghost predicate Short(fs: seq<string>) { forall i | 0 <= i < |fs| :: |fs[i]| <= 3 }

  lemma {:induction false} FieldsShort(sats: seq<Satellite>)
    requires forall i | 0 <= i < |sats| :: Usual(sats[i])
    ensures Short(AllFields(sats))
  {
    hide Padded, Optional;
    if sats != [] {
      var s := sats[|sats| - 1];
      FieldsShort(sats[..|sats| - 1]);
      assert Usual(s);
      PaddedShort(s.prn, 2);
      OptionalShort(s.elevation, 2);
      OptionalShort(s.azimuth, 3);
      OptionalShort(s.snr, 2);
    }
  }

  lemma {:induction false} TextShort(fs: seq<string>)
    requires Short(fs)
    ensures |FieldsText(fs)| <= 4 * |fs|
  {
    if fs != [] { TextShort(fs[..|fs| - 1]); }
  }

  /** A page of usual numbers is never too long for a sentence. */
  lemma {:induction false} PageFits(talker: string, p: Page)
    requires p.total <= MAX_SENT && p.number <= MAX_SENT && 0 <= p.inView <= MAX_LIST
    requires |p.satellites| <= PER_PAGE && forall i | 0 <= i < |p.satellites| :: Usual(p.satellites[i])
    ensures SentenceOf(talker, p).Some?
  {
    hide Padded, AllFields, Digits, Check, FieldsText;
    DigitsShort(p.total);
    DigitsShort(p.number);
    PaddedShort(p.inView, 2);
    FieldsShort(p.satellites);
    TextShort(FieldsOf(p));
  }

  /** From the line to the sentences: as many as the pages of its list, each that of its page. */
  lemma {:induction false} ListSent(line: string, conv: Conv, talker: string, announced: Option<int>)
    requires Parse(line, conv).Parsed?
    requires var sats := SatellitesOf(Parse(line, conv).msg.items); forall i | 0 <= i < |sats| :: Usual(sats[i])
    ensures var list := Parse(line, conv).msg.items;
            var ps := Pages(SatellitesOf(list), InView(announced, |list|));
            var out := Emitted(talker, ps);
            && |out| == |ps| == Total(|list|) <= MAX_SENT
            && forall p | 0 <= p < |ps| :: SentenceOf(talker, ps[p]) == Some(out[p])
  {
    hide Parse, SatelliteOf, Usual, SentenceOf;
    ListFits(line, conv);
    var list := Parse(line, conv).msg.items;
    var ps := Pages(SatellitesOf(list), InView(announced, |list|));
    forall p | 0 <= p < |ps| ensures SentenceOf(talker, ps[p]).Some? {
      PageFits(talker, ps[p]);
    }
    EmittedAll(talker, ps);
  }

  // ----- a sentence read back

  /** The texts between commas, up to the star. */
  function Cells(t: string): (cs: seq<string>)
    ensures |cs| > 0
  {
    if t == "" || t[0] == '*' then [""]
    else if t[0] == ',' then [""] + Cells(t[1..])
    else
      var cs := Cells(t[1..]);
      [[t[0]] + cs[0]] + cs[1..]
  }

  /** What stands behind the address and its comma. */
  function Behind(s: string): string {
    if s == "" then "" else if s[0] == ',' then s[1..] else Behind(s[1..])
  }

  /** A satellite as a receiver of the sentence takes it: an empty text is no value. */
  datatype Shown = Shown(prn: int, elevation: Option<int>, azimuth: Option<int>, snr: Option<int>)

  function ReadOptional(s: string): Option<int> { if s == "" then None else Some(Strtol(s)) }

  function ReadSatellites(cs: seq<string>): seq<Shown> {
    if |cs| < 4 then []
    else [Shown(Strtol(cs[0]), ReadOptional(cs[1]), ReadOptional(cs[2]), ReadOptional(cs[3]))] + ReadSatellites(cs[4..])
  }

  datatype PageRead = PageRead(total: int, number: int, inView: int, satellites: seq<Shown>)

  function ReadPage(s: string): Option<PageRead> {
    var cs := Cells(Behind(s));
    if |cs| < 3 then None else Some(PageRead(Strtol(cs[0]), Strtol(cs[1]), Strtol(cs[2]), ReadSatellites(cs[3..])))
  }

  function RoundedTo(x: Option<real>): Option<int> {
    match x
    case None => None
    case Some(v) => Some(Round(v))
  }

  function ShownOf(s: Satellite): Shown { Shown(s.prn, RoundedTo(s.elevation), RoundedTo(s.azimuth), RoundedTo(s.snr)) }

  function AllShown(sats: seq<Satellite>): (r: seq<Shown>)
    ensures |r| == |sats| && forall i | 0 <= i < |r| :: r[i] == ShownOf(sats[i])
  {
    seq(|sats|, i requires 0 <= i < |sats| => ShownOf(sats[i]))
  }

  ghost predicate OptionalInt(x: Option<real>) { x.Some? ==> IsInt(Round(x.value)) }

  /** The numbers are ints once they are rounded. */
  ghost predicate Ints(s: Satellite) {
    IsInt(s.prn) && OptionalInt(s.elevation) && OptionalInt(s.azimuth) && OptionalInt(s.snr)
  }

  ghost predicate CellText(s: string) { forall i | 0 <= i < |s| :: s[i] != ',' && s[i] != '*' }

  /** To the nearest, and halves away from zero. */
  lemma {:induction false} RoundIs(x: real)
    ensures x >= 0.0 ==> x - 0.5 < Round(x) as real <= x + 0.5
    ensures Round(-x) == -Round(x)
  {
  }

  // ----- numbers

  lemma {:induction false} ZerosRead(n: int, d: string, acc: nat)
    requires acc == 0
    ensures ReadDigits(Zeros(n) + d, acc) == ReadDigits(d, acc)
  {
    if n <= 0 {
      assert Zeros(n) + d == d;
    } else {
      var t := Zeros(n) + d;
      assert t[0] == '0' && t[1..] == Zeros(n - 1) + d;
      ZerosRead(n - 1, d, 0);
    }
  }

  lemma {:induction false} ZerosAll(n: int)
    ensures forall i | 0 <= i < |Zeros(n)| :: Zeros(n)[i] == '0'
  {
    if n > 0 { ZerosAll(n - 1); }
  }

  lemma {:induction false} ZeroPadded(n: int, m: nat)
    ensures ReadDigits(Zeros(n) + Digits(m), 0) == m
    ensures forall i | 0 <= i < |Zeros(n) + Digits(m)| :: IsDigit((Zeros(n) + Digits(m))[i])
  {
    ZerosAll(n);
    ZerosRead(n, Digits(m), 0);
    DigitsRead(m, "");
    assert Digits(m) + "" == Digits(m);
    var t := Zeros(n) + Digits(m);
    assert forall i | 0 <= i < |t| :: t[i] == if i < |Zeros(n)| then Zeros(n)[i] else Digits(m)[i - |Zeros(n)|];
  }

  lemma {:induction false} DigitTextRead(t: string)
    requires t != "" && IsDigit(t[0])
    ensures ReadSigned(t) == ReadDigits(t, 0) && !IsSpace(t[0])
    ensures ReadSigned("-" + t) == 0 - ReadDigits(t, 0)
  {
    assert ("-" + t)[1..] == t;
  }

  lemma {:induction false} PaddedRead(n: int, w: nat)
    requires IsInt(n)
    ensures Strtol(Padded(n, w)) == n && CellText(Padded(n, w)) && Padded(n, w) != ""
  {
    hide Zeros, Digits, ReadDigits;
    var m := if n < 0 then -n else n;
    var z := if n < 0 then w - 1 - |Digits(m)| else w - |Digits(m)|;
    var t := Zeros(z) + Digits(m);
    ZeroPadded(z, m);
    DigitTextRead(t);
    var p := Padded(n, w);
    assert p == if n < 0 then "-" + t else t;
  }

  lemma {:induction false} DecimalText(n: nat)
    requires IsInt(n)
    ensures Strtol(Decimal(n)) == n && CellText(Decimal(n))
  {
    DecimalRead(n, "");
    assert Decimal(n) + "" == Decimal(n);
  }

  lemma {:induction false} OptionalRead(x: Option<real>, w: nat)
    requires OptionalInt(x)
    ensures ReadOptional(Optional(x, w)) == RoundedTo(x) && CellText(Optional(x, w))
  {
    hide Padded, Strtol;
    if x.Some? { PaddedRead(Round(x.value), w); }
  }

  // ----- cells

  lemma {:induction false} FieldsFirst(fs: seq<string>)
    requires fs != []
    ensures FieldsText(fs) == "," + fs[0] + FieldsText(fs[1..])
  {
    if |fs| > 1 {
      var init, last := fs[..|fs| - 1], fs[|fs| - 1];
      FieldsFirst(init);
      assert init[0] == fs[0] && init[1..] == fs[1..][..|fs[1..]| - 1] && fs[1..][|fs[1..]| - 1] == last;
      assert "," + fs[0] + FieldsText(init[1..]) + ("," + last) == "," + fs[0] + (FieldsText(init[1..]) + ("," + last));
    } else {
      assert fs[..0] == [] && fs[1..] == [];
      assert FieldsText([]) == "" by { NoFieldsText(); }
    }
  }

  lemma NoFieldsText()
    ensures FieldsText([]) == ""
  {
  }

  lemma {:induction false} CellFirst(c: string, t: string)
    requires CellText(c)
    ensures Cells(c + t) == [c + Cells(t)[0]] + Cells(t)[1..]
  {
    if c == "" {
      assert c + t == t && "" + Cells(t)[0] == Cells(t)[0];
    } else {
      assert (c + t)[0] == c[0] && (c + t)[1..] == c[1..] + t;
      CellFirst(c[1..], t);
      assert [c[0]] + (c[1..] + Cells(t)[0]) == c + Cells(t)[0];
    }
  }

  lemma {:induction false} CellsRead(fs: seq<string>, rest: string)
    requires forall i | 0 <= i < |fs| :: CellText(fs[i])
    ensures Cells(FieldsText(fs) + ("*" + rest)) == [""] + fs
  {
    hide FieldsText, CellText;
    var end := "*" + rest;
    if fs == [] {
      NoFieldsText();
      assert "" + end == end && end[0] == '*';
    } else {
      FieldsFirst(fs);
      var more := FieldsText(fs[1..]) + end;
      var t := FieldsText(fs) + end;
      assert t[0] == ',' && t[1..] == fs[0] + more;
      CellsRead(fs[1..], rest);
      CellFirst(fs[0], more);
      assert fs[0] + "" == fs[0] && ([""] + fs[1..])[1..] == fs[1..] && [fs[0]] + fs[1..] == fs;
    }
  }

  lemma {:induction false} BehindAddress(a: string, t: string)
    requires forall i | 0 <= i < |a| :: a[i] != ','
    ensures Behind(a + ("," + t)) == t
  {
    if a == "" {
      assert a + ("," + t) == "," + t && ("," + t)[1..] == t;
    } else {
      assert (a + ("," + t))[0] == a[0] && (a + ("," + t))[1..] == a[1..] + ("," + t);
      BehindAddress(a[1..], t);
    }
  }

  /** Behind the address the cells are the fields. */
  lemma {:induction false} SentenceCells(a: string, fs: seq<string>, rest: string)
    requires (forall i | 0 <= i < |a| :: a[i] != ',') && fs != [] && forall i | 0 <= i < |fs| :: CellText(fs[i])
    ensures Cells(Behind(a + (FieldsText(fs) + ("*" + rest)))) == fs
  {
    hide FieldsText, Cells, CellText;
    FieldsFirst(fs);
    var more := FieldsText(fs[1..]) + ("*" + rest);
    assert FieldsText(fs) + ("*" + rest) == "," + (fs[0] + more);
    BehindAddress(a, fs[0] + more);
    CellsRead(fs[1..], rest);
    CellFirst(fs[0], more);
    assert fs[0] + "" == fs[0] && ([""] + fs[1..])[1..] == fs[1..] && [fs[0]] + fs[1..] == fs;
  }

  // ----- pages

  lemma {:induction false} FieldsOfFirst(sats: seq<Satellite>)
    requires sats != []
    ensures AllFields(sats) == SatelliteFields(sats[0]) + AllFields(sats[1..])
  {
    hide SatelliteFields;
    if |sats| > 1 {
      var init, last := sats[..|sats| - 1], sats[|sats| - 1];
      FieldsOfFirst(init);
      assert init[0] == sats[0] && init[1..] == sats[1..][..|sats[1..]| - 1] && sats[1..][|sats[1..]| - 1] == last;
    } else {
      assert sats[..0] == [] && sats[1..] == [];
      assert AllFields([]) == [];
      assert [] + SatelliteFields(sats[0]) == SatelliteFields(sats[0]) + [];
    }
  }

  lemma {:induction false} SatellitesRead(sats: seq<Satellite>)
    requires forall i | 0 <= i < |sats| :: Ints(sats[i])
    ensures ReadSatellites(AllFields(sats)) == AllShown(sats)
    ensures forall i | 0 <= i < |AllFields(sats)| :: CellText(AllFields(sats)[i])
  {
    hide Padded, Optional, Strtol, ReadOptional, RoundedTo, CellText, AllFields;
    if sats == [] {
      assert AllFields(sats) == [];
      assert AllShown(sats) == [];
    } else {
      var s, rest := sats[0], sats[1..];
      assert Ints(s);
      PaddedRead(s.prn, 2);
      OptionalRead(s.elevation, 2);
      OptionalRead(s.azimuth, 3);
      OptionalRead(s.snr, 2);
      FieldsOfFirst(sats);
      SatellitesRead(rest);
      var cs := AllFields(sats);
      assert cs[0] == SatelliteFields(s)[0] && cs[1] == SatelliteFields(s)[1] && cs[2] == SatelliteFields(s)[2] && cs[3] == SatelliteFields(s)[3];
      assert cs[4..] == AllFields(rest);
      assert AllShown(sats) == [ShownOf(s)] + AllShown(rest);
      forall i | 0 <= i < |cs| ensures CellText(cs[i]) {
        assert cs[i] == if i < 4 then SatelliteFields(s)[i] else AllFields(rest)[i - 4];
      }
    }
  }

  /** A receiver of the sentence gets the page back: its numbers, and every satellite's in their places. */
  lemma {:induction false} PageReadsBack(talker: string, p: Page)
    requires SentenceOf(talker, p).Some? && (forall i | 0 <= i < |talker| :: talker[i] != ',')
    requires IsInt(p.total) && IsInt(p.number) && IsInt(p.inView) && forall i | 0 <= i < |p.satellites| :: Ints(p.satellites[i])
    ensures ReadPage(SentenceOf(talker, p).value) == Some(PageRead(p.total, p.number, p.inView, AllShown(p.satellites)))
  {
    hide Padded, Decimal, Strtol, AllFields, Cells, Behind, FieldsText, Check, CellText, ReadSatellites, AllShown, Ints;
    var fs := FieldsOf(p);
    DecimalText(p.total);
    DecimalText(p.number);
    PaddedRead(p.inView, 2);
    SatellitesRead(p.satellites);
    forall i | 0 <= i < |fs| ensures CellText(fs[i]) {
      if i >= 3 { assert fs[i] == AllFields(p.satellites)[i - 3]; }
    }
    var body := Body(talker, "GSV", fs);
    var a := "$" + Talker(talker) + "GSV";
    var tail := Text(Check(body), 16, 2) + "\r\n";
    var s := SentenceOf(talker, p).value;
    assert Trailer(Check(body)) == "*" + tail;
    assert s == a + (FieldsText(fs) + ("*" + tail));
    AddressPlain(talker);
    SentenceCells(a, fs, tail);
    assert fs[3..] == AllFields(p.satellites);
  }

  lemma AddressPlain(talker: string)
    requires forall i | 0 <= i < |talker| :: talker[i] != ','
    ensures var a := "$" + Talker(talker) + "GSV"; forall i | 0 <= i < |a| :: a[i] != ','
  {
  }
}
