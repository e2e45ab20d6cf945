/** The limit on how often a sentence type is sent: src/daemon.c (throttle), src/config.c (rates). */
module ThrottleSpec {
  import opened CText
  import opened ArbiterSpec
  import opened Sets

  const THR_MAX := 32
  const MAX_SENTENCES := 8

  /** At most one sentence of the type per interval, in milliseconds. */
  datatype Rate = Rate(kind: string, interval: int)

  datatype Allowed = Allowed(pgn: int, kind: string)

  // ----- sentences and their limits

  predicate AddressStop(c: char) { c == ',' || c == '*' || c == '\r' || c == '\n' }

  function AddressEnd(s: string, i: nat): (e: nat)
    requires i <= |s|
    ensures i <= e <= |s|
    decreases |s| - i
  {
    if i == |s| || AddressStop(s[i]) then i else AddressEnd(s, i + 1)
  }

  /** The type of a sentence: the last three characters of its address field. */
  function KindOf(s: string): (k: string)
    ensures |k| == 0 || |k| == 3
  {
    if s == "" || (s[0] != '$' && s[0] != '!') then ""
    else
      var e := AddressEnd(s, 1);
      if e < 4 then "" else s[e - 3..e]
  }

  predicate SameNoCase(a: string, b: string) {
    |a| == |b| && PrefixNoCase(a, b)
  }

  function RateIndex(rates: seq<Rate>, kind: string, i: nat): (r: nat)
    requires i <= |rates|
    ensures i <= r <= |rates|
    ensures r < |rates| ==> SameNoCase(rates[r].kind, kind)
    decreases |rates| - i
  {
    if i == |rates| || SameNoCase(rates[i].kind, kind) then i else RateIndex(rates, kind, i + 1)
  }

  /** config_rate_ms; a sentence without type is not limited. */
  function Interval(rates: seq<Rate>, kind: string): int {
    var i := RateIndex(rates, kind, 0);
    if kind == "" || i == |rates| then 0 else rates[i].interval
  }

  predicate Limited(rates: seq<Rate>, kind: string) { Interval(rates, kind) > 0 }

  /** config_sentence_ok. */
  predicate Listed(list: seq<Allowed>, pgn: int, kind: string) {
    (exists i | 0 <= i < |list| :: list[i].pgn == pgn) ==>
      exists i | 0 <= i < |list| :: list[i].pgn == pgn && SameNoCase(list[i].kind, kind)
  }

  datatype Settings = Settings(rates: seq<Rate>, allowed: seq<Allowed>)

  /** The sentences made of one message, and when. */
  datatype Batch = Batch(pgn: int, sentences: seq<string>, now: nat)

  predicate Selected(c: Settings, b: Batch, kind: string) { kind == "" || Listed(c.allowed, b.pgn, kind) }

  // ----- the gate

  /** A row of the table: when a limited type last went out. */
  datatype Row = Row(kind: string, last: nat)

  type Times = seq<Row>

  function RowOf(m: Times, kind: string, i: nat): (r: nat)
    requires i <= |m|
    ensures i <= r <= |m|
    ensures r < |m| ==> m[r].kind == kind
    ensures forall j | i <= j < r :: m[j].kind != kind
    decreases |m| - i
  {
    if i == |m| || m[i].kind == kind then i else RowOf(m, kind, i + 1)
  }

  function LastTime(m: Times, kind: string): nat {
    var i := RowOf(m, kind, 0);
    if i < |m| then m[i].last else 0
  }

  function Put(m: Times, kind: string, t: nat): Times {
    var i := RowOf(m, kind, 0);
    if i < |m| then m[i := Row(kind, t)] else m + [Row(kind, t)]
  }

  lemma {:induction false} PutIs(m: Times, kind: string, t: nat, other: string)
    ensures LastTime(Put(m, kind, t), other) == if other == kind then t else LastTime(m, other)
    ensures RowOf(m, other, 0) < |m| || other == kind <==> RowOf(Put(m, kind, t), other, 0) < |Put(m, kind, t)|
  {
    var p := Put(m, kind, t);
    var i, j := RowOf(m, kind, 0), RowOf(m, other, 0);
    if j < |m| {
      assert p[j].kind == other;
    }
    assert forall q | 0 <= q < |m| && q != i :: p[q] == m[q];
    assert p[i] == Row(kind, t);
  }

  /** Less than the interval has passed; the unsigned difference to a later time is huge. */
  predicate TooSoon(last: nat, now: nat, interval: int) { last <= now && now - last < interval }

  predicate Open(c: Settings, m: Times, kind: string, now: nat) {
    Limited(c.rates, kind) ==> !TooSoon(LastTime(m, kind), now, Interval(c.rates, kind))
  }

  /** The sentences of the batch that go out: those selected whose type was open before the batch. */
  function Sent(c: Settings, m: Times, b: Batch, n: nat): seq<string>
    requires n <= |b.sentences|
  {
    if n == 0 then []
    else
      var s := b.sentences[n - 1];
      Sent(c, m, b, n - 1)
        + if Selected(c, b, KindOf(s)) && Open(c, m, KindOf(s), b.now) then [s] else []
  }

  function Touched(c: Settings, m: Times, b: Batch, kind: string): nat {
    if Open(c, m, kind, b.now) then b.now else LastTime(m, kind)
  }

  /** The times after the first n sentences of the batch. */
  function After(c: Settings, m: Times, b: Batch, n: nat): Times
    requires n <= |b.sentences|
  {
    if n == 0 then m
    else
      var t, kind := After(c, m, b, n - 1), KindOf(b.sentences[n - 1]);
      if Selected(c, b, kind) && Limited(c.rates, kind) then Put(t, kind, Touched(c, m, b, kind)) else t
  }

  /** The type was met, as one to limit, among the first n sentences. */
  ghost predicate Met(c: Settings, b: Batch, n: nat, kind: string)
    requires n <= |b.sentences|
  {
    Limited(c.rates, kind) && exists j | 0 <= j < n :: KindOf(b.sentences[j]) == kind && Selected(c, b, kind)
  }

  lemma {:induction false} AfterIs(c: Settings, m: Times, b: Batch, n: nat, kind: string)
    requires n <= |b.sentences|
    ensures LastTime(After(c, m, b, n), kind) == if Met(c, b, n, kind) then Touched(c, m, b, kind) else LastTime(m, kind)
    ensures Met(c, b, n, kind) ==> RowOf(After(c, m, b, n), kind, 0) < |After(c, m, b, n)|
  {
    hide KindOf, Selected, Limited, Touched, LastTime, RowOf, Put;
    if n > 0 {
      AfterIs(c, m, b, n - 1, kind);
      var k := KindOf(b.sentences[n - 1]);
      PutIs(After(c, m, b, n - 1), k, Touched(c, m, b, k), kind);
      if Met(c, b, n, kind) && !Met(c, b, n - 1, kind) {
        var j :| 0 <= j < n && KindOf(b.sentences[j]) == kind && Selected(c, b, kind);
        assert j == n - 1;
      }
    }
  }

  // ----- runs

  function Run(c: Settings, bs: seq<Batch>): Times {
    if bs == [] then [] else After(c, Run(c, bs[..|bs| - 1]), bs[|bs| - 1], |bs[|bs| - 1].sentences|)
  }

  function Output(c: Settings, bs: seq<Batch>, k: nat): seq<string>
    requires k < |bs|
  {
    Sent(c, Run(c, bs[..k]), bs[k], |bs[k].sentences|)
  }

  ghost predicate InOrder(bs: seq<Batch>) {
    forall i, j | 0 <= i < j < |bs| :: bs[i].now <= bs[j].now
  }

  /** Some sentence of the type goes out in batch k. */
  ghost predicate Emits(c: Settings, bs: seq<Batch>, k: nat, kind: string)
    requires k < |bs|
  {
    exists s | s in Output(c, bs, k) :: KindOf(s) == kind
  }

  lemma {:induction false} SentAre(c: Settings, m: Times, b: Batch, n: nat, s: string)
    requires n <= |b.sentences|
    ensures s in Sent(c, m, b, n) <==>
            s in b.sentences[..n] && Selected(c, b, KindOf(s)) && Open(c, m, KindOf(s), b.now)
  {
    hide KindOf, Selected, Open;
    if n > 0 {
      SentAre(c, m, b, n - 1, s);
      assert b.sentences[..n] == b.sentences[..n - 1] + [b.sentences[n - 1]];
    }
  }

  /** A type goes out in a batch when a selected sentence of it is there and its gate was open. */
  lemma {:induction false} EmitsIff(c: Settings, bs: seq<Batch>, k: nat, kind: string)
    requires k < |bs| && Limited(c.rates, kind)
    ensures Emits(c, bs, k, kind) <==>
            Met(c, bs[k], |bs[k].sentences|, kind) && Open(c, Run(c, bs[..k]), kind, bs[k].now)
  {
    hide KindOf, Selected, Open, Limited, Run, Sent;
    var b, m := bs[k], Run(c, bs[..k]);
    assert b.sentences[..|b.sentences|] == b.sentences;
    if Emits(c, bs, k, kind) {
      var s :| s in Output(c, bs, k) && KindOf(s) == kind;
      SentAre(c, m, b, |b.sentences|, s);
      var j :| 0 <= j < |b.sentences| && b.sentences[j] == s;
      assert KindOf(b.sentences[j]) == kind;
    }
    if Met(c, b, |b.sentences|, kind) && Open(c, m, kind, b.now) {
      var j :| 0 <= j < |b.sentences| && KindOf(b.sentences[j]) == kind && Selected(c, b, kind);
      SentAre(c, m, b, |b.sentences|, b.sentences[j]);
    }
  }

  /** The time kept for a type is that of its latest emission. */
  lemma {:induction false} LastIsEmission(c: Settings, bs: seq<Batch>, kind: string)
    requires InOrder(bs) && Limited(c.rates, kind)
    ensures var t := LastTime(Run(c, bs), kind);
            && (forall i | 0 <= i < |bs| && Emits(c, bs, i, kind) :: bs[i].now <= t)
            && (t == 0 || exists i | 0 <= i < |bs| :: Emits(c, bs, i, kind) && bs[i].now == t)
  {
    hide KindOf, Selected, Limited, Sent, Open, Met;
    if bs != [] {
      var before, b := bs[..|bs| - 1], bs[|bs| - 1];
      var k := |bs| - 1;
      LastIsEmission(c, before, kind);
      AfterIs(c, Run(c, before), b, |b.sentences|, kind);
      EmitsIff(c, bs, k, kind);
      forall i | 0 <= i < k ensures Emits(c, bs, i, kind) <==> Emits(c, before, i, kind) {
        assert before[..i] == bs[..i];
      }
    }
  }

  /** Of a rate-limited type, no two batches that send it are closer than its interval. */
  lemma {:induction false} IntervalKept(c: Settings, bs: seq<Batch>, i: nat, j: nat, kind: string)
    requires InOrder(bs) && i < j < |bs| && Limited(c.rates, kind)
    requires Emits(c, bs, i, kind) && Emits(c, bs, j, kind)
    ensures bs[j].now - bs[i].now >= Interval(c.rates, kind)
  {
    hide KindOf, Run, Sent, Met;
    EmitsIff(c, bs, j, kind);
    LastIsEmission(c, bs[..j], kind);
    assert Emits(c, bs[..j], i, kind) by { assert bs[..j][..i] == bs[..i]; }
  }

  /** A selected sentence of a limited type goes out exactly when every batch that sent
      its type is at least the interval ago, and the clock has run for an interval. */
  lemma {:induction false} SentIff(c: Settings, bs: seq<Batch>, j: nat, s: string)
    requires InOrder(bs) && j < |bs| && Limited(c.rates, KindOf(s))
    requires s in bs[j].sentences && Selected(c, bs[j], KindOf(s))
    ensures var kind := KindOf(s);
            s in Output(c, bs, j) <==>
              && bs[j].now >= Interval(c.rates, kind)
              && forall i | 0 <= i < j && Emits(c, bs, i, kind) :: bs[j].now - bs[i].now >= Interval(c.rates, kind)
  {
    hide KindOf, Run, Sent, Selected;
    var kind, b := KindOf(s), bs[j];
    assert b.sentences[..|b.sentences|] == b.sentences;
    SentAre(c, Run(c, bs[..j]), b, |b.sentences|, s);
    LastIsEmission(c, bs[..j], kind);
    var t := LastTime(Run(c, bs[..j]), kind);
    forall i | 0 <= i < j ensures Emits(c, bs[..j], i, kind) <==> Emits(c, bs, i, kind) {
      assert bs[..j][..i] == bs[..i];
    }
    assert forall i | 0 <= i < j :: bs[..j][i] == bs[i];
  }

  // ----- the table has room for every limited type

  ghost predicate NoLower(s: string) {
    forall i | 0 <= i < |s| :: !('a' <= s[i] <= 'z')
  }

  /** Types that are limited and have no lower-case letters. */
  ghost predicate Kinds(rates: seq<Rate>, ks: set<string>) {
    forall k | k in ks :: NoLower(k) && Limited(rates, k)
  }

  lemma {:induction false} OneKind(r: string, a: string, b: string)
    requires NoLower(a) && NoLower(b) && SameNoCase(r, a) && SameNoCase(r, b)
    ensures a == b
  {
    forall i | 0 <= i < |a| ensures a[i] == b[i] {
      assert Lower(a[i]) == Lower(r[i]) == Lower(b[i]);
    }
  }

  /** Every limit stands for one type at most. */
  lemma {:induction false} KindsFew(rates: seq<Rate>, ks: set<string>, n: nat)
    requires Kinds(rates, ks) && n <= |rates| && forall k | k in ks :: RateIndex(rates, k, 0) < n
    ensures |ks| <= n
    decreases n
  {
    hide SameNoCase, RateIndex, NoLower;
    if n == 0 {
      forall k | k in ks ensures false {
        assert false;
      }
      assert ks == {};
    } else if k :| k in ks && RateIndex(rates, k, 0) == n - 1 {
      forall q | q in ks - {k} ensures RateIndex(rates, q, 0) < n - 1 {
        if RateIndex(rates, q, 0) == n - 1 {
          OneKind(rates[n - 1].kind, q, k);
          assert false;
        }
      }
      KindsFew(rates, ks - {k}, n - 1);
    } else {
      KindsFew(rates, ks, n - 1);
    }
  }

  function KindsOf(m: Times): (ks: seq<string>)
    ensures |ks| == |m|
  {
    seq(|m|, i requires 0 <= i < |m| => m[i].kind)
  }

  /** A table whose rows are of different limited types. */
  ghost predicate Proper(rates: seq<Rate>, m: Times) {
    Distinct(KindsOf(m)) && forall i | 0 <= i < |m| :: NoLower(m[i].kind) && Limited(rates, m[i].kind)
  }

  lemma {:induction false} PutProper(rates: seq<Rate>, m: Times, kind: string, t: nat)
    requires Proper(rates, m) && NoLower(kind) && Limited(rates, kind)
    ensures Proper(rates, Put(m, kind, t))
  {
    hide NoLower, Limited;
    var p := Put(m, kind, t);
    forall i, j | 0 <= i < j < |m| ensures m[i].kind != m[j].kind {
      assert KindsOf(m)[i] != KindsOf(m)[j];
    }
    assert forall i, j | 0 <= i < j < |p| :: p[i].kind != p[j].kind;
  }

  /** The table never overflows: while it lacks a limited type it has room for it. */
  lemma {:induction false} NeverFull(rates: seq<Rate>, m: Times, kind: string)
    requires |rates| <= THR_MAX && Proper(rates, m)
    requires RowOf(m, kind, 0) == |m| && NoLower(kind) && Limited(rates, kind)
    ensures |m| < THR_MAX
  {
    hide SameNoCase, NoLower, Limited;
    var ks := KindsOf(m) + [kind];
    assert Distinct(ks) by { assert forall i | 0 <= i < |m| :: KindsOf(m)[i] == m[i].kind; }
    DistinctSize(ks);
    forall k | k in Members(ks) ensures NoLower(k) && Limited(rates, k) && RateIndex(rates, k, 0) < |rates| {
      LimitedHasRate(rates, k);
    }
    KindsFew(rates, Members(ks), |rates|);
  }

  lemma LimitedHasRate(rates: seq<Rate>, kind: string)
    ensures Limited(rates, kind) ==> RateIndex(rates, kind, 0) < |rates|
  {
  }
}
