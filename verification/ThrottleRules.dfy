/** Which type a sentence has, which types are limited or left out, and what goes out
    unlimited: src/daemon.c (throttle), src/config.c (rates, sentences). */
module ThrottleRules {
  import opened CText
  import opened ArbiterSpec
  import opened ThrottleSpec

  /** The address field, behind the start mark, ends at e. */
  ghost predicate AddressTo(s: string, e: nat) {
    && 1 <= e <= |s| && s[0] in "$!" && (forall i | 1 <= i < e :: s[i] !in ",*\r\n") && (e < |s| ==> s[e] in ",*\r\n")
  }

  lemma {:induction false} AddressEnds(s: string, i: nat, e: nat)
    requires 1 <= i <= e <= |s| && (forall k | i <= k < e :: s[k] !in ",*\r\n") && (e < |s| ==> s[e] in ",*\r\n")
    ensures AddressEnd(s, i) == e
    decreases e - i
  {
    if i < e { AddressEnds(s, i + 1, e); }
  }

  lemma {:induction false} AddressFound(s: string, i: nat) returns (e: nat)
    requires 1 <= i <= |s|
    ensures i <= e <= |s| && (forall k | i <= k < e :: s[k] !in ",*\r\n") && (e < |s| ==> s[e] in ",*\r\n")
  {
    e := i;
    while e < |s| && s[e] !in ",*\r\n"
      invariant i <= e <= |s| && forall k | i <= k < e :: s[k] !in ",*\r\n"
    {
      e := e + 1;
    }
  }

  /** The type is the last three characters of an address field of at least three; all else has none. */
  lemma {:induction false} KindIs(s: string)
    ensures forall e: nat | AddressTo(s, e) :: KindOf(s) == if e >= 4 then s[e - 3..e] else ""
    ensures (forall e: nat :: !AddressTo(s, e)) ==> KindOf(s) == ""
  {
    hide AddressEnd;
    if s != "" && s[0] in "$!" {
      var e := AddressFound(s, 1);
      assert AddressTo(s, e);
      forall d: nat | AddressTo(s, d) ensures AddressEnd(s, 1) == d {
        AddressEnds(s, 1, d);
      }
    }
  }

  lemma {:induction false} NoCaseIs(a: string, b: string)
    ensures SameNoCase(a, b) <==> EqualNoCase(a, b)
  {
    if |a| == |b| {
      forall i | 0 <= i < |a| ensures Lower(a[i]) == Lower(b[i]) <==> SameLetter(a[i], b[i]) {
        LowerSame(a[i], b[i]);
      }
    }
  }

  /** The first limit configured for the type. */
  ghost predicate FirstRate(rates: seq<Rate>, kind: string, i: nat) {
    i < |rates| && EqualNoCase(rates[i].kind, kind) && forall j | 0 <= j < i :: !EqualNoCase(rates[j].kind, kind)
  }

  lemma {:induction false} RateFrom(rates: seq<Rate>, kind: string, from: nat)
    requires from <= |rates|
    ensures var r := RateIndex(rates, kind, from);
            && (forall j | from <= j < r :: !EqualNoCase(rates[j].kind, kind))
            && (r < |rates| ==> EqualNoCase(rates[r].kind, kind))
    decreases |rates| - from
  {
    hide SameNoCase, EqualNoCase;
    if from < |rates| {
      NoCaseIs(rates[from].kind, kind);
      RateFrom(rates, kind, from + 1);
    }
  }

  /** A type's interval is that of the first limit with its name, in any case of letters; a type
      without limit, and a sentence without type, has none. */
  lemma {:induction false} IntervalIs(rates: seq<Rate>, kind: string)
    ensures forall i: nat | kind != "" && FirstRate(rates, kind, i) :: Interval(rates, kind) == rates[i].interval
    ensures kind == "" || (forall i: nat :: !FirstRate(rates, kind, i)) ==> Interval(rates, kind) == 0
  {
    hide RateIndex, EqualNoCase;
    RateFrom(rates, kind, 0);
    var r := RateIndex(rates, kind, 0);
    if r < |rates| { assert FirstRate(rates, kind, r); }
  }

  /** A type goes with a PGN when the PGN has no list, or the type is on it, in any case of letters. */
  lemma {:induction false} SelectedIs(c: Settings, b: Batch, kind: string)
    ensures Selected(c, b, kind) <==>
            || kind == ""
            || (forall i | 0 <= i < |c.allowed| :: c.allowed[i].pgn != b.pgn)
            || exists i :: 0 <= i < |c.allowed| && c.allowed[i].pgn == b.pgn && EqualNoCase(c.allowed[i].kind, kind)
  {
    hide SameNoCase, EqualNoCase;
    forall i | 0 <= i < |c.allowed| ensures SameNoCase(c.allowed[i].kind, kind) <==> EqualNoCase(c.allowed[i].kind, kind) {
      NoCaseIs(c.allowed[i].kind, kind);
    }
  }

  /** These places of the batch, in order, are those of the sentences that go out. */
  ghost predicate Places(c: Settings, m: Times, b: Batch, n: nat, out: seq<string>, idx: seq<nat>)
    requires n <= |b.sentences|
  {
    && |idx| == |out| && (forall i, j | 0 <= i < j < |idx| :: idx[i] < idx[j])
    && (forall i | 0 <= i < |idx| :: idx[i] < n && out[i] == b.sentences[idx[i]])
    && forall k: nat | k < n :: k in idx <==> Selected(c, b, KindOf(b.sentences[k])) && Open(c, m, KindOf(b.sentences[k]), b.now)
  }

  lemma {:induction false} OneMorePlace(c: Settings, m: Times, b: Batch, n: nat, out: seq<string>, idx: seq<nat>)
    requires n < |b.sentences| && Places(c, m, b, n, out, idx)
    ensures var kind := KindOf(b.sentences[n]);
            if Selected(c, b, kind) && Open(c, m, kind, b.now) then Places(c, m, b, n + 1, out + [b.sentences[n]], idx + [n])
            else Places(c, m, b, n + 1, out, idx)
  {
    hide Selected, Open, KindOf;
    var more := idx + [n];
    assert forall k :: k in more <==> k in idx || k == n;
    assert forall i | 0 <= i < |idx| :: idx[i] in idx;
    assert forall k | k in idx :: k < n;
  }

  /** What goes out is a part of the batch, in its order. */
  lemma {:induction false} OutputOrdered(c: Settings, m: Times, b: Batch, n: nat) returns (idx: seq<nat>)
    requires n <= |b.sentences|
    ensures Places(c, m, b, n, Sent(c, m, b, n), idx)
  {
    hide Selected, Open, KindOf, Places;
    if n == 0 {
      idx := [];
      assert Places(c, m, b, 0, [], []) by { NoPlaces(c, m, b); }
    } else {
      var before := OutputOrdered(c, m, b, n - 1);
      var kind := KindOf(b.sentences[n - 1]);
      OneMorePlace(c, m, b, n - 1, Sent(c, m, b, n - 1), before);
      assert Sent(c, m, b, n) ==
             if Selected(c, b, kind) && Open(c, m, kind, b.now) then Sent(c, m, b, n - 1) + [b.sentences[n - 1]]
             else Sent(c, m, b, n - 1);
      idx := if Selected(c, b, kind) && Open(c, m, kind, b.now) then before + [n - 1] else before;
    }
  }

  lemma NoPlaces(c: Settings, m: Times, b: Batch)
    ensures Places(c, m, b, 0, [], [])
  {
  }

  /** Sentences of a type with an interval go out by the limit, whatever the interval. */
  lemma {:induction false} LimitedSent(c: Settings, bs: seq<Batch>, j: nat, s: string)
    requires InOrder(bs) && j < |bs| && s in bs[j].sentences && Interval(c.rates, KindOf(s)) > 0
    ensures var kind := KindOf(s);
            s in Output(c, bs, j) <==>
              && Selected(c, bs[j], kind) && bs[j].now >= Interval(c.rates, kind)
              && forall i | 0 <= i < j && Emits(c, bs, i, kind) :: bs[j].now - bs[i].now >= Interval(c.rates, kind)
  {
    hide KindOf, Selected, Run, Sent, Interval, Emits;
    var b := bs[j];
    assert b.sentences[..|b.sentences|] == b.sentences;
    SentAre(c, Run(c, bs[..j]), b, |b.sentences|, s);
    if Selected(c, b, KindOf(s)) { SentIff(c, bs, j, s); }
  }

  /** Sentences of unlimited types go out whenever they are selected. */
  lemma {:induction false} UnlimitedSent(c: Settings, bs: seq<Batch>, j: nat, s: string)
    requires j < |bs| && s in bs[j].sentences && Interval(c.rates, KindOf(s)) <= 0
    ensures s in Output(c, bs, j) <==> Selected(c, bs[j], KindOf(s))
  {
    hide KindOf, Selected, Run, Sent, Interval;
    var b := bs[j];
    assert b.sentences[..|b.sentences|] == b.sentences;
    SentAre(c, Run(c, bs[..j]), b, |b.sentences|, s);
  }
}
