/** Which pairs are published, over any run of verdicts and publications. */
module DropHistory {
  import opened CText
  import opened DropSet

  datatype Op = Judge(v: Verdict) | Publish(now: nat)

  /** The table after a run. */
  function Run(ops: seq<Op>): (t: seq<Verdict>)
    ensures |t| <= DROP_MAX
  {
    if ops == [] then []
    else
      var t := Run(ops[..|ops| - 1]);
      match ops[|ops| - 1]
      case Judge(v) => Updated(t, v)
      case Publish(now) => Pruned(t, now)
  }

  /** The verdicts of a run. */
  function Verdicts(ops: seq<Op>): seq<Verdict> {
    if ops == [] then []
    else
      var h := Verdicts(ops[..|ops| - 1]);
      match ops[|ops| - 1]
      case Judge(v) => h + [v]
      case Publish(_) => h
  }

  /** The latest verdict on a pair, whatever its discriminant. */
  function Latest(h: seq<Verdict>, p: Pair): (r: Option<Verdict>)
    ensures r.Some? ==> r.value in h && r.value.pair == p
    ensures r.None? ==> forall x | x in h :: x.pair != p
  {
    if h == [] then None
    else if h[|h| - 1].pair == p then Some(h[|h| - 1])
    else Latest(h[..|h| - 1], p)
  }

  /** Verdicts on one pair have increasing times, and a publication is not before them. */
  ghost predicate Ordered(ops: seq<Op>) {
    && (forall i, j | 0 <= i < j < |ops| && ops[i].Judge? && ops[j].Judge? && ops[i].v.pair == ops[j].v.pair ::
          ops[i].v.time < ops[j].v.time)
    && (forall i, j | 0 <= i < j < |ops| && ops[i].Judge? && ops[j].Publish? :: ops[i].v.time <= ops[j].now)
  }

  // ----- a pair in the table has its latest verdict there

  ghost predicate Covers(t: seq<Verdict>, h: seq<Verdict>) {
    && (forall x | x in t :: x in h)
    && (forall x | x in t ::
          var l := Latest(h, x.pair);
          l.Some? && l.value in t && (x == l.value || x.time < l.value.time))
  }

  lemma {:induction false} UpdatedMembers(t: seq<Verdict>, v: Verdict)
    requires |t| <= DROP_MAX
    ensures forall x | x in Updated(t, v) :: x == v || x in t
    ensures v in Updated(t, v) || (!v.loser && !Has(t, v.pair) && Updated(t, v) == t)
    ensures forall x | x in t && x.pair != v.pair :: x in Updated(t, v) || (forall y | y in t :: x.time <= y.time)
    ensures |t| < DROP_MAX ==> forall x | x in t && x.pair != v.pair :: x in Updated(t, v)
  {
    var i := FindKey(t, v, 0);
    if i < |t| {
      Replaced(t, i, v);
    } else if t != [] && |t| == DROP_MAX {
      Replaced(t, Oldest(t), v);
    }
  }

  lemma {:induction false} Replaced(t: seq<Verdict>, i: nat, v: Verdict)
    requires i < |t|
    ensures v in t[i := v]
    ensures forall x | x in t[i := v] :: x == v || x in t
    ensures forall x | x in t :: x in t[i := v] || x == t[i]
  {
    assert t[i := v][i] == v;
    forall x | x in t ensures x in t[i := v] || x == t[i] {
      var k :| 0 <= k < |t| && t[k] == x;
      if k != i { assert t[i := v][k] == x; }
    }
  }

  lemma {:induction false} LatestSnoc(h: seq<Verdict>, v: Verdict, p: Pair)
    ensures Latest(h + [v], p) == if v.pair == p then Some(v) else Latest(h, p)
  {
    assert (h + [v])[..|h|] == h;
  }

  lemma {:induction false} CoversUpdate(t: seq<Verdict>, h: seq<Verdict>, v: Verdict)
    requires |t| <= DROP_MAX && Covers(t, h)
    requires forall x | x in h && x.pair == v.pair :: x.time < v.time
    ensures Covers(Updated(t, v), h + [v])
  {
    hide Updated;
    var u := Updated(t, v);
    UpdatedMembers(t, v);
    forall x | x in u
      ensures var l := Latest(h + [v], x.pair);
              l.Some? && l.value in u && (x == l.value || x.time < l.value.time)
    {
      LatestSnoc(h, v, x.pair);
      if x.pair == v.pair {
        if v !in u {
          HasMember(t, x);
          assert false;
        }
      } else {
        var l := Latest(h, x.pair).value;
        if l !in u {
          assert false;
        }
      }
    }
  }

  lemma {:induction false} HasMember(t: seq<Verdict>, x: Verdict)
    requires x in t
    ensures Has(t, x.pair)
  {
    var i :| 0 <= i < |t| && t[i] == x;
    assert t[i].pair == x.pair;
  }

  lemma {:induction false} CoversPrune(t: seq<Verdict>, h: seq<Verdict>, now: nat)
    requires Covers(t, h)
    requires forall x | x in h :: x.time <= now
    ensures Covers(Pruned(t, now), h)
  {
    hide Pruned;
  }

  lemma {:induction false} VerdictAt(ops: seq<Op>, x: Verdict) returns (i: nat)
    requires x in Verdicts(ops)
    ensures i < |ops| && ops[i] == Judge(x)
  {
    var last := |ops| - 1;
    if ops[last] == Judge(x) {
      i := last;
    } else {
      i := VerdictAt(ops[..last], x);
    }
  }

  lemma {:induction false} RunCovers(ops: seq<Op>)
    requires Ordered(ops)
    ensures Covers(Run(ops), Verdicts(ops))
  {
    hide Updated, Pruned, Latest, Covers;
    if ops == [] {
      assert Covers([], []) by { CoversNone(); }
    } else {
      var prefix, op := ops[..|ops| - 1], ops[|ops| - 1];
      assert forall i | 0 <= i < |prefix| :: prefix[i] == ops[i];
      RunCovers(prefix);
      forall x | x in Verdicts(prefix)
        ensures op.Judge? && x.pair == op.v.pair ==> x.time < op.v.time
        ensures op.Publish? ==> x.time <= op.now
      {
        var i := VerdictAt(prefix, x);
        assert ops[i] == Judge(x);
      }
      if op.Judge? {
        CoversUpdate(Run(prefix), Verdicts(prefix), op.v);
      } else {
        CoversPrune(Run(prefix), Verdicts(prefix), op.now);
      }
    }
  }

  lemma CoversNone()
    ensures Covers([], [])
  {
  }

  /** With different times for any two verdicts on one pair: a published pair lost its latest
      verdict, at most 8000 ms ago, and is published once. So a pair whose latest verdict passed
      is never published, whatever was evicted, pruned, or judged for its other discriminants. */
  lemma {:induction false} PublishedLostApart(ops: seq<Op>, now: nat)
    requires Ordered(ops + [Publish(now)])
    ensures var t := Run(ops + [Publish(now)]);
            var out := Published(t, |t|);
            && (forall p | p in out ::
                  var l := Latest(Verdicts(ops), p);
                  l.Some? && l.value.loser && l.value.time <= now && now - l.value.time <= DROP_TIMEOUT_MS)
            && (forall i, j | 0 <= i < j < |out| :: out[i] != out[j])
  {
    hide Updated, Pruned, Latest, Published;
    var all := ops + [Publish(now)];
    assert all[..|all| - 1] == ops;
    RunCovers(all);
    var t := Run(all);
    assert t[..|t|] == t;
    PublishedAre(t, |t|);
    forall p | p in Published(t, |t|)
      ensures var l := Latest(Verdicts(ops), p);
              l.Some? && l.value.loser && l.value.time <= now && now - l.value.time <= DROP_TIMEOUT_MS
    {
      var i :| 0 <= i < |t| && t[i].pair == p;
      assert t[i] in t;
      var l := Latest(Verdicts(ops), p).value;
      var k :| 0 <= k < |t| && t[k] == l;
      assert Recent(l, now);
    }
  }

  /** A passing verdict is forgotten when its pair has no entry yet: the pair can
      be published although another discriminant of it passed just before. */
  lemma {:induction false} PassForgotten()
    ensures var p := Pair(130306, 3);
            var ops := [Judge(Verdict(p, "Apparent", false, 1)), Judge(Verdict(p, "True", true, 2)), Publish(3)];
            var t := Run(ops);
            && Ordered(ops) && Published(t, |t|) == [p]
            && Verdict(p, "Apparent", false, 1) in Verdicts(ops)
  {
    var p := Pair(130306, 3);
    var a, b := Verdict(p, "Apparent", false, 1), Verdict(p, "True", true, 2);
    var ops := [Judge(a), Judge(b), Publish(3)];
    assert ops[..2] == [Judge(a), Judge(b)] && ops[..2][..1] == [Judge(a)] && [Judge(a)][..0] == [];
    assert Run([]) == [];
    assert Run([Judge(a)]) == Updated([], a) == [];
    assert Run(ops[..2]) == Updated([], b) == [b];
    assert Run(ops) == Pruned([b], 3);
    assert Pruned([b], 3) == [b] + Pruned([], 3) == [b];
    assert Verdicts([Judge(a)]) == [a];
    assert Verdicts(ops[..2]) == [a, b];
    assert Published([b], 0) == [];
    assert Published([b], 1) == [p];
    assert [a, b][0] == a;
  }
}
