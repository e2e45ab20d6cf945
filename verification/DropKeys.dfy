/** What the loser table remembers of each discriminant, and so exactly which pairs are
    published: over any run whose times do not go back, with any ties and any evictions. */
module DropKeys {
  import opened CText
  import opened DropHistory
  import opened DropSet
  import opened Sets

  datatype Key = Key(pair: Pair, disc: string)

  function KeyOf(v: Verdict): Key { Key(v.pair, v.disc) }

  /** What became of a verdict: never stored, stored, or evicted by a later one. */
  datatype Fate = Forgotten | Kept | PushedOut

  /** The latest verdict for a discriminant. */
  datatype Last = Last(v: Verdict, fate: Fate)

  type Lasts = map<Key, Last>

  /** Whether dropset_update goes past its early return, or finds the key. */
  predicate Stores(t: seq<Verdict>, v: Verdict) { v.loser || Has(t, v.pair) }

  /** Whether dropset_update comes to the eviction. */
  predicate Evicts(t: seq<Verdict>, v: Verdict) {
    |t| == DROP_MAX && FindKey(t, v, 0) == |t| && Stores(t, v)
  }

  function Pushed(m: Lasts, k: Key): Lasts {
    if k in m then m[k := m[k].(fate := PushedOut)] else m
  }

  function Judged(m: Lasts, t: seq<Verdict>, v: Verdict): Lasts {
    (if Evicts(t, v) then Pushed(m, KeyOf(t[Oldest(t)])) else m)[KeyOf(v) := Last(v, if Stores(t, v) then Kept else Forgotten)]
  }

  function LastsOf(ops: seq<Op>): Lasts {
    if ops == [] then map[]
    else
      var before := ops[..|ops| - 1];
      match ops[|ops| - 1]
      case Judge(v) => Judged(LastsOf(before), Run(before), v)
      case Publish(_) => LastsOf(before)
  }

  function TimeOf(op: Op): nat {
    match op
    case Judge(v) => v.time
    case Publish(now) => now
  }

  /** The clock does not go back; any two times may be equal. */
  ghost predicate InOrder(ops: seq<Op>) {
    forall i, j | 0 <= i < j < |ops| :: TimeOf(ops[i]) <= TimeOf(ops[j])
  }

  function Clock(ops: seq<Op>): nat { if ops == [] then 0 else TimeOf(ops[|ops| - 1]) }

  lemma {:induction false} SnocOrdered(ops: seq<Op>, op: Op)
    requires InOrder(ops + [op])
    ensures InOrder(ops) && Clock(ops) <= TimeOf(op)
  {
    var all := ops + [op];
    assert all[|ops|] == op && forall i | 0 <= i < |ops| :: all[i] == ops[i];
    assert ops != [] ==> TimeOf(all[|ops| - 1]) <= TimeOf(all[|ops|]);
  }

  // ----- the table against the latest verdicts

  /** The rows of the table are latest verdicts that were kept, one for a key. */
  ghost predicate Rows(t: seq<Verdict>, m: Lasts) {
    && (forall i, j | 0 <= i < j < |t| :: KeyOf(t[i]) != KeyOf(t[j]))
    && (forall i | 0 <= i < |t| :: KeyOf(t[i]) in m && m[KeyOf(t[i])] == Last(t[i], Kept))
  }

  /** Kept verdicts are in the table until they are stale. */
  ghost predicate Holds(t: seq<Verdict>, m: Lasts, clock: nat) {
    forall k | k in m ::
      && KeyOf(m[k].v) == k && m[k].v.time <= clock
      && (m[k].fate.Kept? ==> m[k].v in t || clock > m[k].v.time + DROP_TIMEOUT_MS)
  }

  lemma {:induction false} RowsPushed(t: seq<Verdict>, m: Lasts, v: Verdict, o: nat)
    requires Rows(t, m) && o < |t| && forall i | 0 <= i < |t| :: KeyOf(t[i]) != KeyOf(v)
    ensures Rows(t[o := v], Pushed(m, KeyOf(t[o]))[KeyOf(v) := Last(v, Kept)])
  {
    var u := t[o := v];
    assert forall i | 0 <= i < |u| && i != o :: u[i] == t[i] && KeyOf(t[i]) != KeyOf(t[o]);
  }

  lemma {:induction false} RowsJudged(t: seq<Verdict>, m: Lasts, v: Verdict)
    requires |t| <= DROP_MAX && Rows(t, m)
    ensures Rows(Updated(t, v), Judged(m, t, v))
  {
    hide FindKey, Has;
    var i := FindKey(t, v, 0);
    if i < |t| {
      assert Has(t, v.pair) by { HasMember(t, t[i]); }
    } else if Evicts(t, v) {
      RowsPushed(t, m, v, Oldest(t));
    }
  }

  lemma {:induction false} PrunedDistinct(t: seq<Verdict>, now: nat)
    requires forall i, j | 0 <= i < j < |t| :: KeyOf(t[i]) != KeyOf(t[j])
    ensures forall i, j | 0 <= i < j < |Pruned(t, now)| :: KeyOf(Pruned(t, now)[i]) != KeyOf(Pruned(t, now)[j])
  {
    if t != [] {
      PrunedDistinct(t[1..], now);
      var r := Pruned(t[1..], now);
      forall j | 0 <= j < |r| ensures KeyOf(r[j]) != KeyOf(t[0]) {
        assert r[j] in t[1..];
        var k :| 0 <= k < |t[1..]| && t[1..][k] == r[j];
        assert t[k + 1] == r[j];
      }
    }
  }

  lemma {:induction false} RowsPruned(t: seq<Verdict>, m: Lasts, now: nat)
    requires Rows(t, m)
    ensures Rows(Pruned(t, now), m)
  {
    hide Pruned;
    PrunedDistinct(t, now);
    var u := Pruned(t, now);
    forall i | 0 <= i < |u| ensures KeyOf(u[i]) in m && m[KeyOf(u[i])] == Last(u[i], Kept) {
      assert u[i] in t;
    }
  }

  lemma {:induction false} RunRows(ops: seq<Op>)
    ensures Rows(Run(ops), LastsOf(ops))
  {
    hide Rows, Updated, Pruned, Judged;
    if ops == [] {
      assert Rows([], map[]) by { NoRows(); }
    } else {
      var before, op := ops[..|ops| - 1], ops[|ops| - 1];
      RunRows(before);
      if op.Judge? {
        RowsJudged(Run(before), LastsOf(before), op.v);
      } else {
        RowsPruned(Run(before), LastsOf(before), op.now);
      }
    }
  }

  lemma NoRows()
    ensures Rows([], map[])
  {
  }

  lemma {:induction false} HoldsJudged(t: seq<Verdict>, m: Lasts, clock: nat, v: Verdict)
    requires |t| <= DROP_MAX && Rows(t, m) && Holds(t, m, clock) && clock <= v.time
    ensures Holds(Updated(t, v), Judged(m, t, v), v.time)
  {
    hide FindKey, Has;
    var u, m' := Updated(t, v), Judged(m, t, v);
    var i := FindKey(t, v, 0);
    if i < |t| {
      assert Has(t, v.pair) by { HasMember(t, t[i]); }
      Replaced(t, i, v);
    } else if Evicts(t, v) {
      Replaced(t, Oldest(t), v);
    } else if Stores(t, v) {
      assert u[|t|] == v;
    }
    forall k | k in m'
      ensures KeyOf(m'[k].v) == k && m'[k].v.time <= v.time
      ensures m'[k].fate.Kept? ==> m'[k].v in u || v.time > m'[k].v.time + DROP_TIMEOUT_MS
    {
      if k != KeyOf(v) && m'[k].fate.Kept? {
        assert m[k] == m'[k];
      }
    }
  }

  /** Over any run whose clock does not go back, the table holds exactly the latest verdicts
      that were kept, but for stale ones. */
  lemma {:induction false} RunHolds(ops: seq<Op>)
    requires InOrder(ops)
    ensures Holds(Run(ops), LastsOf(ops), Clock(ops))
  {
    hide Rows, Updated, Pruned, Judged, Holds, InOrder;
    if ops == [] {
      assert Holds([], map[], 0) by { NoneHeld(); }
    } else {
      var before, op := ops[..|ops| - 1], ops[|ops| - 1];
      assert ops == before + [op];
      SnocOrdered(before, op);
      RunHolds(before);
      if op.Judge? {
        RunRows(before);
        HoldsJudged(Run(before), LastsOf(before), Clock(before), op.v);
      } else {
        HoldsPruned(Run(before), LastsOf(before), Clock(before), op.now);
      }
    }
  }

  lemma NoneHeld()
    ensures Holds([], map[], 0)
  {
  }

  lemma {:induction false} HoldsPruned(t: seq<Verdict>, m: Lasts, clock: nat, now: nat)
    requires Holds(t, m, clock) && clock <= now
    ensures Holds(Pruned(t, now), m, now)
  {
    hide Pruned;
  }

  // ----- the fates, in terms of the run

  /** The i-th operation judged the key last. */
  ghost predicate JudgedAt(ops: seq<Op>, k: Key, i: nat, v: Verdict) {
    && i < |ops| && ops[i] == Judge(v) && KeyOf(v) == k
    && forall j | i < j < |ops| && ops[j].Judge? :: KeyOf(ops[j].v) != k
  }

  /** The j-th operation judged a new key that is stored in a full table, whose oldest row is x. */
  ghost predicate PushesOut(ops: seq<Op>, j: nat, x: Verdict) {
    && j < |ops| && ops[j].Judge?
    && var t := Run(ops[..j]);
       Evicts(t, ops[j].v) && t[Oldest(t)] == x
  }

  /** A verdict was stored by the guard of the early return when it arrived, and was pushed
      out by a later eviction of its row. */
  ghost predicate FateAt(ops: seq<Op>, k: Key, i: nat, last: Last) {
    && JudgedAt(ops, k, i, last.v)
    && (last.fate.Forgotten? <==> !Stores(Run(ops[..i]), last.v))
    && (last.fate.PushedOut? <==> exists j :: i < j < |ops| && PushesOut(ops, j, last.v))
  }

  lemma {:induction false} FateIs(ops: seq<Op>, k: Key)
    requires k in LastsOf(ops)
    ensures exists i: nat :: FateAt(ops, k, i, LastsOf(ops)[k])
  {
    hide Stores, Evicts, Run, Judged, FateAt, PushesOut;
    var n := |ops| - 1;
    var before, op := ops[..n], ops[n];
    assert ops == before + [op];
    if op.Judge? && KeyOf(op.v) == k {
      FateNow(ops, k);
    } else {
      StillThere(ops, k);
      FateIs(before, k);
      var i: nat :| FateAt(before, k, i, LastsOf(before)[k]);
      FateStays(before, op, k, i);
    }
  }

  lemma {:induction false} StillThere(ops: seq<Op>, k: Key)
    requires k in LastsOf(ops) && (ops[|ops| - 1].Judge? ==> KeyOf(ops[|ops| - 1].v) != k)
    ensures k in LastsOf(ops[..|ops| - 1])
  {
    hide Evicts, Stores, Run;
  }

  lemma {:induction false} FateNow(ops: seq<Op>, k: Key)
    requires ops != [] && ops[|ops| - 1].Judge? && KeyOf(ops[|ops| - 1].v) == k
    ensures k in LastsOf(ops) && FateAt(ops, k, |ops| - 1, LastsOf(ops)[k])
  {
    hide Evicts, Stores, Run;
  }

  lemma {:induction false} PushesBefore(ops: seq<Op>, op: Op, j: nat, x: Verdict)
    requires j < |ops|
    ensures PushesOut(ops + [op], j, x) == PushesOut(ops, j, x)
  {
    assert (ops + [op])[..j] == ops[..j];
  }

  lemma {:induction false} FateStays(ops: seq<Op>, op: Op, k: Key, i: nat)
    requires k in LastsOf(ops) && FateAt(ops, k, i, LastsOf(ops)[k]) && (op.Judge? ==> KeyOf(op.v) != k)
    ensures k in LastsOf(ops + [op]) && FateAt(ops + [op], k, i, LastsOf(ops + [op])[k])
  {
    hide Stores, Evicts, Run, PushesOut, Pushed;
    var all, n := ops + [op], |ops|;
    var l := LastsOf(ops)[k];
    var l' := PushedLast(ops, op, k);
    assert all[..i] == ops[..i];
    forall j | i < j < n ensures PushesOut(all, j, l.v) == PushesOut(ops, j, l.v) {
      PushesBefore(ops, op, j, l.v);
    }
    if exists j :: i < j < n && PushesOut(ops, j, l.v) {
      var j :| i < j < n && PushesOut(ops, j, l.v);
      assert PushesOut(all, j, l.v);
    }
  }

  /** An operation on another key pushes a verdict out exactly when the verdict is that row. */
  lemma {:induction false} PushedLast(ops: seq<Op>, op: Op, k: Key) returns (l: Last)
    requires k in LastsOf(ops) && (op.Judge? ==> KeyOf(op.v) != k)
    ensures k in LastsOf(ops + [op]) && l == LastsOf(ops + [op])[k] && l.v == LastsOf(ops)[k].v
    ensures PushesOut(ops + [op], |ops|, l.v) ==> LastsOf(ops)[k].fate.Kept? && l.fate.PushedOut?
    ensures !PushesOut(ops + [op], |ops|, l.v) ==> l == LastsOf(ops)[k]
  {
    hide Stores, Run, FindKey, Oldest;
    var all, t := ops + [op], Run(ops);
    assert all[..|ops|] == ops && all[|ops|] == op;
    RunRows(ops);
    LastKeyOf(ops, k);
    l := LastsOf(all)[k];
  }

  lemma {:induction false} LastKeyOf(ops: seq<Op>, k: Key)
    requires k in LastsOf(ops)
    ensures KeyOf(LastsOf(ops)[k].v) == k
  {
    hide Evicts, Stores, Run;
    if ops[|ops| - 1].Publish? || KeyOf(ops[|ops| - 1].v) != k {
      LastKeyOf(ops[..|ops| - 1], k);
    }
  }

  /** What an eviction is: the table holds 256 rows, none of them for the key; the verdict lost, or
      its pair has a row. */
  lemma {:induction false} EvictsIs(t: seq<Verdict>, v: Verdict)
    ensures Evicts(t, v) <==>
            && |t| == 256 && (forall i | 0 <= i < |t| :: KeyOf(t[i]) != KeyOf(v))
            && (v.loser || exists i :: 0 <= i < |t| && t[i].pair == v.pair)
  {
    if |t| == 256 && forall i | 0 <= i < |t| :: KeyOf(t[i]) != KeyOf(v) {
      FindKeyIs(t, v, |t|);
    }
  }

  /** What it pushes out: the first of the oldest rows. */
  lemma {:induction false} PushedIs(t: seq<Verdict>, o: nat)
    requires o < |t|
    ensures Oldest(t) == o <==>
            (forall i | 0 <= i < |t| :: t[o].time <= t[i].time) && forall i | 0 <= i < o :: t[o].time < t[i].time
  {
    if (forall i | 0 <= i < |t| :: t[o].time <= t[i].time) && forall i | 0 <= i < o :: t[o].time < t[i].time {
      OldestIs(t, o);
    }
  }

  /** What storing is: the verdict lost, or its pair has a row. */
  lemma StoresIs(t: seq<Verdict>, v: Verdict)
    ensures Stores(t, v) <==> v.loser || exists i :: 0 <= i < |t| && t[i].pair == v.pair
  {
  }

  // ----- what is published

  /** A discriminant of the pair whose latest verdict is at most 8000 ms old. */
  predicate RecentKey(ops: seq<Op>, now: nat, p: Pair, k: Key) {
    k in LastsOf(ops) && k.pair == p && LastsOf(ops)[k].v.time <= now <= LastsOf(ops)[k].v.time + 8000
  }

  function VerdictOf(ops: seq<Op>, k: Key): Verdict
    requires k in LastsOf(ops)
  {
    LastsOf(ops)[k].v
  }

  predicate IsKept(ops: seq<Op>, k: Key)
    requires k in LastsOf(ops)
  {
    LastsOf(ops)[k].fate.Kept?
  }

  function PublishedAt(ops: seq<Op>, now: nat): seq<Pair> {
    var t := Run(ops + [Publish(now)]);
    Published(t, |t|)
  }

  lemma {:induction false} LastTable(ops: seq<Op>, now: nat)
    requires InOrder(ops + [Publish(now)])
    ensures var t := Run(ops + [Publish(now)]);
            && Rows(t, LastsOf(ops)) && Holds(t, LastsOf(ops), now)
            && (forall x | x in t :: Recent(x, now)) && t[..|t|] == t
  {
    hide Rows, Holds, Updated, Pruned, Judged;
    var all := ops + [Publish(now)];
    assert all[..|all| - 1] == ops;
    RunRows(all);
    RunHolds(all);
    assert Run(all) == Pruned(Run(ops), now);
  }

  /** Of the pair, the rows of the table are the recent latest verdicts that were kept. */
  lemma {:induction false} TableOf(ops: seq<Op>, t: seq<Verdict>, now: nat, p: Pair)
    requires Rows(t, LastsOf(ops)) && Holds(t, LastsOf(ops), now) && forall x | x in t :: Recent(x, now)
    ensures Has(t, p) <==> exists k :: RecentKey(ops, now, p, k) && IsKept(ops, k)
    ensures AllLose(t, p) <==> forall k | RecentKey(ops, now, p, k) && IsKept(ops, k) :: VerdictOf(ops, k).loser
  {
    hide LastsOf;
    var m := LastsOf(ops);
    forall i | 0 <= i < |t| && t[i].pair == p
      ensures RecentKey(ops, now, p, KeyOf(t[i])) && m[KeyOf(t[i])] == Last(t[i], Kept)
    {
      assert t[i] in t;
    }
    forall k | RecentKey(ops, now, p, k) && IsKept(ops, k)
      ensures exists i :: 0 <= i < |t| && t[i].pair == p && t[i] == m[k].v
    {
      var i :| 0 <= i < |t| && t[i] == m[k].v;
      assert KeyOf(t[i]) == k;
    }
  }

  /** A pair is published exactly when, of its recent latest verdicts that are kept, there
      are some and all of them lost. */
  lemma {:induction false} PublishedIff(ops: seq<Op>, now: nat, p: Pair)
    requires InOrder(ops + [Publish(now)])
    ensures p in PublishedAt(ops, now) <==>
            && (exists k :: RecentKey(ops, now, p, k) && IsKept(ops, k))
            && (forall k | RecentKey(ops, now, p, k) && IsKept(ops, k) :: VerdictOf(ops, k).loser)
  {
    hide Run, Published, Has, AllLose, Rows, Holds, RecentKey, LastsOf, InOrder;
    var t := Run(ops + [Publish(now)]);
    LastTable(ops, now);
    PublishedAre(t, |t|);
    TableOf(ops, t, now, p);
  }

  // ----- all recent discriminants

  /** Every recent latest verdict of the pair lost. */
  ghost predicate AllRecentLost(ops: seq<Op>, now: nat, p: Pair) {
    forall k | RecentKey(ops, now, p, k) :: VerdictOf(ops, k).loser
  }

  /** Every recent passing verdict of the pair was stored and not pushed out. */
  ghost predicate PassesKept(ops: seq<Op>, now: nat, p: Pair) {
    forall k | RecentKey(ops, now, p, k) && !VerdictOf(ops, k).loser :: IsKept(ops, k)
  }

  /** A pair with a recent losing verdict in the table has a passing one there too, if it has any. */
  ghost predicate PassRemembered(ops: seq<Op>, now: nat, p: Pair) {
    (exists k :: RecentKey(ops, now, p, k) && VerdictOf(ops, k).loser && IsKept(ops, k)) &&
    (exists k :: RecentKey(ops, now, p, k) && !VerdictOf(ops, k).loser) ==>
      exists k :: RecentKey(ops, now, p, k) && !VerdictOf(ops, k).loser && IsKept(ops, k)
  }

  /** Of one pair: it is published only when all its recent discriminants lose, exactly
      when a passing verdict of it is remembered. */
  lemma {:induction false} PairLosesIff(ops: seq<Op>, now: nat, p: Pair)
    requires InOrder(ops + [Publish(now)])
    ensures (p in PublishedAt(ops, now) ==> AllRecentLost(ops, now, p)) <==> PassRemembered(ops, now, p)
    ensures p in PublishedAt(ops, now) ==> (AllRecentLost(ops, now, p) <==> PassesKept(ops, now, p))
  {
    hide PublishedAt, InOrder, RecentKey;
    PublishedIff(ops, now, p);
  }

  /** A pair is published only when all its recent discriminants lose, exactly where every
      recent passing verdict of a published pair was kept; and in terms of the verdicts alone. */
  lemma {:induction false} AllLoseIff(ops: seq<Op>, now: nat)
    requires InOrder(ops + [Publish(now)])
    ensures (forall p | p in PublishedAt(ops, now) :: AllRecentLost(ops, now, p)) <==>
            (forall p | p in PublishedAt(ops, now) :: PassesKept(ops, now, p))
    ensures (forall p | p in PublishedAt(ops, now) :: AllRecentLost(ops, now, p)) <==>
            (forall p :: PassRemembered(ops, now, p))
  {
    hide PublishedAt, InOrder, AllRecentLost, PassesKept, PassRemembered;
    forall p: Pair
      ensures (p in PublishedAt(ops, now) ==> AllRecentLost(ops, now, p)) <==> PassRemembered(ops, now, p)
      ensures p in PublishedAt(ops, now) ==> (AllRecentLost(ops, now, p) <==> PassesKept(ops, now, p))
    {
      PairLosesIff(ops, now, p);
    }
  }

  /** A pair with a recent discriminant that passed is published all the same, exactly when
      a recent losing verdict of it is kept and none of the passing ones. */
  lemma {:induction false} PublishedThoughPassed(ops: seq<Op>, now: nat, p: Pair)
    requires InOrder(ops + [Publish(now)]) && !AllRecentLost(ops, now, p)
    ensures p in PublishedAt(ops, now) <==>
            && (exists k :: RecentKey(ops, now, p, k) && VerdictOf(ops, k).loser && IsKept(ops, k))
            && (forall k | RecentKey(ops, now, p, k) && !VerdictOf(ops, k).loser :: !IsKept(ops, k))
  {
    hide PublishedAt, InOrder, RecentKey;
    PublishedIff(ops, now, p);
  }

  lemma {:induction false} LosersStored(ops: seq<Op>, k: Key)
    requires k in LastsOf(ops) && VerdictOf(ops, k).loser
    ensures !LastsOf(ops)[k].fate.Forgotten?
  {
    hide Evicts, Has, Run;
    if ops[|ops| - 1].Publish? || KeyOf(ops[|ops| - 1].v) != k {
      LosersStored(ops[..|ops| - 1], k);
    }
  }

  /** A pair whose recent latest verdicts all lost is published exactly when one of them was
      not pushed out. */
  lemma {:induction false} LosersPublishedIff(ops: seq<Op>, now: nat, p: Pair)
    requires InOrder(ops + [Publish(now)]) && AllRecentLost(ops, now, p)
    ensures p in PublishedAt(ops, now) <==>
            exists k :: RecentKey(ops, now, p, k) && !LastsOf(ops)[k].fate.PushedOut?
  {
    hide PublishedAt, InOrder, LastsOf;
    PublishedIff(ops, now, p);
    forall k | RecentKey(ops, now, p, k) ensures !LastsOf(ops)[k].fate.Forgotten? {
      LosersStored(ops, k);
    }
  }

  // ----- the latest verdict of a pair

  /** Of a pair's verdicts the last one judged is the newest, and the latest of its discriminant. */
  lemma {:induction false} LatestIsNewest(ops: seq<Op>, p: Pair)
    requires InOrder(ops)
    ensures var l, m := Latest(Verdicts(ops), p), LastsOf(ops);
            && (l.None? ==> forall k | k in m :: k.pair != p)
            && (l.Some? ==> KeyOf(l.value) in m && m[KeyOf(l.value)].v == l.value
                            && forall k | k in m && k.pair == p :: m[k].v.time <= l.value.time)
  {
    hide Latest, Evicts, Stores, Run, Holds;
    if ops == [] {
      assert Latest([], p) == None by { NoLatest(p); }
    } else {
      var before, op := ops[..|ops| - 1], ops[|ops| - 1];
      assert ops == before + [op];
      SnocOrdered(before, op);
      LatestIsNewest(before, p);
      if op.Judge? {
        LatestSnoc(Verdicts(before), op.v, p);
        RunHolds(before);
        NotAfter(Run(before), LastsOf(before), Clock(before));
      }
    }
  }

  lemma NoLatest(p: Pair)
    ensures Latest([], p) == None
  {
  }

  lemma NotAfter(t: seq<Verdict>, m: Lasts, clock: nat)
    requires Holds(t, m, clock)
    ensures forall k | k in m :: m[k].v.time <= clock
  {
  }

  /** The fate of the latest verdict on the pair; it counts as kept when there is none. */
  function LatestFate(ops: seq<Op>, p: Pair): Fate {
    var l := Latest(Verdicts(ops), p);
    if l.Some? && KeyOf(l.value) in LastsOf(ops) then LastsOf(ops)[KeyOf(l.value)].fate else Kept
  }

  predicate LatestPasses(ops: seq<Op>, p: Pair) {
    var l := Latest(Verdicts(ops), p);
    l.Some? && !l.value.loser
  }

  /** Of a pair whose latest verdict was forgotten there are no rows, and of one whose
      latest verdict was pushed out there are no older ones. */
  ghost predicate Behind(t: seq<Verdict>, l: Verdict, fate: Fate) {
    forall x | x in t && x.pair == l.pair :: !fate.Forgotten? && (fate.PushedOut? ==> l.time <= x.time)
  }

  lemma {:induction false} BehindOther(t: seq<Verdict>, m: Lasts, v: Verdict, l: Verdict)
    requires |t| <= DROP_MAX && Rows(t, m) && v.pair != l.pair && KeyOf(l) in m && Behind(t, l, m[KeyOf(l)].fate)
    requires m[KeyOf(l)].v == l
    ensures var m' := Judged(m, t, v);
            KeyOf(l) in m' && Behind(Updated(t, v), l, m'[KeyOf(l)].fate)
  {
    UpdatedMembers(t, v);
    hide Has, FindKey, Updated;
  }

  lemma {:induction false} BehindSame(t: seq<Verdict>, m: Lasts, v: Verdict)
    requires |t| <= DROP_MAX
    ensures Behind(Updated(t, v), v, Judged(m, t, v)[KeyOf(v)].fate)
  {
    hide FindKey, Evicts;
    forall x | x in t ensures Has(t, x.pair) { HasMember(t, x); }
    if !Stores(t, v) { UpdatedMembers(t, v); }
  }

  lemma {:induction false} LatestRows(ops: seq<Op>, p: Pair)
    requires InOrder(ops) && Latest(Verdicts(ops), p).Some?
    ensures Behind(Run(ops), Latest(Verdicts(ops), p).value, LatestFate(ops, p))
  {
    hide Latest, Behind, Judged, Updated, Pruned, Rows, InOrder;
    var before, op := ops[..|ops| - 1], ops[|ops| - 1];
    assert ops == before + [op];
    SnocOrdered(before, op);
    LatestIsNewest(ops, p);
    if op.Judge? {
      LatestSnoc(Verdicts(before), op.v, p);
      RunRows(before);
    }
    if op.Judge? && op.v.pair == p {
      BehindSame(Run(before), LastsOf(before), op.v);
    } else {
      LatestRows(before, p);
      LatestIsNewest(before, p);
      var l := Latest(Verdicts(before), p).value;
      if op.Judge? {
        BehindOther(Run(before), LastsOf(before), op.v, l);
      } else {
        BehindPruned(Run(before), l, LatestFate(before, p), op.now);
      }
    }
  }

  lemma {:induction false} BehindPruned(t: seq<Verdict>, l: Verdict, fate: Fate, now: nat)
    requires Behind(t, l, fate)
    ensures Behind(Pruned(t, now), l, fate)
  {
    hide Pruned;
  }

  /** A published pair lost its latest verdict, at most 8000 ms ago, exactly when that is not
      a passing one that was pushed out; and then a row of the pair has the very same time. */
  lemma {:induction false} LatestLostIff(ops: seq<Op>, now: nat, p: Pair)
    requires InOrder(ops + [Publish(now)]) && p in PublishedAt(ops, now)
    ensures var l := Latest(Verdicts(ops), p);
            && l.Some? && Recent(l.value, now)
            && (!l.value.loser <==> LatestPasses(ops, p) && LatestFate(ops, p).PushedOut?)
            && (!l.value.loser ==>
                  exists k :: RecentKey(ops, now, p, k) && VerdictOf(ops, k).time == l.value.time && VerdictOf(ops, k) != l.value)
  {
    hide Latest, InOrder, LastsOf, PublishedAt, Run, Behind, Verdicts, Holds, Rows;
    PublishedIff(ops, now, p);
    var k :| RecentKey(ops, now, p, k) && IsKept(ops, k);
    SnocOrdered(ops, Publish(now));
    LatestIsNewest(ops, p);
    RunHolds(ops);
    NotAfter(Run(ops), LastsOf(ops), Clock(ops));
    var l := Latest(Verdicts(ops), p).value;
    assert RecentKey(ops, now, p, KeyOf(l));
    LatestRows(ops, p);
    KeptRow(ops, now, p, k);
    BehindRow(Run(ops), l, LatestFate(ops, p), VerdictOf(ops, k));
  }

  lemma {:induction false} KeptRow(ops: seq<Op>, now: nat, p: Pair, k: Key)
    requires Holds(Run(ops), LastsOf(ops), Clock(ops)) && Clock(ops) <= now && RecentKey(ops, now, p, k) && IsKept(ops, k)
    ensures VerdictOf(ops, k) in Run(ops) && VerdictOf(ops, k).pair == p
  {
    hide Run, LastsOf;
  }

  lemma BehindRow(t: seq<Verdict>, l: Verdict, fate: Fate, x: Verdict)
    requires Behind(t, l, fate) && x in t && x.pair == l.pair
    ensures !fate.Forgotten? && (fate.PushedOut? ==> l.time <= x.time)
  {
  }

  /** A pair is published although its latest verdict passed, exactly when that verdict was
      pushed out and, of its recent verdicts that are kept, there are some and all of them lost. */
  lemma {:induction false} LatestPassedIff(ops: seq<Op>, now: nat, p: Pair)
    requires InOrder(ops + [Publish(now)]) && LatestPasses(ops, p)
    ensures p in PublishedAt(ops, now) <==>
            && LatestFate(ops, p).PushedOut?
            && (exists k :: RecentKey(ops, now, p, k) && IsKept(ops, k))
            && (forall k | RecentKey(ops, now, p, k) && IsKept(ops, k) :: VerdictOf(ops, k).loser)
  {
    hide Latest, InOrder, LastsOf, PublishedAt, Verdicts, RecentKey;
    PublishedIff(ops, now, p);
    if p in PublishedAt(ops, now) { LatestLostIff(ops, now, p); }
  }

  /** The pair's latest verdict is a recent passing one that was pushed out. */
  ghost predicate PassPushedOut(ops: seq<Op>, now: nat, p: Pair) {
    LatestPasses(ops, p) && Recent(Latest(Verdicts(ops), p).value, now) && LatestFate(ops, p).PushedOut?
  }

  /** Times of one pair differ, or else the clock does not go back and no pair's latest
      verdict is a recent passing one that was pushed out. */
  ghost predicate Trusted(ops: seq<Op>, now: nat) {
    Ordered(ops + [Publish(now)]) || (InOrder(ops + [Publish(now)]) && forall p :: !PassPushedOut(ops, now, p))
  }

  /** A published pair lost its latest verdict, at most 8000 ms ago, and is published once. */
  lemma {:induction false} PublishedLost(ops: seq<Op>, now: nat)
    requires Trusted(ops, now)
    ensures var out := PublishedAt(ops, now);
            && (forall p | p in out ::
                  var l := Latest(Verdicts(ops), p);
                  l.Some? && l.value.loser && l.value.time <= now && now - l.value.time <= DROP_TIMEOUT_MS)
            && (forall i, j | 0 <= i < j < |out| :: out[i] != out[j])
  {
    hide Latest, Run, Ordered, InOrder, Published, Verdicts, LatestFate, LastsOf;
    if Ordered(ops + [Publish(now)]) {
      PublishedLostApart(ops, now);
      assert PublishedAt(ops, now) == Published(Run(ops + [Publish(now)]), |Run(ops + [Publish(now)])|);
    } else {
      var t := Run(ops + [Publish(now)]);
      PublishedAre(t, |t|);
      assert PublishedAt(ops, now) == Published(t, |t|);
      forall p | p in PublishedAt(ops, now)
        ensures var l := Latest(Verdicts(ops), p);
                l.Some? && l.value.loser && l.value.time <= now && now - l.value.time <= DROP_TIMEOUT_MS
      {
        LatestLostIff(ops, now, p);
        assert !PassPushedOut(ops, now, p);
      }
    }
  }

  // ----- room enough

  /** The keys that had a verdict stored in the last 8000 ms. */
  function StoredKeys(ops: seq<Op>, now: nat): set<Key> {
    if ops == [] then {}
    else
      var before := ops[..|ops| - 1];
      match ops[|ops| - 1]
      case Judge(v) => StoredKeys(before, now) + if Stores(Run(before), v) && Recent(v, now) then {KeyOf(v)} else {}
      case Publish(_) => StoredKeys(before, now)
  }

  /** A row that is recent was stored recently. */
  lemma {:induction false} RowsAreStored(ops: seq<Op>, now: nat)
    ensures forall x | x in Run(ops) && Recent(x, now) :: KeyOf(x) in StoredKeys(ops, now)
  {
    hide Updated, Pruned, Has;
    if ops != [] {
      var before, op := ops[..|ops| - 1], ops[|ops| - 1];
      RowsAreStored(before, now);
      if op.Judge? {
        UpdatedMembers(Run(before), op.v);
        if op.v in Run(ops) { StoredRow(Run(before), op.v); }
      }
    }
  }

  lemma {:induction false} StoredRow(t: seq<Verdict>, v: Verdict)
    requires |t| <= DROP_MAX && v in Updated(t, v)
    ensures Stores(t, v)
  {
    if !Stores(t, v) && v in t {
      HasMember(t, v);
    }
  }

  lemma {:induction false} KeyCount(t: seq<Verdict>, m: Lasts, ks: set<Key>)
    requires Rows(t, m) && forall x | x in t :: KeyOf(x) in ks
    ensures |t| <= |ks|
  {
    var s := seq(|t|, i requires 0 <= i < |t| => KeyOf(t[i]));
    assert Distinct(s);
    DistinctSize(s);
    assert forall i | 0 <= i < |t| :: t[i] in t;
    SubsetSize(Members(s), ks);
  }

  /** A recent verdict is pushed out only by more keys than the table has room for. */
  lemma {:induction false} PushedByMany(ops: seq<Op>, v: Verdict, now: nat)
    requires InOrder(ops + [Judge(v)]) && v.time <= now && Evicts(Run(ops), v)
    requires Recent(Run(ops)[Oldest(Run(ops))], now)
    ensures |StoredKeys(ops + [Judge(v)], now)| > DROP_MAX
  {
    hide Holds, Has, FindKey, InOrder, Run, LastsOf;
    var t, m, all := Run(ops), LastsOf(ops), ops + [Judge(v)];
    assert all[..|ops|] == ops;
    var o := t[Oldest(t)];
    SnocOrdered(ops, Judge(v));
    RunRows(ops);
    RunHolds(ops);
    NotAfter(t, m, Clock(ops));
    forall x | x in t ensures Recent(x, now) {
      var i :| 0 <= i < |t| && t[i] == x;
      assert m[KeyOf(t[i])] == Last(t[i], Kept);
    }
    RowsAreStored(ops, now);
    KeyCount(t, m, StoredKeys(ops, now) - {KeyOf(v)});
  }

  /** The keys that had a verdict stored in the last 8000 ms fit the table. */
  ghost predicate Fits(ops: seq<Op>, now: nat) { |StoredKeys(ops, now)| <= DROP_MAX }

  lemma {:induction false} StoredGrow(ops: seq<Op>, op: Op, now: nat)
    ensures |StoredKeys(ops, now)| <= |StoredKeys(ops + [op], now)|
  {
    hide Stores, Run;
    assert (ops + [op])[..|ops|] == ops;
    SubsetSize(StoredKeys(ops, now), StoredKeys(ops + [op], now));
  }

  /** While they fit, no recent verdict is pushed out. */
  lemma {:induction false} RoomKeeps(ops: seq<Op>, now: nat)
    requires InOrder(ops) && Clock(ops) <= now && Fits(ops, now)
    ensures forall k | k in LastsOf(ops) && Recent(LastsOf(ops)[k].v, now) :: !LastsOf(ops)[k].fate.PushedOut?
  {
    hide StoredKeys, InOrder, Stores, Run, FindKey;
    if ops != [] {
      var before, op := ops[..|ops| - 1], ops[|ops| - 1];
      assert ops == before + [op];
      SnocOrdered(before, op);
      StoredGrow(before, op, now);
      RoomKeeps(before, now);
      if op.Judge? && Evicts(Run(before), op.v) {
        RunRows(before);
        RowOf(Run(before), LastsOf(before), Oldest(Run(before)));
        if Recent(Run(before)[Oldest(Run(before))], now) {
          PushedByMany(before, op.v, now);
          assert false;
        }
      }
    }
  }

  /** While they fit: a pair with recent verdicts that all lost is published. */
  lemma {:induction false} LosersPublished(ops: seq<Op>, now: nat, p: Pair)
    requires InOrder(ops + [Publish(now)]) && Fits(ops, now)
    requires AllRecentLost(ops, now, p) && exists k :: RecentKey(ops, now, p, k)
    ensures p in PublishedAt(ops, now)
  {
    hide InOrder, Fits, PublishedAt, LastsOf;
    SnocOrdered(ops, Publish(now));
    RoomKeeps(ops, now);
    LosersPublishedIff(ops, now, p);
  }

  /** While they fit, what is published can be trusted, whatever times are equal. */
  lemma {:induction false} FitsTrusted(ops: seq<Op>, now: nat)
    requires InOrder(ops + [Publish(now)]) && Fits(ops, now)
    ensures Trusted(ops, now)
  {
    hide Ordered, Fits, LastsOf, Latest, Verdicts;
    SnocOrdered(ops, Publish(now));
    RoomKeeps(ops, now);
    hide InOrder;
    forall p ensures !PassPushedOut(ops, now, p) {
      LatestIsNewest(ops, p);
    }
  }

  // ----- full tables

  function Filler(i: nat, time: nat): Verdict { Verdict(Pair(i, 0), "", true, time) }

  function When(time: nat, ticking: bool, i: nat): nat { if ticking then time + i else time }

  function Fillers(time: nat, ticking: bool, n: nat): (t: seq<Verdict>)
    ensures |t| == n && forall i | 0 <= i < n :: t[i] == Filler(i, When(time, ticking, i))
  {
    seq(n, i requires 0 <= i < n => Filler(i, When(time, ticking, i)))
  }

  /** After some verdicts, n losing ones on as many other pairs: one in every millisecond, or all at once. */
  function Crowded(start: seq<Op>, time: nat, ticking: bool, n: nat): (ops: seq<Op>)
    ensures |ops| == |start| + n && ops[..|start|] == start
    ensures forall i | 0 <= i < n :: ops[|start| + i] == Judge(Filler(i, When(time, ticking, i)))
  {
    start + seq(n, i requires 0 <= i < n => Judge(Filler(i, When(time, ticking, i))))
  }

  lemma {:induction false} OneMore(start: seq<Op>, time: nat, ticking: bool, n: nat)
    ensures var v := Filler(n, When(time, ticking, n));
            && Crowded(start, time, ticking, n + 1) == Crowded(start, time, ticking, n) + [Judge(v)]
            && Fillers(time, ticking, n + 1) == Fillers(time, ticking, n) + [v]
  {
  }

  lemma {:induction false} CrowdedInOrder(start: seq<Op>, time: nat, ticking: bool, n: nat, now: nat)
    requires InOrder(start) && (forall i | 0 <= i < |start| :: TimeOf(start[i]) <= time) && When(time, ticking, n) <= now
    ensures InOrder(Crowded(start, time, ticking, n) + [Publish(now)])
  {
    var ops := Crowded(start, time, ticking, n) + [Publish(now)];
    forall i, j | 0 <= i < j < |ops| ensures TimeOf(ops[i]) <= TimeOf(ops[j]) {
      assert i < |start| ==> ops[i] == start[i];
      assert j < |start| ==> ops[j] == start[j];
      assert |start| <= i < |ops| - 1 ==> ops[i] == Judge(Filler(i - |start|, When(time, ticking, i - |start|)));
      assert |start| <= j < |ops| - 1 ==> ops[j] == Judge(Filler(j - |start|, When(time, ticking, j - |start|)));
    }
  }

  lemma {:induction false} JudgedMore(ops: seq<Op>, v: Verdict)
    ensures Run(ops + [Judge(v)]) == Updated(Run(ops), v) && Verdicts(ops + [Judge(v)]) == Verdicts(ops) + [v]
    ensures LastsOf(ops + [Judge(v)]) == Judged(LastsOf(ops), Run(ops), v)
  {
    hide Updated, Judged;
    assert (ops + [Judge(v)])[..|ops|] == ops;
  }

  /** A losing verdict on a new pair goes to the end of the table, or in place of the oldest
      row of a full one. */
  lemma {:induction false} NewLoser(t: seq<Verdict>, v: Verdict)
    requires |t| <= DROP_MAX && v.loser && forall i | 0 <= i < |t| :: t[i].pair != v.pair
    ensures |t| < DROP_MAX ==> Updated(t, v) == t + [v] && !Evicts(t, v)
    ensures |t| == DROP_MAX ==> Updated(t, v) == t[Oldest(t) := v] && Evicts(t, v)
  {
    assert FindKey(t, v, 0) == |t|;
  }

  /** While there is room nothing changes but that the fillers are appended. */
  lemma {:induction false} CrowdedRun(start: seq<Op>, time: nat, ticking: bool, n: nat, p: Pair)
    requires p.src != 0 && |Run(start)| + n <= DROP_MAX
    requires forall i | 0 <= i < |Run(start)| :: Run(start)[i].pair == p
    ensures var ops := Crowded(start, time, ticking, n);
            && Run(ops) == Run(start) + Fillers(time, ticking, n)
            && Latest(Verdicts(ops), p) == Latest(Verdicts(start), p)
            && forall k: Key | k.pair == p :: (k in LastsOf(ops) <==> k in LastsOf(start)) && (k in LastsOf(ops) ==> LastsOf(ops)[k] == LastsOf(start)[k])
  {
    hide Run, Verdicts, Updated, Latest, LastsOf, Evicts, Stores;
    if n == 0 {
      assert Crowded(start, time, ticking, 0) == start && Fillers(time, ticking, 0) == [];
      assert Run(start) + [] == Run(start);
    } else {
      CrowdedRun(start, time, ticking, n - 1, p);
      OneMore(start, time, ticking, n - 1);
      var ops, v := Crowded(start, time, ticking, n - 1), Filler(n - 1, When(time, ticking, n - 1));
      JudgedMore(ops, v);
      NewLoser(Run(ops), v);
      LatestSnoc(Verdicts(ops), v, p);
      assert Run(start) + Fillers(time, ticking, n - 1) + [v] == Run(start) + Fillers(time, ticking, n);
    }
  }

  /** In a table full of rows that start with these, none newer than the others, the first
      oldest of these is the oldest. */
  lemma {:induction false} OldestOf(rows: seq<Verdict>, time: nat, ticking: bool, n: nat, o: nat)
    requires o < |rows| && forall i | 0 <= i < |rows| :: rows[o].time <= rows[i].time <= time
    requires forall i | 0 <= i < o :: rows[o].time < rows[i].time
    ensures Oldest(rows + Fillers(time, ticking, n)) == o
  {
    var t := rows + Fillers(time, ticking, n);
    forall j | 0 <= j < |t| ensures rows[o].time <= t[j].time {
      if j >= |rows| { assert t[j] == Filler(j - |rows|, When(time, ticking, j - |rows|)); }
    }
    OldestIs(t, o);
  }

  /** The filler that finds the table full pushes out the oldest row. */
  lemma {:induction false} CrowdedOut(start: seq<Op>, time: nat, ticking: bool, n: nat, p: Pair, o: nat)
    requires p.src != 0 && |Run(start)| + n == DROP_MAX
    requires forall i | 0 <= i < |Run(start)| :: Run(start)[i].pair == p
    requires o < |Run(start)| && forall i | 0 <= i < |Run(start)| :: Run(start)[o].time <= Run(start)[i].time <= time
    requires forall i | 0 <= i < o :: Run(start)[o].time < Run(start)[i].time
    ensures var ops, x, m := Crowded(start, time, ticking, n + 1), Run(start)[o], LastsOf(start);
            && Run(ops) == (Run(start) + Fillers(time, ticking, n))[o := Filler(n, When(time, ticking, n))]
            && Latest(Verdicts(ops), p) == Latest(Verdicts(start), p)
            && KeyOf(x) in LastsOf(ops) && LastsOf(ops)[KeyOf(x)] == Last(x, PushedOut)
            && forall k: Key | k.pair == p && k != KeyOf(x) ::
                 (k in LastsOf(ops) <==> k in m) && (k in LastsOf(ops) ==> LastsOf(ops)[k] == m[k])
  {
    hide Run, Verdicts, Updated, Latest, LastsOf, Evicts, Stores, Fillers;
    CrowdedRun(start, time, ticking, n, p);
    OneMore(start, time, ticking, n);
    var ops, v := Crowded(start, time, ticking, n), Filler(n, When(time, ticking, n));
    var t := Run(ops);
    JudgedMore(ops, v);
    NewLoser(t, v);
    LatestSnoc(Verdicts(ops), v, p);
    OldestOf(Run(start), time, ticking, n, o);
    RunRows(ops);
    RowOf(t, LastsOf(ops), o);
  }

  lemma {:induction false} RowOf(t: seq<Verdict>, m: Lasts, o: nat)
    requires Rows(t, m) && o < |t|
    ensures KeyOf(t[o]) in m && m[KeyOf(t[o])] == Last(t[o], Kept)
  {
  }

  /** What is published right after the run, from the table. */
  lemma {:induction false} PublishedHere(ops: seq<Op>, now: nat, p: Pair)
    ensures p in PublishedAt(ops, now) <==>
            && (exists x :: x in Run(ops) && x.pair == p && Recent(x, now))
            && (forall x | x in Run(ops) && x.pair == p && Recent(x, now) :: x.loser)
  {
    hide Pruned, Published;
    var all := ops + [Publish(now)];
    assert all[..|all| - 1] == ops;
    var u := Pruned(Run(ops), now);
    assert Run(all) == u && u[..|u|] == u;
    PublishedAre(u, |u|);
    forall x | x in Run(ops) && x.pair == p && Recent(x, now) ensures Has(u, p) {
      HasMember(u, x);
    }
    forall i | 0 <= i < |u| ensures u[i] in Run(ops) && Recent(u[i], now) {
      assert u[i] in u;
    }
    forall x | x in Run(ops) && x.pair == p && Recent(x, now) ensures exists i :: 0 <= i < |u| && u[i] == x {
      assert x in u;
    }
  }

  const WIND := Pair(130306, 3)

  function Wind(disc: string, loser: bool, time: nat): Op { Judge(Verdict(WIND, disc, loser, time)) }

  /** B passes while A has an entry, and A loses again. */
  function Mixed(): seq<Op> { [Wind("A", true, 0), Wind("B", false, 1), Wind("A", true, 2)] }

  /** Both lose, and A passes in the same millisecond as B. */
  function Tied(): seq<Op> { [Wind("A", true, 0), Wind("B", true, 1), Wind("A", false, 1)] }

  lemma {:induction false} ThreeVerdicts(a: Verdict, b: Verdict, c: Verdict)
    requires a.loser && SameKey(a, c) && a.pair == b.pair && a.disc != b.disc
    ensures var ops := [Judge(a), Judge(b), Judge(c)];
            && Run(ops) == [c, b] && Latest(Verdicts(ops), a.pair) == Some(c)
            && LastsOf(ops) == map[KeyOf(c) := Last(c, Kept), KeyOf(b) := Last(b, Kept)]
  {
    hide Latest, Evicts, Stores, Updated, Run, LastsOf, Verdicts;
    var one := [Judge(a)];
    var two := one + [Judge(b)];
    OneVerdict(a);
    JudgedMore(one, b);
    SecondRow(a, b);
    assert Run(two) == [a, b] && LastsOf(two) == map[KeyOf(a) := Last(a, Kept), KeyOf(b) := Last(b, Kept)];
    JudgedMore(two, c);
    FirstRowAgain(a, b, c);
    LatestSnoc(Verdicts(two), c, a.pair);
    assert [Judge(a), Judge(b), Judge(c)] == two + [Judge(c)];
  }

  lemma {:induction false} SecondRow(a: Verdict, b: Verdict)
    requires a.pair == b.pair && a.disc != b.disc
    ensures Updated([a], b) == [a, b] && Stores([a], b) && !Evicts([a], b)
  {
    hide Has;
    HasMember([a], a);
    assert FindKey([a], b, 0) == 1;
    ShortTable([a], b);
  }

  lemma {:induction false} FirstRowAgain(a: Verdict, b: Verdict, c: Verdict)
    requires SameKey(a, c) && a.pair == b.pair
    ensures Updated([a, b], c) == [c, b] && Stores([a, b], c) && !Evicts([a, b], c)
  {
    hide Has;
    HasMember([a, b], a);
    assert FindKey([a, b], c, 0) == 0;
    ShortTable([a, b], c);
  }

  lemma ShortTable(t: seq<Verdict>, v: Verdict)
    requires |t| < DROP_MAX
    ensures !Evicts(t, v)
  {
  }

  /** With a strictly increasing clock, an eviction can push out a passing verdict that was
      stored: the pair is published although a recent discriminant of it passed. */
  lemma {:induction false} EvictionLosesPass()
    ensures var ops := Crowded(Mixed(), 3, true, 255);
            var b := Key(WIND, "B");
            && Ordered(ops + [Publish(258)]) && InOrder(ops + [Publish(258)])
            && WIND in PublishedAt(ops, 258) && !AllRecentLost(ops, 258, WIND)
            && RecentKey(ops, 258, WIND, b) && LastsOf(ops)[b] == Last(Verdict(WIND, "B", false, 1), PushedOut)
  {
    hide Run, Verdicts, Latest, LastsOf, Ordered, InOrder, PublishedAt;
    var a, c, b := Verdict(WIND, "A", true, 0), Verdict(WIND, "A", true, 2), Verdict(WIND, "B", false, 1);
    var ops := Crowded(Mixed(), 3, true, 255);
    ThreeVerdicts(a, b, c);
    CrowdedOut(Mixed(), 3, true, 254, WIND, 1);
    assert InOrder(ops + [Publish(258)]) by { StartsInOrder(); CrowdedInOrder(Mixed(), 3, true, 255, 258); }
    assert Ordered(ops + [Publish(258)]) by { MixedOrdered(); }
    assert Run(ops)[0] == c;
    PublishedHere(ops, 258, WIND);
    assert !VerdictOf(ops, KeyOf(b)).loser;
  }

  lemma StartsInOrder()
    ensures InOrder(Mixed()) && forall i | 0 <= i < 3 :: TimeOf(Mixed()[i]) <= 3
    ensures InOrder(Tied()) && forall i | 0 <= i < 3 :: TimeOf(Tied()[i]) <= 1
    ensures InOrder([Wind("A", true, 0)])
  {
  }

  lemma {:induction false} MixedOrdered()
    ensures Ordered(Crowded(Mixed(), 3, true, 255) + [Publish(258)])
  {
    var ops := Crowded(Mixed(), 3, true, 255) + [Publish(258)];
    forall i | 0 <= i < |ops|
      ensures ops[i] == if i < 3 then Mixed()[i] else if i < 258 then Judge(Filler(i - 3, i)) else Publish(258)
    {
      if 3 <= i < 258 { assert ops[3 + (i - 3)] == Judge(Filler(i - 3, When(3, true, i - 3))); }
      if i < 3 { assert ops[i] == ops[..3][i]; }
    }
  }

  /** With equal times and a full table a passing verdict can be the one pushed out: the pair
      is published although its latest verdict passed in that millisecond. */
  lemma {:induction false} TieLosesPass()
    ensures var ops := Crowded(Tied(), 1, false, 255);
            && InOrder(ops + [Publish(1)]) && WIND in PublishedAt(ops, 1)
            && Latest(Verdicts(ops), WIND) == Some(Verdict(WIND, "A", false, 1)) && PassPushedOut(ops, 1, WIND)
  {
    hide Run, Verdicts, Latest, LastsOf, InOrder, PublishedAt;
    var a, b, c := Verdict(WIND, "A", true, 0), Verdict(WIND, "B", true, 1), Verdict(WIND, "A", false, 1);
    var ops := Crowded(Tied(), 1, false, 255);
    ThreeVerdicts(a, b, c);
    CrowdedOut(Tied(), 1, false, 254, WIND, 0);
    assert InOrder(ops + [Publish(1)]) by { StartsInOrder(); CrowdedInOrder(Tied(), 1, false, 255, 1); }
    assert Run(ops)[1] == b;
    PublishedHere(ops, 1, WIND);
  }

  /** Enough other losers push a losing pair out: it is not published although all its recent
      discriminants lose. */
  lemma {:induction false} EvictionLosesLoser()
    ensures var ops := Crowded([Wind("A", true, 0)], 1, true, 256);
            && InOrder(ops + [Publish(257)]) && WIND !in PublishedAt(ops, 257)
            && AllRecentLost(ops, 257, WIND) && RecentKey(ops, 257, WIND, Key(WIND, "A"))
  {
    hide Run, Verdicts, Latest, LastsOf, InOrder, PublishedAt;
    var a := Verdict(WIND, "A", true, 0);
    var start := [Judge(a)];
    var ops := Crowded(start, 1, true, 256);
    assert Run(start) == [a] && LastsOf(start) == map[KeyOf(a) := Last(a, Kept)] by { OneVerdict(a); }
    CrowdedOut(start, 1, true, 255, WIND, 0);
    assert InOrder(ops + [Publish(257)]) by { StartsInOrder(); CrowdedInOrder(start, 1, true, 256, 257); }
    PublishedHere(ops, 257, WIND);
  }

  lemma {:induction false} OneVerdict(a: Verdict)
    requires a.loser
    ensures Run([Judge(a)]) == [a] && LastsOf([Judge(a)]) == map[KeyOf(a) := Last(a, Kept)]
  {
    hide Evicts, Updated, Run, LastsOf;
    var none: seq<Op> := [];
    assert none + [Judge(a)] == [Judge(a)];
    NothingYet();
    JudgedMore(none, a);
    NewLoser([], a);
  }

  lemma NothingYet()
    ensures Run([]) == [] && LastsOf([]) == map[]
  {
  }
}
