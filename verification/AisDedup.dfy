/** One source per ship: the table of the (MMSI, sender) pairs last heard, against an
    unbounded map of them: src/aisdedup.c. */
module AisDedup {
  import opened CText
  import opened RegistrySpec
  import opened ArbiterSpec
  import opened Sets

  const MAX_OBS := 2048
  const DEFAULT_AIS_TIMEOUT := 600000
  const INT_MAX := 0x7fff_ffff

  /** A row of the table. */
  datatype Obs = Obs(used: bool, mmsi: nat, src: int, t: nat)

  datatype Key = Key(mmsi: nat, src: int)

  function KeyOf(o: Obs): Key { Key(o.mmsi, o.src) }

  // ----- the order of sources

  /** rank_of: the place in the fusion rule, and unlisted senders after it, by address. */
  function Rank(cfg: Config, ds: seq<Device>, pgn: int, src: int): (r: int)
    requires RulesFit(cfg)
    ensures 0 <= r < INT_MAX
  {
    var ident := IdentAt(ds, src);
    var name := if ident.Some? then NameOf(cfg.sources, ident.value, 0) else None;
    var rule := RuleFor(cfg.rules, pgn, "");
    if name.Some? && rule.Some? && cfg.rules[rule.value].mode == Fusion
       && IndexOf(cfg.rules[rule.value].sources, name.value, 0) < |cfg.rules[rule.value].sources| then
      IndexOf(cfg.rules[rule.value].sources, name.value, 0)
    else 1000 + src % 256
  }

  ghost predicate RulesFit(cfg: Config) {
    |cfg.rules| <= MAX_RULES && forall i | 0 <= i < |cfg.rules| :: |cfg.rules[i].sources| <= MAX_PRIO
  }

  /** A message of a ship's position or static data: who sent it, and what ranks the senders then. */
  datatype Report = Report(pgn: int, mmsi: nat, src: int, now: nat, ds: seq<Device>)

  /** Sender a comes before sender b, for this message. */
  predicate Before(cfg: Config, e: Report, a: int, b: int)
    requires RulesFit(cfg)
  {
    var ra, rb := Rank(cfg, e.ds, e.pgn, a), Rank(cfg, e.ds, e.pgn, b);
    ra < rb || (ra == rb && a < b)
  }

  predicate Fresh(t: nat, timeout: nat, now: nat) { t <= now && now - t <= timeout }

  // ----- the table as a sequence of its used rows

  function FindKey(s: seq<Obs>, k: Key, i: nat): (r: nat)
    requires i <= |s|
    ensures i <= r <= |s|
    ensures r < |s| ==> KeyOf(s[r]) == k
    ensures forall j | i <= j < r :: KeyOf(s[j]) != k
    decreases |s| - i
  {
    if i == |s| || KeyOf(s[i]) == k then i else FindKey(s, k, i + 1)
  }

  ghost predicate IsOldest(s: seq<Obs>, r: nat) {
    && r < |s| && (forall j | 0 <= j < |s| :: s[r].t <= s[j].t) && (forall j | 0 <= j < r :: s[r].t < s[j].t)
  }

  function Oldest(s: seq<Obs>): (r: nat)
    requires s != []
    ensures IsOldest(s, r)
  {
    if |s| == 1 then 0
    else
      var r := Oldest(s[..|s| - 1]);
      if s[|s| - 1].t < s[r].t then |s| - 1 else r
  }

  /** The row that a pair is written to: its own, else a free one, else the oldest. */
  function RowFor(s: seq<Obs>, k: Key): (r: nat)
    requires |s| <= MAX_OBS
    ensures r <= |s| && r < MAX_OBS
  {
    var i := FindKey(s, k, 0);
    if i < |s| then i else if |s| < MAX_OBS then |s| else Oldest(s)
  }

  function Recorded(s: seq<Obs>, k: Key, now: nat): (r: seq<Obs>)
    requires |s| <= MAX_OBS
    ensures |s| <= |r| <= MAX_OBS
  {
    var o := Obs(true, k.mmsi, k.src, now);
    var i := RowFor(s, k);
    if i < |s| then s[i := o] else s + [o]
  }

  /** No fresh row of the ship has a sender that comes before this one. */
  ghost predicate Retained(cfg: Config, s: seq<Obs>, e: Report, timeout: nat)
    requires RulesFit(cfg)
  {
    forall i | 0 <= i < |s| && s[i].mmsi == e.mmsi && Fresh(s[i].t, timeout, e.now) :: !Before(cfg, e, s[i].src, e.src)
  }

  // ----- the unbounded map it stands for

  type Seen = map<Key, nat>

  function Run(es: seq<Report>): (s: seq<Obs>)
    ensures |s| <= MAX_OBS
  {
    if es == [] then [] else Recorded(Run(es[..|es| - 1]), Key(es[|es| - 1].mmsi, es[|es| - 1].src), es[|es| - 1].now)
  }

  /** When each pair was last heard. */
  function LastSeen(es: seq<Report>): Seen {
    if es == [] then map[] else LastSeen(es[..|es| - 1])[Key(es[|es| - 1].mmsi, es[|es| - 1].src) := es[|es| - 1].now]
  }

  ghost predicate InOrder(es: seq<Report>) {
    forall i, j | 0 <= i < j < |es| :: es[i].now <= es[j].now
  }

  ghost predicate HasRow(s: seq<Obs>, k: Key) { exists i | 0 <= i < |s| :: KeyOf(s[i]) == k }

  /** The table is a part of the map, and what it lacks is no newer than all it holds. */
  ghost predicate Represents(s: seq<Obs>, m: Seen) {
    && |s| <= MAX_OBS
    && (forall i, j | 0 <= i < j < |s| :: KeyOf(s[i]) != KeyOf(s[j]))
    && (forall i | 0 <= i < |s| :: KeyOf(s[i]) in m && m[KeyOf(s[i])] == s[i].t)
    && (forall k | k in m && !HasRow(s, k) :: |s| == MAX_OBS && forall i | 0 <= i < |s| :: m[k] <= s[i].t)
  }

  lemma {:induction false} RecordedRepresents(s: seq<Obs>, m: Seen, k: Key, now: nat)
    requires Represents(s, m) && forall q | q in m :: m[q] <= now
    ensures Represents(Recorded(s, k, now), m[k := now])
  {
    hide RowFor, HasRow;
    var r := Recorded(s, k, now);
    var i := RowFor(s, k);
    RowForIs(s, k);
    assert KeyOf(r[i]) == k;
    assert forall j | 0 <= j < |r| && j != i :: r[j] == s[j];
    assert HasRow(r, k) by { RowHere(r, i); }
    forall q | q in m[k := now] && !HasRow(r, q)
      ensures |r| == MAX_OBS && forall j | 0 <= j < |r| :: m[k := now][q] <= r[j].t
    {
      StillThere(s, r, i, q);
    }
  }

  lemma {:induction false} RowForIs(s: seq<Obs>, k: Key)
    requires |s| <= MAX_OBS
    ensures var i := RowFor(s, k);
            || (i < |s| && KeyOf(s[i]) == k)
            || ((forall j | 0 <= j < |s| :: KeyOf(s[j]) != k) && if |s| < MAX_OBS then i == |s| else i < |s| && IsOldest(s, i))
  {
    hide Oldest, IsOldest;
  }

  lemma RowHere(s: seq<Obs>, i: nat)
    requires i < |s|
    ensures HasRow(s, KeyOf(s[i]))
  {
  }

  /** A pair that has no row after row i was written had none before, unless it had that row. */
  lemma {:induction false} StillThere(s: seq<Obs>, r: seq<Obs>, i: nat, q: Key)
    requires |s| <= |r| && forall j | 0 <= j < |s| && j != i :: r[j] == s[j]
    requires !HasRow(r, q)
    ensures HasRow(s, q) ==> i < |s| && KeyOf(s[i]) == q
  {
    if HasRow(s, q) {
      var j :| 0 <= j < |s| && KeyOf(s[j]) == q;
      assert KeyOf(r[j]) == KeyOf(s[j]) || j == i;
    }
  }

  lemma {:induction false} SeenTimes(es: seq<Report>)
    requires InOrder(es)
    ensures forall k | k in LastSeen(es) :: es != [] && LastSeen(es)[k] <= es[|es| - 1].now
  {
    if es != [] {
      var before := es[..|es| - 1];
      SeenTimes(before);
      assert forall i | 0 <= i < |before| :: before[i].now <= es[|es| - 1].now;
    }
  }

  /** Over any run the bounded table represents the unbounded map. */
  lemma {:induction false} RunRepresents(es: seq<Report>)
    requires InOrder(es)
    ensures Represents(Run(es), LastSeen(es))
  {
    hide Recorded, InOrder, Represents;
    if es == [] {
      assert Represents([], map[]) by { EmptyRepresents(); }
    } else {
      var before, e := es[..|es| - 1], es[|es| - 1];
      assert InOrder(before) && forall k | k in LastSeen(before) :: LastSeen(before)[k] <= e.now by { Prefixed(es); }
      RunRepresents(before);
      RecordedRepresents(Run(before), LastSeen(before), Key(e.mmsi, e.src), e.now);
    }
  }

  lemma EmptyRepresents()
    ensures Represents([], map[])
  {
  }

  lemma {:induction false} Prefixed(es: seq<Report>)
    requires es != [] && InOrder(es)
    ensures var m := LastSeen(es[..|es| - 1]);
            InOrder(es[..|es| - 1]) && forall k | k in m :: m[k] <= es[|es| - 1].now
  {
    var before := es[..|es| - 1];
    SeenTimes(before);
    if before != [] {
      assert before[|before| - 1].now <= es[|es| - 1].now;
    }
  }

  // ----- the decision against the map

  /** The pairs heard within the timeout. */
  function FreshKeys(m: Seen, timeout: nat, now: nat): set<Key> {
    set k | k in m && Fresh(m[k], timeout, now)
  }

  function KeysOf(s: seq<Obs>): (ks: set<Key>)
    ensures forall k :: k in ks <==> HasRow(s, k)
  {
    set i | 0 <= i < |s| :: KeyOf(s[i])
  }

  lemma {:induction false} DistinctKeys(s: seq<Obs>)
    requires forall i, j | 0 <= i < j < |s| :: KeyOf(s[i]) != KeyOf(s[j])
    ensures |KeysOf(s)| == |s|
  {
    hide KeyOf, HasRow;
    if s != [] {
      var t, k := s[..|s| - 1], KeyOf(s[|s| - 1]);
      DistinctKeys(t);
      assert KeysOf(s) == KeysOf(t) + {k} && k !in KeysOf(t) by { LastKey(s); }
    }
  }

  lemma {:induction false} LastKey(s: seq<Obs>)
    requires s != [] && forall i, j | 0 <= i < j < |s| :: KeyOf(s[i]) != KeyOf(s[j])
    ensures KeysOf(s) == KeysOf(s[..|s| - 1]) + {KeyOf(s[|s| - 1])}
    ensures KeyOf(s[|s| - 1]) !in KeysOf(s[..|s| - 1])
  {
    hide KeyOf;
    var t, k := s[..|s| - 1], KeyOf(s[|s| - 1]);
    forall q ensures q in KeysOf(s) <==> q in KeysOf(t) || q == k {
      if HasRow(s, q) && q != k {
        var i :| 0 <= i < |s| && KeyOf(s[i]) == q;
        assert KeyOf(t[i]) == q;
      }
      if HasRow(t, q) {
        var i :| 0 <= i < |t| && KeyOf(t[i]) == q;
        assert KeyOf(s[i]) == q;
      }
      RowHere(s, |s| - 1);
    }
  }

  /** While the pairs heard within the timeout fit the table, it holds all of them. */
  lemma {:induction false} FreshHaveRows(s: seq<Obs>, m: Seen, timeout: nat, now: nat, k: Key)
    requires Represents(s, m) && (forall q | q in m :: m[q] <= now)
    requires |FreshKeys(m, timeout, now)| <= MAX_OBS && k in FreshKeys(m, timeout, now)
    ensures HasRow(s, k)
  {
    if !HasRow(s, k) {
      DistinctKeys(s);
      forall q | q in KeysOf(s) ensures q in FreshKeys(m, timeout, now) {
        var i :| 0 <= i < |s| && KeyOf(s[i]) == q;
        assert m[k] <= s[i].t;
      }
      SmallerSize(KeysOf(s), FreshKeys(m, timeout, now), k);
    }
  }

  /** No sender heard within the timeout comes before the one of the last message. */
  ghost predicate First(cfg: Config, m: Seen, e: Report, timeout: nat)
    requires RulesFit(cfg)
  {
    forall src | Key(e.mmsi, src) in m && Fresh(m[Key(e.mmsi, src)], timeout, e.now) :: !Before(cfg, e, src, e.src)
  }

  /** The decision on the last message of a run. */
  ghost predicate Accepted(cfg: Config, es: seq<Report>, timeout: nat)
    requires RulesFit(cfg) && es != []
  {
    Retained(cfg, Run(es), es[|es| - 1], timeout)
  }

  /** A message is never dropped without a fresh sender that comes before its own,
      however full the table was. */
  lemma {:induction false} DropHasReason(cfg: Config, es: seq<Report>, timeout: nat)
    requires RulesFit(cfg) && es != [] && InOrder(es)
    ensures First(cfg, LastSeen(es), es[|es| - 1], timeout) ==> Accepted(cfg, es, timeout)
  {
    hide Run, LastSeen, Before, InOrder;
    RunRepresents(es);
  }

  /** While no more than 2048 pairs were heard within the timeout, the decision is that of
      the unbounded map: the message is accepted exactly when its sender is the first
      in (rank, address) among those heard within the timeout. */
  lemma {:induction false} AcceptedIff(cfg: Config, es: seq<Report>, timeout: nat)
    requires RulesFit(cfg) && es != [] && InOrder(es)
    requires |FreshKeys(LastSeen(es), timeout, es[|es| - 1].now)| <= MAX_OBS
    ensures Accepted(cfg, es, timeout) <==> First(cfg, LastSeen(es), es[|es| - 1], timeout)
  {
    hide Run, LastSeen, Before, InOrder, FreshKeys, Represents;
    var s, m, e := Run(es), LastSeen(es), es[|es| - 1];
    RunRepresents(es);
    SeenTimes(es);
    DropHasReason(cfg, es, timeout);
    if Accepted(cfg, es, timeout) {
      forall src | Key(e.mmsi, src) in m && Fresh(m[Key(e.mmsi, src)], timeout, e.now)
        ensures !Before(cfg, e, src, e.src)
      {
        var k := Key(e.mmsi, src);
        assert k in FreshKeys(m, timeout, e.now) by { IsFreshKey(m, timeout, e.now, k); }
        FreshHaveRows(s, m, timeout, e.now, k);
        var i :| 0 <= i < |s| && KeyOf(s[i]) == k;
        RowTime(s, m, i);
      }
    }
  }

  lemma IsFreshKey(m: Seen, timeout: nat, now: nat, k: Key)
    requires k in m && Fresh(m[k], timeout, now)
    ensures k in FreshKeys(m, timeout, now)
  {
  }

  lemma RowTime(s: seq<Obs>, m: Seen, i: nat)
    requires Represents(s, m) && i < |s|
    ensures KeyOf(s[i]) in m && m[KeyOf(s[i])] == s[i].t
  {
  }

  lemma {:induction false} HeardIsSeen(es: seq<Report>, k: nat)
    requires k < |es| && InOrder(es)
    ensures Key(es[k].mmsi, es[k].src) in LastSeen(es) && LastSeen(es)[Key(es[k].mmsi, es[k].src)] >= es[k].now
  {
    hide InOrder;
    assert InOrder(es[..|es| - 1]) && es[k].now <= es[|es| - 1].now by { Earlier(es, k); }
    if k < |es| - 1 {
      HeardIsSeen(es[..|es| - 1], k);
    }
  }

  lemma Earlier(es: seq<Report>, k: nat)
    requires k < |es| && InOrder(es)
    ensures InOrder(es[..|es| - 1]) && es[k].now <= es[|es| - 1].now
  {
  }

  /** A sender takes over a ship from one that comes before it only after the timeout. */
  lemma {:induction false} TakeoverWaits(cfg: Config, es: seq<Report>, k: nat, timeout: nat)
    requires RulesFit(cfg) && InOrder(es) && k < |es| - 1 && es[k].mmsi == es[|es| - 1].mmsi
    requires |FreshKeys(LastSeen(es), timeout, es[|es| - 1].now)| <= MAX_OBS
    requires Before(cfg, es[|es| - 1], es[k].src, es[|es| - 1].src) && Accepted(cfg, es, timeout)
    ensures es[|es| - 1].now - es[k].now > timeout
  {
    hide LastSeen, Before, Accepted, FreshKeys, InOrder;
    AcceptedIff(cfg, es, timeout);
    HeardIsSeen(es, k);
    SeenTimes(es);
  }

  // ----- the table as it is updated in place

  class Table {
    const cfg: Config
    const obs: array<Obs>
    var timeout: nat
    ghost var n: nat

    ghost predicate Valid()
      reads this, obs
    {
      RulesFit(cfg) && obs.Length == MAX_OBS && n <= MAX_OBS && forall i | 0 <= i < MAX_OBS :: obs[i].used == (i < n)
    }

    ghost function Rows(): (s: seq<Obs>)
      requires Valid()
      reads this, obs
      ensures |s| <= MAX_OBS
    {
      obs[..n]
    }

    constructor (config: Config)
      requires RulesFit(config)
      ensures Valid() && fresh(obs) && Rows() == [] && cfg == config && timeout == DEFAULT_AIS_TIMEOUT
    {
      cfg := config;
      obs := new Obs[MAX_OBS](i => Obs(false, 0, 0, 0));
      timeout := DEFAULT_AIS_TIMEOUT;
      n := 0;
    }

    /** The first loop: the row of the pair, else the first free row, else the oldest. */
    method FindRow(k: Key) returns (row: nat)
      requires Valid()
      ensures row == RowFor(Rows(), k)
    {
      hide Oldest;
      ghost var s := Rows();
      var free: int, oldest: int := -1, -1;
      var i: nat := 0;
      while i < MAX_OBS
        invariant i <= MAX_OBS
        invariant forall j | 0 <= j < i && j < n :: KeyOf(s[j]) != k
        invariant free == if i <= n then -1 else n
        invariant if i == 0 || n == 0 then oldest == -1 else 0 <= oldest && IsOldest(s[..if i < n then i else n], oldest)
      {
        var o := obs[i];
        if o.used && o.mmsi == k.mmsi && o.src == k.src {
          return i;
        }
        if !o.used {
          if free == -1 {
            free := i;
          }
        } else if oldest == -1 || o.t < obs[oldest].t {
          oldest := i;
        }
        i := i + 1;
      }
      assert s[..n] == s;
      OnlyOldest(s, if oldest == -1 then 0 else oldest);
      return if free != -1 then free else oldest;
    }

    method Put(k: Key, row: nat, now: nat)
      requires Valid() && row == RowFor(Rows(), k)
      modifies this`n, obs
      ensures Valid() && Rows() == Recorded(old(Rows()), k, now)
    {
      hide RowFor, RulesFit;
      obs[row] := Obs(true, k.mmsi, k.src, now);
      if row == n {
        n := n + 1;
      }
    }

    /** The second loop: whether the first of the fresh senders is this one. */
    method IsFirst(e: Report) returns (b: bool)
      requires Valid() && Obs(true, e.mmsi, e.src, e.now) in Rows()
      ensures b == Retained(cfg, Rows(), e, timeout)
    {
      hide Rank, RulesFit;
      ghost var own: nat :| own < n && obs[own] == Obs(true, e.mmsi, e.src, e.now);
      var bestSrc, bestRank := e.src, INT_MAX;
      var i: nat := 0;
      while i < MAX_OBS
        invariant i <= MAX_OBS
        invariant bestRank == INT_MAX ==> bestSrc == e.src
        invariant bestRank == INT_MAX ==>
                    forall j | 0 <= j < i && j < n :: !(obs[j].mmsi == e.mmsi && Fresh(obs[j].t, timeout, e.now))
        invariant bestRank < INT_MAX ==>
                    bestRank == Rank(cfg, e.ds, e.pgn, bestSrc)
                    && exists j | 0 <= j < i && j < n :: obs[j].mmsi == e.mmsi && Fresh(obs[j].t, timeout, e.now) && obs[j].src == bestSrc
        invariant bestRank < INT_MAX ==>
                    forall j | 0 <= j < i && j < n && obs[j].mmsi == e.mmsi && Fresh(obs[j].t, timeout, e.now) ::
                      !Before(cfg, e, obs[j].src, bestSrc)
        invariant bestRank <= INT_MAX
      {
        var o := obs[i];
        if o.used && o.mmsi == e.mmsi && o.t <= e.now && e.now - o.t <= timeout {
          var r := Rank(cfg, e.ds, e.pgn, o.src);
          if r < bestRank || (r == bestRank && o.src < bestSrc) {
            bestRank, bestSrc := r, o.src;
          }
        }
        i := i + 1;
      }
      assert bestRank < INT_MAX by { assert Fresh(obs[own].t, timeout, e.now); }
      return e.src == bestSrc;
    }

    /** aisdedup_accept. */
    method Accept(e: Report) returns (b: bool)
      requires Valid()
      modifies this`n, obs
      ensures Valid() && Rows() == Recorded(old(Rows()), Key(e.mmsi, e.src), e.now)
      ensures b == Retained(cfg, Rows(), e, timeout)
    {
      hide RowFor, RulesFit;
      var k := Key(e.mmsi, e.src);
      var row := FindRow(k);
      ghost var s := Rows();
      Put(k, row, e.now);
      assert Rows()[row] == Obs(true, e.mmsi, e.src, e.now);
      b := IsFirst(e);
    }
  }

  lemma {:induction false} OnlyOldest(s: seq<Obs>, r: nat)
    ensures s != [] && IsOldest(s, r) ==> Oldest(s) == r
  {
    hide Oldest;
    if s != [] && IsOldest(s, r) {
      var q := Oldest(s);
      assert s[q].t == s[r].t;
    }
  }
}
