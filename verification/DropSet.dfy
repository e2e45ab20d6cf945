/** The loser verdicts that the daemon keeps for the frame filter: src/daemon.c, dropset. */
module DropSet {
  const DROP_MAX := 256
  const DROP_TIMEOUT_MS := 8000

  datatype Pair = Pair(pgn: int, src: int)

  /** A verdict, and the table entry that remembers it: the latest one for a (pgn, src, discriminant). */
  datatype Verdict = Verdict(pair: Pair, disc: string, loser: bool, time: nat)

  // ----- the table as a sequence

  predicate SameKey(a: Verdict, b: Verdict) { a.pair == b.pair && a.disc == b.disc }

  /** The entry with the verdict's key, or |t|. */
  function FindKey(t: seq<Verdict>, v: Verdict, i: nat): (r: nat)
    requires i <= |t|
    ensures i <= r <= |t|
    ensures r < |t| ==> SameKey(t[r], v)
    ensures forall j | i <= j < r :: !SameKey(t[j], v)
    decreases |t| - i
  {
    if i == |t| || SameKey(t[i], v) then i else FindKey(t, v, i + 1)
  }

  /** The first of the oldest entries. */
  function Oldest(t: seq<Verdict>): (r: nat)
    requires t != []
    ensures r < |t|
    ensures forall j | 0 <= j < |t| :: t[r].time <= t[j].time
    ensures forall j | 0 <= j < r :: t[r].time < t[j].time
  {
    if |t| == 1 then 0
    else
      var r := Oldest(t[..|t| - 1]);
      if t[|t| - 1].time < t[r].time then |t| - 1 else r
  }

  predicate Has(t: seq<Verdict>, p: Pair) {
    exists i :: 0 <= i < |t| && t[i].pair == p
  }

  /** The table after a verdict: a passing one is not stored when its pair has no entry. */
  function Updated(t: seq<Verdict>, v: Verdict): (r: seq<Verdict>)
    requires |t| <= DROP_MAX
    ensures |r| <= DROP_MAX
  {
    var i := FindKey(t, v, 0);
    if i < |t| then t[i := v]
    else if !v.loser && !Has(t, v.pair) then t
    else if |t| < DROP_MAX then t + [v]
    else t[Oldest(t) := v]
  }

  /** The difference of two unsigned times is small only when now is not in the past. */
  predicate Recent(v: Verdict, now: nat) {
    v.time <= now && now - v.time <= DROP_TIMEOUT_MS
  }

  function Pruned(t: seq<Verdict>, now: nat): (r: seq<Verdict>)
    ensures |r| <= |t|
    ensures forall x | x in r :: x in t && Recent(x, now)
    ensures forall x | x in t && Recent(x, now) :: x in r
  {
    if t == [] then []
    else (if Recent(t[0], now) then [t[0]] else []) + Pruned(t[1..], now)
  }

  predicate AllLose(t: seq<Verdict>, p: Pair) {
    forall i | 0 <= i < |t| && t[i].pair == p :: t[i].loser
  }

  /** The pairs to publish among the first n entries: at its first entry, when every entry of the pair loses. */
  function Published(t: seq<Verdict>, n: nat): (r: seq<Pair>)
    requires n <= |t|
  {
    if n == 0 then []
    else
      var p := t[n - 1].pair;
      Published(t, n - 1) + if !Has(t[..n - 1], p) && AllLose(t, p) then [p] else []
  }

  /** A pair is published exactly when it has entries and all of them lose, and it is published once. */
  lemma {:induction false} PublishedAre(t: seq<Verdict>, n: nat)
    requires n <= |t|
    ensures forall p :: p in Published(t, n) <==> Has(t[..n], p) && AllLose(t, p)
    ensures forall i, j | 0 <= i < j < |Published(t, n)| :: Published(t, n)[i] != Published(t, n)[j]
  {
    if n > 0 {
      PublishedAre(t, n - 1);
      forall p ensures Has(t[..n], p) <==> Has(t[..n - 1], p) || t[n - 1].pair == p {
        assert t[..n] == t[..n - 1] + [t[n - 1]];
        if Has(t[..n - 1], p) {
          var i :| 0 <= i < n - 1 && t[..n - 1][i].pair == p;
          assert t[..n][i].pair == p;
        }
        if Has(t[..n], p) && t[n - 1].pair != p {
          var i :| 0 <= i < n && t[..n][i].pair == p;
          assert t[..n - 1][i].pair == p;
        }
        if t[n - 1].pair == p { assert t[..n][n - 1].pair == p; }
      }
    }
  }

  // ----- the table as it is updated in place

  class Table {
    const e: array<Verdict>
    var n: nat

    ghost predicate Valid()
      reads this
    {
      e.Length == DROP_MAX && n <= DROP_MAX
    }

    ghost function Entries(): seq<Verdict>
      requires Valid()
      reads this, e
    {
      e[..n]
    }

    constructor ()
      ensures Valid() && fresh(e) && Entries() == []
    {
      e, n := new Verdict[DROP_MAX](_ => Verdict(Pair(0, 0), "", false, 0)), 0;
    }

    method HasPair(p: Pair) returns (any: bool)
      requires Valid()
      ensures any <==> Has(Entries(), p)
    {
      any := false;
      var i := 0;
      while i < n && !any
        invariant i <= n
        invariant any ==> Has(Entries(), p)
        invariant !any ==> forall j | 0 <= j < i :: e[j].pair != p
      {
        any := e[i].pair == p;
        assert any ==> Entries()[i].pair == p;
        i := i + 1;
      }
    }

    /** The entry with the verdict's key, and the oldest one when there is none. */
    method Search(v: Verdict) returns (found: nat, oldest: nat)
      requires Valid()
      ensures found == FindKey(Entries(), v, 0)
      ensures found == n && n > 0 ==> oldest == Oldest(Entries())
    {
      found, oldest := 0, 0;
      while found < n && !SameKey(e[found], v)
        invariant found <= n
        invariant forall j | 0 <= j < found :: !SameKey(e[j], v)
        invariant oldest <= found && (found > 0 ==> oldest < found)
        invariant forall j | 0 <= j < found :: e[oldest].time <= e[j].time
        invariant forall j | 0 <= j < oldest :: e[oldest].time < e[j].time
      {
        if found == 0 || e[found].time < e[oldest].time {
          oldest := found;
        }
        found := found + 1;
      }
      FindKeyIs(Entries(), v, found);
      if found == n && n > 0 {
        OldestIs(Entries(), oldest);
      }
    }

    /** dropset_update. */
    method Update(v: Verdict)
      requires Valid()
      modifies this`n, e
      ensures Valid() && Entries() == Updated(old(Entries()), v)
    {
      hide Has, Oldest, FindKey;
      ghost var t := Entries();
      var found, oldest := Search(v);
      if found < n {
        e[found] := v;
        assert Entries() == t[found := v];
        return;
      }
      if !v.loser {
        var any := HasPair(v.pair);
        if !any {
          return;
        }
      }
      if n < DROP_MAX {
        e[n] := v;
        n := n + 1;
        assert Entries() == t + [v];
      } else {
        e[oldest] := v;
        assert Entries() == t[oldest := v];
      }
    }

    method Put(k: nat, x: Verdict)
      requires k < e.Length
      modifies e
      ensures e[..k + 1] == old(e[..k]) + [x]
      ensures forall j | k < j < e.Length :: e[j] == old(e[j])
    {
      e[k] := x;
    }

    /** The loop of dropset_write that drops stale entries, in place. */
    method Prune(now: nat)
      requires Valid()
      modifies this`n, e
      ensures Valid() && Entries() == Pruned(old(Entries()), now)
    {
      hide Pruned;
      ghost var t := Entries();
      var k: nat := 0;
      assert t[0..] == t && [] + Pruned(t, now) == Pruned(t, now);
      for i := 0 to n
        invariant n == |t| && k <= i <= n <= DROP_MAX
        invariant e[..k] + Pruned(t[i..], now) == Pruned(t, now)
        invariant forall j | i <= j < n :: e[j] == t[j]
      {
        ghost var kept := e[..k];
        PrunedStep(t, i, kept, now);
        if now >= e[i].time && now - e[i].time <= DROP_TIMEOUT_MS {
          Put(k, e[i]);
          k := k + 1;
        }
      }
      assert Pruned(t[n..], now) == [] by { assert t[n..] == []; PrunedNone(now); }
      n := k;
    }

    /** Whether the entry at i publishes its pair. */
    method Publishes(i: nat) returns (b: bool)
      requires Valid() && i < n
      ensures b <==> !Has(Entries()[..i], e[i].pair) && AllLose(Entries(), e[i].pair)
    {
      ghost var t := Entries();
      var p := e[i].pair;
      var allLose := true;
      for j := 0 to n
        invariant forall k | 0 <= k < j && k < i :: t[k].pair != p
        invariant allLose <==> forall k | 0 <= k < j && t[k].pair == p :: t[k].loser
      {
        if e[j].pair != p {
          continue;
        }
        if j < i {
          assert t[..i][j].pair == p;
          return false;
        }
        if !e[j].loser {
          allLose := false;
        }
      }
      b := allLose;
    }

    method Publish() returns (out: seq<Pair>)
      requires Valid()
      ensures out == Published(Entries(), |Entries()|)
    {
      hide Has, AllLose;
      out := [];
      for i := 0 to n
        invariant out == Published(Entries(), i)
      {
        var b := Publishes(i);
        if b {
          out := out + [e[i].pair];
        }
      }
    }

    /** The rest of dropset_write: the pairs to drop, then the PGNs cut for every source. */
    method Write(now: nat, noN2k: seq<int>) returns (out: seq<Pair>)
      requires Valid()
      modifies this`n, e
      ensures Valid() && Entries() == Pruned(old(Entries()), now)
      ensures out == Published(Entries(), |Entries()|) + Wildcards(noN2k)
    {
      hide Pruned, Published;
      Prune(now);
      out := Publish();
      var cut := WriteWildcards(noN2k);
      out := out + cut;
    }
  }

  method WriteWildcards(noN2k: seq<int>) returns (out: seq<Pair>)
    ensures out == Wildcards(noN2k)
  {
    out := [];
    for i := 0 to |noN2k|
      invariant |out| == i && forall j | 0 <= j < i :: out[j] == Pair(noN2k[j], -1)
    {
      out := out + [Pair(noN2k[i], -1)];
    }
  }

  lemma PrunedNone(now: nat)
    ensures Pruned([], now) == []
  {
  }

  lemma {:induction false} PrunedStep(t: seq<Verdict>, i: nat, kept: seq<Verdict>, now: nat)
    requires i < |t|
    ensures Recent(t[i], now) ==> kept + Pruned(t[i..], now) == kept + [t[i]] + Pruned(t[i + 1..], now)
    ensures !Recent(t[i], now) ==> kept + Pruned(t[i..], now) == kept + Pruned(t[i + 1..], now)
  {
    assert t[i..][0] == t[i] && t[i..][1..] == t[i + 1..];
  }

  lemma {:induction false} FindKeyIs(t: seq<Verdict>, v: Verdict, r: nat)
    requires r <= |t|
    requires r < |t| ==> SameKey(t[r], v)
    requires forall j | 0 <= j < r :: !SameKey(t[j], v)
    ensures FindKey(t, v, 0) == r
  {
    if FindKey(t, v, 0) != r {
      assert false;
    }
  }

  lemma {:induction false} OldestIs(t: seq<Verdict>, r: nat)
    requires r < |t|
    requires forall j | 0 <= j < |t| :: t[r].time <= t[j].time
    requires forall j | 0 <= j < r :: t[r].time < t[j].time
    ensures Oldest(t) == r
  {
    if Oldest(t) != r {
      assert false;
    }
  }

  /** Source -1 stands for every source. */
  function Wildcards(pgns: seq<int>): (r: seq<Pair>)
    ensures |r| == |pgns| && forall i | 0 <= i < |r| :: r[i] == Pair(pgns[i], -1)
  {
    seq(|pgns|, i requires 0 <= i < |pgns| => Pair(pgns[i], -1))
  }
}
