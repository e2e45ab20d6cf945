/** Which sender of a ship's messages is let through, told by the configuration and by what
    was heard: src/aisdedup.c. */
module AisOrder {
  import opened CText
  import RegistrySpec
  import opened ArbiterSpec
  import opened Routing
  import opened AisDedup

  /** The fusion rule of the PGN names the source of the sender's identity at place i. */
  ghost predicate ListedAt(cfg: Config, ds: seq<RegistrySpec.Device>, pgn: int, src: int, i: nat) {
    exists ident: string, j: nat, r: nat ::
      && KnownAs(ds, src, ident) && j < |cfg.sources| && FirstNamed(cfg.sources, ident, j)
      && r < |cfg.rules| && Applies(cfg.rules, pgn, "", r) && cfg.rules[r].mode == Fusion
      && FirstIn(cfg.rules[r].sources, cfg.sources[j].name, i)
  }

  ghost predicate Unlisted(cfg: Config, ds: seq<RegistrySpec.Device>, pgn: int, src: int) {
    forall i: nat :: !ListedAt(cfg, ds, pgn, src, i)
  }

  /** Named sources come in the order of the rule, and before all others; those come by the
      lowest eight bits of their address. Equals come by address. */
  ghost predicate Precedes(cfg: Config, e: Report, a: int, b: int) {
    || (exists i: nat, j: nat :: ListedAt(cfg, e.ds, e.pgn, a, i) && ListedAt(cfg, e.ds, e.pgn, b, j) && (i < j || (i == j && a < b)))
    || ((exists i: nat :: ListedAt(cfg, e.ds, e.pgn, a, i)) && Unlisted(cfg, e.ds, e.pgn, b))
    || (Unlisted(cfg, e.ds, e.pgn, a) && Unlisted(cfg, e.ds, e.pgn, b)
        && (a % 256 < b % 256 || (a % 256 == b % 256 && a < b)))
  }

  lemma {:induction false} ListedIs(cfg: Config, ds: seq<RegistrySpec.Device>, pgn: int, src: int, rule: nat, ident: string, j: nat, i: nat)
    requires rule < |cfg.rules| && (forall r: nat :: Applies(cfg.rules, pgn, "", r) <==> r == rule)
    requires forall id :: KnownAs(ds, src, id) <==> id == ident
    requires j < |cfg.sources| && forall l: nat :: FirstNamed(cfg.sources, ident, l) <==> l == j
    ensures ListedAt(cfg, ds, pgn, src, i) <==>
            cfg.rules[rule].mode == Fusion && FirstIn(cfg.rules[rule].sources, cfg.sources[j].name, i)
  {
    hide Applies, KnownAs, FirstNamed, FirstIn;
    if cfg.rules[rule].mode == Fusion && FirstIn(cfg.rules[rule].sources, cfg.sources[j].name, i) {
      assert KnownAs(ds, src, ident) && FirstNamed(cfg.sources, ident, j) && Applies(cfg.rules, pgn, "", rule);
    }
  }

  /** A sender's rank: its place in the fusion rule, else behind all places, by its address. */
  lemma {:induction false} RankIs(cfg: Config, ds: seq<RegistrySpec.Device>, pgn: int, src: int)
    requires RulesFit(cfg)
    ensures forall i: nat | ListedAt(cfg, ds, pgn, src, i) :: Rank(cfg, ds, pgn, src) == i < 8
    ensures Unlisted(cfg, ds, pgn, src) ==> Rank(cfg, ds, pgn, src) == 1000 + src % 256
    ensures Unlisted(cfg, ds, pgn, src) || exists i: nat :: ListedAt(cfg, ds, pgn, src, i)
  {
    hide RuleFor, RegistrySpec.IdentAt, NameOf, IndexOf, KnownAs, FirstNamed, FirstIn, Applies;
    IdentIs(ds, src);
    RuleIs(cfg.rules, pgn, "");
    var ident, rule := RegistrySpec.IdentAt(ds, src), RuleFor(cfg.rules, pgn, "");
    if ident.Some? && rule.Some? {
      SourceIs(cfg.sources, ident.value);
      var name := NameOf(cfg.sources, ident.value, 0);
      if name.Some? {
        var j: nat :| j < |cfg.sources| && FirstNamed(cfg.sources, ident.value, j) && cfg.sources[j].name == name.value;
        PlaceIs(cfg.rules[rule.value].sources, name.value);
        forall i: nat
          ensures ListedAt(cfg, ds, pgn, src, i) <==>
                  cfg.rules[rule.value].mode == Fusion && FirstIn(cfg.rules[rule.value].sources, cfg.sources[j].name, i)
        {
          ListedIs(cfg, ds, pgn, src, rule.value, ident.value, j, i);
        }
      }
    }
  }

  lemma {:induction false} BeforeIs(cfg: Config, e: Report, a: int, b: int)
    requires RulesFit(cfg)
    ensures Before(cfg, e, a, b) <==> Precedes(cfg, e, a, b)
  {
    hide Rank, ListedAt;
    RankIs(cfg, e.ds, e.pgn, a);
    RankIs(cfg, e.ds, e.pgn, b);
  }

  /** Of two senders exactly one comes first. */
  lemma {:induction false} OneFirst(cfg: Config, e: Report, a: int, b: int)
    requires RulesFit(cfg) && a != b
    ensures Precedes(cfg, e, a, b) <==> !Precedes(cfg, e, b, a)
  {
    hide Rank, Precedes;
    BeforeIs(cfg, e, a, b);
    BeforeIs(cfg, e, b, a);
  }

  /** One of the first n messages on the ship came from the sender, at most timeout ago. */
  ghost predicate HeardFrom(es: seq<Report>, mmsi: nat, src: int, timeout: nat, now: nat) {
    exists k :: 0 <= k < |es| && es[k].mmsi == mmsi && es[k].src == src && now - es[k].now <= timeout
  }

  /** The ships' messages of the last timeout came from few enough senders for the table. */
  ghost predicate FewHeard(es: seq<Report>, timeout: nat, now: nat) {
    |FreshKeys(LastSeen(es), timeout, now)| <= 2048
  }

  lemma {:induction false} HeardLast(es: seq<Report>, mmsi: nat, src: int, timeout: nat, now: nat)
    requires es != []
    ensures var n := |es| - 1;
            HeardFrom(es, mmsi, src, timeout, now) <==>
            HeardFrom(es[..n], mmsi, src, timeout, now) || (es[n].mmsi == mmsi && es[n].src == src && now - es[n].now <= timeout)
  {
    var n := |es| - 1;
    var before := es[..n];
    if HeardFrom(before, mmsi, src, timeout, now) {
      var k :| 0 <= k < n && before[k].mmsi == mmsi && before[k].src == src && now - before[k].now <= timeout;
      assert es[k] == before[k];
    }
    if HeardFrom(es, mmsi, src, timeout, now) && !(es[n].mmsi == mmsi && es[n].src == src && now - es[n].now <= timeout) {
      var k :| 0 <= k < |es| && es[k].mmsi == mmsi && es[k].src == src && now - es[k].now <= timeout;
      assert before[k] == es[k];
    }
  }

  /** Who was heard was heard no later than the last message. */
  lemma {:induction false} HeardInTime(es: seq<Report>, mmsi: nat, src: int, timeout: nat, now: nat)
    requires InOrder(es) && es != [] && HeardFrom(es, mmsi, src, timeout, now)
    ensures now - es[|es| - 1].now <= timeout
  {
    var k :| 0 <= k < |es| && es[k].mmsi == mmsi && es[k].src == src && now - es[k].now <= timeout;
    Earlier(es, k);
  }

  lemma {:induction false} SeenIsHeard(es: seq<Report>, mmsi: nat, src: int, timeout: nat, now: nat)
    requires InOrder(es) && (es != [] ==> es[|es| - 1].now <= now)
    ensures var k := Key(mmsi, src);
            HeardFrom(es, mmsi, src, timeout, now) <==> k in LastSeen(es) && now - LastSeen(es)[k] <= timeout
    ensures var k := Key(mmsi, src); k in LastSeen(es) ==> LastSeen(es)[k] <= now
  {
    if es != [] {
      var n := |es| - 1;
      var before := es[..n];
      assert InOrder(before) && (before != [] ==> before[|before| - 1].now <= now) by {
        assert forall i | 0 <= i < n :: before[i] == es[i];
      }
      hide InOrder, HeardFrom;
      SeenIsHeard(before, mmsi, src, timeout, now);
      HeardLast(es, mmsi, src, timeout, now);
      if HeardFrom(es, mmsi, src, timeout, now) { HeardInTime(es, mmsi, src, timeout, now); }
    }
  }

  /** While the table has room: a message is accepted exactly when no sender that comes before
      its own was heard on the ship within the timeout. */
  lemma {:induction false} AcceptedFrom(cfg: Config, es: seq<Report>, timeout: nat)
    requires RulesFit(cfg) && es != [] && InOrder(es) && FewHeard(es, timeout, es[|es| - 1].now)
    ensures var e := es[|es| - 1];
            Accepted(cfg, es, timeout) <==>
            forall src | HeardFrom(es, e.mmsi, src, timeout, e.now) :: !Precedes(cfg, e, src, e.src)
  {
    hide Accepted, LastSeen, Before, Precedes, InOrder, FreshKeys, HeardFrom;
    var e := es[|es| - 1];
    AcceptedIff(cfg, es, timeout);
    forall src
      ensures HeardFrom(es, e.mmsi, src, timeout, e.now) <==>
              Key(e.mmsi, src) in LastSeen(es) && Fresh(LastSeen(es)[Key(e.mmsi, src)], timeout, e.now)
      ensures Before(cfg, e, src, e.src) <==> Precedes(cfg, e, src, e.src)
    {
      SeenIsHeard(es, e.mmsi, src, timeout, e.now);
      BeforeIs(cfg, e, src, e.src);
    }
  }
}
