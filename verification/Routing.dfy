/** Which messages compete for a value, told by the configuration and the identities on the
    bus, and which of them are accepted: src/arbiter.c, src/config.c. */
module Routing {
  import opened CText
  import opened RegistrySpec
  import opened ArbiterSpec
  import opened Failover

  // ----- the sender

  /** The first record at the address has this identity. */
  ghost predicate KnownAs(ds: seq<Device>, src: int, ident: string) {
    src >= 0 && ident != "" &&
    exists k :: 0 <= k < |ds| && ds[k].src == src && ds[k].ident == ident && forall j | 0 <= j < k :: ds[j].src != src
  }

  lemma {:induction false} IdentIs(ds: seq<Device>, src: int)
    ensures forall ident :: IdentAt(ds, src) == Some(ident) <==> KnownAs(ds, src, ident)
  {
  }

  /** The j-th source is the first one configured with the identity. */
  ghost predicate FirstNamed(sources: seq<Source>, ident: string, j: nat) {
    j < |sources| && sources[j].ident == ident && forall i | 0 <= i < j :: sources[i].ident != ident
  }

  lemma {:induction false} NameFrom(sources: seq<Source>, ident: string, from: nat)
    requires from <= |sources|
    ensures match NameOf(sources, ident, from)
            case None => forall i | from <= i < |sources| :: sources[i].ident != ident
            case Some(name) => exists j :: from <= j < |sources| && sources[j] == Source(name, ident)
                                           && forall i | from <= i < j :: sources[i].ident != ident
    decreases |sources| - from
  {
    if from < |sources| && sources[from].ident != ident {
      NameFrom(sources, ident, from + 1);
    }
  }

  ghost predicate FirstIn(names: seq<string>, name: string, i: nat) {
    i < |names| && names[i] == name && forall h | 0 <= h < i :: names[h] != name
  }

  lemma {:induction false} IndexFrom(names: seq<string>, name: string, from: nat)
    requires from <= |names|
    ensures var r := IndexOf(names, name, from);
            && (forall h | from <= h < r :: names[h] != name)
            && (r < |names| ==> names[r] == name)
    decreases |names| - from
  {
    if from < |names| && names[from] != name {
      IndexFrom(names, name, from + 1);
    }
  }

  // ----- the rule

  ghost predicate Fits(r: Rule, pgn: int, disc: string) {
    r.pgn == pgn && r.disc != "" && StartsNoCase(disc, r.disc)
  }

  ghost predicate Plain(r: Rule, pgn: int) { r.pgn == pgn && r.disc == "" }

  /** The rule with the longest fitting discriminant, the first of several; without any, the
      first one of the PGN that has no discriminant. */
  ghost predicate Applies(rules: seq<Rule>, pgn: int, disc: string, r: nat) {
    && r < |rules|
    && if Fits(rules[r], pgn, disc) then
         forall q | 0 <= q < |rules| && Fits(rules[q], pgn, disc) ::
           |rules[q].disc| <= |rules[r].disc| && (q < r ==> |rules[q].disc| < |rules[r].disc|)
       else
         && Plain(rules[r], pgn) && (forall q | 0 <= q < |rules| :: !Fits(rules[q], pgn, disc))
         && forall q | 0 <= q < r :: !Plain(rules[q], pgn)
  }

  lemma {:induction false} FitsIs(r: Rule, pgn: int, disc: string)
    ensures Specific(r, pgn, disc) <==> Fits(r, pgn, disc)
  {
    if |r.disc| <= |disc| {
      forall i | 0 <= i < |r.disc| ensures Lower(r.disc[i]) == Lower(disc[i]) <==> SameLetter(r.disc[i], disc[i]) {
        LowerSame(r.disc[i], disc[i]);
      }
    }
  }

  lemma {:induction false} RuleIs(rules: seq<Rule>, pgn: int, disc: string)
    ensures forall r: nat :: RuleFor(rules, pgn, disc) == Some(r) <==> Applies(rules, pgn, disc, r)
  {
    hide Specific, Fits;
    forall q | 0 <= q < |rules| ensures Specific(rules[q], pgn, disc) <==> Fits(rules[q], pgn, disc) {
      FitsIs(rules[q], pgn, disc);
    }
    forall r: nat ensures RuleFor(rules, pgn, disc) == Some(r) <==> Applies(rules, pgn, disc, r) {
      assert r < |rules| && Fits(rules[r], pgn, disc) ==> rules[r].disc != "" by { FitsLong(rules, pgn, disc, r); }
    }
  }

  lemma FitsLong(rules: seq<Rule>, pgn: int, disc: string, r: nat)
    ensures r < |rules| && Fits(rules[r], pgn, disc) ==> rules[r].disc != ""
  {
  }

  /** What tells the rules of a PGN apart in the message. */
  ghost predicate Discriminant(m: Message, disc: string) {
    if m.pgn in {Some(130306), Some(127250)} then disc == (if m.reference.Some? then m.reference.value else "")
    else if m.pgn in {Some(130312), Some(130316)} then
      disc == if m.temperatureSource.Some? then m.temperatureSource.value else if m.source.Some? then m.source.value else ""
    else disc == ""
  }

  /** Rules whose sources are combined instead of chosen between. */
  predicate Combines(r: Rule) {
    || (r.mode == Min && r.pgn == 128267)
    || (r.mode == Max && r.pgn == 128275)
    || (r.mode == Fusion && r.pgn in {129038, 129039, 129040, 129041, 129793, 129794, 129795, 129796,
                                      129797, 129798, 129801, 129802, 129809, 129810})
  }

  lemma CombinesIs(r: Rule)
    ensures ByPriority(r) <==> !Combines(r)
  {
  }

  // ----- the slot

  ghost predicate Passed(cfg: Config, m: Message) {
    && m.pgn.Some? && m.pgn.value < 262144 && m.src.Some? && m.src.value >= 0
    && m.src.value !in cfg.ignoreSrc && m.pgn.value !in cfg.ignorePgn
  }

  ghost predicate RuleOf(cfg: Config, m: Message, r: nat) {
    m.pgn.Some? && exists disc :: Discriminant(m, disc) && Applies(cfg.rules, m.pgn.value, disc, r)
  }

  ghost predicate SentBy(ds: seq<Device>, m: Message, ident: string) { m.src.Some? && KnownAs(ds, m.src.value, ident) }

  /** The message is not left out, r is its rule, its sender's identity is that of the j-th
      source, and the rule names that source at place i. */
  ghost predicate CountsFor(cfg: Config, ds: seq<Device>, m: Message, r: nat, i: nat) {
    && Passed(cfg, m) && RuleOf(cfg, m, r) && r < |cfg.rules|
    && exists ident: string, j: nat :: j < |cfg.sources| && SentBy(ds, m, ident) && FirstNamed(cfg.sources, ident, j)
                          && FirstIn(cfg.rules[r].sources, cfg.sources[j].name, i)
  }

  /** The reason why a message counts for no slot. */
  ghost predicate CountsNot(cfg: Config, ds: seq<Device>, m: Message, why: Result) {
    match why
    case Ignored => !Passed(cfg, m)
    case NoRule => Passed(cfg, m) && forall r: nat :: !RuleOf(cfg, m, r)
    case UnknownSrc => Passed(cfg, m) && (exists r: nat :: RuleOf(cfg, m, r)) && forall ident :: !SentBy(ds, m, ident)
    case Unconfigured =>
      && Passed(cfg, m) && (exists r: nat :: RuleOf(cfg, m, r))
      && exists ident :: SentBy(ds, m, ident) && forall j: nat :: !FirstNamed(cfg.sources, ident, j)
    case NotInRule =>
      && Passed(cfg, m)
      && exists r: nat, ident: string, j: nat :: RuleOf(cfg, m, r) && r < |cfg.rules| && j < |cfg.sources| && SentBy(ds, m, ident)
           && FirstNamed(cfg.sources, ident, j) && cfg.sources[j].name !in cfg.rules[r].sources
    case _ => false
  }

  lemma {:induction false} RuleOfIs(cfg: Config, m: Message)
    requires m.pgn.Some?
    ensures forall r: nat :: RuleOf(cfg, m, r) <==> RuleFor(cfg.rules, m.pgn.value, DiscOf(m)) == Some(r)
  {
    hide RuleFor, Applies;
    assert Discriminant(m, DiscOf(m)) && forall disc | Discriminant(m, disc) :: disc == DiscOf(m);
    hide Discriminant, DiscOf;
    RuleIs(cfg.rules, m.pgn.value, DiscOf(m));
  }

  lemma {:induction false} SenderIs(ds: seq<Device>, m: Message)
    requires m.src.Some?
    ensures forall ident :: SentBy(ds, m, ident) <==> IdentAt(ds, m.src.value) == Some(ident)
  {
    hide IdentAt, KnownAs;
    IdentIs(ds, m.src.value);
  }

  lemma {:induction false} SourceIs(sources: seq<Source>, ident: string)
    ensures NameOf(sources, ident, 0).None? ==> forall j: nat :: !FirstNamed(sources, ident, j)
    ensures NameOf(sources, ident, 0).Some? ==>
              exists j: nat :: j < |sources| && FirstNamed(sources, ident, j) && sources[j].name == NameOf(sources, ident, 0).value
    ensures forall i: nat, j: nat | FirstNamed(sources, ident, i) && FirstNamed(sources, ident, j) :: i == j
  {
    hide NameOf;
    NameFrom(sources, ident, 0);
    if NameOf(sources, ident, 0).Some? {
      var j: nat :| j < |sources| && sources[j] == Source(NameOf(sources, ident, 0).value, ident) && forall i | 0 <= i < j :: sources[i].ident != ident;
      assert FirstNamed(sources, ident, j);
    }
  }

  lemma {:induction false} PlaceIs(names: seq<string>, name: string)
    ensures var r := IndexOf(names, name, 0);
            && (r < |names| ==> FirstIn(names, name, r)) && (r == |names| <==> name !in names)
            && forall i: nat | FirstIn(names, name, i) :: i == r < |names|
  {
    hide IndexOf;
    IndexFrom(names, name, 0);
  }

  /** A message counts for a slot exactly when the configuration gives its sender that place in
      its rule, and for none exactly for the reason given. */
  lemma {:induction false} RouteIs(cfg: Config, ds: seq<Device>, m: Message)
    ensures forall r: nat, i: nat :: RouteOf(cfg, ds, m) == At(Slot(r, i)) <==> CountsFor(cfg, ds, m, r, i)
    ensures forall why :: RouteOf(cfg, ds, m) == Stop(why) <==> CountsNot(cfg, ds, m, why)
  {
    hide RuleFor, DiscOf, IdentAt, NameOf, IndexOf, RuleOf, SentBy, FirstNamed, FirstIn;
    if Passed(cfg, m) {
      RuleOfIs(cfg, m);
      SenderIs(ds, m);
      var rule, ident := RuleFor(cfg.rules, m.pgn.value, DiscOf(m)), IdentAt(ds, m.src.value);
      if rule.Some? {
        assert RuleOf(cfg, m, rule.value);
        if ident.Some? {
          assert SentBy(ds, m, ident.value);
          SourceIs(cfg.sources, ident.value);
          var name := NameOf(cfg.sources, ident.value, 0);
          if name.Some? {
            PlaceIs(cfg.rules[rule.value].sources, name.value);
            var j: nat :| j < |cfg.sources| && FirstNamed(cfg.sources, ident.value, j) && cfg.sources[j].name == name.value;
            forall r: nat, i: nat ensures CountsFor(cfg, ds, m, r, i) <==> r == rule.value && FirstIn(cfg.rules[r].sources, name.value, i) {
              SlotIs(cfg, ds, m, rule.value, ident.value, j, r, i);
            }
          }
        }
      }
    }
  }

  lemma {:induction false} SlotIs(cfg: Config, ds: seq<Device>, m: Message, rule: nat, ident: string, j: nat, r: nat, i: nat)
    requires Passed(cfg, m) && rule < |cfg.rules| && (forall q: nat :: RuleOf(cfg, m, q) <==> q == rule)
    requires forall id :: SentBy(ds, m, id) <==> id == ident
    requires j < |cfg.sources| && forall l: nat :: FirstNamed(cfg.sources, ident, l) <==> l == j
    ensures CountsFor(cfg, ds, m, r, i) <==> r == rule && FirstIn(cfg.rules[r].sources, cfg.sources[j].name, i)
  {
    hide RuleOf, SentBy, FirstNamed, FirstIn, Passed;
    if r == rule && FirstIn(cfg.rules[r].sources, cfg.sources[j].name, i) {
      assert SentBy(ds, m, ident) && FirstNamed(cfg.sources, ident, j);
    }
  }

  // ----- what is accepted

  /** A message that counts for the slot came in the first n, at most timeout ago. */
  ghost predicate Heard(cfg: Config, es: seq<Event>, n: nat, r: nat, i: nat, timeout: nat, now: nat)
    requires n <= |es|
  {
    exists h :: 0 <= h < n && CountsFor(cfg, es[h].ds, es[h].m, r, i) && now - es[h].now <= timeout
  }

  lemma {:induction false} HeardIs(cfg: Config, es: seq<Event>, n: nat, r: nat, i: nat, timeout: nat, now: nat)
    requires n <= |es|
    ensures HeardWithin(cfg, es, n, Slot(r, i), timeout, now) <==> Heard(cfg, es, n, r, i, timeout, now)
  {
    hide RouteOf, CountsFor, CountsNot;
    forall h | 0 <= h < n
      ensures RouteAt(cfg, es[h]) == At(Slot(r, i)) <==> CountsFor(cfg, es[h].ds, es[h].m, r, i)
    {
      RouteIs(cfg, es[h].ds, es[h].m);
    }
  }

  /** From messages to decisions: one that counts for a rule of combined sources is accepted;
      one that counts for another rule is accepted exactly when no source named before its own
      was heard within the timeout; any other is answered by the reason why it does not count. */
  lemma {:induction false} DecisionIs(cfg: Config, es: seq<Event>, k: nat, timeout: nat)
    requires InOrder(es) && k < |es|
    ensures forall r: nat, i: nat | CountsFor(cfg, es[k].ds, es[k].m, r, i) ::
              if Combines(cfg.rules[r]) then Decision(cfg, es, k, timeout) == Accept
              else
                && Decision(cfg, es, k, timeout) in {Accept, RejectPriority}
                && (Decision(cfg, es, k, timeout) == Accept <==>
                      forall h: nat | h < i :: !Heard(cfg, es, k, r, h, timeout, es[k].now))
    ensures forall why | CountsNot(cfg, es[k].ds, es[k].m, why) :: Decision(cfg, es, k, timeout) == why
  {
    hide RouteOf, CountsFor, CountsNot, Combines, ByPriority, Failover.Run, HeardWithin, Heard, InOrder, Winner;
    RouteIs(cfg, es[k].ds, es[k].m);
    forall r: nat, i: nat | RouteAt(cfg, es[k]) == At(Slot(r, i))
      ensures if Combines(cfg.rules[r]) then Decision(cfg, es, k, timeout) == Accept
              else
                && Decision(cfg, es, k, timeout) in {Accept, RejectPriority}
                && (Decision(cfg, es, k, timeout) == Accept <==>
                      forall h: nat | h < i :: !Heard(cfg, es, k, r, h, timeout, es[k].now))
    {
      CombinesIs(cfg.rules[r]);
      if !Combines(cfg.rules[r]) {
        AcceptedIff(cfg, es, k, Slot(r, i), timeout);
        forall h: nat | h < i
          ensures HeardWithin(cfg, es, k, Slot(r, h), timeout, es[k].now) <==> Heard(cfg, es, k, r, h, timeout, es[k].now)
        {
          HeardIs(cfg, es, k, r, h, timeout, es[k].now);
        }
      }
    }
  }

  /** The source shown for a value is the first one that its rule names and that was heard
      within the timeout; none is shown without a rule, for combined sources, and when none was heard. */
  lemma {:induction false} ShownIs(cfg: Config, es: seq<Event>, pgn: int, disc: string, timeout: nat, now: nat, r: nat)
    requires InOrder(es) && (forall i | 0 <= i < |es| :: es[i].now <= now) && Applies(cfg.rules, pgn, disc, r)
    ensures var shown, names := CurrentSource(cfg, Failover.Run(cfg, es), pgn, disc, timeout, now), cfg.rules[r].sources;
            if Combines(cfg.rules[r]) then shown == None
            else match shown
              case None => forall h: nat | h < |names| :: !Heard(cfg, es, |es|, r, h, timeout, now)
              case Some(name) => exists w: nat ::
                && w < |names| && name == names[w] && Heard(cfg, es, |es|, r, w, timeout, now)
                && forall h: nat | h < w :: !Heard(cfg, es, |es|, r, h, timeout, now)
  {
    hide RuleFor, Applies, Combines, ByPriority, Failover.Run, HeardWithin, Heard, InOrder;
    RuleIs(cfg.rules, pgn, disc);
    CombinesIs(cfg.rules[r]);
    forall h: nat ensures HeardWithin(cfg, es, |es|, Slot(r, h), timeout, now) <==> Heard(cfg, es, |es|, r, h, timeout, now) {
      HeardIs(cfg, es, |es|, r, h, timeout, now);
    }
    if !Combines(cfg.rules[r]) { CurrentIs(cfg, es, pgn, disc, timeout, now); }
  }

  /** The verdict that the frame filter is told on the last message: its PGN and sender, its
      discriminant cut to the buffer unless the message is left out, and whether it lost. */
  lemma {:induction false} VerdictIs(cfg: Config, es: seq<Event>, timeout: nat)
    requires InOrder(es) && es != [] && es[|es| - 1].m.pgn.Some? && es[|es| - 1].m.src.Some?
    ensures var e, v := es[|es| - 1], VerdictOf(cfg, es, timeout);
            && e.m.pgn == Some(v.pair.pgn) && e.m.src == Some(v.pair.src) && v.time == e.now
            && (!Passed(cfg, e.m) ==> v.disc == "")
            && (forall disc | Passed(cfg, e.m) && Discriminant(e.m, disc) :: v.disc == Copy(disc, 32))
            && (v.loser <==> Decision(cfg, es, |es| - 1, timeout) in {RejectPriority, NotInRule})
  {
    hide Decision;
    var m := es[|es| - 1].m;
    assert Discriminant(m, DiscOf(m)) && forall disc | Discriminant(m, disc) :: disc == DiscOf(m);
  }
}
