/** Which messages are accepted, over any run: the first source of a rule that was
    heard recently enough, and no other. */
module Failover {
  import opened CText
  import opened RegistrySpec
  import opened ArbiterSpec
  import opened DropSet
  import DropHistory
  import DropKeys

  /** A message, the device table at that moment, and the time. */
  datatype Event = Event(ds: seq<Device>, m: Message, now: nat)

  function RouteAt(cfg: Config, e: Event): (r: Route)
    ensures RouteFits(cfg, r)
  {
    RouteOf(cfg, e.ds, e.m)
  }

  function Run(cfg: Config, es: seq<Event>): Heard {
    if es == [] then map[]
    else HeardAt(Run(cfg, es[..|es| - 1]), RouteAt(cfg, es[|es| - 1]), es[|es| - 1].now)
  }

  /** The decision on the k-th message. */
  function Decision(cfg: Config, es: seq<Event>, k: nat, timeout: nat): Result
    requires k < |es|
  {
    ResultOf(cfg, Run(cfg, es[..k + 1]), RouteAt(cfg, es[k]), timeout, es[k].now)
  }

  ghost predicate InOrder(es: seq<Event>) {
    forall i, j | 0 <= i < j < |es| :: es[i].now <= es[j].now
  }

  /** One of the first n messages counted for the slot and was at most timeout old at that time. */
  ghost predicate HeardWithin(cfg: Config, es: seq<Event>, n: nat, slot: Slot, timeout: nat, now: nat)
    requires n <= |es|
  {
    exists i | 0 <= i < n :: RouteAt(cfg, es[i]) == At(slot) && now - es[i].now <= timeout
  }

  /** The table of the arbiter is the history's: a slot is live when it was heard within the timeout. */
  lemma {:induction false} LiveIsHeard(cfg: Config, es: seq<Event>, n: nat, slot: Slot, timeout: nat, now: nat)
    requires n <= |es| && InOrder(es) && forall i | 0 <= i < n :: es[i].now <= now
    ensures Live(Run(cfg, es[..n]), slot, timeout, now) <==> HeardWithin(cfg, es, n, slot, timeout, now)
    decreases n
  {
    hide RouteAt;
    if n > 0 {
      assert es[..n][..n - 1] == es[..n - 1] && es[..n][n - 1] == es[n - 1];
      LiveIsHeard(cfg, es, n - 1, slot, timeout, now);
      if RouteAt(cfg, es[n - 1]) == At(slot) {
        if HeardWithin(cfg, es, n, slot, timeout, now) {
          var i :| 0 <= i < n && RouteAt(cfg, es[i]) == At(slot) && now - es[i].now <= timeout;
          assert es[i].now <= es[n - 1].now;
        }
      } else if HeardWithin(cfg, es, n, slot, timeout, now) {
        var i :| 0 <= i < n && RouteAt(cfg, es[i]) == At(slot) && now - es[i].now <= timeout;
        assert i < n - 1;
      }
    }
  }

  ghost predicate Ranked(cfg: Config, es: seq<Event>, k: nat, slot: Slot) {
    && k < |es| && RouteAt(cfg, es[k]) == At(slot)
    && slot.rule < |cfg.rules| && slot.index < |cfg.rules[slot.rule].sources|
    && ByPriority(cfg.rules[slot.rule])
  }

  /** A message of a priority rule is accepted exactly when no preferred source of
      the rule was heard within the timeout, and rejected by priority otherwise. */
  lemma {:induction false} AcceptedIff(cfg: Config, es: seq<Event>, k: nat, slot: Slot, timeout: nat)
    requires InOrder(es) && Ranked(cfg, es, k, slot)
    ensures Decision(cfg, es, k, timeout) in {Accept, RejectPriority}
    ensures Decision(cfg, es, k, timeout) == Accept <==>
            forall h | 0 <= h < slot.index :: !HeardWithin(cfg, es, k, Slot(slot.rule, h), timeout, es[k].now)
  {
    hide RouteAt, Live, Run, HeardWithin;
    var s, now := Run(cfg, es[..k + 1]), es[k].now;
    forall h | 0 <= h <= slot.index
      ensures Live(s, Slot(slot.rule, h), timeout, now) <==> HeardWithin(cfg, es, k + 1, Slot(slot.rule, h), timeout, now)
    {
      LiveIsHeard(cfg, es, k + 1, Slot(slot.rule, h), timeout, now);
    }
    forall h | 0 <= h < slot.index
      ensures HeardWithin(cfg, es, k + 1, Slot(slot.rule, h), timeout, now) <==> HeardWithin(cfg, es, k, Slot(slot.rule, h), timeout, now)
    {
      NotThisOne(cfg, es, k, slot, Slot(slot.rule, h), timeout);
    }
    JustHeard(cfg, es, k, slot, timeout);
  }

  lemma {:induction false} NotThisOne(cfg: Config, es: seq<Event>, k: nat, slot: Slot, other: Slot, timeout: nat)
    requires k < |es| && RouteAt(cfg, es[k]) == At(slot) && slot != other
    ensures HeardWithin(cfg, es, k + 1, other, timeout, es[k].now) <==> HeardWithin(cfg, es, k, other, timeout, es[k].now)
  {
    hide RouteAt;
    if HeardWithin(cfg, es, k + 1, other, timeout, es[k].now) {
      var i :| 0 <= i < k + 1 && RouteAt(cfg, es[i]) == At(other) && es[k].now - es[i].now <= timeout;
      assert i < k;
    }
  }

  lemma {:induction false} JustHeard(cfg: Config, es: seq<Event>, k: nat, slot: Slot, timeout: nat)
    requires k < |es| && RouteAt(cfg, es[k]) == At(slot)
    ensures HeardWithin(cfg, es, k + 1, slot, timeout, es[k].now)
  {
    hide RouteAt;
    assert es[k].now - es[k].now <= timeout;
  }

  /** The first source of a rule always gets through. */
  lemma {:induction false} FirstAlwaysAccepted(cfg: Config, es: seq<Event>, k: nat, slot: Slot, timeout: nat)
    requires InOrder(es) && Ranked(cfg, es, k, slot) && slot.index == 0
    ensures Decision(cfg, es, k, timeout) == Accept
  {
    AcceptedIff(cfg, es, k, slot, timeout);
  }

  /** A source takes over from a preferred one only after the timeout. */
  lemma {:induction false} TakeoverWaits(cfg: Config, es: seq<Event>, a: nat, b: nat, first: Slot, second: Slot, timeout: nat)
    requires InOrder(es) && a < b < |es| && RouteAt(cfg, es[a]) == At(first)
    requires Ranked(cfg, es, b, second) && first.rule == second.rule && first.index < second.index
    requires Decision(cfg, es, b, timeout) == Accept
    ensures es[b].now - es[a].now > timeout
  {
    hide RouteAt, Decision;
    AcceptedIff(cfg, es, b, second, timeout);
    assert !HeardWithin(cfg, es, b, Slot(second.rule, first.index), timeout, es[b].now);
    assert Slot(second.rule, first.index) == first;
  }

  /** The source shown as current is the first of the rule that was heard within the timeout. */
  lemma {:induction false} CurrentIs(cfg: Config, es: seq<Event>, pgn: int, disc: string, timeout: nat, now: nat)
    requires InOrder(es) && forall i | 0 <= i < |es| :: es[i].now <= now
    requires RuleFor(cfg.rules, pgn, disc).Some? && ByPriority(cfg.rules[RuleFor(cfg.rules, pgn, disc).value])
    ensures var r := RuleFor(cfg.rules, pgn, disc).value;
            var names := cfg.rules[r].sources;
            match CurrentSource(cfg, Run(cfg, es), pgn, disc, timeout, now)
            case None => forall h | 0 <= h < |names| :: !HeardWithin(cfg, es, |es|, Slot(r, h), timeout, now)
            case Some(name) => exists w ::
              && 0 <= w < |names| && name == names[w]
              && HeardWithin(cfg, es, |es|, Slot(r, w), timeout, now)
              && forall h | 0 <= h < w :: !HeardWithin(cfg, es, |es|, Slot(r, h), timeout, now)
  {
    hide Live, Run, HeardWithin;
    var r := RuleFor(cfg.rules, pgn, disc).value;
    hide RuleFor, ByPriority;
    assert es[..|es|] == es;
    forall h: nat | h < |cfg.rules[r].sources|
      ensures Live(Run(cfg, es), Slot(r, h), timeout, now) <==> HeardWithin(cfg, es, |es|, Slot(r, h), timeout, now)
    {
      LiveIsHeard(cfg, es, |es|, Slot(r, h), timeout, now);
    }
  }

  /** Right after a message of a priority rule was accepted, its source is the one shown. */
  lemma {:induction false} AcceptedIsCurrent(cfg: Config, es: seq<Event>, k: nat, slot: Slot, timeout: nat)
    requires Ranked(cfg, es, k, slot) && Decision(cfg, es, k, timeout) == Accept
    ensures var m := es[k].m;
            var ident := IdentAt(es[k].ds, m.src.value);
            && ident.Some?
            && CurrentSource(cfg, Run(cfg, es[..k + 1]), m.pgn.value, DiscOf(m), timeout, es[k].now)
            == NameOf(cfg.sources, ident.value, 0)
  {
    hide Run, RuleFor, NameOf, IdentAt, DiscOf, Effective;
  }

  // ----- what the frame filter is told

  /** The daemon takes a message, or publishes the losers. */
  datatype Step = Take(e: Event) | Publish(now: nat)

  function Events(ss: seq<Step>): seq<Event> {
    if ss == [] then []
    else
      var es := Events(ss[..|ss| - 1]);
      match ss[|ss| - 1]
      case Take(e) => es + [e]
      case Publish(_) => es
  }

  predicate Loses(r: Result) { r == RejectPriority || r == NotInRule }

  /** The verdict on the last message. */
  function VerdictOf(cfg: Config, es: seq<Event>, timeout: nat): Verdict
    requires es != [] && es[|es| - 1].m.pgn.Some? && es[|es| - 1].m.src.Some?
  {
    var e := es[|es| - 1];
    Verdict(Pair(e.m.pgn.value, e.m.src.value), if Excluded(cfg, e.m) then "" else Copy(DiscOf(e.m), 32),
            Loses(Decision(cfg, es, |es| - 1, timeout)), e.now)
  }

  /** The operations on the loser table. */
  function Ops(cfg: Config, ss: seq<Step>, timeout: nat): seq<DropHistory.Op> {
    if ss == [] then []
    else
      var ops := Ops(cfg, ss[..|ss| - 1], timeout);
      match ss[|ss| - 1]
      case Publish(now) => ops + [DropHistory.Publish(now)]
      case Take(e) =>
        if e.m.pgn.Some? && e.m.src.Some? then
          EventsTake(ss);
          ops + [DropHistory.Judge(VerdictOf(cfg, Events(ss), timeout))]
        else ops
  }

  lemma EventsTake(ss: seq<Step>)
    requires ss != [] && ss[|ss| - 1].Take?
    ensures Events(ss) == Events(ss[..|ss| - 1]) + [ss[|ss| - 1].e]
  {
  }

  ghost predicate From(e: Event, p: Pair) { e.m.pgn == Some(p.pgn) && e.m.src == Some(p.src) }

  /** The k-th message is the last one of the pair. */
  ghost predicate LastOf(es: seq<Event>, k: nat, p: Pair) {
    k < |es| && From(es[k], p) && forall j | k < j < |es| :: !From(es[j], p)
  }

  /** The verdict is the decision on the k-th message, the last one of its pair. */
  ghost predicate Reflects(cfg: Config, es: seq<Event>, timeout: nat, v: Verdict, k: nat) {
    LastOf(es, k, v.pair) && v.time == es[k].now && v.loser == Loses(Decision(cfg, es, k, timeout))
  }

  lemma {:induction false} DecisionSame(cfg: Config, es: seq<Event>, fs: seq<Event>, k: nat, timeout: nat)
    requires k < |es| && es <= fs
    ensures Decision(cfg, es, k, timeout) == Decision(cfg, fs, k, timeout)
  {
    assert es[..k + 1] == fs[..k + 1];
  }

  /** The latest verdict on a pair is the decision on its last message. */
  lemma {:induction false} LatestDecision(cfg: Config, ss: seq<Step>, timeout: nat, p: Pair)
    requires DropHistory.Latest(DropHistory.Verdicts(Ops(cfg, ss, timeout)), p).Some?
    ensures var v := DropHistory.Latest(DropHistory.Verdicts(Ops(cfg, ss, timeout)), p).value;
            exists k :: Reflects(cfg, Events(ss), timeout, v, k)
  {
    hide Decision, DropHistory.Latest, DropHistory.Run, Excluded, DiscOf, Loses;
    if ss == [] {
      assert false;
    }
    var before := ss[..|ss| - 1];
    var ops, all := Ops(cfg, before, timeout), Ops(cfg, ss, timeout);
    var h := DropHistory.Verdicts(ops);
    var es := Events(ss);
    if ss[|ss| - 1].Publish? {
      assert all[..|all| - 1] == ops;
    } else {
      EventsTake(ss);
      if all != ops {
        assert all[..|all| - 1] == ops;
        DropHistory.LatestSnoc(h, VerdictOf(cfg, es, timeout), p);
        if VerdictOf(cfg, es, timeout).pair == p {
          assert Reflects(cfg, es, timeout, VerdictOf(cfg, es, timeout), |es| - 1);
          return;
        }
      }
    }
    LatestDecision(cfg, before, timeout, p);
    var fs := Events(before);
    var v := DropHistory.Latest(h, p).value;
    var k :| Reflects(cfg, fs, timeout, v, k);
    DecisionSame(cfg, fs, es, k, timeout);
    assert Reflects(cfg, es, timeout, v, k);
  }

  /** The sender of the k-th message lost: its rule does not list it, or a preferred
      source of the rule was heard within the timeout. */
  ghost predicate Outranked(cfg: Config, es: seq<Event>, k: nat, timeout: nat)
    requires k < |es|
  {
    || RouteAt(cfg, es[k]) == Stop(NotInRule)
    || exists r, i, h | 0 <= h < i :: RouteAt(cfg, es[k]) == At(Slot(r, i))
         && HeardWithin(cfg, es, k, Slot(r, h), timeout, es[k].now)
  }

  lemma {:induction false} LosesOutranked(cfg: Config, es: seq<Event>, k: nat, timeout: nat)
    requires InOrder(es) && k < |es| && Loses(Decision(cfg, es, k, timeout))
    ensures Outranked(cfg, es, k, timeout)
  {
    hide HeardWithin, Run;
    var r := RouteAt(cfg, es[k]);
    StopResults(cfg, es[k]);
    hide RouteAt;
    if r.At? {
      AcceptedIff(cfg, es, k, r.slot, timeout);
      var h :| 0 <= h < r.slot.index && HeardWithin(cfg, es, k, Slot(r.slot.rule, h), timeout, es[k].now);
      assert r == At(Slot(r.slot.rule, r.slot.index));
    }
  }

  lemma {:induction false} StopResults(cfg: Config, e: Event)
    ensures RouteAt(cfg, e) != Stop(RejectPriority)
  {
    hide RuleFor, IdentAt, NameOf, DiscOf;
  }

  /** From messages to the frame filter: a pair (PGN, sender) is published for dropping only
      when its last message is at most 8 s old and lost then to a preferred source that
      had been heard within the timeout, or is not in its rule. */
  lemma {:induction false} DroppedWasOutranked(cfg: Config, ss: seq<Step>, now: nat, timeout: nat, p: Pair)
    requires InOrder(Events(ss)) && DropKeys.Trusted(Ops(cfg, ss, timeout), now)
    requires var t := DropHistory.Run(Ops(cfg, ss, timeout) + [DropHistory.Publish(now)]); p in Published(t, |t|)
    ensures var es := Events(ss);
            exists k | 0 <= k < |es| :: LastOf(es, k, p) && es[k].now <= now && now - es[k].now <= DROP_TIMEOUT_MS
              && Outranked(cfg, es, k, timeout)
  {
    hide DropKeys.Trusted, Outranked, InOrder, Decision, Ops, Published, DropHistory.Run;
    DropKeys.PublishedLost(Ops(cfg, ss, timeout), now);
    LatestDecision(cfg, ss, timeout, p);
    var v := DropHistory.Latest(DropHistory.Verdicts(Ops(cfg, ss, timeout)), p).value;
    var es := Events(ss);
    var k :| Reflects(cfg, es, timeout, v, k);
    LosesOutranked(cfg, es, k, timeout);
  }
}
