/** The arbiter with its tables of flags and times, updated in place: src/arbiter.c, src/config.c. */
module Arbiter {
  import opened CText
  import opened RegistrySpec
  import opened ArbiterSpec

  /** config_rule. */
  method FindRule(rules: seq<Rule>, pgn: int, disc: string) returns (r: Option<nat>)
    ensures r == RuleFor(rules, pgn, disc)
  {
    hide PrefixNoCase;
    var generic: Option<nat>, best: Option<nat> := None, None;
    var bestLen := 0;
    for i := 0 to |rules|
      invariant generic == FirstGeneric(rules, pgn, i) && best == Best(rules, pgn, disc, i)
      invariant bestLen == if best.Some? then |rules[best.value].disc| else 0
    {
      var rule := rules[i];
      if rule.pgn == pgn {
        if rule.disc == "" {
          if generic.None? {
            generic := Some(i);
          }
        } else if PrefixNoCase(rule.disc, disc) && |rule.disc| > bestLen {
          best := Some(i);
          bestLen := |rule.disc|;
        }
      }
    }
    return if best.Some? then best else generic;
  }

  method FindName(sources: seq<Source>, ident: string) returns (name: Option<string>)
    ensures name == NameOf(sources, ident, 0)
  {
    var i := 0;
    while i < |sources|
      invariant i <= |sources| && NameOf(sources, ident, i) == NameOf(sources, ident, 0)
    {
      if sources[i].ident == ident {
        return Some(sources[i].name);
      }
      i := i + 1;
    }
    return None;
  }

  method FindSlot(names: seq<string>, name: string) returns (slot: nat)
    ensures slot == IndexOf(names, name, 0)
  {
    slot := 0;
    while slot < |names| && names[slot] != name
      invariant slot <= |names| && IndexOf(names, name, slot) == IndexOf(names, name, 0)
    {
      slot := slot + 1;
    }
  }

  /** The slot a message counts for, found step by step. */
  method FindRoute(cfg: Config, ds: seq<Device>, m: Message) returns (r: Route)
    ensures r == RouteOf(cfg, ds, m)
  {
    hide RuleFor, IdentAt, NameOf, IndexOf, DiscOf;
    if m.pgn.None? || m.src.None? || m.src.value < 0 || m.pgn.value >= CONTROL_PGN
       || m.src.value in cfg.ignoreSrc || m.pgn.value in cfg.ignorePgn {
      return Stop(Ignored);
    }
    var disc := DiscOf(m);
    var ident := IdentAt(ds, m.src.value);
    var name := None;
    if ident.Some? {
      name := FindName(cfg.sources, ident.value);
    }
    var rule := FindRule(cfg.rules, m.pgn.value, disc);
    if rule.None? {
      return Stop(NoRule);
    }
    if ident.None? {
      return Stop(UnknownSrc);
    }
    if name.None? {
      return Stop(Unconfigured);
    }
    var slot := FindSlot(cfg.rules[rule.value].sources, name.value);
    if slot == |cfg.rules[rule.value].sources| {
      return Stop(NotInRule);
    }
    return At(Slot(rule.value, slot));
  }

  class Table {
    const cfg: Config
    const seen: array2<bool>
    const last: array2<nat>
    var timeout: nat
    ghost var heard: Heard

    ghost predicate Valid()
      reads this, seen, last
    {
      && seen.Length0 == last.Length0 == MAX_RULES && seen.Length1 == last.Length1 == MAX_PRIO
      && |cfg.rules| <= MAX_RULES && (forall i | 0 <= i < |cfg.rules| :: |cfg.rules[i].sources| <= MAX_PRIO)
      && (forall k | k in heard :: k.rule < MAX_RULES && k.index < MAX_PRIO)
      && forall r: nat, i: nat | r < MAX_RULES && i < MAX_PRIO ::
           seen[r, i] == (Slot(r, i) in heard) && (seen[r, i] ==> last[r, i] == heard[Slot(r, i)])
    }

    constructor (config: Config)
      requires |config.rules| <= MAX_RULES && forall i | 0 <= i < |config.rules| :: |config.rules[i].sources| <= MAX_PRIO
      ensures Valid() && fresh(seen) && fresh(last)
      ensures cfg == config && heard == map[] && timeout == DEFAULT_TIMEOUT_MS
    {
      cfg := config;
      seen := new bool[MAX_RULES, MAX_PRIO]((r, i) => false);
      last := new nat[MAX_RULES, MAX_PRIO]((r, i) => 0);
      timeout := DEFAULT_TIMEOUT_MS;
      heard := map[];
    }

    method IsLive(r: nat, i: nat, now: nat) returns (b: bool)
      requires Valid() && r < MAX_RULES && i < MAX_PRIO
      ensures b == Live(heard, Slot(r, i), timeout, now)
    {
      if !seen[r, i] {
        return false;
      }
      return last[r, i] <= now && now - last[r, i] <= timeout;
    }

    /** live_winner: the first live slot, or the number of slots. */
    method LiveWinner(r: nat, n: nat, now: nat) returns (w: nat)
      requires Valid() && r < MAX_RULES && n <= MAX_PRIO
      ensures w == Winner(heard, r, n, timeout, now, 0)
    {
      hide Live;
      w := 0;
      while w < n
        invariant w <= n && Winner(heard, r, n, timeout, now, w) == Winner(heard, r, n, timeout, now, 0)
      {
        var live := IsLive(r, w, now);
        if live {
          return;
        }
        w := w + 1;
      }
    }

    method Hear(slot: Slot, now: nat)
      requires Valid() && slot.rule < MAX_RULES && slot.index < MAX_PRIO
      modifies this`heard, seen, last
      ensures Valid() && heard == old(heard)[slot := now]
    {
      seen[slot.rule, slot.index] := true;
      last[slot.rule, slot.index] := now;
      heard := heard[slot := now];
    }

    /** arbiter_decide. */
    method Decide(ds: seq<Device>, m: Message, now: nat) returns (d: Result)
      requires Valid()
      modifies this`heard, seen, last
      ensures Valid()
      ensures heard == HeardAt(old(heard), RouteOf(cfg, ds, m), now)
      ensures d == ResultOf(cfg, heard, RouteOf(cfg, ds, m), timeout, now)
    {
      hide RouteOf, Effective;
      var route := FindRoute(cfg, ds, m);
      if route.Stop? {
        return route.result;
      }
      var slot := route.slot;
      Hear(slot, now);
      var rule := cfg.rules[slot.rule];
      if Effective(rule.pgn, rule.mode) == Priority {
        var w := LiveWinner(slot.rule, |rule.sources|, now);
        return if w == slot.index then Accept else RejectPriority;
      }
      return Accept;
    }

    /** arbiter_current_source. */
    method Current(pgn: int, disc: string, now: nat) returns (name: Option<string>)
      requires Valid()
      ensures name == CurrentSource(cfg, heard, pgn, disc, timeout, now)
    {
      hide RuleFor, Effective;
      var r := FindRule(cfg.rules, pgn, disc);
      if r.None? || Effective(cfg.rules[r.value].pgn, cfg.rules[r.value].mode) != Priority {
        return None;
      }
      var names := cfg.rules[r.value].sources;
      var w := LiveWinner(r.value, |names|, now);
      return if w < |names| then Some(names[w]) else None;
    }
  }
}
