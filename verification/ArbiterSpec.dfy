/** Which source of a value is used: the rules of the configuration (src/config.c) and
    the decision on one message (src/arbiter.c), as functions. */
module ArbiterSpec {
  import opened CText
  import opened RegistrySpec

  const MAX_RULES := 64
  const MAX_PRIO := 8
  const DEFAULT_TIMEOUT_MS := 5000
  const CONTROL_PGN := 262144

  datatype Mode = Priority | Min | Max | Fusion

  /** Sources are names, the preferred one first; an empty discriminant is for every message. */
  datatype Rule = Rule(pgn: int, disc: string, mode: Mode, sources: seq<string>)
  datatype Source = Source(name: string, ident: string)
  datatype Config = Config(sources: seq<Source>, rules: seq<Rule>, ignoreSrc: seq<int>, ignorePgn: seq<int>)

  /** A decoded message: its PGN and sender, and the fields that can tell rules apart. */
  datatype Message = Message(pgn: Option<int>, src: Option<int>,
                             reference: Option<string>, temperatureSource: Option<string>, source: Option<string>)

  datatype Result = Accept | RejectPriority | NoRule | Unconfigured | NotInRule | UnknownSrc | Ignored

  // ----- the rule of a message

  predicate PrefixNoCase(p: string, s: string) {
    |p| <= |s| && forall i | 0 <= i < |p| :: Lower(p[i]) == Lower(s[i])
  }

  predicate Specific(r: Rule, pgn: int, disc: string) {
    r.pgn == pgn && r.disc != "" && PrefixNoCase(r.disc, disc)
  }

  predicate Generic(r: Rule, pgn: int) { r.pgn == pgn && r.disc == "" }

  /** The most specific of the first n rules that fits the message, the first among equals. */
  function Best(rules: seq<Rule>, pgn: int, disc: string, n: nat): (b: Option<nat>)
    requires n <= |rules|
    ensures b.None? ==> forall j | 0 <= j < n :: !Specific(rules[j], pgn, disc)
    ensures b.Some? ==> b.value < n && Specific(rules[b.value], pgn, disc)
    ensures b.Some? ==>
              forall j | 0 <= j < n && Specific(rules[j], pgn, disc) ::
                |rules[j].disc| <= |rules[b.value].disc| && (j < b.value ==> |rules[j].disc| < |rules[b.value].disc|)
  {
    if n == 0 then None
    else
      var b := Best(rules, pgn, disc, n - 1);
      var r := rules[n - 1];
      if Specific(r, pgn, disc) && (b.None? || |r.disc| > |rules[b.value].disc|) then Some(n - 1) else b
  }

  /** The first rule for every message of the PGN. */
  function FirstGeneric(rules: seq<Rule>, pgn: int, n: nat): (g: Option<nat>)
    requires n <= |rules|
    ensures g.None? ==> forall j | 0 <= j < n :: !Generic(rules[j], pgn)
    ensures g.Some? ==> g.value < n && Generic(rules[g.value], pgn) && forall j | 0 <= j < g.value :: !Generic(rules[j], pgn)
  {
    if n == 0 then None
    else
      var g := FirstGeneric(rules, pgn, n - 1);
      if g.None? && Generic(rules[n - 1], pgn) then Some(n - 1) else g
  }

  /** config_rule: the longest discriminant that the observed one starts with, in any
      case of letters, and otherwise the rule without discriminant. */
  function RuleFor(rules: seq<Rule>, pgn: int, disc: string): (r: Option<nat>)
    ensures r.Some? ==> r.value < |rules| && rules[r.value].pgn == pgn
  {
    var b := Best(rules, pgn, disc, |rules|);
    if b.Some? then b else FirstGeneric(rules, pgn, |rules|)
  }

  predicate IsAis(pgn: int) {
    pgn in {129038, 129039, 129040, 129041, 129793, 129794, 129795, 129796, 129797, 129798, 129801, 129802, 129809, 129810}
  }

  /** A mode that the PGN's values cannot be combined in counts as priority. */
  function Effective(pgn: int, mode: Mode): Mode {
    match mode
    case Priority => Priority
    case Min => if pgn == 128267 then mode else Priority
    case Max => if pgn == 128275 then mode else Priority
    case Fusion => if IsAis(pgn) then mode else Priority
  }

  // ----- the slot of a message

  function DiscOf(m: Message): string
    requires m.pgn.Some?
  {
    var pgn := m.pgn.value;
    if pgn == 130306 || pgn == 127250 then (if m.reference.Some? then m.reference.value else "")
    else if pgn == 130312 || pgn == 130316 then
      if m.temperatureSource.Some? then m.temperatureSource.value
      else if m.source.Some? then m.source.value else ""
    else ""
  }

  function NameOf(sources: seq<Source>, ident: string, i: nat): Option<string>
    requires i <= |sources|
    decreases |sources| - i
  {
    if i == |sources| then None
    else if sources[i].ident == ident then Some(sources[i].name)
    else NameOf(sources, ident, i + 1)
  }

  function IndexOf(names: seq<string>, name: string, i: nat): (r: nat)
    requires i <= |names|
    ensures i <= r <= |names|
    ensures r < |names| ==> names[r] == name
    decreases |names| - i
  {
    if i == |names| || names[i] == name then i else IndexOf(names, name, i + 1)
  }

  /** The place of a source in a rule. */
  datatype Slot = Slot(rule: nat, index: nat)

  /** What a message counts for: a slot, or the reason why it counts for none. */
  datatype Route = Stop(result: Result) | At(slot: Slot)

  ghost predicate RouteFits(cfg: Config, r: Route) {
    r.At? ==> r.slot.rule < |cfg.rules| && r.slot.index < |cfg.rules[r.slot.rule].sources|
  }

  predicate Excluded(cfg: Config, m: Message) {
    m.pgn.None? || m.src.None? || m.src.value < 0 || m.pgn.value >= CONTROL_PGN
    || m.src.value in cfg.ignoreSrc || m.pgn.value in cfg.ignorePgn
  }

  function RouteOf(cfg: Config, ds: seq<Device>, m: Message): (r: Route)
    ensures RouteFits(cfg, r)
  {
    if Excluded(cfg, m) then Stop(Ignored)
    else
      var ident := IdentAt(ds, m.src.value);
      var name := if ident.Some? then NameOf(cfg.sources, ident.value, 0) else None;
      var r := RuleFor(cfg.rules, m.pgn.value, DiscOf(m));
      if r.None? then Stop(NoRule)
      else if ident.None? then Stop(UnknownSrc)
      else if name.None? then Stop(Unconfigured)
      else
        var i := IndexOf(cfg.rules[r.value].sources, name.value, 0);
        if i == |cfg.rules[r.value].sources| then Stop(NotInRule) else At(Slot(r.value, i))
  }

  // ----- liveness and the decision

  /** When each slot was last heard. */
  type Heard = map<Slot, nat>

  /** The difference of two unsigned times is small only when now is not in the past. */
  predicate Live(s: Heard, slot: Slot, timeout: nat, now: nat) {
    slot in s && s[slot] <= now && now - s[slot] <= timeout
  }

  /** The first live slot of a rule with n sources, or n. */
  function Winner(s: Heard, rule: nat, n: nat, timeout: nat, now: nat, i: nat): (w: nat)
    requires i <= n
    ensures i <= w <= n
    ensures w < n ==> Live(s, Slot(rule, w), timeout, now)
    ensures forall j | i <= j < w :: !Live(s, Slot(rule, j), timeout, now)
    decreases n - i
  {
    if i == n || Live(s, Slot(rule, i), timeout, now) then i else Winner(s, rule, n, timeout, now, i + 1)
  }

  function HeardAt(s: Heard, r: Route, now: nat): Heard {
    if r.At? then s[r.slot := now] else s
  }

  predicate ByPriority(r: Rule) { Effective(r.pgn, r.mode) == Priority }

  /** The decision, once the message was counted for its slot. */
  function ResultOf(cfg: Config, s: Heard, r: Route, timeout: nat, now: nat): Result
    requires RouteFits(cfg, r)
  {
    match r
    case Stop(result) => result
    case At(slot) =>
      var rule := cfg.rules[slot.rule];
      if ByPriority(rule) && Winner(s, slot.rule, |rule.sources|, timeout, now, 0) != slot.index then RejectPriority
      else Accept
  }

  /** arbiter_current_source. */
  function CurrentSource(cfg: Config, s: Heard, pgn: int, disc: string, timeout: nat, now: nat): Option<string> {
    var r := RuleFor(cfg.rules, pgn, disc);
    if r.None? || !ByPriority(cfg.rules[r.value]) then None
    else
      var names := cfg.rules[r.value].sources;
      var w := Winner(s, r.value, |names|, timeout, now, 0);
      if w == |names| then None else Some(names[w])
  }
}
