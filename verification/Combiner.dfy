/** One value out of several sensors: the shallowest fresh depth, or the greatest fresh
    log, sent once and by the sensor that holds it: src/mapper.c (map_depth_min, map_log_max). */
module Combiner {
  import opened CText
  import opened ArbiterSpec

  /** Which of two readings is preferred. */
  datatype Goal = Least | Greatest {
    predicate Prefers(a: real, b: real) { if Least? then a < b else a > b }
  }

  /** A depth or a log, what came with it (the offset, or the trip log), and when it was read. */
  datatype Reading = Reading(value: real, extra: Option<real>, t: nat)

  /** The latest reading of every slot of the rule. */
  type Latest = seq<Option<Reading>>

  /** An accepted message: its sensor's name and its values, when they are known. */
  datatype Sounding = Sounding(name: Option<string>, value: Option<real>, extra: Option<real>, now: nat)

  /** The slot that a message is a reading of, or the number of slots. */
  function SlotOf(names: seq<string>, m: Sounding): (slot: nat)
    ensures slot <= |names|
    ensures slot < |names| ==> m.value.Some? && m.name == Some(names[slot])
  {
    if m.name.None? || m.value.None? then |names| else IndexOf(names, m.name.value, 0)
  }

  function ReadingOf(m: Sounding): Reading
    requires m.value.Some?
  {
    Reading(m.value.value, m.extra, m.now)
  }

  predicate IsFresh(r: Option<Reading>, timeout: nat, now: nat) {
    r.Some? && r.value.t <= now && now - r.value.t <= timeout
  }

  /** Reading a of an earlier slot wins over b when b is not preferred. */
  predicate Beats(g: Goal, a: Reading, b: Reading, earlier: bool) {
    if earlier then !g.Prefers(b.value, a.value) else g.Prefers(a.value, b.value)
  }

  /** The first slot that holds the best fresh value. */
  ghost predicate IsBest(g: Goal, s: Latest, n: nat, slot: nat, timeout: nat, now: nat)
    requires n <= |s|
  {
    && slot < n && IsFresh(s[slot], timeout, now)
    && forall i | 0 <= i < n && i != slot && IsFresh(s[i], timeout, now) :: Beats(g, s[slot].value, s[i].value, slot < i)
  }

  // ----- the history that the arrays stand for

  /** The latest reading of a slot in a history of messages. */
  function LastReading(names: seq<string>, h: seq<Sounding>, slot: nat): Option<Reading> {
    if h == [] then None
    else
      var m := h[|h| - 1];
      if SlotOf(names, m) == slot && slot < |names| then Some(ReadingOf(m)) else LastReading(names, h[..|h| - 1], slot)
  }

  ghost predicate Remembers(s: Latest, names: seq<string>, h: seq<Sounding>) {
    |names| <= |s| && forall i | 0 <= i < |names| :: s[i] == LastReading(names, h, i)
  }

  /** The slot's latest reading in the history is the best of the fresh ones, and no earlier slot's is as good. */
  ghost predicate Leads(g: Goal, names: seq<string>, h: seq<Sounding>, slot: nat, timeout: nat, now: nat) {
    var mine := LastReading(names, h, slot);
    && slot < |names| && IsFresh(mine, timeout, now)
    && forall i | 0 <= i < |names| && i != slot ::
         var other := LastReading(names, h, i);
         IsFresh(other, timeout, now) ==> Beats(g, mine.value, other.value, slot < i)
  }

  lemma {:induction false} BestInHistory(g: Goal, s: Latest, names: seq<string>, h: seq<Sounding>, slot: nat, timeout: nat, now: nat)
    requires Remembers(s, names, h)
    ensures IsBest(g, s, |names|, slot, timeout, now) <==> Leads(g, names, h, slot, timeout, now)
  {
    hide LastReading, IsFresh, Beats;
  }

  lemma {:induction false} HistoryGrows(names: seq<string>, h: seq<Sounding>, m: Sounding, i: nat)
    ensures LastReading(names, h + [m], i)
         == if SlotOf(names, m) == i && i < |names| then Some(ReadingOf(m)) else LastReading(names, h, i)
  {
    assert (h + [m])[..|h|] == h;
  }

  /** At most one slot leads. */
  lemma {:induction false} OneLeads(g: Goal, names: seq<string>, h: seq<Sounding>, a: nat, b: nat, timeout: nat, now: nat)
    requires Leads(g, names, h, a, timeout, now) && Leads(g, names, h, b, timeout, now)
    ensures a == b
  {
    hide LastReading;
  }

  // ----- the same, told by the messages alone

  /** The message is a reading of the slot: the slot is the first one with the sensor's name. */
  ghost predicate ReadsSlot(names: seq<string>, m: Sounding, slot: nat) {
    && m.value.Some? && m.name.Some? && slot < |names| && names[slot] == m.name.value
    && forall j | 0 <= j < slot :: names[j] != m.name.value
  }

  /** The k-th message is the last reading of the slot, at most timeout old. */
  ghost predicate FreshFrom(names: seq<string>, h: seq<Sounding>, slot: nat, k: nat, timeout: nat, now: nat) {
    && k < |h| && ReadsSlot(names, h[k], slot) && h[k].now <= now <= h[k].now + timeout
    && forall j | k < j < |h| :: !ReadsSlot(names, h[j], slot)
  }

  lemma {:induction false} SlotIs(names: seq<string>, m: Sounding, slot: nat)
    requires slot < |names|
    ensures SlotOf(names, m) == slot <==> ReadsSlot(names, m, slot)
  {
    if m.name.Some? && m.value.Some? { FirstIndex(names, m.name.value, 0); }
  }

  lemma {:induction false} FirstIndex(names: seq<string>, name: string, from: nat)
    requires from <= |names|
    ensures forall j | from <= j < IndexOf(names, name, from) :: names[j] != name
    decreases |names| - from
  {
    if from < |names| && names[from] != name {
      FirstIndex(names, name, from + 1);
    }
  }

  /** A slot's reading is the value, what came with it, and the time of a message. */
  ghost predicate Holds(r: Option<Reading>, h: seq<Sounding>, k: nat) {
    k < |h| && h[k].value.Some? && r == Some(Reading(h[k].value.value, h[k].extra, h[k].now))
  }

  ghost predicate ReadFrom(r: Option<Reading>, names: seq<string>, h: seq<Sounding>, slot: nat, timeout: nat, now: nat) {
    && (IsFresh(r, timeout, now) ==> exists k: nat :: FreshFrom(names, h, slot, k, timeout, now))
    && (forall k: nat | FreshFrom(names, h, slot, k, timeout, now) :: r.Some? && IsFresh(r, timeout, now) && Holds(r, h, k))
  }

  lemma {:induction false} LastIs(names: seq<string>, h: seq<Sounding>, slot: nat, timeout: nat, now: nat)
    requires slot < |names|
    ensures ReadFrom(LastReading(names, h, slot), names, h, slot, timeout, now)
  {
    if h != [] {
      var n := |h| - 1;
      SlotIs(names, h[n], slot);
      if SlotOf(names, h[n]) == slot {
        hide SlotOf, ReadsSlot;
        if IsFresh(LastReading(names, h, slot), timeout, now) { assert FreshFrom(names, h, slot, n, timeout, now); }
      } else {
        hide SlotOf, ReadsSlot;
        var before := h[..n];
        LastIs(names, before, slot, timeout, now);
        forall k: nat ensures FreshFrom(names, h, slot, k, timeout, now) <==> FreshFrom(names, before, slot, k, timeout, now) {
          assert k < n ==> before[k] == h[k];
        }
      }
    }
  }

  /** The k-th message's value is better than the l-th one's, or as good for an earlier slot. */
  ghost predicate Wins(g: Goal, h: seq<Sounding>, k: nat, slot: nat, l: nat, other: nat) {
    && k < |h| && l < |h| && h[k].value.Some? && h[l].value.Some?
    && var a, b := h[k].value.value, h[l].value.value;
       (match g case Least => a < b case Greatest => a > b) || (a == b && slot < other)
  }

  lemma {:induction false} WinsIs(g: Goal, names: seq<string>, h: seq<Sounding>, k: nat, slot: nat, l: nat, other: nat)
    requires slot != other
    requires Holds(LastReading(names, h, slot), h, k) && Holds(LastReading(names, h, other), h, l)
    ensures Beats(g, LastReading(names, h, slot).value, LastReading(names, h, other).value, slot < other) <==> Wins(g, h, k, slot, l, other)
  {
    hide LastReading;
  }

  /** Whether a slot leads, told by the messages: its last reading is fresh, and wins over every
      other slot's fresh last reading. */
  lemma {:induction false} LeadsIs(g: Goal, names: seq<string>, h: seq<Sounding>, slot: nat, timeout: nat, now: nat)
    ensures Leads(g, names, h, slot, timeout, now) <==>
            exists k: nat ::
              && slot < |names| && FreshFrom(names, h, slot, k, timeout, now)
              && forall i: nat, l: nat | i < |names| && i != slot && FreshFrom(names, h, i, l, timeout, now) :: Wins(g, h, k, slot, l, i)
  {
    hide LastReading, IsFresh, FreshFrom, Holds, Wins, Beats;
    if slot < |names| {
      forall i: nat | i < |names| ensures ReadFrom(LastReading(names, h, i), names, h, i, timeout, now) {
        LastIs(names, h, i, timeout, now);
      }
      forall k: nat, i: nat, l: nat
        | i < |names| && i != slot && FreshFrom(names, h, slot, k, timeout, now) && FreshFrom(names, h, i, l, timeout, now)
        ensures Beats(g, LastReading(names, h, slot).value, LastReading(names, h, i).value, slot < i) <==> Wins(g, h, k, slot, l, i)
      {
        WinsIs(g, names, h, k, slot, l, i);
      }
    }
  }

  // ----- the tables

  /** The arrays for one of the two values. */
  class Bank {
    const goal: Goal
    const values: array<real>
    const extras: array<Option<real>>
    const times: array<nat>
    const seen: array<bool>
    var timeout: nat
    ghost var latest: Latest
    ghost var history: seq<Sounding>

    ghost predicate Valid(names: seq<string>)
      reads this, values, extras, times, seen
    {
      && values.Length == MAX_PRIO && extras.Length == MAX_PRIO && times.Length == MAX_PRIO && seen.Length == MAX_PRIO
      && |latest| == MAX_PRIO
      && (forall i | 0 <= i < MAX_PRIO :: latest[i] == if seen[i] then Some(Reading(values[i], extras[i], times[i])) else None)
      && |names| <= MAX_PRIO && Remembers(latest, names, history)
    }

    constructor (g: Goal)
      ensures fresh(values) && fresh(extras) && fresh(times) && fresh(seen)
      ensures goal == g && history == [] && timeout == DEFAULT_TIMEOUT_MS
      ensures forall names: seq<string> | |names| <= MAX_PRIO :: Valid(names)
    {
      goal := g;
      values := new real[MAX_PRIO](i => 0.0);
      extras := new Option<real>[MAX_PRIO](i => None);
      times := new nat[MAX_PRIO](i => 0);
      seen := new bool[MAX_PRIO](i => false);
      timeout := DEFAULT_TIMEOUT_MS;
      latest := seq(MAX_PRIO, i => None);
      history := [];
    }

    method Store(i: nat, m: Sounding, ghost names: seq<string>)
      requires Valid(names) && i == SlotOf(names, m) < |names|
      modifies values, extras, times, seen, this`latest, this`history
      ensures Valid(names) && history == old(history) + [m] && latest == old(latest)[i := Some(ReadingOf(m))]
    {
      hide LastReading, SlotOf;
      values[i] := m.value.value;
      extras[i] := m.extra;
      times[i] := m.now;
      seen[i] := true;
      latest := latest[i := Some(ReadingOf(m))];
      forall k | 0 <= k < |names| ensures latest[k] == LastReading(names, history + [m], k) {
        HistoryGrows(names, history, m, k);
      }
      history := history + [m];
    }

    /** The loop over the slots: the first one with the best fresh value. */
    method Best(n: nat, now: nat, ghost names: seq<string>) returns (slot: int)
      requires Valid(names) && n == |names|
      ensures slot >= 0 ==> IsBest(goal, latest, n, slot, timeout, now)
      ensures slot < 0 ==> forall i | 0 <= i < n :: !IsFresh(latest[i], timeout, now)
    {
      hide Remembers;
      slot := -1;
      var best := 0.0;
      for i := 0 to n
        invariant slot < 0 ==> forall j | 0 <= j < i :: !IsFresh(latest[j], timeout, now)
        invariant slot >= 0 ==> IsBest(goal, latest, i, slot, timeout, now) && best == values[slot]
      {
        if seen[i] && times[i] <= now && now - times[i] <= timeout {
          if slot < 0 || goal.Prefers(values[i], best) {
            best := values[i];
            slot := i;
          }
        }
      }
    }

    /** A value is sent exactly when the message's sensor is, in the whole history, the first
        one that holds the best fresh value; what is sent is that value and what came with it. */
    method Submit(names: seq<string>, m: Sounding) returns (sent: Option<Reading>)
      requires Valid(names)
      modifies values, extras, times, seen, this`latest, this`history
      ensures Valid(names)
      ensures SlotOf(names, m) == |names| ==> sent == None && history == old(history)
      ensures SlotOf(names, m) < |names| ==>
                && history == old(history) + [m]
                && (sent.Some? <==> Leads(goal, names, history, SlotOf(names, m), timeout, m.now))
                && (sent.Some? ==> sent == Some(ReadingOf(m)))
    {
      hide Remembers, LastReading, Leads, SlotOf, Beats;
      var slot := SlotOf(names, m);
      if slot == |names| {
        return None;
      }
      Store(slot, m, names);
      var b := Best(|names|, m.now, names);
      BestInHistory(goal, latest, names, history, slot, timeout, m.now);
      if b >= 0 {
        BestInHistory(goal, latest, names, history, b, timeout, m.now);
      }
      if b != slot {
        if Leads(goal, names, history, slot, timeout, m.now) && b >= 0 {
          OneLeads(goal, names, history, b, slot, timeout, m.now);
        }
        return None;
      }
      return Some(Reading(values[b], extras[b], times[b]));
    }
  }
}
