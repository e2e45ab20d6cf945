/** What is published after any run of messages reads back as the device table. */
module SourcesOfRun {
  import opened CText
  import opened CNumber
  import opened RegistrySpec
  import RegistryRuns
  import opened SourcesSpec
  import opened SourcesRoundTrip

  ghost predicate OneLineOpt(s: Option<string>) { s.Some? ==> OneLine(s.value) }

  /** A message with 32-bit numbers and no line break in what it says of its sender. */
  ghost predicate Tame(r: Report) {
    && (r.pgn.Some? ==> IsInt(r.pgn.value)) && (r.src.Some? ==> IsInt(r.src.value))
    && OneLineOpt(r.mfg) && OneLineOpt(r.serial) && OneLineOpt(r.model)
  }

  /** A record in which nothing was counted more than n times. */
  ghost predicate Neat(d: Device, n: nat) {
    && IsInt(d.src) && Bounded(d) && d.seen <= n
    && OneLine(d.ident) && OneLine(d.mfg) && OneLine(d.model) && OneLine(d.serial)
    && forall j | 0 <= j < |d.pgns| :: IsInt(d.pgns[j].pgn) && d.pgns[j].count <= n
  }

  ghost predicate AllNeat(ds: seq<Device>, n: nat) {
    forall i | 0 <= i < |ds| :: Neat(ds[i], n)
  }

  lemma CopyOneLine(s: string, sz: nat)
    requires OneLine(s) && sz > 0
    ensures OneLine(Copy(s, sz))
  {
  }

  lemma {:induction false} FieldsNeat(d: Device, r: Report, n: nat)
    requires Neat(d, n) && Tame(r)
    ensures Neat(WithMfg(d, r), n) && Neat(WithProduct(d, r), n)
  {
    hide OneLine, Copy;
    if r.mfg.Some? { CopyOneLine(r.mfg.value, MFG_LEN); }
    if r.serial.Some? { CopyOneLine(r.serial.value, SERIAL_LEN); }
    if r.model.Some? { CopyOneLine(r.model.value, MODEL_LEN); }
  }

  lemma {:induction false} CountedNeat(d: Device, pgn: int, n: nat)
    requires Neat(d, n) && IsInt(pgn)
    ensures Neat(Counted(d, pgn), n + 1)
  {
    hide Copy, Decimal;
    CopyOneLine(d.serial, IDENT_LEN);
    if d.unique.Some? {
      var u := Decimal(d.unique.value);
      assert OneLine(u);
      CopyOneLine(u, IDENT_LEN);
    }
    assert OneLine("");
  }

  lemma NewNeat(src: int, u: Option<nat>, n: nat)
    requires IsInt(src)
    ensures Neat(NewDevice.(src := src, unique := u), n)
  {
  }

  lemma {:induction false} MovedNeat(n: nat)
    ensures forall d: Device, s: int | Neat(d, n) && IsInt(s) :: Neat(d.(src := s), n)
    ensures forall d: Device, u: Option<nat> | Neat(d, n) :: Neat(d.(unique := u), n)
    ensures forall d: Device | Neat(d, n) :: Neat(d, n + 1)
  {
    hide OneLine;
  }

  lemma {:induction false} PlaceNeat(ds: seq<Device>, r: Report, pgn: int, src: int, n: nat)
    requires AllNeat(ds, n) && Tame(r) && IsInt(src)
    ensures AllNeat(Place(ds, r, pgn, src).ds, n)
  {
    hide Neat, WithMfg, WithProduct;
    MovedNeat(n);
    NewNeat(src, r.unique, n);
    NewNeat(src, None, n);
    var p := if pgn == PGN_CLAIM && r.unique.Some? then ClaimUnique(ds, src, r.unique.value) else TouchSrc(ds, src);
    assert AllNeat(p.ds, n);
    if p.at.Some? {
      FieldsNeat(p.ds[p.at.value], r, n);
    }
  }

  lemma {:induction false} ObservedNeat(ds: seq<Device>, r: Report, n: nat)
    requires AllNeat(ds, n) && Tame(r)
    ensures AllNeat(Observed(ds, r).ds, n + 1)
  {
    hide Neat, Place, Counted;
    MovedNeat(n);
    if r.pgn.Some? && r.src.Some? && r.src.value >= 0 {
      PlaceNeat(ds, r, r.pgn.value, r.src.value, n);
      var p := Place(ds, r, r.pgn.value, r.src.value);
      if p.at.Some? {
        CountedNeat(p.ds[p.at.value], r.pgn.value, n);
      }
    }
  }

  lemma {:induction false} RunNeat(rs: seq<Report>)
    requires forall i | 0 <= i < |rs| :: Tame(rs[i])
    ensures AllNeat(RegistryRuns.Run(rs), |rs|)
  {
    hide Observed, Neat;
    if rs != [] {
      RunNeat(rs[..|rs| - 1]);
      ObservedNeat(RegistryRuns.Run(rs[..|rs| - 1]), rs[|rs| - 1], |rs| - 1);
    }
  }

  /** The record without the fields that are not published. */
  function Shown(d: Device): Entry {
    Entry(d.src, d.ident, d.mfg, d.model, d.serial, d.seen, d.pgns)
  }

  lemma {:induction false} ViewIsShown(d: Device, n: nat)
    requires Neat(d, n) && n <= LONG_MAX
    ensures Publishable(d) && View(d) == Shown(d)
  {
    hide OneLine;
    assert ViewPgns(d.pgns) == d.pgns;
  }

  /** After any run of messages, what is published reads back as the table itself:
      every device in its place, with address, identity, names, counters and PGNs. */
  lemma {:induction false} RunReadsBack(rs: seq<Report>)
    requires |rs| <= LONG_MAX && forall i | 0 <= i < |rs| :: Tame(rs[i])
    ensures var ds := RegistryRuns.Run(rs);
            Loaded(Json(ds), []) == seq(|ds|, i requires 0 <= i < |ds| => Shown(ds[i]))
  {
    hide Json, Loaded, Neat, Publishable, View, Shown, RegistryRuns.Settled;
    var ds := RegistryRuns.Run(rs);
    RegistryRuns.RunConsistent(rs);
    RunNeat(rs);
    forall k | 0 <= k < |ds| ensures Publishable(ds[k]) && View(ds[k]) == Shown(ds[k]) {
      ViewIsShown(ds[k], |rs|);
    }
    PublishedReadBack(ds);
    assert Views(ds) == seq(|ds|, i requires 0 <= i < |ds| => Shown(ds[i]));
  }
}
