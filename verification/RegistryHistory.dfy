/** Every record of the device table, told by the messages that were counted for it. */
module RegistryHistory {
  import opened CText
  import opened CNumber
  import opened RegistrySpec
  import opened RegistryRuns

  // ----- the record a message is counted for

  ghost predicate Heeded(r: Report) { r.pgn.Some? && r.src.Some? && r.src.value >= 0 }

  /** The Unique Number that a claim gives. */
  function ClaimOf(r: Report): Option<nat> { if r.pgn == Some(60928) then r.unique else None }

  /** A message belongs to the record with its Unique Number; else to the one at its address,
      unless both have a Unique Number; else to a new one, while there is room. */
  lemma {:induction false} PlacedWhere(ds: seq<Device>, r: Report)
    requires Consistent(ds)
    ensures var at, u := Observed(ds, r).at, ClaimOf(r);
            && (!Heeded(r) ==> at == None)
            && (Heeded(r) ==>
                  && (forall k | 0 <= k < |ds| && u.Some? && ds[k].unique == u :: at == Some(k))
                  && ((forall k | 0 <= k < |ds| && u.Some? :: ds[k].unique != u) ==>
                        && (forall k | 0 <= k < |ds| && ds[k].src == r.src.value && (u.None? || ds[k].unique.None?) :: at == Some(k))
                        && ((forall k | 0 <= k < |ds| && ds[k].src == r.src.value :: u.Some? && ds[k].unique.Some?) ==>
                              at == if |ds| < 64 then Some(|ds|) else None)))
  {
    hide Settled, WithMfg, WithProduct, Counted;
    if Heeded(r) {
      var a := r.src.value;
      hide Place;
      PlaceAt(ds, r);
      if ClaimOf(r).Some? {
        ClaimPlaced(ds, a, r.unique.value);
      } else {
        TouchPlaced(ds, a);
      }
    }
  }

  lemma {:induction false} PlaceAt(ds: seq<Device>, r: Report)
    requires Heeded(r)
    ensures var p := Place(ds, r, r.pgn.value, r.src.value);
            p.at == if ClaimOf(r).Some? then ClaimUnique(ds, r.src.value, r.unique.value).at else TouchSrc(ds, r.src.value).at
  {
    hide ClaimUnique, TouchSrc, WithMfg, WithProduct;
  }

  lemma {:induction false} ClaimPlaced(ds: seq<Device>, a: int, u: nat)
    requires Consistent(ds) && a >= 0
    ensures var at := ClaimUnique(ds, a, u).at;
            && (forall k | 0 <= k < |ds| && ds[k].unique == Some(u) :: at == Some(k))
            && ((forall k | 0 <= k < |ds| :: ds[k].unique != Some(u)) ==>
                  && (forall k | 0 <= k < |ds| && ds[k].src == a && ds[k].unique.None? :: at == Some(k))
                  && ((forall k | 0 <= k < |ds| && ds[k].src == a :: ds[k].unique.Some?) ==>
                        at == if |ds| < 64 then Some(|ds|) else None))
  {
    hide Settled;
  }

  lemma {:induction false} TouchPlaced(ds: seq<Device>, a: int)
    requires Consistent(ds) && a >= 0
    ensures var at := TouchSrc(ds, a).at;
            && (forall k | 0 <= k < |ds| && ds[k].src == a :: at == Some(k))
            && ((forall k | 0 <= k < |ds| :: ds[k].src != a) ==> at == if |ds| < 64 then Some(|ds|) else None)
  {
    hide Settled;
  }

  // ----- what one message does

  function RecordOr(ds: seq<Device>, k: nat): Device { if k < |ds| then ds[k] else NewDevice }

  /** The records that a message is not counted for: whoever holds its address gives it up. */
  ghost predicate OthersKept(ds: seq<Device>, a: int, at: Option<nat>, es: seq<Device>) {
    && (match at case None => |es| == |ds| case Some(k) => k < |es| && k <= |ds| && |es| == if k < |ds| then |ds| else |ds| + 1)
    && forall i | 0 <= i < |ds| && at != Some(i) :: es[i] == if ds[i].src == a then ds[i].(src := ADDR_NULL) else ds[i]
  }

  lemma {:induction false} ClaimTold(ds: seq<Device>, a: int, u: nat)
    requires Consistent(ds) && a >= 0
    ensures var p := ClaimUnique(ds, a, u);
            && OthersKept(ds, a, p.at, p.ds)
            && (p.at.Some? ==> p.ds[p.at.value] == RecordOr(ds, p.at.value).(src := a, unique := Some(u)))
  {
    hide Settled;
    assert OneAddress(ds);
  }

  lemma {:induction false} TouchTold(ds: seq<Device>, a: int)
    requires Consistent(ds) && a >= 0
    ensures var p := TouchSrc(ds, a);
            && OthersKept(ds, a, p.at, p.ds)
            && (p.at.Some? ==> p.ds[p.at.value] == RecordOr(ds, p.at.value).(src := a))
  {
    hide Settled;
    assert OneAddress(ds);
  }

  /** What a record keeps of a claim and of product information. */
  datatype Topic = Model | Serial | Manufacturer | Code

  datatype Fact = Words(s: string) | Number(n: Option<int>)

  /** What a message says on a topic: product information that is not empty, or a claim. */
  function Said(r: Report, t: Topic): Option<Fact> {
    match t
    case Model => if r.pgn == Some(126996) && r.model.Some? && r.model.value != "" then Some(Words(Copy(r.model.value, 48))) else None
    case Serial => if r.pgn == Some(126996) && r.serial.Some? && r.serial.value != "" then Some(Words(Copy(r.serial.value, 48))) else None
    case Manufacturer => if r.pgn == Some(60928) && r.mfg.Some? then Some(Words(Copy(r.mfg.value, 48))) else None
    case Code => if r.pgn == Some(60928) && r.mfgCode.Some? then Some(Number(r.mfgCode)) else None
  }

  function Known(d: Device, t: Topic): Fact {
    match t
    case Model => Words(d.model)
    case Serial => Words(d.serial)
    case Manufacturer => Words(d.mfg)
    case Code => Number(d.mfgCode)
  }

  /** How the record that a message is counted for changes. */
  ghost predicate Told(o: Device, d: Device, r: Report)
    requires Heeded(r)
  {
    && d.src == r.src.value && d.unique == (if ClaimOf(r).Some? then ClaimOf(r) else o.unique)
    && (forall t: Topic :: Known(d, t) == if Said(r, t).Some? then Said(r, t).value else Known(o, t))
    && d.seen == o.seen + 1 && d.pgns == Bumped(o.pgns, r.pgn.value)
  }

  lemma {:induction false} FieldsTold(o: Device, r: Report)
    requires Heeded(r)
    ensures var e := o.(src := r.src.value, unique := if ClaimOf(r).Some? then ClaimOf(r) else o.unique);
            var f := if r.pgn.value == PGN_CLAIM then WithMfg(e, r) else if r.pgn.value == PGN_PRODUCT then WithProduct(e, r) else e;
            Told(o, Counted(f, r.pgn.value), r)
  {
    hide Bumped, Cascade, Copy;
  }

  lemma {:induction false} Written(ds: seq<Device>, a: int, p: Placed, d: Device)
    requires p.at.Some? && OthersKept(ds, a, p.at, p.ds)
    ensures OthersKept(ds, a, p.at, p.ds[p.at.value := d])
  {
  }

  lemma {:induction false} ObservedTold(ds: seq<Device>, r: Report)
    requires Consistent(ds) && Heeded(r)
    ensures var p := Observed(ds, r);
            && OthersKept(ds, r.src.value, p.at, p.ds)
            && (p.at.Some? ==> Told(RecordOr(ds, p.at.value), p.ds[p.at.value], r))
  {
    hide Consistent, OthersKept, Told, ClaimUnique, TouchSrc, WithMfg, WithProduct, Counted, RecordOr;
    var a, pgn := r.src.value, r.pgn.value;
    if ClaimOf(r).Some? { ClaimTold(ds, a, r.unique.value); } else { TouchTold(ds, a); }
    var p := if ClaimOf(r).Some? then ClaimUnique(ds, a, r.unique.value) else TouchSrc(ds, a);
    if p.at.Some? {
      var k := p.at.value;
      assert k < |p.ds| by { WellPlaced(ds, a, p); }
      FieldsTold(RecordOr(ds, k), r);
      var q := Place(ds, r, pgn, a);
      Written(ds, a, p, q.ds[k]);
      Written(ds, a, q, Counted(q.ds[k], pgn));
    }
  }

  lemma WellPlaced(ds: seq<Device>, a: int, p: Placed)
    requires OthersKept(ds, a, p.at, p.ds) && p.at.Some?
    ensures p.at.value < |p.ds|
  {
  }

  // ----- runs

  /** The i-th message was counted for the k-th record. */
  predicate For(rs: seq<Report>, i: nat, k: nat) {
    i < |rs| && Observed(Run(rs[..i]), rs[i]).at == Some(k)
  }

  lemma {:induction false} ForBefore(rs: seq<Report>, i: nat, k: nat)
    requires rs != [] && i < |rs| - 1
    ensures For(rs, i, k) == For(rs[..|rs| - 1], i, k)
  {
    assert rs[..|rs| - 1][..i] == rs[..i];
  }

  lemma {:induction false} AllForBefore(rs: seq<Report>, k: nat)
    requires rs != []
    ensures forall i: nat | i < |rs| - 1 :: For(rs, i, k) == For(rs[..|rs| - 1], i, k)
  {
    forall i: nat | i < |rs| - 1 ensures For(rs, i, k) == For(rs[..|rs| - 1], i, k) {
      ForBefore(rs, i, k);
    }
  }

  lemma {:induction false} ForHeeded(rs: seq<Report>, i: nat, k: nat)
    requires For(rs, i, k)
    ensures Heeded(rs[i])
  {
    hide Place, Run;
  }

  /** The last message, for one record: what it was, what it is, and whether the message was counted for it. */
  lemma {:induction false} LastStep(rs: seq<Report>, k: nat)
    requires rs != [] && k < |Run(rs)|
    ensures var n := |rs| - 1;
            var (ds, r, d) := (Run(rs[..n]), rs[n], Run(rs)[k]);
            && (For(rs, n, k) ==> Heeded(r) && Told(RecordOr(ds, k), d, r))
            && (!For(rs, n, k) ==>
                  k < |ds| && d == if Heeded(r) && ds[k].src == r.src.value then ds[k].(src := ADDR_NULL) else ds[k])
            && (Heeded(r) && !For(rs, n, k) ==> d.src != r.src.value)
  {
    hide Consistent, Place, Told;
    var n := |rs| - 1;
    var ds, r := Run(rs[..n]), rs[n];
    RunConsistent(rs[..n]);
    hide Run;
    if Heeded(r) { ObservedTold(ds, r); }
  }

  /** Records have no messages from before they were made. */
  lemma {:induction false} NoneFor(rs: seq<Report>, k: nat)
    requires k >= |Run(rs)|
    ensures forall i: nat :: !For(rs, i, k)
  {
    hide Place;
    if rs != [] {
      var n := |rs| - 1;
      RecordsGrow(rs);
      NoneFor(rs[..n], k);
      AllForBefore(rs, k);
    }
  }

  lemma {:induction false} RecordsGrow(rs: seq<Report>)
    requires rs != []
    ensures |Run(rs[..|rs| - 1])| <= |Run(rs)|
    ensures var at := Observed(Run(rs[..|rs| - 1]), rs[|rs| - 1]).at; at.Some? ==> at.value < |Run(rs)|
  {
    hide Place, Consistent;
    var n := |rs| - 1;
    RunConsistent(rs[..n]);
    if Heeded(rs[n]) { ObservedTold(Run(rs[..n]), rs[n]); }
  }

  // ----- counters

  /** How many messages, with one PGN or at all, were counted for the record. */
  function CountFor(rs: seq<Report>, k: nat, q: Option<int>): nat {
    if rs == [] then 0
    else
      var n := |rs| - 1;
      CountFor(rs[..n], k, q) + if For(rs, n, k) && (q.None? || rs[n].pgn == q) then 1 else 0
  }

  lemma {:induction false} NoneCounted(rs: seq<Report>, k: nat, q: Option<int>)
    requires forall i: nat :: !For(rs, i, k)
    ensures CountFor(rs, k, q) == 0
  {
    if rs != [] {
      hide For;
      var before := rs[..|rs| - 1];
      forall i: nat ensures !For(before, i, k) {
        NoneLater(before, k);
        if i < |rs| - 1 { ForBefore(rs, i, k); }
      }
      NoneCounted(before, k, q);
    }
  }

  predicate Listed(ps: seq<PgnCount>, q: int) { exists j :: 0 <= j < |ps| && ps[j].pgn == q }

  /** Every listed PGN has its exact count, and while the list has room every PGN that counts is listed. */
  ghost predicate Tallies(ps: seq<PgnCount>, count: int -> nat) {
    && |ps| <= 40
    && (forall j | 0 <= j < |ps| :: ps[j].count == count(ps[j].pgn) > 0)
    && (forall i, j | 0 <= i < j < |ps| :: ps[i].pgn != ps[j].pgn)
    && (|ps| < 40 ==> forall q :: Listed(ps, q) <==> count(q) > 0)
  }

  /** A record's counters are those of the messages counted for it. */
  ghost predicate Exact(rs: seq<Report>, k: nat, d: Device) {
    d.seen == CountFor(rs, k, None) && Tallies(d.pgns, q => CountFor(rs, k, Some(q)))
  }

  lemma {:induction false} OneMoreListed(ps: seq<PgnCount>, i: nat, c: int -> nat, d: int -> nat)
    requires Tallies(ps, c) && i < |ps| && forall p :: d(p) == c(p) + if p == ps[i].pgn then 1 else 0
    ensures Tallies(ps[i := PgnCount(ps[i].pgn, ps[i].count + 1)], d)
  {
    hide Listed;
    SameListed(ps, ps[i := PgnCount(ps[i].pgn, ps[i].count + 1)]);
  }

  lemma {:induction false} OneNewListed(ps: seq<PgnCount>, q: int, c: int -> nat, d: int -> nat)
    requires Tallies(ps, c) && |ps| < 40 && !Listed(ps, q) && forall p :: d(p) == c(p) + if p == q then 1 else 0
    ensures Tallies(ps + [PgnCount(q, 1)], d)
  {
    var x := PgnCount(q, 1);
    forall j | 0 <= j < |ps| ensures ps[j].pgn != q { assert !Listed(ps, q); }
    hide Listed;
    MoreListed(ps, x);
  }

  lemma {:induction false} BumpedTallies(ps: seq<PgnCount>, q: int, c: int -> nat, d: int -> nat)
    requires Tallies(ps, c) && forall p :: d(p) == c(p) + if p == q then 1 else 0
    ensures Tallies(Bumped(ps, q), d)
  {
    hide Tallies;
    assert |ps| <= 40 by { TallyShort(ps, c); }
    var i := FindPgn(ps, q, 0);
    if i < |ps| {
      OneMoreListed(ps, i, c, d);
    } else if |ps| < MAX_PGNS {
      OneNewListed(ps, q, c, d);
    } else {
      TallyFull(ps, q, c, d);
    }
  }

  lemma TallyShort(ps: seq<PgnCount>, c: int -> nat)
    requires Tallies(ps, c)
    ensures |ps| <= 40
  {
  }

  lemma {:induction false} TallyFull(ps: seq<PgnCount>, q: int, c: int -> nat, d: int -> nat)
    requires Tallies(ps, c) && |ps| >= 40 && (forall j | 0 <= j < |ps| :: ps[j].pgn != q)
    requires forall p :: d(p) == c(p) + if p == q then 1 else 0
    ensures Tallies(ps, d)
  {
  }

  lemma {:induction false} BumpedExact(rs: seq<Report>, k: nat, o: Device, d: Device)
    requires rs != [] && For(rs, |rs| - 1, k) && rs[|rs| - 1].pgn.Some? && Exact(rs[..|rs| - 1], k, o)
    requires d.seen == o.seen + 1 && d.pgns == Bumped(o.pgns, rs[|rs| - 1].pgn.value)
    ensures Exact(rs, k, d)
  {
    hide For, Tallies, Bumped;
    var before := rs[..|rs| - 1];
    BumpedTallies(o.pgns, rs[|rs| - 1].pgn.value, q => CountFor(before, k, Some(q)), q => CountFor(rs, k, Some(q)));
  }

  lemma {:induction false} SameListed(ps: seq<PgnCount>, qs: seq<PgnCount>)
    requires |ps| == |qs| && forall j | 0 <= j < |ps| :: qs[j].pgn == ps[j].pgn
    ensures forall p :: Listed(qs, p) <==> Listed(ps, p)
  {
    forall p ensures Listed(qs, p) <==> Listed(ps, p) {
      if Listed(ps, p) {
        var j :| 0 <= j < |ps| && ps[j].pgn == p;
        assert qs[j].pgn == p;
      }
    }
  }

  lemma {:induction false} MoreListed(ps: seq<PgnCount>, x: PgnCount)
    ensures forall p :: Listed(ps + [x], p) <==> Listed(ps, p) || p == x.pgn
  {
    var qs := ps + [x];
    forall p ensures Listed(qs, p) <==> Listed(ps, p) || p == x.pgn {
      if Listed(ps, p) {
        var j :| 0 <= j < |ps| && ps[j].pgn == p;
        assert qs[j].pgn == p;
      }
      assert qs[|ps|] == x;
    }
  }

  lemma {:induction false} SameTallies(ps: seq<PgnCount>, c: int -> nat, d: int -> nat)
    requires Tallies(ps, c) && forall p :: d(p) == c(p)
    ensures Tallies(ps, d)
  {
  }

  lemma {:induction false} SameExact(rs: seq<Report>, k: nat, o: Device, d: Device)
    requires rs != [] && !For(rs, |rs| - 1, k) && Exact(rs[..|rs| - 1], k, o)
    requires d.seen == o.seen && d.pgns == o.pgns
    ensures Exact(rs, k, d)
  {
    hide For, Tallies;
    var before := rs[..|rs| - 1];
    SameTallies(o.pgns, q => CountFor(before, k, Some(q)), q => CountFor(rs, k, Some(q)));
  }

  lemma {:induction false} NewExact(rs: seq<Report>, k: nat)
    requires forall q :: CountFor(rs, k, q) == 0
    ensures Exact(rs, k, NewDevice)
  {
  }

  /** A record has seen exactly the messages that were counted for it, PGN by PGN. */
  lemma {:induction false} CountsExact(rs: seq<Report>, k: nat)
    requires k < |Run(rs)|
    ensures Exact(rs, k, Run(rs)[k])
  {
    hide Run, For, Exact;
    if rs == [] {
      assert Run([]) == [] by { NothingRun(); }
    } else {
      var n := |rs| - 1;
      var ds := Run(rs[..n]);
      LastStep(rs, k);
      if k < |ds| {
        CountsExact(rs[..n], k);
      } else {
        NoneFor(rs[..n], k);
        forall q ensures CountFor(rs[..n], k, q) == 0 { NoneCounted(rs[..n], k, q); }
        NewExact(rs[..n], k);
      }
      hide CountFor;
      if For(rs, n, k) {
        BumpedExact(rs, k, RecordOr(ds, k), Run(rs)[k]);
      } else {
        SameExact(rs, k, ds[k], Run(rs)[k]);
      }
    }
  }

  lemma NothingRun()
    ensures Run([]) == []
  {
  }

  // ----- what a record says

  /** Of the messages counted for the record, the i-th says the topic last. */
  ghost predicate SaidLast(rs: seq<Report>, k: nat, t: Topic, i: nat) {
    i < |rs| && For(rs, i, k) && Said(rs[i], t).Some? && forall j: nat | i < j && For(rs, j, k) :: Said(rs[j], t).None?
  }

  ghost predicate NeverSaid(rs: seq<Report>, k: nat, t: Topic) {
    forall i: nat | For(rs, i, k) :: Said(rs[i], t).None?
  }

  lemma {:induction false} SaidBefore(rs: seq<Report>, k: nat, t: Topic)
    requires rs != [] && (For(rs, |rs| - 1, k) ==> Said(rs[|rs| - 1], t).None?)
    ensures NeverSaid(rs[..|rs| - 1], k, t) ==> NeverSaid(rs, k, t)
    ensures forall i: nat :: SaidLast(rs[..|rs| - 1], k, t, i) ==> SaidLast(rs, k, t, i)
  {
    hide For, Said;
    var n := |rs| - 1;
    var before := rs[..n];
    AllForBefore(rs, k);
    NoneLater(rs, k);
    NoneLater(before, k);
    if NeverSaid(before, k, t) {
      forall i: nat | For(rs, i, k) ensures Said(rs[i], t).None? {
        if i < n { assert For(before, i, k) && before[i] == rs[i]; }
      }
    }
    forall i: nat | SaidLast(before, k, t, i) ensures SaidLast(rs, k, t, i) {
      assert before[i] == rs[i];
      forall j: nat | i < j && For(rs, j, k) ensures Said(rs[j], t).None? {
        if j < n { assert For(before, j, k) && before[j] == rs[j]; }
      }
    }
  }

  /** Model, serial number and manufacturer are the last ones that a message for the record gave. */
  lemma {:induction false} LastSaid(rs: seq<Report>, k: nat, t: Topic)
    requires k < |Run(rs)|
    ensures (exists i: nat :: SaidLast(rs, k, t, i) && Some(Known(Run(rs)[k], t)) == Said(rs[i], t))
            || (NeverSaid(rs, k, t) && Known(Run(rs)[k], t) == Known(NewDevice, t))
  {
    hide Run, For, Said;
    if rs == [] {
      assert Run([]) == [] by { NothingRun(); }
    } else {
      var n := |rs| - 1;
      var ds := Run(rs[..n]);
      LastStep(rs, k);
      if For(rs, n, k) && Said(rs[n], t).Some? {
        assert SaidLast(rs, k, t, n) by { NoneLater(rs, k); }
      } else {
        SaidBefore(rs, k, t);
        if k < |ds| {
          LastSaid(rs[..n], k, t);
          if i: nat :| SaidLast(rs[..n], k, t, i) && Some(Known(ds[k], t)) == Said(rs[..n][i], t) {
            assert rs[..n][i] == rs[i];
          }
        } else {
          NoneFor(rs[..n], k);
        }
      }
    }
  }

  lemma NoneLater(rs: seq<Report>, k: nat)
    ensures forall j: nat | For(rs, j, k) :: j < |rs|
  {
  }

  /** A record's Unique Number is that of every claim counted for it that gave one, and it has
      none when no claim did. */
  lemma {:induction false} UniqueIs(rs: seq<Report>, k: nat)
    requires k < |Run(rs)|
    ensures forall i: nat | For(rs, i, k) && ClaimOf(rs[i]).Some? :: Run(rs)[k].unique == ClaimOf(rs[i])
    ensures Run(rs)[k].unique.Some? ==> exists i: nat :: For(rs, i, k) && ClaimOf(rs[i]).Some?
  {
    hide Run, For, ClaimOf;
    if rs == [] {
      assert Run([]) == [] by { NothingRun(); }
    } else {
      var n := |rs| - 1;
      var ds := Run(rs[..n]);
      LastStep(rs, k);
      AllForBefore(rs, k);
      NoneLater(rs, k);
      NoneLater(rs[..n], k);
      if k < |ds| {
        UniqueIs(rs[..n], k);
        assert forall i: nat | For(rs[..n], i, k) :: rs[..n][i] == rs[i];
        if For(rs, n, k) && ClaimOf(rs[n]).Some? {
          LastFor(rs, k);
          UniqueKept(rs[..n], rs[n], k);
        }
      } else {
        NoneFor(rs[..n], k);
      }
    }
  }

  lemma LastFor(rs: seq<Report>, k: nat)
    requires rs != [] && For(rs, |rs| - 1, k)
    ensures Observed(Run(rs[..|rs| - 1]), rs[|rs| - 1]).at == Some(k)
  {
  }

  lemma {:induction false} UniqueKept(rs: seq<Report>, r: Report, k: nat)
    requires k < |Run(rs)| && Observed(Run(rs), r).at == Some(k) && ClaimOf(r).Some?
    ensures Run(rs)[k].unique.None? || Run(rs)[k].unique == ClaimOf(r)
  {
    hide Consistent, Place;
    RunConsistent(rs);
    PlacedWhere(Run(rs), r);
    hide Run;
  }

  /** A record is identified by its serial number, else by its Unique Number in decimal, else not at all. */
  lemma {:induction false} IdentityIs(rs: seq<Report>, k: nat)
    requires k < |Run(rs)|
    ensures var d := Run(rs)[k];
            if d.serial != "" then d.ident == d.serial
            else if d.unique.Some? then d.ident == Copy(Decimal(d.unique.value), 64)
            else d.ident == ""
  {
    hide Run, Observed, Decimal;
    RunConsistent(rs);
    LastSaid(rs, k, Serial);
    assert Settled(Run(rs)[k]);
    if i: nat :| SaidLast(rs, k, Serial, i) && Some(Known(Run(rs)[k], Serial)) == Said(rs[i], Serial) {
      assert |Run(rs)[k].serial| < 48;
    }
  }

  // ----- addresses

  ghost predicate From(r: Report, a: int) { r.pgn.Some? && r.src == Some(a) && a >= 0 }

  /** The record was heard at the address, and since then nothing else was heard there, nor
      the record elsewhere. */
  ghost predicate LastHeardAt(rs: seq<Report>, k: nat, a: int, i: nat) {
    For(rs, i, k) && From(rs[i], a) && forall j: nat | i < j < |rs| :: From(rs[j], a) == For(rs, j, k)
  }

  /** A record holds the address at which it was heard last, until another device is heard there. */
  lemma {:induction false} AddressIs(rs: seq<Report>, k: nat, a: int)
    requires k < |Run(rs)| && a >= 0
    ensures Run(rs)[k].src == a <==> exists i: nat :: LastHeardAt(rs, k, a, i)
  {
    hide Run, For;
    if rs == [] {
      assert Run([]) == [] by { NothingRun(); }
    } else {
      var n := |rs| - 1;
      var ds, r := Run(rs[..n]), rs[n];
      LastStep(rs, k);
      AllForBefore(rs, k);
      NoneLater(rs, k);
      NoneLater(rs[..n], k);
      hide Told;
      if For(rs, n, k) {
        assert Run(rs)[k].src == r.src.value by { ToldSource(RecordOr(ds, k), Run(rs)[k], r); }
        if From(r, a) { assert LastHeardAt(rs, k, a, n); }
      } else {
        AddressIs(rs[..n], k, a);
        if i: nat :| LastHeardAt(rs[..n], k, a, i) {
          assert rs[..n][i] == rs[i];
          assert forall j: nat | i < j < n :: From(rs[j], a) == From(rs[..n][j], a);
          if !From(r, a) { assert LastHeardAt(rs, k, a, i); }
        }
        if i: nat :| LastHeardAt(rs, k, a, i) {
          assert i < n && !From(r, a);
          assert forall j: nat | i < j < n :: From(rs[j], a) == From(rs[..n][j], a);
          assert LastHeardAt(rs[..n], k, a, i);
        }
      }
    }
  }

  lemma ToldSource(o: Device, d: Device, r: Report)
    requires Heeded(r) && Told(o, d, r)
    ensures d.src == r.src.value
  {
  }
}
