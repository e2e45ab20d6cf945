/** What holds of the device table over any run of messages. */
module RegistryRuns {
  import opened CText
  import opened CNumber
  import opened RegistrySpec

  // ----- the invariant

  ghost predicate OneAddress(ds: seq<Device>) {
    forall i, j | 0 <= i < j < |ds| && ds[i].src == ds[j].src :: ds[i].src == ADDR_NULL
  }

  ghost predicate OneUnique(ds: seq<Device>) {
    forall i, j | 0 <= i < j < |ds| && ds[i].unique.Some? :: ds[i].unique != ds[j].unique
  }

  function SumCounts(ps: seq<PgnCount>): nat {
    if ps == [] then 0 else SumCounts(ps[..|ps| - 1]) + ps[|ps| - 1].count
  }

  /** A record's identity is up to date, and its counters agree until its PGN list is full. */
  ghost predicate Settled(d: Device) {
    && d.src >= ADDR_NULL
    && d.ident == Cascade(d)
    && (forall i, j | 0 <= i < j < |d.pgns| :: d.pgns[i].pgn != d.pgns[j].pgn)
    && |d.pgns| <= MAX_PGNS
    && SumCounts(d.pgns) <= d.seen
    && (|d.pgns| < MAX_PGNS ==> SumCounts(d.pgns) == d.seen)
  }

  ghost predicate Consistent(ds: seq<Device>) {
    && |ds| <= MAX_DEVICES && OneAddress(ds) && OneUnique(ds)
    && forall i | 0 <= i < |ds| :: Settled(ds[i])
  }

  lemma {:induction false} SumUpdate(ps: seq<PgnCount>, i: nat)
    requires i < |ps|
    ensures SumCounts(ps[i := PgnCount(ps[i].pgn, ps[i].count + 1)]) == SumCounts(ps) + 1
  {
    var qs := ps[i := PgnCount(ps[i].pgn, ps[i].count + 1)];
    if i == |ps| - 1 {
      assert qs[..|qs| - 1] == ps[..|ps| - 1];
    } else {
      assert qs[..|qs| - 1] == ps[..|ps| - 1][i := PgnCount(ps[i].pgn, ps[i].count + 1)];
      SumUpdate(ps[..|ps| - 1], i);
    }
  }

  lemma {:induction false} BumpedSum(ps: seq<PgnCount>, pgn: int)
    requires |ps| <= MAX_PGNS
    requires forall i, j | 0 <= i < j < |ps| :: ps[i].pgn != ps[j].pgn
    ensures var qs := Bumped(ps, pgn);
            && |ps| <= |qs| <= MAX_PGNS
            && (forall i, j | 0 <= i < j < |qs| :: qs[i].pgn != qs[j].pgn)
            && SumCounts(qs) <= SumCounts(ps) + 1
            && (|qs| < MAX_PGNS || |ps| < MAX_PGNS ==> SumCounts(qs) == SumCounts(ps) + 1)
  {
    hide SumCounts;
    var i := FindPgn(ps, pgn, 0);
    if i < |ps| {
      SumUpdate(ps, i);
    } else if |ps| < MAX_PGNS {
      SumSnoc(ps, PgnCount(pgn, 1));
    }
  }

  lemma {:induction false} SumSnoc(ps: seq<PgnCount>, p: PgnCount)
    ensures SumCounts(ps + [p]) == SumCounts(ps) + p.count
  {
    assert (ps + [p])[..|ps|] == ps;
  }

  /** A record whose identity may lag behind its serial and Unique Number, before it is counted. */
  ghost predicate Pending(d: Device) {
    && d.src >= ADDR_NULL
    && (forall i, j | 0 <= i < j < |d.pgns| :: d.pgns[i].pgn != d.pgns[j].pgn)
    && |d.pgns| <= MAX_PGNS
    && SumCounts(d.pgns) <= d.seen
    && (|d.pgns| < MAX_PGNS ==> SumCounts(d.pgns) == d.seen)
  }

  lemma {:induction false} CountedSettled(d: Device, pgn: int)
    requires Pending(d)
    ensures Settled(Counted(d, pgn))
    ensures Counted(d, pgn).src == d.src && Counted(d, pgn).unique == d.unique
  {
    hide SumCounts, Bumped;
    BumpedSum(d.pgns, pgn);
  }

  /** All records are settled but the one a message is being placed at. */
  ghost predicate PlacedConsistently(p: Placed) {
    && PlacedWell(p) && |p.ds| <= MAX_DEVICES && OneAddress(p.ds) && OneUnique(p.ds)
    && (forall i | 0 <= i < |p.ds| && p.at != Some(i) :: Settled(p.ds[i]))
    && (p.at.Some? ==> Pending(p.ds[p.at.value]))
  }

  lemma NewPending(src: int, u: Option<nat>)
    requires src >= 0
    ensures Pending(NewDevice.(src := src, unique := u))
  {
  }

  lemma {:induction false} TouchConsistent(ds: seq<Device>, src: int)
    requires Consistent(ds) && src >= 0
    ensures PlacedConsistently(TouchSrc(ds, src))
  {
    hide Settled;
    NewPending(src, None);
    assert forall d: Device | Settled(d) :: Pending(d) by { SettledPending(); }
  }

  lemma SettledPending()
    ensures forall d: Device | Settled(d) :: Pending(d)
  {
  }

  lemma {:induction false} DetachedSettled(d: Device)
    requires Settled(d)
    ensures Settled(d.(src := ADDR_NULL))
  {
    hide SumCounts;
  }

  lemma {:induction false} ClaimKnown(ds: seq<Device>, src: int, u: nat)
    requires Consistent(ds) && src >= 0
    requires FindUnique(ds, u, 0) < |ds|
    ensures PlacedConsistently(ClaimUnique(ds, src, u))
  {
    hide Settled, Pending;
    var k := FindUnique(ds, u, 0);
    var p := ClaimUnique(ds, src, u);
    assert Pending(ds[k]) by { SettledPending(); }
    PendingMoved(ds[k], src);
    forall i | 0 <= i < |p.ds| && i != k ensures Settled(p.ds[i]) {
      DetachedSettled(ds[i]);
    }
  }

  lemma {:induction false} PendingMoved(d: Device, src: int)
    requires Pending(d) && src >= 0
    ensures Pending(d.(src := src))
  {
    hide SumCounts;
  }

  lemma {:induction false} PendingNamed(d: Device, u: nat)
    requires Pending(d)
    ensures Pending(d.(unique := Some(u)))
  {
    hide SumCounts;
  }

  /** A record without Unique Number that holds the address gets the claim's. */
  lemma {:induction false} ClaimTaken(ds: seq<Device>, o: nat, u: nat)
    requires Consistent(ds) && o < |ds| && forall i | 0 <= i < |ds| :: ds[i].unique != Some(u)
    ensures PlacedConsistently(Placed(ds[o := ds[o].(unique := Some(u))], Some(o)))
  {
    hide Settled, Pending;
    assert Pending(ds[o]) by { SettledPending(); }
    PendingNamed(ds[o], u);
  }

  /** A new record takes an address that no other holds. */
  lemma {:induction false} ClaimAdded(ds: seq<Device>, src: int, u: nat)
    requires Consistent(ds) && src >= 0
    requires forall i | 0 <= i < |ds| :: ds[i].unique != Some(u) && ds[i].src != src
    ensures PlacedConsistently(Allocated(ds, NewDevice.(src := src, unique := Some(u))))
  {
    hide Settled, Pending;
    NewPending(src, Some(u));
  }

  lemma {:induction false} DetachedConsistent(ds: seq<Device>, o: nat)
    requires Consistent(ds) && o < |ds|
    ensures Consistent(ds[o := ds[o].(src := ADDR_NULL)])
  {
    hide Settled;
    DetachedSettled(ds[o]);
  }

  lemma {:induction false} ClaimNew(ds: seq<Device>, src: int, u: nat)
    requires Consistent(ds) && src >= 0
    requires FindUnique(ds, u, 0) == |ds|
    ensures PlacedConsistently(ClaimUnique(ds, src, u))
  {
    hide Settled, PlacedConsistently, Allocated;
    var o := FindSrc(ds, src, 0);
    if o < |ds| && ds[o].unique.None? {
      ClaimTaken(ds, o, u);
    } else if o < |ds| {
      DetachedConsistent(ds, o);
      ClaimAdded(ds[o := ds[o].(src := ADDR_NULL)], src, u);
    } else {
      ClaimAdded(ds, src, u);
    }
  }

  lemma {:induction false} PendingFields(d: Device, r: Report)
    requires Pending(d)
    ensures Pending(WithMfg(d, r)) && Pending(WithProduct(d, r))
    ensures WithMfg(d, r).src == d.src && WithMfg(d, r).unique == d.unique
    ensures WithProduct(d, r).src == d.src && WithProduct(d, r).unique == d.unique
  {
    hide SumCounts;
  }

  lemma {:induction false} Overwritten(p: Placed, d: Device)
    requires PlacedConsistently(p) && p.at.Some?
    requires Pending(d) && d.src == p.ds[p.at.value].src && d.unique == p.ds[p.at.value].unique
    ensures PlacedConsistently(Placed(p.ds[p.at.value := d], p.at))
  {
    hide Settled, Pending;
  }

  lemma {:induction false} PlaceConsistent(ds: seq<Device>, r: Report, pgn: int, src: int)
    requires Consistent(ds) && src >= 0
    ensures PlacedConsistently(Place(ds, r, pgn, src))
  {
    hide Settled, Pending, ClaimUnique, TouchSrc, WithMfg, WithProduct, OneAddress, OneUnique;
    var p := if pgn == PGN_CLAIM && r.unique.Some? then ClaimUnique(ds, src, r.unique.value) else TouchSrc(ds, src);
    if pgn == PGN_CLAIM && r.unique.Some? {
      if FindUnique(ds, r.unique.value, 0) < |ds| {
        ClaimKnown(ds, src, r.unique.value);
      } else {
        ClaimNew(ds, src, r.unique.value);
      }
    } else {
      TouchConsistent(ds, src);
    }
    if p.at.Some? {
      PendingFields(p.ds[p.at.value], r);
      Overwritten(p, WithMfg(p.ds[p.at.value], r));
      Overwritten(p, WithProduct(p.ds[p.at.value], r));
    }
  }

  /** Every message keeps the table consistent. */
  lemma {:induction false} ObservedConsistent(ds: seq<Device>, r: Report)
    requires Consistent(ds)
    ensures Consistent(Observed(ds, r).ds)
  {
    hide Settled, Pending, Place, Counted;
    if r.pgn.Some? && r.src.Some? && r.src.value >= 0 {
      PlaceConsistent(ds, r, r.pgn.value, r.src.value);
      var p := Place(ds, r, r.pgn.value, r.src.value);
      if p.at.Some? {
        CountedSettled(p.ds[p.at.value], r.pgn.value);
      }
    }
  }

  /** The table after a run of messages, and how many of them were counted. */
  function Run(rs: seq<Report>): seq<Device> {
    if rs == [] then [] else Observed(Run(rs[..|rs| - 1]), rs[|rs| - 1]).ds
  }

  function Handled(rs: seq<Report>): nat {
    if rs == [] then 0
    else Handled(rs[..|rs| - 1]) + if Observed(Run(rs[..|rs| - 1]), rs[|rs| - 1]).at.Some? then 1 else 0
  }

  /** In every reachable table each address and each Unique Number stands in at
      most one record, and every identity is the cascade of its record. */
  lemma {:induction false} RunConsistent(rs: seq<Report>)
    ensures Consistent(Run(rs))
  {
    hide Observed, Settled;
    if rs != [] {
      RunConsistent(rs[..|rs| - 1]);
      ObservedConsistent(Run(rs[..|rs| - 1]), rs[|rs| - 1]);
    }
  }

  // ----- address claims

  /** Fields that name a device are not touched by what else a claim says, nor by counting. */
  lemma {:induction false} NameKept(d: Device, r: Report, pgn: int)
    ensures var e := WithMfg(d, r);
            e.src == d.src && e.unique == d.unique && e.serial == d.serial && e.ident == d.ident && e.seen == d.seen
    ensures var e := WithProduct(d, r);
            e.src == d.src && e.unique == d.unique && e.seen == d.seen && (d.serial != "" ==> e.serial != "")
    ensures var e := Counted(d, pgn);
            e.src == d.src && e.unique == d.unique && e.serial == d.serial && e.ident == Cascade(d) && e.seen == d.seen + 1
  {
    hide Bumped, Copy, Decimal;
  }

  /** A known device that claims an address holds it from then on, alone, under
      the identity it had before; whoever held the address keeps its record,
      without address. */
  lemma {:induction false} KnownDeviceMoves(ds: seq<Device>, r: Report, k: nat)
    requires Consistent(ds) && k < |ds| && ds[k].unique.Some? && r.unique == ds[k].unique
    requires r.pgn == Some(PGN_CLAIM) && r.src.Some? && r.src.value >= 0
    ensures var p := Observed(ds, r);
            var src := r.src.value;
            && p.at == Some(k) && |p.ds| == |ds|
            && IdentAt(p.ds, src) == Some(ds[k].ident)
            && p.ds[k].src == src && p.ds[k].ident == ds[k].ident && p.ds[k].serial == ds[k].serial
            && (forall i | 0 <= i < |ds| && i != k ::
                  p.ds[i] == if ds[i].src == src then ds[i].(src := ADDR_NULL) else ds[i])
  {
    hide WithMfg, Counted, Cascade, SumCounts;
    var src := r.src.value;
    assert FindUnique(ds, r.unique.value, 0) == k;
    var c := ClaimUnique(ds, src, r.unique.value);
    assert c.at == Some(k) && c.ds[k] == ds[k].(src := src);
    NameKept(c.ds[k], r, PGN_CLAIM);
    NameKept(WithMfg(c.ds[k], r), r, PGN_CLAIM);
    assert Settled(ds[k]);
    CascadeSame(WithMfg(c.ds[k], r), ds[k]);
    IdentKnown(ds[k]);
    hide ClaimUnique, FindUnique, Settled;
    var p := Observed(ds, r);
    assert p.ds[k].ident == ds[k].ident;
    FoundAlone(p.ds, src, k);
  }

  /** Product information names the device at its address by its serial number, whatever
      Unique Number or serial number it had. */
  lemma {:induction false} ProductNamesDevice(ds: seq<Device>, r: Report, serial: string)
    requires r.pgn == Some(PGN_PRODUCT) && r.src.Some? && r.src.value >= 0
    requires r.serial == Some(serial) && serial != "" && Observed(ds, r).at.Some?
    ensures var p := Observed(ds, r);
            && IdentAt(p.ds, r.src.value) == Some(Copy(serial, SERIAL_LEN))
            && p.ds[p.at.value].src == r.src.value
            && (forall i | 0 <= i < |ds| && i != p.at.value :: p.ds[i] == ds[i])
  {
    hide Bumped, Decimal;
    var p := Observed(ds, r);
    var k := p.at.value;
    assert p.ds[k].src == r.src.value && p.ds[k].ident == Copy(serial, SERIAL_LEN);
    hide WithProduct, Counted, Cascade;
    FirstHolder(p.ds, r.src.value, k);
  }

  lemma {:induction false} FirstHolder(ds: seq<Device>, src: int, k: nat)
    requires k < |ds| && ds[k].src == src && forall i | 0 <= i < k :: ds[i].src != src
    ensures FindSrc(ds, src, 0) == k
  {
  }

  /** A claim with a Unique Number not seen before makes a new record that holds the
      address, named by that number; whoever held the address under another Unique Number
      keeps its record, without address. */
  lemma {:induction false} ClaimNamesDevice(ds: seq<Device>, r: Report, u: nat)
    requires Consistent(ds) && |ds| < MAX_DEVICES
    requires r.pgn == Some(PGN_CLAIM) && r.src.Some? && r.src.value >= 0 && r.unique == Some(u)
    requires forall i | 0 <= i < |ds| :: ds[i].unique != Some(u) && (ds[i].src == r.src.value ==> ds[i].unique.Some?)
    ensures var p, src := Observed(ds, r), r.src.value;
            && p.at == Some(|ds|) && |p.ds| == |ds| + 1 && p.ds[|ds|].unique == Some(u)
            && IdentAt(p.ds, src) == Some(Copy(Decimal(u), IDENT_LEN))
            && (forall i | 0 <= i < |ds| :: p.ds[i] == if ds[i].src == src then ds[i].(src := ADDR_NULL) else ds[i])
  {
    hide ClaimUnique, Settled, OneUnique, OneAddress, WithMfg, Counted, FindSrc, FindUnique, Decimal, Copy;
    var src, n := r.src.value, |ds|;
    assert OneAddress(ds);
    ClaimAppends(ds, src, u);
    var c := ClaimUnique(ds, src, u);
    var d := WithMfg(c.ds[n], r);
    NameKept(c.ds[n], r, PGN_CLAIM);
    NameKept(d, r, PGN_CLAIM);
    IdentKnown(d);
    var p := Observed(ds, r);
    assert p.ds == c.ds[n := d][n := Counted(d, PGN_CLAIM)];
    FirstHolder(p.ds, src, n);
  }

  lemma {:induction false} ClaimAppends(ds: seq<Device>, src: int, u: nat)
    requires OneAddress(ds) && |ds| < MAX_DEVICES && src >= 0
    requires forall i | 0 <= i < |ds| :: ds[i].unique != Some(u) && (ds[i].src == src ==> ds[i].unique.Some?)
    ensures var c := ClaimUnique(ds, src, u);
            && c.at == Some(|ds|) && |c.ds| == |ds| + 1
            && c.ds[|ds|] == NewDevice.(src := src, unique := Some(u))
            && forall i | 0 <= i < |ds| :: c.ds[i] == if ds[i].src == src then ds[i].(src := ADDR_NULL) else ds[i]
  {
  }

  lemma CascadeSame(d: Device, e: Device)
    requires d.serial == e.serial && d.unique == e.unique
    ensures Cascade(d) == Cascade(e)
  {
  }

  lemma FoundAlone(ds: seq<Device>, src: int, k: nat)
    requires k < |ds| && ds[k].src == src && forall i | 0 <= i < |ds| && i != k :: ds[i].src != src
    ensures FindSrc(ds, src, 0) == k
  {
  }

  lemma IdentKnown(d: Device)
    requires d.unique.Some?
    ensures Cascade(d) != ""
  {
  }

  lemma {:induction false} ClaimKeeps(ds: seq<Device>, src: int, u: nat, i: nat)
    requires i < |ds|
    ensures var p := ClaimUnique(ds, src, u);
            && |ds| <= |p.ds| && p.ds[i].serial == ds[i].serial && p.ds[i].seen == ds[i].seen
            && (ds[i].unique.Some? ==> p.ds[i].unique == ds[i].unique)
            && (forall j | |ds| <= j < |p.ds| :: p.ds[j].seen == 0)
            && |p.ds| <= |ds| + 1
  {
    hide FindSrc, FindUnique;
  }

  lemma {:induction false} PlaceKeeps(ds: seq<Device>, r: Report, pgn: int, src: int, i: nat)
    requires i < |ds|
    ensures var p := Place(ds, r, pgn, src);
            && |ds| <= |p.ds| && p.ds[i].seen == ds[i].seen
            && (ds[i].serial != "" ==> p.ds[i].serial != "")
            && (ds[i].unique.Some? ==> p.ds[i].unique == ds[i].unique)
  {
    hide ClaimUnique, WithMfg, WithProduct, FindSrc, Counted, Cascade;
    var p := if pgn == PGN_CLAIM && r.unique.Some? then ClaimUnique(ds, src, r.unique.value) else TouchSrc(ds, src);
    if r.unique.Some? { ClaimKeeps(ds, src, r.unique.value, i); }
    if p.at.Some? { NameKept(p.ds[p.at.value], r, pgn); }
  }

  /** No message takes a record away, its Unique Number, or the knowledge of its serial number. */
  lemma {:induction false} RecordKept(ds: seq<Device>, r: Report, i: nat)
    requires i < |ds|
    ensures |ds| <= |Observed(ds, r).ds|
    ensures ds[i].unique.Some? ==> Observed(ds, r).ds[i].unique == ds[i].unique
    ensures ds[i].serial != "" ==> Observed(ds, r).ds[i].serial != ""
  {
    hide Place, Counted, Cascade, WithMfg, WithProduct;
    if r.pgn.Some? && r.src.Some? && r.src.value >= 0 {
      PlaceKeeps(ds, r, r.pgn.value, r.src.value, i);
      var p := Place(ds, r, r.pgn.value, r.src.value);
      if p.at.Some? { NameKept(p.ds[p.at.value], r, r.pgn.value); }
    }
  }

  // ----- counting

  function SumSeen(ds: seq<Device>): nat {
    if ds == [] then 0 else SumSeen(ds[..|ds| - 1]) + ds[|ds| - 1].seen
  }

  lemma {:induction false} SumSame(a: seq<Device>, b: seq<Device>)
    requires |a| == |b| && forall i | 0 <= i < |a| :: a[i].seen == b[i].seen
    ensures SumSeen(a) == SumSeen(b)
  {
    if a != [] {
      SumSame(a[..|a| - 1], b[..|b| - 1]);
    }
  }

  lemma {:induction false} SumOneMore(a: seq<Device>, b: seq<Device>, k: nat)
    requires |a| == |b| && k < |a| && b[k].seen == a[k].seen + 1
    requires forall i | 0 <= i < |a| && i != k :: a[i].seen == b[i].seen
    ensures SumSeen(b) == SumSeen(a) + 1
  {
    if k == |a| - 1 {
      SumSame(a[..k], b[..k]);
    } else {
      SumOneMore(a[..|a| - 1], b[..|b| - 1], k);
    }
  }

  lemma {:induction false} SumGrown(a: seq<Device>, b: seq<Device>)
    requires |a| <= |b| <= |a| + 1
    requires forall i | 0 <= i < |b| :: b[i].seen == if i < |a| then a[i].seen else 0
    ensures SumSeen(b) == SumSeen(a)
  {
    hide SumSeen;
    if |b| == |a| {
      SumSame(a, b);
    } else {
      SumSame(a, b[..|a|]);
      assert b[..|b| - 1] == b[..|a|];
      SumLast(b);
    }
  }

  lemma {:induction false} PlaceSeen(ds: seq<Device>, r: Report, pgn: int, src: int)
    ensures SumSeen(Place(ds, r, pgn, src).ds) == SumSeen(ds)
  {
    hide SumSeen, FindSrc, FindUnique, WithMfg, WithProduct, ClaimUnique, Counted, Cascade;
    var p := if pgn == PGN_CLAIM && r.unique.Some? then ClaimUnique(ds, src, r.unique.value) else TouchSrc(ds, src);
    if pgn == PGN_CLAIM && r.unique.Some? { ClaimSeen(ds, src, r.unique.value); }
    if p.at.Some? { NameKept(p.ds[p.at.value], r, pgn); }
    SumGrown(ds, Place(ds, r, pgn, src).ds);
  }

  lemma {:induction false} ClaimSeen(ds: seq<Device>, src: int, u: nat)
    ensures var p := ClaimUnique(ds, src, u);
            && |ds| <= |p.ds| <= |ds| + 1
            && forall i | 0 <= i < |p.ds| :: p.ds[i].seen == if i < |ds| then ds[i].seen else 0
  {
    hide FindSrc, FindUnique;
  }

  lemma SumLast(ds: seq<Device>)
    requires ds != []
    ensures SumSeen(ds) == SumSeen(ds[..|ds| - 1]) + ds[|ds| - 1].seen
  {
  }

  /** Messages are conserved: the counters of the records add up to the messages counted. */
  lemma {:induction false} SeenConserved(rs: seq<Report>)
    ensures SumSeen(Run(rs)) == Handled(rs)
  {
    hide Place, Counted, SumSeen;
    if rs == [] {
      assert SumSeen([]) == 0 by { SumNone(); }
    } else {
      var ds, r := Run(rs[..|rs| - 1]), rs[|rs| - 1];
      SeenConserved(rs[..|rs| - 1]);
      if r.pgn.Some? && r.src.Some? && r.src.value >= 0 {
        PlaceSeen(ds, r, r.pgn.value, r.src.value);
        var p := Place(ds, r, r.pgn.value, r.src.value);
        if p.at.Some? {
          CountedSeen(p.ds[p.at.value], r.pgn.value);
          SumOneMore(p.ds, p.ds[p.at.value := Counted(p.ds[p.at.value], r.pgn.value)], p.at.value);
        }
      }
    }
  }

  lemma SumNone()
    ensures SumSeen([]) == 0
  {
  }

  lemma {:induction false} CountedSeen(d: Device, pgn: int)
    ensures Counted(d, pgn).seen == d.seen + 1
  {
    hide Bumped, Cascade;
  }
}
