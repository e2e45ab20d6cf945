/** The table of devices on the bus as a sequence of records: src/registry.c.
    Records are never freed, so a device keeps its place. */
module RegistrySpec {
  import opened CText
  import opened CNumber

  const MAX_DEVICES := 64
  const IDENT_LEN := 64
  const MODEL_LEN := 48
  const SERIAL_LEN := 48
  const MFG_LEN := 48
  const MAX_PGNS := 40
  const ADDR_NULL := -1
  const PGN_CLAIM := 60928
  const PGN_PRODUCT := 126996

  datatype PgnCount = PgnCount(pgn: int, count: nat)

  datatype Device = Device(
    src: int, unique: Option<nat>, mfgCode: Option<int>, mfg: string,
    model: string, serial: string, ident: string, seen: nat, pgns: seq<PgnCount>)

  const NewDevice := Device(ADDR_NULL, None, None, "", "", "", "", 0, [])

  /** What one decoded message says to the table: its PGN and sender, and the
      fields of an address claim or a product information that it holds. */
  datatype Report = Report(
    pgn: Option<int>, src: Option<int>, unique: Option<nat>, mfg: Option<string>, mfgCode: Option<int>,
    serial: Option<string>, model: Option<string>)

  // ----- look-ups

  function FindSrc(ds: seq<Device>, src: int, i: nat): (r: nat)
    requires i <= |ds|
    ensures i <= r <= |ds|
    ensures r < |ds| ==> ds[r].src == src
    ensures forall j | i <= j < r :: ds[j].src != src
    decreases |ds| - i
  {
    if i == |ds| || ds[i].src == src then i else FindSrc(ds, src, i + 1)
  }

  function FindUnique(ds: seq<Device>, u: nat, i: nat): (r: nat)
    requires i <= |ds|
    ensures i <= r <= |ds|
    ensures r < |ds| ==> ds[r].unique == Some(u)
    ensures forall j | i <= j < r :: ds[j].unique != Some(u)
    decreases |ds| - i
  {
    if i == |ds| || ds[i].unique == Some(u) then i else FindUnique(ds, u, i + 1)
  }

  // ----- one record

  /** The stable identity: the serial number, else the Unique Number in decimal, else nothing. */
  function Cascade(d: Device): string {
    if d.serial != "" then Copy(d.serial, IDENT_LEN)
    else if d.unique.Some? then Copy(Decimal(d.unique.value), IDENT_LEN)
    else ""
  }

  function FindPgn(ps: seq<PgnCount>, pgn: int, i: nat): (r: nat)
    requires i <= |ps|
    ensures i <= r <= |ps|
    ensures r < |ps| ==> ps[r].pgn == pgn
    ensures forall j | i <= j < r :: ps[j].pgn != pgn
    decreases |ps| - i
  {
    if i == |ps| || ps[i].pgn == pgn then i else FindPgn(ps, pgn, i + 1)
  }

  function Bumped(ps: seq<PgnCount>, pgn: int): seq<PgnCount> {
    var i := FindPgn(ps, pgn, 0);
    if i < |ps| then ps[i := PgnCount(pgn, ps[i].count + 1)]
    else if |ps| < MAX_PGNS then ps + [PgnCount(pgn, 1)]
    else ps
  }

  /** A record that one more message with this PGN was counted for. */
  function Counted(d: Device, pgn: int): Device {
    var e := d.(seen := d.seen + 1, pgns := Bumped(d.pgns, pgn));
    e.(ident := Cascade(e))
  }

  function WithMfg(d: Device, r: Report): Device {
    var e := if r.mfg.Some? then d.(mfg := Copy(r.mfg.value, MFG_LEN)) else d;
    if r.mfgCode.Some? then e.(mfgCode := r.mfgCode) else e
  }

  function WithProduct(d: Device, r: Report): Device {
    var e := if r.serial.Some? && r.serial.value != "" then d.(serial := Copy(r.serial.value, SERIAL_LEN)) else d;
    if r.model.Some? && r.model.value != "" then e.(model := Copy(r.model.value, MODEL_LEN)) else e
  }

  // ----- the table

  /** Every record but keep leaves the address. */
  function Detached(ds: seq<Device>, src: int, keep: nat): (r: seq<Device>)
    ensures |r| == |ds|
    ensures forall i | 0 <= i < |r| ::
              r[i] == if i != keep && ds[i].src == src then ds[i].(src := ADDR_NULL) else ds[i]
  {
    seq(|ds|, i requires 0 <= i < |ds| =>
      if i != keep && ds[i].src == src then ds[i].(src := ADDR_NULL) else ds[i])
  }

  /** The table and, when there is one, the record a message is counted for. */
  datatype Placed = Placed(ds: seq<Device>, at: Option<nat>)

  ghost predicate PlacedWell(p: Placed) {
    p.at.Some? ==> p.at.value < |p.ds|
  }

  function Allocated(ds: seq<Device>, d: Device): (p: Placed)
    ensures PlacedWell(p)
  {
    if |ds| >= MAX_DEVICES then Placed(ds, None) else Placed(ds + [d], Some(|ds|))
  }

  function TouchSrc(ds: seq<Device>, src: int): (p: Placed)
    ensures PlacedWell(p)
  {
    var i := FindSrc(ds, src, 0);
    if i < |ds| then Placed(ds, Some(i)) else Allocated(ds, NewDevice.(src := src))
  }

  /** A claim with a Unique Number: the device it names takes the address. */
  function ClaimUnique(ds: seq<Device>, src: int, u: nat): (p: Placed)
    ensures PlacedWell(p)
  {
    var k := FindUnique(ds, u, 0);
    if k < |ds| then
      if ds[k].src == src then Placed(ds, Some(k))
      else
        var es := Detached(ds, src, k);
        Placed(es[k := es[k].(src := src)], Some(k))
    else
      var o := FindSrc(ds, src, 0);
      if o < |ds| && ds[o].unique.None? then Placed(ds[o := ds[o].(unique := Some(u))], Some(o))
      else
        var es := if o < |ds| then ds[o := ds[o].(src := ADDR_NULL)] else ds;
        Allocated(es, NewDevice.(src := src, unique := Some(u)))
  }

  function Place(ds: seq<Device>, r: Report, pgn: int, src: int): (p: Placed)
    ensures PlacedWell(p)
  {
    if pgn == PGN_CLAIM then
      var p := if r.unique.Some? then ClaimUnique(ds, src, r.unique.value) else TouchSrc(ds, src);
      if p.at.None? then p else Placed(p.ds[p.at.value := WithMfg(p.ds[p.at.value], r)], p.at)
    else
      var p := TouchSrc(ds, src);
      if p.at.None? || pgn != PGN_PRODUCT then p
      else Placed(p.ds[p.at.value := WithProduct(p.ds[p.at.value], r)], p.at)
  }

  /** registry_observe. */
  function Observed(ds: seq<Device>, r: Report): (p: Placed)
    ensures PlacedWell(p)
  {
    if r.pgn.None? || r.src.None? || r.src.value < 0 then Placed(ds, None)
    else
      var p := Place(ds, r, r.pgn.value, r.src.value);
      if p.at.None? then p
      else Placed(p.ds[p.at.value := Counted(p.ds[p.at.value], r.pgn.value)], p.at)
  }

  /** registry_ident: the identity at an address, when it is known. */
  function IdentAt(ds: seq<Device>, src: int): Option<string> {
    if src < 0 then None
    else
      var i := FindSrc(ds, src, 0);
      if i == |ds| || ds[i].ident == "" then None else Some(ds[i].ident)
  }
}
