/** src/registry.c: the device table as it is updated in place, against RegistrySpec. */
module Registry {
  import opened CText
  import opened RegistrySpec

  class Table {
    const dev: array<Device>
    var n: nat

    ghost predicate Valid()
      reads this
    {
      dev.Length == MAX_DEVICES && n <= MAX_DEVICES
    }

    ghost function Devices(): seq<Device>
      requires Valid()
      reads this, dev
    {
      dev[..n]
    }

    constructor ()
      ensures Valid() && fresh(dev) && Devices() == []
    {
      dev, n := new Device[MAX_DEVICES](_ => NewDevice), 0;
    }

    method FindBySrc(src: int) returns (i: nat)
      requires Valid()
      ensures i == FindSrc(Devices(), src, 0)
    {
      i := 0;
      while i < n && dev[i].src != src
        invariant i <= n && FindSrc(Devices(), src, i) == FindSrc(Devices(), src, 0)
      {
        i := i + 1;
      }
    }

    method FindByUnique(u: nat) returns (i: nat)
      requires Valid()
      ensures i == FindUnique(Devices(), u, 0)
    {
      i := 0;
      while i < n && dev[i].unique != Some(u)
        invariant i <= n && FindUnique(Devices(), u, i) == FindUnique(Devices(), u, 0)
      {
        i := i + 1;
      }
    }

    /** detach_addr: the address is taken from every record but keep. */
    method DetachAddr(src: int, keep: nat)
      requires Valid()
      modifies dev
      ensures Devices() == Detached(old(Devices()), src, keep)
    {
      for i := 0 to n
        invariant forall j | 0 <= j < i ::
                    dev[j] == if j != keep && old(dev[j]).src == src then old(dev[j]).(src := ADDR_NULL) else old(dev[j])
        invariant forall j | i <= j < n :: dev[j] == old(dev[j])
      {
        if i != keep && dev[i].src == src {
          dev[i] := dev[i].(src := ADDR_NULL);
        }
      }
    }

    method Write(i: nat, d: Device)
      requires Valid() && i < n
      modifies dev
      ensures Devices() == old(Devices())[i := d]
    {
      dev[i] := d;
    }

    /** alloc_dev, when there is a free record. */
    method Alloc(d: Device) returns (at: Option<nat>)
      requires Valid()
      modifies this`n, dev
      ensures Valid() && Placed(Devices(), at) == Allocated(old(Devices()), d)
    {
      if n >= MAX_DEVICES {
        return None;
      }
      dev[n] := d;
      at := Some(n);
      n := n + 1;
      assert Devices() == old(Devices()) + [d];
    }

    method TouchBySrc(src: int) returns (at: Option<nat>)
      requires Valid()
      modifies this`n, dev
      ensures Valid() && Placed(Devices(), at) == TouchSrc(old(Devices()), src)
    {
      var i := FindBySrc(src);
      if i < n {
        return Some(i);
      }
      at := Alloc(NewDevice.(src := src));
    }

    /** from_claim, the part that decides which record the claim is for. */
    method ClaimRecord(src: int, u: nat) returns (at: Option<nat>)
      requires Valid()
      modifies this`n, dev
      ensures Valid() && Placed(Devices(), at) == ClaimUnique(old(Devices()), src, u)
    {
      hide FindSrc, FindUnique;
      var k := FindByUnique(u);
      if k < n {
        if dev[k].src != src {
          DetachAddr(src, k);
          Write(k, dev[k].(src := src));
        }
        return Some(k);
      }
      var o := FindBySrc(src);
      if o < n && dev[o].unique.None? {
        Write(o, dev[o].(unique := Some(u)));
        return Some(o);
      }
      if o < n {
        Write(o, dev[o].(src := ADDR_NULL));
      }
      at := Alloc(NewDevice.(src := src, unique := Some(u)));
    }

    method FromClaim(r: Report, src: int) returns (at: Option<nat>)
      requires Valid()
      modifies this`n, dev
      ensures Valid() && Placed(Devices(), at) == Place(old(Devices()), r, PGN_CLAIM, src)
    {
      hide ClaimUnique, WithMfg;
      if r.unique.Some? {
        at := ClaimRecord(src, r.unique.value);
      } else {
        at := TouchBySrc(src);
      }
      if at.Some? {
        Write(at.value, WithMfg(dev[at.value], r));
      }
    }

    /** bump_pgn. */
    method BumpPgn(ps: seq<PgnCount>, pgn: int) returns (qs: seq<PgnCount>)
      ensures qs == Bumped(ps, pgn)
    {
      var i := 0;
      while i < |ps|
        invariant i <= |ps| && FindPgn(ps, pgn, i) == FindPgn(ps, pgn, 0)
      {
        if ps[i].pgn == pgn {
          return ps[i := PgnCount(pgn, ps[i].count + 1)];
        }
        i := i + 1;
      }
      qs := if |ps| < MAX_PGNS then ps + [PgnCount(pgn, 1)] else ps;
    }

    /** registry_observe: the record the message was counted for. */
    method Observe(r: Report) returns (at: Option<nat>)
      requires Valid()
      modifies this`n, dev
      ensures Valid() && Placed(Devices(), at) == Observed(old(Devices()), r)
    {
      hide ClaimUnique, WithMfg, WithProduct, Bumped, FindSrc, Cascade;
      if r.pgn.None? || r.src.None? || r.src.value < 0 {
        return None;
      }
      if r.pgn.value == PGN_CLAIM {
        at := FromClaim(r, r.src.value);
      } else {
        at := TouchBySrc(r.src.value);
        if at.Some? && r.pgn.value == PGN_PRODUCT {
          Write(at.value, WithProduct(dev[at.value], r));
        }
      }
      if at.None? {
        return;
      }
      var d := dev[at.value];
      var ps := BumpPgn(d.pgns, r.pgn.value);
      d := d.(seen := d.seen + 1, pgns := ps);
      Write(at.value, d.(ident := Cascade(d)));
    }

    /** registry_ident. */
    method Ident(src: int) returns (id: Option<string>)
      requires Valid()
      ensures id == IdentAt(Devices(), src)
    {
      if src < 0 {
        return None;
      }
      var i := FindBySrc(src);
      id := if i == n || dev[i].ident == "" then None else Some(dev[i].ident);
    }
  }
}
