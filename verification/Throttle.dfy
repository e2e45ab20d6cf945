/** The throttle with its table, updated in place: src/daemon.c. */
module Throttle {
  import opened CText
  import opened ThrottleSpec

  class Table {
    const e: array<Row>
    var n: nat

    ghost predicate Valid()
      reads this
    {
      e.Length == THR_MAX && n <= THR_MAX
    }

    ghost function Times(): ThrottleSpec.Times
      requires Valid()
      reads this, e
    {
      e[..n]
    }

    constructor ()
      ensures Valid() && fresh(e) && Times() == []
    {
      e := new Row[THR_MAX](i => Row("", 0));
      n := 0;
    }

    method Search(kind: string) returns (i: nat)
      requires Valid()
      ensures i == RowOf(Times(), kind, 0)
    {
      ghost var m := Times();
      i := 0;
      while i < n && e[i].kind != kind
        invariant i <= n && RowOf(m, kind, i) == RowOf(m, kind, 0)
      {
        i := i + 1;
      }
    }

    /** thr_last: the row of the type, made when there is none, and nothing when the table is full. */
    method Find(kind: string) returns (r: Option<nat>)
      requires Valid()
      modifies this`n, e
      ensures Valid()
      ensures var m := old(Times());
              if RowOf(m, kind, 0) == |m| == THR_MAX then r.None? && Times() == m
              else r == Some(RowOf(m, kind, 0)) && Times() == Put(m, kind, LastTime(m, kind))
    {
      ghost var m := Times();
      var i := Search(kind);
      if i < n {
        assert m[i := Row(kind, m[i].last)] == m;
        return Some(i);
      }
      if n >= THR_MAX {
        return None;
      }
      Set(n, Row(kind, 0));
      return Some(i);
    }

    method Set(i: nat, row: Row)
      requires Valid() && i <= n && i < THR_MAX
      modifies this`n, e
      ensures Valid() && Times() == if i < old(n) then old(Times())[i := row] else old(Times()) + [row]
    {
      e[i] := row;
      if i == n {
        n := n + 1;
      }
    }

    /** The decision on a limited type that did not pass in this batch yet. */
    method Gate(c: Settings, kind: string, now: nat) returns (pass: bool)
      requires Valid() && |c.rates| <= THR_MAX && Proper(c.rates, Times()) && NoLower(kind) && Limited(c.rates, kind)
      modifies this`n, e
      ensures Valid() && Proper(c.rates, Times())
      ensures pass == Open(c, old(Times()), kind, now)
      ensures Times() == Put(old(Times()), kind, if pass then now else LastTime(old(Times()), kind))
    {
      hide Proper, NoLower, Interval;
      ghost var m := Times();
      if RowOf(m, kind, 0) == |m| {
        NeverFull(c.rates, m, kind);
      }
      PutProper(c.rates, m, kind, LastTime(m, kind));
      PutProper(c.rates, m, kind, now);
      var r := Find(kind);
      var row := e[r.value];
      assert Times()[r.value] == Row(kind, LastTime(m, kind));
      if TooSoon(row.last, now, Interval(c.rates, kind)) {
        return false;
      }
      Set(r.value, Row(kind, now));
      assert Times() == Put(m, kind, now);
      return true;
    }

    /** One batch: every sentence of a type goes out, or none, by the time of the type
        before the batch; a type that passed once passes to the end of the batch. */
    method Filter(c: Settings, b: Batch) returns (sent: seq<string>)
      requires Valid() && |c.rates| <= THR_MAX && Proper(c.rates, Times())
      requires |b.sentences| <= MAX_SENTENCES && forall i | 0 <= i < |b.sentences| :: NoLower(KindOf(b.sentences[i]))
      modifies this`n, e
      ensures Valid() && Proper(c.rates, Times())
      ensures sent == Sent(c, old(Times()), b, |b.sentences|)
      ensures Times() == After(c, old(Times()), b, |b.sentences|)
    {
      hide KindOf, Selected, Interval, NoLower, Met, Proper, Put, LastTime, RowOf;
      ghost var m := Times();
      var passed: seq<string> := [];
      sent := [];
      NoneMet(c, b);
      for k := 0 to |b.sentences|
        invariant Valid() && Proper(c.rates, Times()) && |passed| <= k
        invariant forall x :: x in passed <==> Met(c, b, k, x) && Open(c, m, x, b.now)
        invariant sent == Sent(c, m, b, k) && Times() == After(c, m, b, k)
      {
        var s := b.sentences[k];
        var kind := KindOf(s);
        MetMore(c, b, k);
        if Selected(c, b, kind) {
          AfterIs(c, m, b, k, kind);
          var pass := true;
          if Interval(c.rates, kind) > 0 {
            if kind in passed {
              PutSame(Times(), kind);
            } else {
              pass := Gate(c, kind, b.now);
              if pass && |passed| < MAX_SENTENCES {
                passed := passed + [kind];
              }
            }
          }
          if pass {
            sent := sent + [s];
          }
        }
      }
    }
  }

  lemma PutSame(m: ThrottleSpec.Times, kind: string)
    requires RowOf(m, kind, 0) < |m|
    ensures Put(m, kind, LastTime(m, kind)) == m
  {
  }

  lemma NoneMet(c: Settings, b: Batch)
    ensures forall x :: !Met(c, b, 0, x)
  {
  }

  lemma {:induction false} MetMore(c: Settings, b: Batch, k: nat)
    requires k < |b.sentences|
    ensures var kind := KindOf(b.sentences[k]);
            forall x :: Met(c, b, k + 1, x) <==> Met(c, b, k, x) || (x == kind && Limited(c.rates, x) && Selected(c, b, x))
  {
    hide KindOf, Selected, Limited;
  }
}
