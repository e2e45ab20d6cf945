/** What the interpolated speed keeps of its table. */
module PolarProofs {
  import opened PolarSpec

  // ----- brackets and weights

  lemma {:induction false} BracketHolds(v: seq<real>, x: real)
    requires v != [] && Sorted(v) && v[0] <= x <= v[|v| - 1]
    ensures var i := Bracket(v, x); v[i] <= x <= v[Upper(v, i)]
    ensures 0.0 <= Weight(v, x) <= 1.0
  {
    if |v| >= 2 {
      var i := Bracket(v, x);
      var d := v[i + 1] - v[i];
      if d > 0.0 {
        Ratio(x - v[i], d);
      }
    }
  }

  lemma Ratio(a: real, d: real)
    requires 0.0 <= a <= d && d > 0.0
    ensures 0.0 <= a / d <= 1.0
  {
  }

  lemma TimesUp(p: real, q: real)
    requires p >= 0.0 && q >= 0.0
    ensures p * q >= 0.0
  {
  }

  lemma {:induction false} MixBetween(f: real, a: real, b: real, lo: real, hi: real)
    requires 0.0 <= f <= 1.0 && lo <= a <= hi && lo <= b <= hi
    ensures lo <= Mix(f, a, b) <= hi
  {
    TimesUp(1.0 - f, a - lo);
    TimesUp(f, b - lo);
    TimesUp(1.0 - f, hi - a);
    TimesUp(f, hi - b);
    assert Mix(f, a, b) - lo == (1.0 - f) * (a - lo) + f * (b - lo);
    assert hi - Mix(f, a, b) == (1.0 - f) * (hi - a) + f * (hi - b);
  }

  lemma {:induction false} MixRises(f: real, a: real, b: real, c: real, d: real)
    requires 0.0 <= f <= 1.0 && a <= c && b <= d
    ensures Mix(f, a, b) <= Mix(f, c, d)
  {
    TimesUp(1.0 - f, c - a);
    TimesUp(f, d - b);
    assert Mix(f, c, d) - Mix(f, a, b) == (1.0 - f) * (c - a) + f * (d - b);
  }

  lemma {:induction false} MixFurther(f: real, g: real, a: real, b: real)
    requires f <= g && a <= b
    ensures Mix(f, a, b) <= Mix(g, a, b)
  {
    TimesUp(g - f, b - a);
    assert Mix(g, a, b) - Mix(f, a, b) == (g - f) * (b - a);
  }

  // ----- the speed as two steps

  /** One row, interpolated over the wind speed. */
  function Along(row: seq<real>, tws: seq<real>, w: real): real
    requires tws != [] && |row| == |tws|
  {
    var j := Bracket(tws, w);
    Mix(Weight(tws, w), row[j], row[Upper(tws, j)])
  }

  lemma {:induction false} SpeedIs(t: Table, twa: real, tws: real)
    requires Accepted(t)
    ensures var a, w := Clamp(t.twa, Fold(twa)), Clamp(t.tws, tws);
            var i := Bracket(t.twa, a);
            Speed(t, twa, tws)
            == Mix(Weight(t.twa, a), Along(t.spd[i], t.tws, w), Along(t.spd[Upper(t.twa, i)], t.tws, w))
  {
    hide Weight, Bracket, Fold, Clamp;
    var a, w := Clamp(t.twa, Fold(twa)), Clamp(t.tws, tws);
    var i, j := Bracket(t.twa, a), Bracket(t.tws, w);
    var i2, j2 := Upper(t.twa, i), Upper(t.tws, j);
    Regroup(Weight(t.twa, a), Weight(t.tws, w), t.spd[i][j], t.spd[i2][j], t.spd[i][j2], t.spd[i2][j2]);
  }

  lemma {:induction false} Regroup(f: real, g: real, a: real, b: real, c: real, d: real)
    ensures (1.0 - f) * (1.0 - g) * a + f * (1.0 - g) * b + (1.0 - f) * g * c + f * g * d
         == Mix(f, Mix(g, a, c), Mix(g, b, d))
  {
    Spread(1.0 - f, (1.0 - g) * a, g * c);
    Spread(f, (1.0 - g) * b, g * d);
    Group(1.0 - f, 1.0 - g, a);
    Group(f, 1.0 - g, b);
    Group(1.0 - f, g, c);
    Group(f, g, d);
  }

  lemma Spread(f: real, a: real, b: real)
    ensures f * (a + b) == f * a + f * b
  {
  }

  lemma Group(f: real, g: real, a: real)
    ensures f * g * a == f * (g * a)
  {
  }

  /** The speed lies between the least and the greatest of the four cells around it. */
  lemma {:induction false} SpeedBetween(t: Table, twa: real, tws: real, lo: real, hi: real)
    requires Accepted(t)
    requires var i, j := Bracket(t.twa, Clamp(t.twa, Fold(twa))), Bracket(t.tws, Clamp(t.tws, tws));
             forall r, c | r in {i, Upper(t.twa, i)} && c in {j, Upper(t.tws, j)} :: lo <= t.spd[r][c] <= hi
    ensures lo <= Speed(t, twa, tws) <= hi
  {
    hide Weight, Bracket, Fold, Clamp, Upper, Mix, Speed;
    var a, w := Clamp(t.twa, Fold(twa)), Clamp(t.tws, tws);
    var i, j := Bracket(t.twa, a), Bracket(t.tws, w);
    var i2, j2 := Upper(t.twa, i), Upper(t.tws, j);
    BracketHolds(t.twa, a);
    BracketHolds(t.tws, w);
    SpeedIs(t, twa, tws);
    MixBetween(Weight(t.tws, w), t.spd[i][j], t.spd[i][j2], lo, hi);
    MixBetween(Weight(t.tws, w), t.spd[i2][j], t.spd[i2][j2], lo, hi);
    MixBetween(Weight(t.twa, a), Along(t.spd[i], t.tws, w), Along(t.spd[i2], t.tws, w), lo, hi);
  }

  // ----- more wind

  lemma BracketRises(v: seq<real>, x: real, y: real)
    requires v != [] && x <= y
    ensures Bracket(v, x) <= Bracket(v, y)
  {
  }

  lemma {:induction false} WeightRises(v: seq<real>, x: real, y: real)
    requires v != [] && x <= y && Bracket(v, x) == Bracket(v, y)
    ensures Weight(v, x) <= Weight(v, y)
  {
    var i := Bracket(v, x);
    var d := v[Upper(v, i)] - v[i];
    if d > 0.0 {
      Quotients(x - v[i], y - v[i], d);
    }
  }

  lemma Quotients(a: real, b: real, d: real)
    requires a <= b && d > 0.0
    ensures a / d <= b / d
  {
  }

  /** A row that rises with the wind stays so between its columns, also where columns coincide. */
  lemma {:induction false} AlongRises(row: seq<real>, tws: seq<real>, x: real, y: real)
    requires tws != [] && |row| == |tws| && Sorted(tws) && Sorted(row)
    requires tws[0] <= x <= y <= tws[|tws| - 1]
    ensures Along(row, tws, x) <= Along(row, tws, y)
  {
    BracketHolds(tws, x);
    BracketHolds(tws, y);
    BracketRises(tws, x, y);
    var i, j := Bracket(tws, x), Bracket(tws, y);
    if i == j {
      WeightRises(tws, x, y);
      hide Weight, Bracket, Mix;
      MixFurther(Weight(tws, x), Weight(tws, y), row[i], row[Upper(tws, i)]);
    } else {
      hide Weight, Bracket, Mix;
      assert row[i] <= row[i + 1] <= row[j] <= row[j + 1];
      MixBetween(Weight(tws, x), row[i], row[i + 1], row[i], row[i + 1]);
      MixBetween(Weight(tws, y), row[j], row[j + 1], row[j], row[j + 1]);
    }
  }

  lemma ClampRises(v: seq<real>, x: real, y: real)
    requires v != [] && Sorted(v) && x <= y
    ensures Clamp(v, x) <= Clamp(v, y)
  {
  }

  /** When every row rises with the wind, so does the speed, at any angle and beyond the table. */
  lemma {:induction false} MoreWindMoreSpeed(t: Table, twa: real, x: real, y: real)
    requires Accepted(t) && x <= y && forall i | 0 <= i < |t.spd| :: Sorted(t.spd[i])
    ensures Speed(t, twa, x) <= Speed(t, twa, y)
  {
    hide Weight, Bracket, Fold, Clamp, Mix, Speed, Along;
    var a, v, w := Clamp(t.twa, Fold(twa)), Clamp(t.tws, x), Clamp(t.tws, y);
    var i := Bracket(t.twa, a);
    ClampRises(t.tws, x, y);
    SpeedIs(t, twa, x);
    SpeedIs(t, twa, y);
    BracketHolds(t.twa, a);
    AlongRises(t.spd[i], t.tws, v, w);
    AlongRises(t.spd[Upper(t.twa, i)], t.tws, v, w);
    MixRises(Weight(t.twa, a), Along(t.spd[i], t.tws, v), Along(t.spd[Upper(t.twa, i)], t.tws, v),
             Along(t.spd[i], t.tws, w), Along(t.spd[Upper(t.twa, i)], t.tws, w));
  }

  // ----- the angle

  lemma FloorIs(q: real, k: int)
    requires k as real <= q < k as real + 1.0
    ensures q.Floor == k
  {
  }

  /** An angle with its whole turns taken off. */
  lemma {:induction false} FoldIs(k: int, r: real)
    requires 0.0 <= r < 360.0
    ensures Fold(360.0 * k as real + r) == if r > 180.0 then 360.0 - r else r
  {
    var x := 360.0 * k as real + r;
    if k >= 0 {
      assert x / 360.0 == k as real + r / 360.0;
      FloorIs(x / 360.0, k);
    } else if r == 0.0 {
      assert -x / 360.0 == (-k) as real;
      FloorIs(-x / 360.0, -k);
    } else {
      assert -x / 360.0 == (-k - 1) as real + (360.0 - r) / 360.0;
      FloorIs(-x / 360.0, -k - 1);
    }
  }

  lemma {:induction false} Turns(x: real) returns (k: int, r: real)
    ensures x == 360.0 * k as real + r && 0.0 <= r < 360.0
  {
    k := (x / 360.0).Floor;
    r := x - 360.0 * k as real;
  }

  /** Port and starboard are alike, and full turns do not matter. */
  lemma {:induction false} SpeedSymmetric(t: Table, twa: real, tws: real, n: int)
    requires Accepted(t)
    ensures Speed(t, -twa, tws) == Speed(t, twa, tws)
    ensures Speed(t, twa + 360.0 * n as real, tws) == Speed(t, twa, tws)
  {
    hide Weight, Bracket, Clamp, Fold, Upper;
    var k, r := Turns(twa);
    FoldIs(k, r);
    FoldIs(k + n, r);
    assert twa + 360.0 * n as real == 360.0 * (k + n) as real + r;
    if r == 0.0 {
      FoldIs(-k, 0.0);
      assert -twa == 360.0 * (-k) as real + 0.0;
    } else {
      FoldIs(-k - 1, 360.0 - r);
      assert -twa == 360.0 * (-k - 1) as real + (360.0 - r);
    }
  }

  // ----- at the table's own angles and winds

  ghost predicate Rising(v: seq<real>) {
    forall i, j | 0 <= i < j < |v| :: v[i] < v[j]
  }

  lemma {:induction false} BracketAt(v: seq<real>, k: nat, i: nat)
    requires Rising(v) && i <= k < |v| - 1
    ensures BracketFrom(v, v[k], i) == k
    decreases k - i
  {
    if i < k {
      BracketAt(v, k, i + 1);
    }
  }

  lemma WholeWay(d: real)
    requires d > 0.0
    ensures d / d == 1.0
  {
  }

  /** At an entry of an axis without duplicates, the interpolation of any row gives the row's own value. */
  lemma {:induction false} AtNode(v: seq<real>, row: seq<real>, k: nat)
    requires Rising(v) && k < |v| == |row|
    ensures Mix(Weight(v, v[k]), row[Bracket(v, v[k])], row[Upper(v, Bracket(v, v[k]))]) == row[k]
  {
    hide Weight, Bracket, Mix;
    NodeAt(v, k);
    MixEnds(row[Bracket(v, v[k])], row[Upper(v, Bracket(v, v[k]))]);
  }

  /** An entry is the lower end of its interval, but the last one the upper end. */
  lemma {:induction false} NodeAt(v: seq<real>, k: nat)
    requires Rising(v) && k < |v|
    ensures if |v| > 1 && k == |v| - 1 then Bracket(v, v[k]) == k - 1 && Weight(v, v[k]) == 1.0
            else Bracket(v, v[k]) == k && Weight(v, v[k]) == 0.0
  {
    if |v| > 1 && k == |v| - 1 {
      assert Bracket(v, v[k]) == k - 1;
      WholeWay(v[k] - v[k - 1]);
    } else if |v| > 1 {
      BracketAt(v, k, 0);
      assert v[k] - v[k] == 0.0 && v[k + 1] - v[k] > 0.0;
      NoWay(v[k + 1] - v[k]);
    }
  }

  lemma NoWay(d: real)
    requires d > 0.0
    ensures 0.0 / d == 0.0
  {
  }

  lemma MixEnds(a: real, b: real)
    ensures Mix(0.0, a, b) == a && Mix(1.0, a, b) == b
  {
  }

  /** The table's own angles, up to 180 degrees, and winds give the table's own speeds. */
  lemma {:induction false} TableKept(t: Table, i: nat, j: nat)
    requires Accepted(t) && Rising(t.twa) && Rising(t.tws) && i < |t.twa| && j < |t.tws|
    requires 0.0 <= t.twa[i] <= 180.0
    ensures Speed(t, t.twa[i], t.tws[j]) == t.spd[i][j]
  {
    hide Weight, Bracket, Mix, Speed, Fold;
    var a, w := t.twa[i], t.tws[j];
    FoldIs(0, a);
    assert 360.0 * 0 as real + a == a;
    SpeedIs(t, a, w);
    var r := Bracket(t.twa, a);
    var r2 := Upper(t.twa, r);
    AtNode(t.tws, t.spd[r], j);
    AtNode(t.tws, t.spd[r2], j);
    var column := seq(|t.spd|, k requires 0 <= k < |t.spd| => t.spd[k][j]);
    AtNode(t.twa, column, i);
  }

  // ----- between and beyond the table's own values

  /** The value at the share f of the way from one to the other. */
  function Share(f: real, lo: real, hi: real): real { lo + f * (hi - lo) }

  lemma {:induction false} ShareOf(f: real, d: real)
    requires 0.0 <= f <= 1.0 && d > 0.0
    ensures 0.0 <= f * d <= d && (f < 1.0 ==> f * d < d) && f * d / d == f
  {
  }

  lemma {:induction false} ShareBetween(f: real, lo: real, hi: real)
    requires 0.0 <= f <= 1.0 && lo < hi
    ensures var x := Share(f, lo, hi);
            lo <= x <= hi && (f < 1.0 ==> x < hi) && (f == 1.0 ==> x == hi) && (x - lo) / (hi - lo) == f
  {
    var d := hi - lo;
    ShareOf(f, d);
    assert Share(f, lo, hi) - lo == f * d;
  }

  /** At a share of the way from one entry to the next, any row gives its value at that share. */
  lemma {:induction false} ShareOfRow(v: seq<real>, row: seq<real>, k: nat, f: real)
    requires Rising(v) && k + 1 < |v| == |row| && 0.0 <= f <= 1.0
    ensures var x := Share(f, v[k], v[k + 1]);
            Mix(Weight(v, x), row[Bracket(v, x)], row[Upper(v, Bracket(v, x))]) == Mix(f, row[k], row[k + 1])
  {
    hide Share, Mix;
    var x := Share(f, v[k], v[k + 1]);
    ShareBetween(f, v[k], v[k + 1]);
    if f == 1.0 {
      hide Weight, Bracket;
      AtNode(v, row, k + 1);
      MixEnds(row[k], row[k + 1]);
    } else {
      BracketWithin(v, x, k, 0);
    }
  }

  lemma {:induction false} BracketWithin(v: seq<real>, x: real, k: nat, i: nat)
    requires Rising(v) && i <= k && k + 1 < |v| && v[k] <= x < v[k + 1]
    ensures BracketFrom(v, x, i) == k
    decreases k - i
  {
    if i < k {
      BracketWithin(v, x, k, i + 1);
    }
  }

  /** The angle below 180 degrees stays as it is, and so does what the axis holds. */
  lemma {:induction false} Unfolded(v: seq<real>, a: real)
    requires v != [] && 0.0 <= a <= 180.0 && v[0] <= a <= v[|v| - 1]
    ensures Clamp(v, Fold(a)) == a
  {
    FoldIs(0, a);
    assert 360.0 * 0 as real + a == a;
  }

  lemma {:induction false} ShareInside(v: seq<real>, k: nat, f: real)
    requires Rising(v) && k + 1 < |v| && 0.0 <= f <= 1.0
    ensures var x := Share(f, v[k], v[k + 1]); v[k] <= x <= v[k + 1] && v[0] <= x <= v[|v| - 1]
  {
    hide Share;
    ShareBetween(f, v[k], v[k + 1]);
  }

  /** Between four neighbours the speed goes from one to the other in proportion, along both axes. */
  lemma {:induction false} SpeedInProportion(t: Table, i: nat, j: nat, f: real, g: real)
    requires Accepted(t) && Rising(t.twa) && Rising(t.tws) && i + 1 < |t.twa| && j + 1 < |t.tws|
    requires 0.0 <= f <= 1.0 && 0.0 <= g <= 1.0 && 0.0 <= t.twa[i] && t.twa[i + 1] <= 180.0
    ensures Speed(t, Share(f, t.twa[i], t.twa[i + 1]), Share(g, t.tws[j], t.tws[j + 1]))
         == Share(f, Share(g, t.spd[i][j], t.spd[i][j + 1]), Share(g, t.spd[i + 1][j], t.spd[i + 1][j + 1]))
  {
    hide Weight, Bracket, Mix, Speed, Fold, Upper, Clamp, Share;
    var a, w := Share(f, t.twa[i], t.twa[i + 1]), Share(g, t.tws[j], t.tws[j + 1]);
    ShareInside(t.twa, i, f);
    ShareInside(t.tws, j, g);
    Unfolded(t.twa, a);
    SpeedIs(t, a, w);
    var column := seq(|t.spd|, k requires 0 <= k < |t.spd| => Mix(g, t.spd[k][j], t.spd[k][j + 1]));
    ShareOfRow(t.tws, t.spd[Bracket(t.twa, a)], j, g);
    ShareOfRow(t.tws, t.spd[Upper(t.twa, Bracket(t.twa, a))], j, g);
    ShareOfRow(t.twa, column, i, f);
    MixShares(g, t.spd[i][j], t.spd[i][j + 1]);
    MixShares(g, t.spd[i + 1][j], t.spd[i + 1][j + 1]);
    MixShares(f, column[i], column[i + 1]);
  }

  lemma MixShares(f: real, a: real, b: real)
    ensures Mix(f, a, b) == Share(f, a, b)
  {
  }

  /** A value taken back to the ends of an axis. */
  function Within(v: seq<real>, x: real): real
    requires v != []
  {
    if x < v[0] then v[0] else if x > v[|v| - 1] then v[|v| - 1] else x
  }

  /** Beyond the table the speed is that at its edge. */
  lemma {:induction false} SpeedAtEdge(t: Table, a: real, w: real)
    requires Accepted(t) && 0.0 <= a <= 180.0 && 0.0 <= t.twa[0] && t.twa[|t.twa| - 1] <= 180.0
    ensures Speed(t, a, w) == Speed(t, Within(t.twa, a), Within(t.tws, w))
  {
    hide Weight, Bracket, Mix, Fold, Speed;
    var b, u := Within(t.twa, a), Within(t.tws, w);
    FoldIs(0, a);
    FoldIs(0, b);
    assert 360.0 * 0 as real + a == a && 360.0 * 0 as real + b == b;
    SpeedIs(t, a, w);
    SpeedIs(t, b, u);
  }

  /** Without a table there is no speed. */
  lemma NoTable(t: Table, a: real, w: real)
    requires t.twa == [] || t.tws == []
    ensures Speed(t, a, w) == 0.0
  {
  }
}
