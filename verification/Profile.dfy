/** The ultrafast profile: four key points and the deltas interpolated between them
    (auto-optimizer/src/oc_profile_function.rs).  Rows are parsed; `f64` is exact. */
module Profile {
  import opened Arithmetic
  import opened Options

  /** A row of the curve: voltage, frequency and delta (0 where absent or unreadable),
      and the columns the interpolation never looks at. */
  datatype Row = Row(voltage: nat, frequency: nat, delta: int, rest: seq<string>)

  // ------------------------------------------------------------ one interpolation

  /** `interpolated` in the source: the point at `x` on the line through two keys. */
  function Line(v1: nat, d1: int, v2: nat, d2: int, x: nat): real
    requires v1 != v2
  {
    var ratio := (x - v1) as real / (v2 - v1) as real;
    (d2 as real - d1 as real) * ratio + d1 as real
  }

  /** Cut down to a whole number of steps, and to zero below one step. */
  function Cut(x: real, step: int): int {
    if step != 0 && x >= step as real then (x / step as real).Floor * step else 0
  }

  /** Integer division as the source does it, towards zero. */
  function Halve(x: int): int {
    if x >= 0 then x / 2 else -((-x) / 2)
  }

  function LinearInterpolate(v1: nat, d1: int, v2: nat, d2: int, v: nat, step: int): Option<int> {
    if v1 == v2 then Some(Halve(d1 + d2))
    else
      var (loV, loD, hiV, hiD) := if v1 <= v2 then (v1, d1, v2, d2) else (v2, d2, v1, d1);
      if v < loV || v > hiV then None
      else Some(Cut(Line(loV, loD, hiV, hiD, v), step))
  }

  lemma RealMulMonotone(a: real, b: real, k: real)
    ensures a <= b ==> k >= 0.0 ==> k * a <= k * b
    ensures a <= b ==> k <= 0.0 ==> k * a >= k * b
  {
    assert k * b - k * a == k * (b - a);
  }

  lemma RatioMonotone(x: int, y: int, w: int)
    requires 0 <= x <= y <= w && w > 0
    ensures 0.0 <= x as real / w as real <= y as real / w as real <= 1.0
    ensures x == 0 ==> x as real / w as real == 0.0
    ensures y == w ==> y as real / w as real == 1.0
  {
  }

  /** The line runs from one key delta to the other without turning. */
  lemma LineMonotone(v1: nat, d1: int, v2: nat, d2: int, x: nat, y: nat)
    requires v1 <= x <= y <= v2 && v1 < v2
    ensures d1 >= d2 ==> Line(v1, d1, v2, d2, x) >= Line(v1, d1, v2, d2, y)
    ensures d1 <= d2 ==> Line(v1, d1, v2, d2, x) <= Line(v1, d1, v2, d2, y)
    ensures Line(v1, d1, v2, d2, v1) == d1 as real && Line(v1, d1, v2, d2, v2) == d2 as real
  {
    var p, q := (x - v1) as real / (v2 - v1) as real, (y - v1) as real / (v2 - v1) as real;
    var rise := d2 as real - d1 as real;
    RatioMonotone(x - v1, y - v1, v2 - v1);
    RatioMonotone(0, v2 - v1, v2 - v1);
    RealMulMonotone(p, q, rise);
    assert Line(v1, d1, v2, d2, x) == rise * p + d1 as real && Line(v1, d1, v2, d2, y) == rise * q + d1 as real;
    assert d1 >= d2 ==> rise <= 0.0;
    assert d1 <= d2 ==> rise >= 0.0;
  }

  lemma QuotientMonotone(x: real, y: real, step: int)
    ensures x <= y && step > 0 ==> x / step as real <= y / step as real
  {
  }

  lemma QuotientTimes(x: real, s: real)
    ensures s > 0.0 ==> (x / s) * s == x
  {
  }

  lemma PositiveProduct(a: real, s: real)
    ensures s > 0.0 && a > 0.0 ==> a * s > 0.0
  {
  }

  lemma NonNegativeProduct(a: real, s: real)
    ensures s > 0.0 && a >= 0.0 ==> a * s >= 0.0
  {
  }

  lemma DistributeBelow(q: real, n: real, s: real)
    ensures (q - n) * s == q * s - n * s
  {
  }

  lemma DistributeAbove(q: real, n: real, s: real)
    ensures (n + 1.0 - q) * s == n * s + s - q * s
  {
  }

  /** A quotient and its floor, scaled back up. */
  lemma FloorBelow(x: real, s: real, q: real, n: real)
    requires s > 0.0 && q * s == x && n <= q
    ensures n * s <= x
  {
    NonNegativeProduct(q - n, s);
    DistributeBelow(q, n, s);
  }

  lemma FloorAbove(x: real, s: real, q: real, n: real)
    requires s > 0.0 && q * s == x && q < n + 1.0
    ensures x < n * s + s
  {
    PositiveProduct(n + 1.0 - q, s);
    DistributeAbove(q, n, s);
  }

  lemma IntTimes(n: int, k: int)
    ensures (n * k) as real == n as real * k as real
  {
  }

  lemma CutBounds(x: real, step: int)
    requires step > 0
    ensures 0 <= Cut(x, step)
    ensures x >= 0.0 ==> Cut(x, step) as real <= x < Cut(x, step) as real + step as real
    ensures x < 0.0 ==> Cut(x, step) == 0
    ensures Cut(x, step) % step == 0
  {
    if x >= step as real {
      var q := x / step as real;
      QuotientTimes(x, step as real);
      FloorBelow(x, step as real, q, q.Floor as real);
      FloorAbove(x, step as real, q, q.Floor as real);
      IntTimes(q.Floor, step);
      MultipleMod(q.Floor, step);
      assert Cut(x, step) == q.Floor * step == step * q.Floor;
      var f := q.Floor as real * step as real;
      assert Cut(x, step) as real == f;
      assert f <= x;
    }
  }

  lemma CutMonotone(x: real, y: real, step: int)
    requires step > 0 && x <= y
    ensures Cut(x, step) <= Cut(y, step)
  {
    CutBounds(y, step);
    if x >= step as real {
      QuotientMonotone(x, y, step);
      var p, q := (x / step as real).Floor, (y / step as real).Floor;
      assert p <= q;
      assert (q - p) * step >= 0;
    }
  }

  lemma CutOfMultiple(d: int, step: int)
    requires step > 0 && d >= 0 && d % step == 0
    ensures Cut(d as real, step) == d
  {
    var c := Cut(d as real, step);
    CutBounds(d as real, step);
    var k := d / step - c / step;
    assert d == step * (d / step) && c == step * (c / step);
    assert step * k == d - c;
    MulBeyond(step, k);
  }

  /** Between two keys in voltage order the interpolation never fails, never turns, stays
      between the cut key deltas, and is a whole number of steps. */
  lemma InterpolationBounds(v1: nat, d1: int, v2: nat, d2: int, x: nat, y: nat, step: int)
    requires v1 < v2 && v1 <= x <= y <= v2 && step > 0
    requires d1 >= d2 >= 0 && d1 % step == 0 && d2 % step == 0
    ensures var a, b := LinearInterpolate(v1, d1, v2, d2, x, step), LinearInterpolate(v1, d1, v2, d2, y, step);
      && a.Some? && b.Some? && d1 >= a.value >= b.value >= d2 && a.value % step == 0
    ensures LinearInterpolate(v1, d1, v2, d2, v1, step) == Some(d1)
  {
    LineMonotone(v1, d1, v2, d2, x, y);
    LineMonotone(v1, d1, v2, d2, v1, x);
    LineMonotone(v1, d1, v2, d2, y, v2);
    CutMonotone(Line(v1, d1, v2, d2, y), Line(v1, d1, v2, d2, x), step);
    CutMonotone(Line(v1, d1, v2, d2, x), d1 as real, step);
    CutMonotone(d2 as real, Line(v1, d1, v2, d2, y), step);
    CutOfMultiple(d1, step);
    CutOfMultiple(d2, step);
    CutBounds(Line(v1, d1, v2, d2, x), step);
  }

  /** An interpolated delta stays at or below the larger of its two key deltas if and
      only if that key delta is not negative: below one step the code answers zero. */
  lemma NeverExceedsKeysIff(v1: nat, d1: int, v2: nat, d2: int, x: nat, step: int)
    requires v1 < v2 && v1 <= x <= v2 && step > 0
    ensures var top := if d1 >= d2 then d1 else d2;
      var r := LinearInterpolate(v1, d1, v2, d2, x, step);
      r.Some? && (r.value <= top <==> top >= 0)
  {
    LineMonotone(v1, d1, v2, d2, v1, x);
    LineMonotone(v1, d1, v2, d2, x, v2);
    CutBounds(Line(v1, d1, v2, d2, x), step);
  }

  // ---------------------------------------------------------------- the key points

  predicate IsKey(r: Row) { r.frequency != 0 && r.delta != 0 }

  /** The indices of the rows among the first `n` that carry a tested delta. */
  function KeyIndices(rows: seq<Row>, n: nat): (ks: seq<nat>)
    requires n <= |rows|
  {
    if n == 0 then []
    else if IsKey(rows[n - 1]) then KeyIndices(rows, n - 1) + [n - 1]
    else KeyIndices(rows, n - 1)
  }

  /** Exactly the tested rows, in order. */
  lemma {:induction false} KeyIndicesAre(rows: seq<Row>, n: nat)
    requires n <= |rows|
    ensures var ks := KeyIndices(rows, n);
      && (forall j :: 0 <= j < |ks| ==> ks[j] < n && IsKey(rows[ks[j]]))
      && (forall i, j :: 0 <= i < j < |ks| ==> ks[i] < ks[j])
      && (forall i: nat :: i < n && IsKey(rows[i]) ==> i in ks)
  {
    if n > 0 {
      KeyIndicesAre(rows, n - 1);
      var ks, before := KeyIndices(rows, n), KeyIndices(rows, n - 1);
      assert before <= ks;
      forall i: nat | i < n && IsKey(rows[i]) ensures i in ks {
        if i == n - 1 { assert ks[|ks| - 1] == i; } else { assert i in before; }
      }
    }
  }

  lemma {:induction false} KeyIndicesGrow(rows: seq<Row>, m: nat, n: nat)
    requires m <= n <= |rows|
    ensures KeyIndices(rows, m) <= KeyIndices(rows, n)
  {
    if m < n { KeyIndicesGrow(rows, m, n - 1); }
  }

  ghost predicate KeysOf(rows: seq<Row>, ks: seq<nat>) {
    && |ks| == 4 && (forall i :: 0 <= i < 4 ==> ks[i] < |rows|)
    && ks[0] < ks[1] < ks[2] < ks[3]
  }

  /** The first four rows with a tested delta, if there are four. */
  function KeyPoints(rows: seq<Row>): (r: Option<seq<nat>>)
    ensures r.Some? ==> KeysOf(rows, r.value)
  {
    var ks := KeyIndices(rows, |rows|);
    KeyIndicesAre(rows, |rows|);
    if |ks| >= 4 then Some(ks[..4]) else None
  }

  method GetKeyPointsIndices(rows: seq<Row>) returns (r: Option<seq<nat>>)
    ensures r == KeyPoints(rows)
  {
    var keys: seq<nat> := [];
    for i := 0 to |rows|
      invariant keys == KeyIndices(rows, i) && |keys| < 4
    {
      KeyIndicesGrow(rows, i + 1, |rows|);
      if IsKey(rows[i]) {
        keys := keys + [i];
        if |keys| == 4 {
          assert keys == KeyIndices(rows, i + 1);
          assert keys <= KeyIndices(rows, |rows|);
          assert KeyIndices(rows, |rows|)[..4] == keys;
          return Some(keys);
        }
      }
    }
    return None;
  }

  // ---------------------------------------------------------------- the whole curve

  /** The key deltas after the guard band: one step below the tested delta for the first
      two keys of a Max-Q part, two steps for the others. */
  function Guarded(rows: seq<Row>, ks: seq<nat>, step: int, maxq: bool, j: nat): int
    requires |ks| == 4 && j < 4 && forall i :: 0 <= i < 4 ==> ks[i] < |rows|
  {
    rows[ks[j]].delta - (if !maxq then 0 else if j < 2 then step else 2 * step)
  }

  /** The delta row `i` gets, by the segment it lies in; `None` if it cannot be computed. */
  function NewDelta(rows: seq<Row>, ks: seq<nat>, step: int, maxq: bool, i: nat): Option<int>
    requires |ks| == 4 && (forall j :: 0 <= j < 4 ==> ks[j] < |rows|)
    requires ks[0] < ks[1] < ks[2] < ks[3] && i < |rows|
  {
    var d1, d2 := Guarded(rows, ks, step, maxq, 0), Guarded(rows, ks, step, maxq, 1);
    var d3, d4 := Guarded(rows, ks, step, maxq, 2), Guarded(rows, ks, step, maxq, 3);
    var stair := Min(ks[1] - ks[0], ks[2] - ks[1]);
    var v := rows[i].voltage;
    if i < ks[0] then Some(d1)
    else if i < ks[1] && stair == ks[1] - ks[0] && maxq then Some(Min(d1, d2))
    else if i < ks[1] then LinearInterpolate(rows[ks[0]].voltage, d1, rows[ks[1]].voltage, d2, v, step)
    else if i < ks[2] && stair == ks[2] - ks[1] && maxq then Some(Min(d2, d3))
    else if i < ks[2] then LinearInterpolate(rows[ks[1]].voltage, d2, rows[ks[2]].voltage, d3, v, step)
    else if i < ks[3] then LinearInterpolate(rows[ks[2]].voltage, d3, rows[ks[3]].voltage, d4, v, step)
    else Some(d4)
  }

  ghost predicate RisingVoltage(rows: seq<Row>) {
    forall i, j :: 0 <= i < j < |rows| ==> rows[i].voltage < rows[j].voltage
  }

  /** The key points are the first four tested rows. */
  lemma KeyPointsAreFirst(rows: seq<Row>)
    requires KeyPoints(rows).Some?
    ensures forall k :: k in KeyPoints(rows).value ==> rows[k].frequency != 0 && rows[k].delta != 0
    ensures forall i: nat :: i < KeyPoints(rows).value[3] && rows[i].frequency != 0 && rows[i].delta != 0 ==>
      i in KeyPoints(rows).value
  {
    var all := KeyIndices(rows, |rows|);
    KeyIndicesAre(rows, |rows|);
    assert all[3] < |rows|;
    forall i: nat | i < all[3] && IsKey(rows[i]) ensures i in all[..4] {
      var j :| 0 <= j < |all| && all[j] == i;
      assert j < 4;
      assert all[..4][j] == i;
    }
  }

  /** On rows with rising voltage no row fails. */
  lemma NoRowFails(rows: seq<Row>, ks: seq<nat>, step: int, maxq: bool, i: nat)
    requires KeysOf(rows, ks) && RisingVoltage(rows) && i < |rows|
    ensures NewDelta(rows, ks, step, maxq, i).Some?
  {
  }

  // ------------------------------------------------------- what a row receives

  /** The delta on the line between two keys at voltage `v`, whole steps within one step under it,
      and none at all below one step; multiplied out by the voltages' distance. */
  predicate UnderLine(v1: nat, d1: int, v2: nat, d2: int, v: nat, step: int, d: int)
    requires v1 < v2 && step > 0
  {
    CutDown(d1 * (v2 - v) + d2 * (v - v1), v2 - v1, step, d)
  }

  predicate CutDown(line: int, w: int, step: int, d: int)
    requires step > 0
  {
    if line < step * w then d == 0 else d % step == 0 && d * w <= line < (d + step) * w
  }

  /** Between two keys: under their line from the lower voltage to the higher, and half their sum,
      cut off towards zero, where the voltages are the same. */
  predicate BetweenKeys(v1: nat, d1: int, v2: nat, d2: int, v: nat, step: int, d: int)
    requires step > 0
  {
    if v1 == v2 then
      if d1 + d2 >= 0 then 2 * d <= d1 + d2 <= 2 * d + 1 else 2 * d - 1 <= d1 + d2 <= 2 * d
    else if v1 < v2 then v1 <= v <= v2 && UnderLine(v1, d1, v2, d2, v, step, d)
    else v2 <= v <= v1 && UnderLine(v2, d2, v1, d1, v, step, d)
  }

  predicate IsSmaller(a: int, b: int, d: int) {
    d <= a && d <= b && (d == a || d == b)
  }

  /** What row `i` receives, from the four key rows alone. A Max-Q part gives up one step at the
      first two keys and two at the others, and the shorter of the first two segments is a
      stair there: it holds the smaller of its two deltas. */
  ghost predicate Receives(rows: seq<Row>, ks: seq<nat>, step: int, maxq: bool, i: nat, d: int)
    requires KeysOf(rows, ks) && i < |rows| && step > 0
  {
    var band := if maxq then step else 0;
    var a, b, c, e := rows[ks[0]], rows[ks[1]], rows[ks[2]], rows[ks[3]];
    var v := rows[i].voltage;
    && (i < ks[0] ==> d == a.delta - band)
    && (ks[0] <= i < ks[1] && maxq && ks[1] - ks[0] <= ks[2] - ks[1] ==>
          IsSmaller(a.delta - step, b.delta - step, d))
    && (ks[0] <= i < ks[1] && !(maxq && ks[1] - ks[0] <= ks[2] - ks[1]) ==>
          BetweenKeys(a.voltage, a.delta - band, b.voltage, b.delta - band, v, step, d))
    && (ks[1] <= i < ks[2] && maxq && ks[2] - ks[1] <= ks[1] - ks[0] ==>
          IsSmaller(b.delta - step, c.delta - 2 * step, d))
    && (ks[1] <= i < ks[2] && !(maxq && ks[2] - ks[1] <= ks[1] - ks[0]) ==>
          BetweenKeys(b.voltage, b.delta - band, c.voltage, c.delta - 2 * band, v, step, d))
    && (ks[2] <= i < ks[3] ==>
          BetweenKeys(c.voltage, c.delta - 2 * band, e.voltage, e.delta - 2 * band, v, step, d))
    && (ks[3] <= i ==> d == e.delta - 2 * band)
  }

  lemma ProductsAreReal(a: int, b: int)
    ensures (a * b) as real == a as real * b as real
  {
  }

  /** The line, multiplied out. */
  lemma LineTimesWidth(v1: nat, d1: int, v2: nat, d2: int, v: nat)
    requires v1 < v2 && v1 <= v <= v2
    ensures Line(v1, d1, v2, d2, v) * (v2 - v1) as real == (d1 * (v2 - v) + d2 * (v - v1)) as real
  {
    var w, x := (v2 - v1) as real, (v - v1) as real;
    var rise := d2 as real - d1 as real;
    var ratio := x / w;
    QuotientTimes(x, w);
    assert (rise * ratio + d1 as real) * w == rise * (ratio * w) + d1 as real * w;
    ProductsAreReal(d1, v2 - v);
    ProductsAreReal(d2, v - v1);
    assert rise * x + d1 as real * w == d1 as real * (w - x) + d2 as real * x;
  }

  lemma CutIsUnderLine(v1: nat, d1: int, v2: nat, d2: int, v: nat, step: int)
    requires v1 < v2 && v1 <= v <= v2 && step > 0
    ensures UnderLine(v1, d1, v2, d2, v, step, Cut(Line(v1, d1, v2, d2, v), step))
  {
    LineTimesWidth(v1, d1, v2, d2, v);
    CutScaled(Line(v1, d1, v2, d2, v), d1 * (v2 - v) + d2 * (v - v1), v2 - v1, step);
  }

  lemma CutScaled(x: real, line: int, w: int, step: int)
    requires w > 0 && step > 0 && x * w as real == line as real
    ensures CutDown(line, w, step, Cut(x, step))
  {
    var d := Cut(x, step);
    CutBounds(x, step);
    ScaleUp(x, d, w);
    ScaleUp(x, d + step, w);
    ScaleUp(x, step, w);
  }

  /** Comparing with a whole number, multiplied out. */
  lemma ScaleUp(x: real, n: int, w: int)
    requires w > 0
    ensures n as real <= x <==> (n * w) as real <= x * w as real
    ensures x < n as real <==> x * w as real < (n * w) as real
  {
    ProductsAreReal(n, w);
    assert x * w as real - n as real * w as real == (x - n as real) * w as real;
    if n as real <= x { NonNegativeProduct(x - n as real, w as real); }
    if x < n as real { PositiveProduct(n as real - x, w as real); }
  }

  lemma InterpolatedIsBetween(v1: nat, d1: int, v2: nat, d2: int, v: nat, step: int)
    requires step > 0
    ensures match LinearInterpolate(v1, d1, v2, d2, v, step)
      case Some(d) => BetweenKeys(v1, d1, v2, d2, v, step, d)
      case None => (v < v1 && v < v2) || (v > v1 && v > v2)
  {
    if v1 <= v <= v2 && v1 < v2 { CutIsUnderLine(v1, d1, v2, d2, v, step); }
    if v2 <= v <= v1 && v2 < v1 { CutIsUnderLine(v2, d2, v1, d1, v, step); }
  }

  /** What the segment after key `s` gives a row unless it is a stair. */
  lemma SegmentInterpolates(rows: seq<Row>, ks: seq<nat>, step: int, maxq: bool, i: nat, s: nat)
    requires KeysOf(rows, ks) && i < |rows| && step > 0 && s < 3
    ensures var band := if maxq then step else 0;
      var d, e := rows[ks[s]].delta - (if s < 2 then band else 2 * band),
                  rows[ks[s + 1]].delta - (if s < 1 then band else 2 * band);
      match LinearInterpolate(rows[ks[s]].voltage, Guarded(rows, ks, step, maxq, s), rows[ks[s + 1]].voltage,
                              Guarded(rows, ks, step, maxq, s + 1), rows[i].voltage, step)
      case Some(r) => BetweenKeys(rows[ks[s]].voltage, d, rows[ks[s + 1]].voltage, e, rows[i].voltage, step, r)
      case None => true
  {
    InterpolatedIsBetween(rows[ks[s]].voltage, Guarded(rows, ks, step, maxq, s),
                          rows[ks[s + 1]].voltage, Guarded(rows, ks, step, maxq, s + 1), rows[i].voltage, step);
  }

  /** The first two segments of a Max-Q part: the shorter one is a stair, both where they are
      equally long. */
  predicate IsStair(ks: seq<nat>, maxq: bool, s: nat)
    requires |ks| == 4 && ks[0] < ks[1] < ks[2] < ks[3]
  {
    maxq && ((s == 1 && ks[1] - ks[0] <= ks[2] - ks[1]) || (s == 2 && ks[2] - ks[1] <= ks[1] - ks[0]))
  }

  lemma InterpolatedRowReceives(rows: seq<Row>, ks: seq<nat>, step: int, maxq: bool, i: nat)
    requires KeysOf(rows, ks) && i < |rows| && step > 0 && NewDelta(rows, ks, step, maxq, i).Some?
    requires 1 <= Segment(ks, i) <= 3 && !IsStair(ks, maxq, Segment(ks, i))
    ensures Receives(rows, ks, step, maxq, i, NewDelta(rows, ks, step, maxq, i).value)
  {
    SegmentInterpolates(rows, ks, step, maxq, i, Segment(ks, i) - 1);
  }

  lemma NewDeltaIsReceived(rows: seq<Row>, ks: seq<nat>, step: int, maxq: bool, i: nat)
    requires KeysOf(rows, ks) && i < |rows| && step > 0 && NewDelta(rows, ks, step, maxq, i).Some?
    ensures Receives(rows, ks, step, maxq, i, NewDelta(rows, ks, step, maxq, i).value)
  {
    var s := Segment(ks, i);
    if 1 <= s <= 3 && !IsStair(ks, maxq, s) { InterpolatedRowReceives(rows, ks, step, maxq, i); }
  }

  method InterpolateDeltas(lines: array<Row>, minimumDeltaStep: int, maxq: bool) returns (ok: bool)
    modifies lines
    ensures ok ==> KeyPoints(old(lines[..])).Some?
    ensures ok ==> forall i :: 0 <= i < lines.Length ==>
      var d := NewDelta(old(lines[..]), KeyPoints(old(lines[..])).value, minimumDeltaStep, maxq, i);
      d.Some? && lines[i] == old(lines[i]).(delta := d.value)
    ensures ok && minimumDeltaStep > 0 ==> forall i :: 0 <= i < lines.Length ==>
      Receives(old(lines[..]), KeyPoints(old(lines[..])).value, minimumDeltaStep, maxq, i, lines[i].delta)
    ensures !ok && KeyPoints(old(lines[..])).Some? ==> exists i: nat ::
      i < lines.Length && NewDelta(old(lines[..]), KeyPoints(old(lines[..])).value, minimumDeltaStep, maxq, i).None?
    ensures KeyPoints(old(lines[..])).None? ==> !ok && lines[..] == old(lines[..])
    ensures RisingVoltage(old(lines[..])) ==> (ok <==> KeyPoints(old(lines[..])).Some?)
    ensures forall i :: 0 <= i < lines.Length ==> lines[i].(delta := 0) == old(lines[i]).(delta := 0)
  {
    ghost var was := lines[..];
    var keys := GetKeyPointsIndices(lines[..]);
    if keys.None? {
      return false;
    }
    var ks := keys.value;
    var v1, v2, v3, v4 := lines[ks[0]].voltage, lines[ks[1]].voltage, lines[ks[2]].voltage, lines[ks[3]].voltage;
    var d1, d2, d3, d4 := lines[ks[0]].delta, lines[ks[1]].delta, lines[ks[2]].delta, lines[ks[3]].delta;
    if maxq {
      d1, d2 := d1 - minimumDeltaStep, d2 - minimumDeltaStep;
      d3, d4 := d3 - 2 * minimumDeltaStep, d4 - 2 * minimumDeltaStep;
    }
    for i := 0 to lines.Length
      invariant forall j :: i <= j < lines.Length ==> lines[j] == was[j]
      invariant forall j :: 0 <= j < i ==>
        && NewDelta(was, ks, minimumDeltaStep, maxq, j).Some?
        && lines[j] == was[j].(delta := NewDelta(was, ks, minimumDeltaStep, maxq, j).value)
    {
      var v := lines[i].voltage;
      var stair := Min(ks[1] - ks[0], ks[2] - ks[1]);
      var newDelta: Option<int>;
      if i < ks[0] {
        newDelta := Some(d1);
      } else if i < ks[1] && stair == ks[1] - ks[0] && maxq {
        newDelta := Some(Min(d1, d2));
      } else if i < ks[1] {
        newDelta := LinearInterpolate(v1, d1, v2, d2, v, minimumDeltaStep);
      } else if i < ks[2] && stair == ks[2] - ks[1] && maxq {
        newDelta := Some(Min(d2, d3));
      } else if i < ks[2] {
        newDelta := LinearInterpolate(v2, d2, v3, d3, v, minimumDeltaStep);
      } else if i < ks[3] {
        newDelta := LinearInterpolate(v3, d3, v4, d4, v, minimumDeltaStep);
      } else {
        newDelta := Some(d4);
      }
      assert newDelta == NewDelta(was, ks, minimumDeltaStep, maxq, i);
      if newDelta.None? {
        if RisingVoltage(was) { NoRowFails(was, ks, minimumDeltaStep, maxq, i); }
        return false;
      }
      lines[i] := lines[i].(delta := newDelta.value);
    }
    ok := true;
    if minimumDeltaStep > 0 {
      forall i: nat | i < lines.Length ensures Receives(was, ks, minimumDeltaStep, maxq, i, lines[i].delta) {
        NewDeltaIsReceived(was, ks, minimumDeltaStep, maxq, i);
      }
    }
  }

  /** The guard-banded key deltas fall, stay non-negative and are whole steps. */
  ghost predicate FallingKeys(rows: seq<Row>, ks: seq<nat>, step: int, maxq: bool)
    requires KeysOf(rows, ks)
  {
    && step > 0
    && (forall j: nat :: j < 4 ==>
          Guarded(rows, ks, step, maxq, j) >= 0 && Guarded(rows, ks, step, maxq, j) % step == 0)
    && Guarded(rows, ks, step, maxq, 0) >= Guarded(rows, ks, step, maxq, 1)
       >= Guarded(rows, ks, step, maxq, 2) >= Guarded(rows, ks, step, maxq, 3)
  }

  /** Which segment a row lies in: 0 before the first key, 4 from the last key on. */
  function Segment(ks: seq<nat>, i: nat): nat
    requires |ks| == 4
  {
    if i < ks[0] then 0 else if i < ks[1] then 1 else if i < ks[2] then 2 else if i < ks[3] then 3 else 4
  }

  /** The key delta a segment starts from, and the one it ends at. */
  function SegmentTop(rows: seq<Row>, ks: seq<nat>, step: int, maxq: bool, s: nat): int
    requires |ks| == 4 && s <= 4 && forall i :: 0 <= i < 4 ==> ks[i] < |rows|
  {
    Guarded(rows, ks, step, maxq, if s == 0 then 0 else s - 1)
  }

  function SegmentBottom(rows: seq<Row>, ks: seq<nat>, step: int, maxq: bool, s: nat): int
    requires |ks| == 4 && s <= 4 && forall i :: 0 <= i < 4 ==> ks[i] < |rows|
  {
    Guarded(rows, ks, step, maxq, if s == 4 then 3 else s)
  }

  lemma WithinSegment(rows: seq<Row>, ks: seq<nat>, step: int, maxq: bool, i: nat, j: nat)
    requires KeysOf(rows, ks) && RisingVoltage(rows) && FallingKeys(rows, ks, step, maxq)
    requires i <= j < |rows| && Segment(ks, i) == Segment(ks, j)
    ensures var s, a, b := Segment(ks, i), NewDelta(rows, ks, step, maxq, i), NewDelta(rows, ks, step, maxq, j);
      && a.Some? && b.Some?
      && SegmentTop(rows, ks, step, maxq, s) >= a.value >= b.value >= SegmentBottom(rows, ks, step, maxq, s)
  {
    var s := Segment(ks, i);
    if 1 <= s <= 3 {
      InterpolationBounds(rows[ks[s - 1]].voltage, Guarded(rows, ks, step, maxq, s - 1),
                          rows[ks[s]].voltage, Guarded(rows, ks, step, maxq, s),
                          rows[i].voltage, rows[j].voltage, step);
    }
  }

  lemma SegmentsFall(rows: seq<Row>, ks: seq<nat>, step: int, maxq: bool, s: nat, t: nat)
    requires KeysOf(rows, ks) && FallingKeys(rows, ks, step, maxq) && s < t <= 4
    ensures SegmentBottom(rows, ks, step, maxq, s) >= SegmentTop(rows, ks, step, maxq, t)
  {
  }

  /** The whole interpolated curve never rises, with or without the stair branches. */
  lemma CurveNeverRises(rows: seq<Row>, step: int, maxq: bool, i: nat, j: nat)
    requires KeyPoints(rows).Some? && RisingVoltage(rows) && i <= j < |rows|
    requires KeysOf(rows, KeyPoints(rows).value) && FallingKeys(rows, KeyPoints(rows).value, step, maxq)
    ensures var ks := KeyPoints(rows).value;
      var a, b := NewDelta(rows, ks, step, maxq, i), NewDelta(rows, ks, step, maxq, j);
      a.Some? && b.Some? && a.value >= b.value >= 0
  {
    var ks := KeyPoints(rows).value;
    var s, t := Segment(ks, i), Segment(ks, j);
    WithinSegment(rows, ks, step, maxq, i, i);
    WithinSegment(rows, ks, step, maxq, j, j);
    if s == t {
      WithinSegment(rows, ks, step, maxq, i, j);
    } else {
      SegmentsFall(rows, ks, step, maxq, s, t);
    }
    assert Guarded(rows, ks, step, maxq, 3) >= 0;
  }
}
