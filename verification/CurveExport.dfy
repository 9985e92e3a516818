/** The curve a normal-mode scan exports (auto-optimizer/src/oc_scanner.rs): each tested
    endpoint, and the points between two endpoints interpolated to whole bins. */
module CurveExport {
  import opened Arithmetic
  import opened Options
  import opened Scanner

  /** The delta exported for the point `k` below a tested endpoint: the line from the
      endpoint's delta to the one `t` points below, cut down to whole bins. */
  function Interpolated(prev: int, current: int, t: int, bin: int, k: int): int
    requires t > 0 && bin > 0
  {
    var numerator := prev * k + current * (t - k);
    if numerator % (t * bin) == 0 then numerator / t
    else (numerator / (t * bin)) * bin
  }

  /** Both branches compute the same floor to a whole bin. */
  lemma InterpolatedIsFloor(prev: int, current: int, t: int, bin: int, k: int)
    requires t > 0 && bin > 0
    ensures Interpolated(prev, current, t, bin, k) == bin * ((prev * k + current * (t - k)) / (t * bin))
  {
    var numerator := prev * k + current * (t - k);
    var q := numerator / (t * bin);
    if numerator % (t * bin) == 0 {
      assert numerator == t * bin * q;
      assert t * bin * q == t * (bin * q);
      DivModUnique(numerator, t, bin * q, 0);
    }
  }

  /** Walking away from an endpoint the exported deltas never turn back. */
  lemma InterpolatedIsMonotone(prev: int, current: int, t: int, bin: int, j: int, k: int)
    requires t > 0 && bin > 0 && 0 <= j <= k <= t
    ensures prev <= current ==> Interpolated(prev, current, t, bin, k) <= Interpolated(prev, current, t, bin, j)
    ensures prev >= current ==> Interpolated(prev, current, t, bin, k) >= Interpolated(prev, current, t, bin, j)
  {
    var a, b := prev * j + current * (t - j), prev * k + current * (t - k);
    assert b - a == (prev - current) * (k - j);
    assert prev <= current ==> b <= a by { if prev <= current { MulIsMonotone(prev - current, 0, k - j); } }
    assert prev >= current ==> b >= a by { if prev >= current { MulIsMonotone(0, prev - current, k - j); } }
    InterpolatedIsFloor(prev, current, t, bin, j);
    InterpolatedIsFloor(prev, current, t, bin, k);
    if prev <= current {
      DivIsMonotone(b, a, t * bin);
      MulIsMonotone(b / (t * bin), a / (t * bin), bin);
    }
    if prev >= current {
      DivIsMonotone(a, b, t * bin);
      MulIsMonotone(a / (t * bin), b / (t * bin), bin);
    }
  }

  /** Whole-bin endpoints are met exactly. */
  lemma InterpolatedAtEnds(prev: int, current: int, t: int, bin: int)
    requires t > 0 && bin > 0
    ensures current % bin == 0 ==> Interpolated(prev, current, t, bin, 0) == current
    ensures prev % bin == 0 ==> Interpolated(prev, current, t, bin, t) == prev
  {
    InterpolatedIsFloor(prev, current, t, bin, 0);
    InterpolatedIsFloor(prev, current, t, bin, t);
    if current % bin == 0 { FloorOfWhole(current, t, bin); }
    if prev % bin == 0 { FloorOfWhole(prev, t, bin); }
  }

  lemma FloorOfWhole(x: int, t: int, bin: int)
    requires t > 0 && bin > 0 && x % bin == 0
    ensures bin * ((x * t) / (t * bin)) == x
  {
    var q := x / bin;
    assert x == bin * q;
    assert x * t == t * bin * q;
    MultipleMod(q, t * bin);
  }

  /** Between whole-bin endpoints every exported delta lies between them. */
  lemma InterpolatedIsBetween(prev: int, current: int, t: int, bin: int, k: int)
    requires t > 0 && bin > 0 && 0 <= k <= t && prev % bin == 0 && current % bin == 0
    ensures prev <= current ==> prev <= Interpolated(prev, current, t, bin, k) <= current
    ensures prev >= current ==> current <= Interpolated(prev, current, t, bin, k) <= prev
  {
    InterpolatedAtEnds(prev, current, t, bin);
    InterpolatedIsMonotone(prev, current, t, bin, 0, k);
    InterpolatedIsMonotone(prev, current, t, bin, k, t);
  }

  datatype Export = Export(point: nat, delta: int)

  /** The delta `k` points below a tested endpoint: the settled one at the endpoint itself; below
      it whole bins, less than one bin under the line from that endpoint to the one before. The
      first endpoint has none before it, and its delta is carried down to whole bins. */
  ghost predicate Owed(c: Config, settled: nat -> int, bin: int, end: nat, k: nat, delta: int)
    requires c.step > 0 && bin > 0 && k < c.step && end >= c.lower + c.step
  {
    if k == 0 then delta == settled(end)
    else if end == c.lower + c.step then delta % bin == 0 && delta <= settled(end) < delta + bin
    else
      && delta % bin == 0
      && delta * c.step <= settled(end - c.step) * k + settled(end) * (c.step - k) < (delta + bin) * c.step
  }

  /** The export is the one the curve owes its point, wherever that lies below an endpoint. */
  ghost predicate OnCurve(c: Config, settled: nat -> int, bin: int, e: Export)
    requires c.step > 0 && bin > 0
  {
    && e.point > c.lower
    && forall end: nat, k: nat :: IsBelow(c, e.point, end, k) ==> Owed(c, settled, bin, end, k, e.delta)
  }

  /** `end` is the tested endpoint at or above the point `p`, `k` points away. */
  ghost predicate IsBelow(c: Config, p: nat, end: nat, k: nat)
    requires c.step > 0
  {
    OnLattice(c, end) && end >= c.lower + c.step && k < c.step && end == p + k
  }

  ghost predicate Exported(out: seq<Export>, p: nat) {
    exists i :: 0 <= i < |out| && out[i].point == p
  }

  ghost predicate NoPointTwice(out: seq<Export>) {
    forall i, j :: 0 <= i < j < |out| ==> out[i].point != out[j].point
  }

  /** Exactly the points in (lower, last] are exported, each once and on the curve. */
  ghost predicate ExportsThrough(c: Config, settled: nat -> int, bin: int, out: seq<Export>, last: nat)
    requires c.step > 0 && bin > 0
  {
    && (forall i :: 0 <= i < |out| ==> OnCurve(c, settled, bin, out[i]))
    && (forall p: nat :: Exported(out, p) <==> c.lower < p <= last)
    && NoPointTwice(out)
  }

  lemma BelowOneEndpoint(c: Config, p: nat, end: nat, k: nat, e: nat, l: nat)
    requires c.step > 0 && IsBelow(c, p, end, k) && IsBelow(c, p, e, l)
    ensures e == end && l == k
  {
    if end < e { LatticeNeighbours(c, end, e); }
    if e < end { LatticeNeighbours(c, e, end); }
  }

  /** Every point above the lowest has its endpoint. */
  lemma EndpointOf(c: Config, p: nat) returns (end: nat, k: nat)
    requires c.step > 0 && p > c.lower
    ensures IsBelow(c, p, end, k)
  {
    var q := (p - c.lower + c.step - 1) / c.step;
    end := c.lower + c.step * q;
    MultipleMod(q, c.step);
    MulBeyond(c.step, q);
    k := end - p;
  }

  /** What the loop exports `k` points below an endpoint. */
  lemma InterpolatedIsOwed(c: Config, settled: nat -> int, bin: int, end: nat, k: nat, prev: int)
    requires c.step > 0 && bin > 0 && 0 < k < c.step && end >= c.lower + c.step
    requires prev == if end == c.lower + c.step then settled(end) else settled(end - c.step)
    ensures Owed(c, settled, bin, end, k, Interpolated(prev, settled(end), c.step, bin, k))
  {
    var current, t := settled(end), c.step;
    var d := Interpolated(prev, current, t, bin, k);
    InterpolatedIsFloor(prev, current, t, bin, k);
    FloorIsBelow(prev * k + current * (t - k), t, bin, d);
    if end == c.lower + c.step {
      assert prev * k + current * (t - k) == current * t;
      FactorOut(d, current, t);
      FactorOut(d + bin, current, t);
    }
  }

  lemma FactorOut(a: int, b: int, t: int)
    requires t > 0
    ensures a * t <= b * t <==> a <= b
  {
    if a <= b { MulIsMonotone(a, b, t); } else { MulIsMonotone(b + 1, a, t); }
  }

  lemma OwedIsOnCurve(c: Config, settled: nat -> int, bin: int, end: nat, k: nat, e: Export)
    requires c.step > 0 && bin > 0 && e.point > c.lower && IsBelow(c, e.point, end, k)
    requires Owed(c, settled, bin, end, k, e.delta)
    ensures OnCurve(c, settled, bin, e)
  {
    forall f: nat, l: nat | IsBelow(c, e.point, f, l) ensures f == end && l == k {
      BelowOneEndpoint(c, e.point, end, k, f, l);
    }
  }

  lemma FloorIsBelow(x: int, t: int, bin: int, d: int)
    requires t > 0 && bin > 0 && d == bin * (x / (t * bin))
    ensures d % bin == 0 && d * t <= x < (d + bin) * t
  {
    var q := x / (t * bin);
    MultipleMod(q, bin);
    assert d * t == (t * bin) * q;
    assert (d + bin) * t == (t * bin) * q + t * bin;
  }

  /** The entries of `out` from position `from` on are the points `top`, `top - 1`, ... */
  ghost predicate Block(c: Config, settled: nat -> int, bin: int, out: seq<Export>, from: nat, top: nat)
    requires c.step > 0 && bin > 0
  {
    && from <= |out|
    && forall i :: from <= i < |out| ==> out[i].point == top - (i - from) && OnCurve(c, settled, bin, out[i])
  }

  lemma BlockExported(c: Config, settled: nat -> int, bin: int, before: seq<Export>, out: seq<Export>, last: nat)
    requires c.step > 0 && bin > 0 && c.lower <= last
    requires ExportsThrough(c, settled, bin, before, last)
    requires |out| == |before| + c.step && before <= out
    requires Block(c, settled, bin, out, |before|, last + c.step)
    ensures ExportsThrough(c, settled, bin, out, last + c.step)
  {
    forall i | 0 <= i < |before| ensures out[i].point <= last {
      assert Exported(before, before[i].point);
    }
    forall p: nat ensures Exported(out, p) <==> c.lower < p <= last + c.step {
      if c.lower < p <= last {
        assert Exported(before, p);
        var i :| 0 <= i < |before| && before[i].point == p;
        assert out[i].point == p;
      } else if last < p <= last + c.step {
        assert out[|before| + (last + c.step - p)].point == p;
      }
    }
  }

  /** The points between two endpoints, from the upper one down. */
  method ExportBlock(c: Config, ghost settled: nat -> int, bin: int, last: nat, previous: Option<int>, current: int,
                     before: seq<Export>)
    returns (out: seq<Export>)
    requires c.step > 0 && bin > 0 && OnLattice(c, last)
    requires current == settled(last + c.step)
    requires previous == if last == c.lower then None else Some(settled(last))
    ensures |out| == |before| + c.step && before <= out
    ensures Block(c, settled, bin, out, |before|, last + c.step)
  {
    var point := last + c.step;
    LatticeNext(c, last);
    OwedIsOnCurve(c, settled, bin, point, 0, Export(point, current));
    out := before + [Export(point, current)];
    for k := 1 to c.step
      invariant |out| == |before| + k && before <= out
      invariant Block(c, settled, bin, out, |before|, point)
    {
      var delta := Interpolated(previous.GetOr(current), current, c.step, bin, k);
      InterpolatedIsOwed(c, settled, bin, point, k, previous.GetOr(current));
      OwedIsOnCurve(c, settled, bin, point, k, Export(point - k, delta));
      out := out + [Export(point - k, delta)];
    }
  }

  /** A scan from a fresh log that nothing interrupts: it exports every index above the
      lowest and up to the last tested point exactly once, each with the delta the
      curve owes it. `settled(p)` is the offset both phases leave at point `p`. Point 0 is
      the source's mark for nothing to scan. */
  method FreshScan(c: Config, minimumStep: int, settled: nat -> int) returns (out: seq<Export>, last: nat)
    requires c.step > 0 && c.lower <= c.upper
    ensures ExportsThrough(c, settled, if minimumStep > 1 then minimumStep else 1, out, last)
    ensures if c.lower == 0 then out == [] && last == 0
            else OnLattice(c, last) && last <= c.upper < last + c.step
  {
    var bin := if minimumStep > 1 then minimumStep else 1;
    out, last := [], c.lower;
    if c.lower == 0 { return; }
    var previous: Option<int> := None;
    while last + c.step <= c.upper
      invariant OnLattice(c, last) && last <= c.upper
      invariant previous == if last == c.lower then None else Some(settled(last))
      invariant ExportsThrough(c, settled, bin, out, last)
    {
      var current := settled(last + c.step);
      ghost var before := out;
      out := ExportBlock(c, settled, bin, last, previous, current, out);
      BlockExported(c, settled, bin, before, out, last);
      LatticeNext(c, last);
      previous, last := Some(current), last + c.step;
    }
  }

  /** What a reader of the exported curve finds, whatever the endpoints settled on: the endpoint's
      own delta there, and below it deltas within one bin under the line. */
  lemma ExportsAre(c: Config, settled: nat -> int, bin: int, out: seq<Export>, last: nat, i: nat, end: nat, k: nat)
    requires c.step > 0 && bin > 0 && ExportsThrough(c, settled, bin, out, last) && i < |out|
    requires OnLattice(c, end) && end > c.lower && k < c.step && out[i].point == end - k
    ensures k == 0 ==> out[i].delta == settled(end)
    ensures k > 0 ==> out[i].delta % bin == 0
    ensures k > 0 && end - c.lower > c.step ==>
      var line := settled(end - c.step) * k + settled(end) * (c.step - k);
      out[i].delta * c.step <= line < (out[i].delta + bin) * c.step
    ensures k > 0 && end - c.lower <= c.step ==> out[i].delta <= settled(end) < out[i].delta + bin
  {
    LatticeNeighbours(c, c.lower, end);
    assert IsBelow(c, out[i].point, end, k);
    assert OnCurve(c, settled, bin, out[i]);
  }

  /** Whole bins within one bin under a line are that line cut down to whole bins. */
  lemma CutIsUnique(x: int, t: int, bin: int, d: int)
    requires t > 0 && bin > 0 && d % bin == 0 && d * t <= x < (d + bin) * t
    ensures d == bin * (x / (t * bin))
  {
    var q := d / bin;
    assert d == bin * q;
    assert d * t == (t * bin) * q;
    assert (d + bin) * t == (t * bin) * q + t * bin;
    DivModUnique(x, t * bin, q, x - (t * bin) * q);
  }

  lemma ExportIsInterpolated(c: Config, settled: nat -> int, bin: int, out: seq<Export>, last: nat,
                             i: nat, end: nat, k: nat)
    requires c.step > 0 && bin > 0 && ExportsThrough(c, settled, bin, out, last) && i < |out|
    requires OnLattice(c, end) && end > c.lower + c.step && 0 < k < c.step && out[i].point == end - k
    ensures out[i].delta == Interpolated(settled(end - c.step), settled(end), c.step, bin, k)
  {
    var prev, current, t := settled(end - c.step), settled(end), c.step;
    ExportsAre(c, settled, bin, out, last, i, end, k);
    CutIsUnique(prev * k + current * (t - k), t, bin, out[i].delta);
    InterpolatedIsFloor(prev, current, t, bin, k);
  }

  lemma CutIsBelow(prev: int, current: int, t: int, bin: int)
    requires t > 0 && bin > 0
    ensures Interpolated(prev, current, t, bin, 0) <= current
  {
    var d := Interpolated(prev, current, t, bin, 0);
    InterpolatedIsFloor(prev, current, t, bin, 0);
    FloorIsBelow(prev * 0 + current * (t - 0), t, bin, d);
    FactorOut(d, current, t);
  }

  /** Between two endpoints the exported deltas run from one to the other without turning back. */
  lemma CurveDoesNotTurn(c: Config, settled: nat -> int, bin: int, out: seq<Export>, last: nat,
                         i: nat, j: nat, end: nat)
    requires c.step > 0 && bin > 0 && ExportsThrough(c, settled, bin, out, last) && i < |out| && j < |out|
    requires OnLattice(c, end) && end > c.lower + c.step
    requires end - c.step < out[i].point < out[j].point <= end
    ensures settled(end - c.step) <= settled(end) ==> out[i].delta <= out[j].delta
    ensures settled(end - c.step) >= settled(end) && (out[j].point < end || settled(end) % bin == 0) ==>
      out[i].delta >= out[j].delta
  {
    var prev, current, t := settled(end - c.step), settled(end), c.step;
    var k, l: nat := end - out[i].point, end - out[j].point;
    ExportIsInterpolated(c, settled, bin, out, last, i, end, k);
    InterpolatedIsMonotone(prev, current, t, bin, l, k);
    if l > 0 {
      ExportIsInterpolated(c, settled, bin, out, last, j, end, l);
    } else {
      ExportsAre(c, settled, bin, out, last, j, end, 0);
      CutIsBelow(prev, current, t, bin);
      InterpolatedAtEnds(prev, current, t, bin);
    }
  }
}
