/**
 The linearization table of a decoder: a piecewise-linear curve through strictly
 increasing abscissae, held flat outside the table, and its inverse search.
 Python floats are modelled as exact reals.
 */
module Interpolation {
  import opened Numbers

  // ---------------------------------------------------------------- tables

  ghost predicate Increasing(xs: seq<real>) {
    forall i, j :: 0 <= i < j < |xs| ==> xs[i] < xs[j]
  }

  ghost predicate Decreasing(xs: seq<real>) {
    forall i, j :: 0 <= i < j < |xs| ==> xs[i] > xs[j]
  }

  /** What `_has_lin_table` stands for: at least two points, strictly increasing in x. */
  ghost predicate Table(xs: seq<real>, ys: seq<real>) {
    |xs| == |ys| >= 2 && Increasing(xs)
  }

  function MinOf(ys: seq<real>): (m: real)
    requires ys != []
    ensures m in ys
    ensures forall i :: 0 <= i < |ys| ==> m <= ys[i]
  {
    if |ys| == 1 then ys[0] else Min(ys[0], MinOf(ys[1..]))
  }

  function MaxOf(ys: seq<real>): (m: real)
    requires ys != []
    ensures m in ys
    ensures forall i :: 0 <= i < |ys| ==> ys[i] <= m
  {
    if |ys| == 1 then ys[0] else Max(ys[0], MaxOf(ys[1..]))
  }

  /** Position of the first occurrence of `y`, as `list.index` gives it. */
  function IndexOf(ys: seq<real>, y: real): (i: nat)
    requires y in ys
    ensures i < |ys| && ys[i] == y && y !in ys[..i]
  {
    if ys[0] == y then 0 else 1 + IndexOf(ys[1..], y)
  }

  /** `bisect.bisect_right`: how many abscissae do not exceed `v`. */
  function BisectRight(xs: seq<real>, v: real): (i: nat)
    requires Increasing(xs)
    ensures i <= |xs|
    ensures forall k :: 0 <= k < i ==> xs[k] <= v
    ensures forall k :: i <= k < |xs| ==> v < xs[k]
  {
    BisectBetween(xs, v, 0, |xs|)
  }

  function BisectBetween(xs: seq<real>, v: real, lo: nat, hi: nat): (i: nat)
    requires Increasing(xs) && lo <= hi <= |xs|
    requires forall k :: 0 <= k < lo ==> xs[k] <= v
    requires forall k :: hi <= k < |xs| ==> v < xs[k]
    ensures lo <= i <= hi
    ensures forall k :: 0 <= k < i ==> xs[k] <= v
    ensures forall k :: i <= k < |xs| ==> v < xs[k]
    decreases hi - lo
  {
    if lo == hi then lo
    else
      var mid := (lo + hi) / 2;
      if v < xs[mid] then BisectBetween(xs, v, lo, mid) else BisectBetween(xs, v, mid + 1, hi)
  }

  // ---------------------------------------------------------------- one segment

  function Lerp(x0: real, x1: real, y0: real, y1: real, v: real): real
    requires x0 != x1
  {
    y0 + (y1 - y0) * ((v - x0) / (x1 - x0))
  }

  /** A point is on the line through two points exactly when cross-multiplication says so. */
  lemma LerpCross(x0: real, x1: real, y0: real, y1: real, v: real, w: real)
    requires x0 < x1
    ensures w == Lerp(x0, x1, y0, y1, v) <==> (w - y0) * (x1 - x0) == (y1 - y0) * (v - x0)
  {
    var dx, t := x1 - x0, (v - x0) / (x1 - x0);
    assert t * dx == v - x0;
    assert ((y1 - y0) * t) * dx == (y1 - y0) * (v - x0);
    if (w - y0) * dx == (y1 - y0) * (v - x0) {
      assert (w - y0 - (y1 - y0) * t) * dx == 0.0;
    }
  }

  lemma Fraction(part: real, whole: real)
    requires whole != 0.0 && (0.0 <= part <= whole || whole <= part <= 0.0)
    ensures 0.0 <= part / whole <= 1.0
    ensures part / whole * whole == part
  {
    var t := part / whole;
    assert t * whole == part && (1.0 - t) * whole == whole - part;
  }

  lemma Product(a: real, b: real)
    requires a >= 0.0 && b >= 0.0
    ensures a * b >= 0.0
  {
  }

  lemma PartOf(d: real, t: real)
    requires 0.0 <= t <= 1.0
    ensures Min(0.0, d) <= d * t <= Max(0.0, d)
  {
    Product(if d >= 0.0 then d else -d, t);
    Product(if d >= 0.0 then d else -d, 1.0 - t);
  }

  /** Inside its segment the line stays between the two ordinates. */
  lemma LerpBetween(x0: real, x1: real, y0: real, y1: real, v: real)
    requires x0 < x1 && x0 <= v <= x1
    ensures Min(y0, y1) <= Lerp(x0, x1, y0, y1, v) <= Max(y0, y1)
  {
    var t := (v - x0) / (x1 - x0);
    Fraction(v - x0, x1 - x0);
    PartOf(y1 - y0, t);
  }

  lemma LerpEnds(x0: real, x1: real, y0: real, y1: real)
    requires x0 < x1
    ensures Lerp(x0, x1, y0, y1, x0) == y0 && Lerp(x0, x1, y0, y1, x1) == y1
  {
    LerpCross(x0, x1, y0, y1, x0, y0);
    LerpCross(x0, x1, y0, y1, x1, y1);
  }

  /** Two points of one line differ by its slope times their distance. */
  lemma LerpDifference(x0: real, x1: real, y0: real, y1: real, u: real, v: real)
    requires x0 < x1
    ensures Lerp(x0, x1, y0, y1, v) - Lerp(x0, x1, y0, y1, u) == (y1 - y0) / (x1 - x0) * (v - u)
  {
    var dx, dy := x1 - x0, y1 - y0;
    var a, b, m := (v - x0) / dx, (u - x0) / dx, dy / dx;
    assert a * dx == v - x0 && b * dx == u - x0 && m * dx == dy;
    assert (a - b) * dx == v - u;
    assert dy * (a - b) == (m * dx) * (a - b) == m * ((a - b) * dx);
  }

  // ---------------------------------------------------------------- the curve

  /** `_linearize` with a usable table. */
  function Linearize(xs: seq<real>, ys: seq<real>, v: real): real
    requires Table(xs, ys)
  {
    var i := BisectRight(xs, v);
    if i == 0 then ys[0]
    else if i == |xs| then ys[|ys| - 1]
    else Lerp(xs[i - 1], xs[i], ys[i - 1], ys[i], v)
  }

  /**
   The graph of the calibration curve, without any search: flat before the first and
   after the last abscissa, and on the chord of every segment that contains `v`.
   */
  ghost predicate OnCurve(xs: seq<real>, ys: seq<real>, v: real, w: real)
    requires Table(xs, ys)
  {
    && (v <= xs[0] ==> w == ys[0])
    && (v >= xs[|xs| - 1] ==> w == ys[|ys| - 1])
    && (forall i :: 0 <= i < |xs| - 1 && xs[i] <= v <= xs[i + 1] ==> OnChord(xs, ys, i, v, w))
  }

  ghost predicate OnChord(xs: seq<real>, ys: seq<real>, i: nat, v: real, w: real)
    requires Table(xs, ys) && i < |xs| - 1
  {
    (w - ys[i]) * (xs[i + 1] - xs[i]) == (ys[i + 1] - ys[i]) * (v - xs[i])
  }

  lemma OnChordIffLerp(xs: seq<real>, ys: seq<real>, i: nat, v: real, w: real)
    requires Table(xs, ys) && i < |xs| - 1
    ensures OnChord(xs, ys, i, v, w) <==> w == Lerp(xs[i], xs[i + 1], ys[i], ys[i + 1], v)
  {
    LerpCross(xs[i], xs[i + 1], ys[i], ys[i + 1], v, w);
  }

  /** Any segment containing `v` gives the value: neighbouring segments agree at their knot. */
  lemma LinearizeInSegment(xs: seq<real>, ys: seq<real>, i: nat, v: real)
    requires Table(xs, ys) && i < |xs| - 1 && xs[i] <= v <= xs[i + 1]
    ensures Linearize(xs, ys, v) == Lerp(xs[i], xs[i + 1], ys[i], ys[i + 1], v)
  {
    hide Lerp;
    var k := BisectRight(xs, v);
    LerpEnds(xs[i], xs[i + 1], ys[i], ys[i + 1]);
    if k != i + 1 {
      assert i + 2 < |xs| ==> xs[i + 1] < xs[i + 2];
      assert v == xs[i + 1] && k == i + 2;
      if k < |xs| {
        LerpEnds(xs[k - 1], xs[k], ys[k - 1], ys[k]);
      }
    }
  }

  /** The curve passes through every calibration point. */
  lemma LinearizeAtKnot(xs: seq<real>, ys: seq<real>, i: nat)
    requires Table(xs, ys) && i < |xs|
    ensures Linearize(xs, ys, xs[i]) == ys[i]
  {
    if i < |xs| - 1 {
      LinearizeInSegment(xs, ys, i, xs[i]);
      LerpEnds(xs[i], xs[i + 1], ys[i], ys[i + 1]);
    }
  }

  lemma LinearizeOnCurve(xs: seq<real>, ys: seq<real>, v: real)
    requires Table(xs, ys)
    ensures OnCurve(xs, ys, v, Linearize(xs, ys, v))
  {
    hide Lerp, OnChord;
    var f := Linearize(xs, ys, v);
    LinearizeAtKnot(xs, ys, 0);
    LinearizeAtKnot(xs, ys, |xs| - 1);
    forall i | 0 <= i < |xs| - 1 && xs[i] <= v <= xs[i + 1]
      ensures OnChord(xs, ys, i, v, f)
    {
      LinearizeInSegment(xs, ys, i, v);
      OnChordIffLerp(xs, ys, i, v, f);
    }
  }

  /** The bisecting evaluation computes exactly the curve: sound and complete. */
  lemma LinearizeIsTheCurve(xs: seq<real>, ys: seq<real>, v: real, w: real)
    requires Table(xs, ys)
    ensures OnCurve(xs, ys, v, w) <==> w == Linearize(xs, ys, v)
  {
    hide Lerp, OnChord;
    LinearizeOnCurve(xs, ys, v);
    var k := BisectRight(xs, v);
    if OnCurve(xs, ys, v, w) && 0 < k < |xs| {
      assert OnChord(xs, ys, k - 1, v, w);
      OnChordIffLerp(xs, ys, k - 1, v, w);
    }
  }

  // ---------------------------------------------------------------- Lipschitz bound

  function Slope(xs: seq<real>, ys: seq<real>, i: nat): real
    requires |xs| == |ys| && i + 1 < |xs| && xs[i] != xs[i + 1]
  {
    (ys[i + 1] - ys[i]) / (xs[i + 1] - xs[i])
  }

  /** The steepest of the first `n` segments. */
  function SteepestOf(xs: seq<real>, ys: seq<real>, n: nat): (l: real)
    requires Table(xs, ys) && n < |xs|
    ensures l >= 0.0
    ensures forall i :: 0 <= i < n ==> Abs(Slope(xs, ys, i)) <= l
    ensures n > 0 ==> exists i :: 0 <= i < n && Abs(Slope(xs, ys, i)) == l
  {
    if n == 0 then 0.0
    else
      var l := SteepestOf(xs, ys, n - 1);
      assert Abs(Slope(xs, ys, n - 1)) >= 0.0;
      Max(l, Abs(Slope(xs, ys, n - 1)))
  }

  function Steepest(xs: seq<real>, ys: seq<real>): real
    requires Table(xs, ys)
  {
    SteepestOf(xs, ys, |xs| - 1)
  }

  /** Every segment is at most `l` steep. */
  ghost predicate SlopesWithin(xs: seq<real>, ys: seq<real>, l: real)
    requires Table(xs, ys)
  {
    l >= 0.0 && forall i :: 0 <= i < |xs| - 1 ==> Abs(Slope(xs, ys, i)) <= l
  }

  lemma SteepestBounds(xs: seq<real>, ys: seq<real>)
    requires Table(xs, ys)
    ensures SlopesWithin(xs, ys, Steepest(xs, ys)) && Steepest(xs, ys) >= 0.0
  {
  }

  /** How far a curve of steepness `l` can move over a distance `d`. */
  function Reach(l: real, d: real): real {
    l * d
  }

  lemma ScaledStep(m: real, d: real, l: real)
    requires Abs(m) <= l && d >= 0.0
    ensures Abs(m * d) <= Reach(l, d)
  {
    assert (l - m) * d >= 0.0 && (l + m) * d >= 0.0;
  }

  lemma AddSteps(l: real, a: real, b: real, c: real, fa: real, fb: real, fc: real)
    requires Abs(fb - fa) <= Reach(l, b - a) && Abs(fc - fb) <= Reach(l, c - b)
    ensures Abs(fc - fa) <= Reach(l, c - a)
  {
    assert l * (b - a) + l * (c - b) == l * (c - a);
  }

  lemma WidenStep(l: real, d: real, e: real)
    requires l >= 0.0 && d <= e
    ensures Reach(l, d) <= Reach(l, e)
  {
    assert l * (e - d) >= 0.0;
  }

  lemma SegmentLipschitz(xs: seq<real>, ys: seq<real>, l: real, i: nat, u: real, v: real)
    requires Table(xs, ys) && SlopesWithin(xs, ys, l) && i < |xs| - 1
    requires xs[i] <= u <= v <= xs[i + 1]
    ensures Abs(Linearize(xs, ys, v) - Linearize(xs, ys, u)) <= Reach(l, v - u)
  {
    hide Linearize, Lerp, Reach;
    LinearizeInSegment(xs, ys, i, u);
    LinearizeInSegment(xs, ys, i, v);
    LerpDifference(xs[i], xs[i + 1], ys[i], ys[i + 1], u, v);
    ScaledStep(Slope(xs, ys, i), v - u, l);
  }

  /** Chaining segments: a bound across knots `i..j` follows from the bound inside each. */
  lemma {:induction false} KnotLipschitz(xs: seq<real>, ys: seq<real>, l: real, i: nat, j: nat)
    requires Table(xs, ys) && SlopesWithin(xs, ys, l) && i <= j < |xs|
    ensures Abs(ys[j] - ys[i]) <= Reach(l, xs[j] - xs[i])
    decreases j - i
  {
    if i < j {
      KnotLipschitz(xs, ys, l, i, j - 1);
      SegmentLipschitz(xs, ys, l, j - 1, xs[j - 1], xs[j]);
      LinearizeAtKnot(xs, ys, j - 1);
      LinearizeAtKnot(xs, ys, j);
      AddSteps(l, xs[i], xs[j - 1], xs[j], ys[i], ys[j - 1], ys[j]);
    }
  }

  /** From `u` to the next knot, along the knots, and from the last knot before `v` to `v`. */
  lemma AcrossLipschitz(xs: seq<real>, ys: seq<real>, l: real, u: real, v: real, i: nat, j: nat)
    requires Table(xs, ys) && SlopesWithin(xs, ys, l) && 0 < i <= j < |xs|
    requires xs[i - 1] <= u <= xs[i] && xs[j] <= v && (if j + 1 < |xs| then v <= xs[j + 1] else v == xs[j])
    ensures Abs(Linearize(xs, ys, v) - Linearize(xs, ys, u)) <= Reach(l, v - u)
  {
    hide Linearize, Reach, SlopesWithin;
    var fu, fv := Linearize(xs, ys, u), Linearize(xs, ys, v);
    SegmentLipschitz(xs, ys, l, i - 1, u, xs[i]);
    KnotLipschitz(xs, ys, l, i, j);
    LinearizeAtKnot(xs, ys, i);
    LinearizeAtKnot(xs, ys, j);
    AddSteps(l, u, xs[i], xs[j], fu, ys[i], ys[j]);
    if j + 1 < |xs| {
      SegmentLipschitz(xs, ys, l, j, xs[j], v);
      AddSteps(l, u, xs[j], v, fu, ys[j], fv);
    }
  }

  lemma InsideLipschitz(xs: seq<real>, ys: seq<real>, l: real, u: real, v: real)
    requires Table(xs, ys) && SlopesWithin(xs, ys, l) && xs[0] <= u <= v <= xs[|xs| - 1]
    ensures Abs(Linearize(xs, ys, v) - Linearize(xs, ys, u)) <= Reach(l, v - u)
  {
    var i, j := BisectRight(xs, u), BisectRight(xs, v);
    if i == |xs| {
      assert u == v;
    } else if v <= xs[i] {
      SegmentLipschitz(xs, ys, l, i - 1, u, v);
    } else {
      AcrossLipschitz(xs, ys, l, u, v, i, j - 1);
    }
  }

  /** Outside the table the curve is flat: only the part of the way inside counts. */
  lemma LinearizeInside(xs: seq<real>, ys: seq<real>, u: real)
    requires Table(xs, ys)
    ensures Linearize(xs, ys, u) == Linearize(xs, ys, Clamp(u, xs[0], xs[|xs| - 1]))
  {
    LinearizeAtKnot(xs, ys, 0);
    LinearizeAtKnot(xs, ys, |xs| - 1);
  }

  lemma OrderedLipschitz(xs: seq<real>, ys: seq<real>, u: real, v: real)
    requires Table(xs, ys) && u <= v
    ensures Abs(Linearize(xs, ys, v) - Linearize(xs, ys, u)) <= Reach(Steepest(xs, ys), v - u)
  {
    hide Linearize, Reach, SlopesWithin;
    var l := Steepest(xs, ys);
    var a, b := Clamp(u, xs[0], xs[|xs| - 1]), Clamp(v, xs[0], xs[|xs| - 1]);
    SteepestBounds(xs, ys);
    LinearizeInside(xs, ys, u);
    LinearizeInside(xs, ys, v);
    InsideLipschitz(xs, ys, l, a, b);
    WidenStep(l, b - a, v - u);
  }

  /** The whole curve, flat ends included, never moves faster than its steepest segment. */
  lemma LinearizeLipschitz(xs: seq<real>, ys: seq<real>, u: real, v: real)
    requires Table(xs, ys)
    ensures Abs(Linearize(xs, ys, v) - Linearize(xs, ys, u)) <= Reach(Steepest(xs, ys), Abs(v - u))
  {
    hide Linearize, Reach;
    if u <= v {
      OrderedLipschitz(xs, ys, u, v);
    } else {
      OrderedLipschitz(xs, ys, v, u);
    }
  }

  // ---------------------------------------------------------------- the inverse

  /** First segment, from `i` on, whose ordinates enclose `w`; `|ys| - 1` when there is none. */
  function FirstSegment(ys: seq<real>, w: real, i: nat): (k: nat)
    requires i < |ys|
    ensures i <= k < |ys|
    ensures k < |ys| - 1 ==> Min(ys[k], ys[k + 1]) <= w <= Max(ys[k], ys[k + 1])
    ensures forall j :: i <= j < k ==> !(Min(ys[j], ys[j + 1]) <= w <= Max(ys[j], ys[j + 1]))
    decreases |ys| - i
  {
    if i == |ys| - 1 then i
    else if Min(ys[i], ys[i + 1]) <= w <= Max(ys[i], ys[i + 1]) then i
    else FirstSegment(ys, w, i + 1)
  }

  /** `_delinearize` with a usable table. */
  function Delinearize(xs: seq<real>, ys: seq<real>, w: real): real
    requires Table(xs, ys)
  {
    var k := FirstSegment(ys, w, 0);
    if k < |ys| - 1 then
      if ys[k] == ys[k + 1] then xs[k] else Lerp(ys[k], ys[k + 1], xs[k], xs[k + 1], w)
    else if w <= MinOf(ys) then xs[IndexOf(ys, MinOf(ys))]
    else if w >= MaxOf(ys) then xs[IndexOf(ys, MaxOf(ys))]
    else w
  }

  /** Discrete intermediate values: a level no segment encloses has every ordinate on one side. */
  lemma {:induction false} OneSided(ys: seq<real>, w: real, n: nat)
    requires 1 <= n < |ys|
    requires forall j :: 0 <= j < n ==> !(Min(ys[j], ys[j + 1]) <= w <= Max(ys[j], ys[j + 1]))
    ensures (forall j :: 0 <= j <= n ==> ys[j] < w) || (forall j :: 0 <= j <= n ==> ys[j] > w)
    decreases n
  {
    if n > 1 {
      OneSided(ys, w, n - 1);
      assert ys[n - 1] < w || ys[n - 1] > w;
    }
    assert !(Min(ys[n - 1], ys[n]) <= w <= Max(ys[n - 1], ys[n]));
  }

  /** A vertical reading of one sloped segment lands inside it, on its chord. */
  lemma InverseLerp(x0: real, x1: real, y0: real, y1: real, w: real)
    requires x0 < x1 && y0 != y1 && Min(y0, y1) <= w <= Max(y0, y1)
    ensures var v := Lerp(y0, y1, x0, x1, w); x0 <= v <= x1 && Lerp(x0, x1, y0, y1, v) == w
  {
    var t := (w - y0) / (y1 - y0);
    Fraction(w - y0, y1 - y0);
    PartOf(x1 - x0, t);
    var v := Lerp(y0, y1, x0, x1, w);
    assert v == x0 + (x1 - x0) * t;
    assert (y1 - y0) * ((x1 - x0) * t) == (t * (y1 - y0)) * (x1 - x0);
    LerpCross(x0, x1, y0, y1, v, w);
  }

  lemma SegmentInverse(xs: seq<real>, ys: seq<real>, k: nat, w: real)
    requires Table(xs, ys) && k < |xs| - 1
    requires ys[k] != ys[k + 1] && Min(ys[k], ys[k + 1]) <= w <= Max(ys[k], ys[k + 1])
    ensures var v := Lerp(ys[k], ys[k + 1], xs[k], xs[k + 1], w);
            xs[0] <= v <= xs[|xs| - 1] && Linearize(xs, ys, v) == w
  {
    hide Linearize, Lerp;
    InverseLerp(xs[k], xs[k + 1], ys[k], ys[k + 1], w);
    LinearizeInSegment(xs, ys, k, Lerp(ys[k], ys[k + 1], xs[k], xs[k + 1], w));
  }

  lemma OutsideInverse(xs: seq<real>, ys: seq<real>, w: real)
    requires Table(xs, ys) && FirstSegment(ys, w, 0) == |ys| - 1
    ensures xs[0] <= Delinearize(xs, ys, w) <= xs[|xs| - 1]
    ensures Linearize(xs, ys, Delinearize(xs, ys, w)) == Clamp(w, MinOf(ys), MaxOf(ys))
  {
    hide Linearize, Lerp, FirstSegment, IndexOf, MinOf, MaxOf;
    OneSided(ys, w, |ys| - 1);
    LinearizeAtKnot(xs, ys, IndexOf(ys, MinOf(ys)));
    LinearizeAtKnot(xs, ys, IndexOf(ys, MaxOf(ys)));
  }

  /**
   The inverse answers inside the table, and linearizing its answer gives the requested
   value clamped to the ordinates of the table. No monotonicity is needed.
   */
  lemma LinearizeDelinearize(xs: seq<real>, ys: seq<real>, w: real)
    requires Table(xs, ys)
    ensures xs[0] <= Delinearize(xs, ys, w) <= xs[|xs| - 1]
    ensures Linearize(xs, ys, Delinearize(xs, ys, w)) == Clamp(w, MinOf(ys), MaxOf(ys))
  {
    hide Linearize, Lerp, FirstSegment, IndexOf, MinOf, MaxOf;
    var k := FirstSegment(ys, w, 0);
    if k == |ys| - 1 {
      OutsideInverse(xs, ys, w);
    } else if ys[k] == ys[k + 1] {
      LinearizeAtKnot(xs, ys, k);
    } else {
      SegmentInverse(xs, ys, k, w);
    }
  }

  // ---------------------------------------------------------------- monotone tables

  function Negated(ys: seq<real>): (r: seq<real>) {
    seq(|ys|, i requires 0 <= i < |ys| => -ys[i])
  }

  lemma LinearizeNegated(xs: seq<real>, ys: seq<real>, v: real)
    requires Table(xs, ys)
    ensures Linearize(xs, Negated(ys), v) == -Linearize(xs, ys, v)
  {
    var i := BisectRight(xs, v);
    if 0 < i < |xs| {
      var t := (v - xs[i - 1]) / (xs[i] - xs[i - 1]);
      assert (-ys[i] - -ys[i - 1]) * t == -((ys[i] - ys[i - 1]) * t);
    }
  }

  lemma Rising(dy: real, dx: real, d: real)
    requires dy > 0.0 && dx > 0.0 && d > 0.0
    ensures dy / dx * d > 0.0
  {
    var m := dy / dx;
    assert m * dx == dy;
    assert m > 0.0;
  }

  lemma SegmentStrict(xs: seq<real>, ys: seq<real>, i: nat, u: real, v: real)
    requires Table(xs, ys) && i < |xs| - 1 && ys[i] < ys[i + 1]
    requires xs[i] <= u < v <= xs[i + 1]
    ensures Linearize(xs, ys, u) < Linearize(xs, ys, v)
  {
    LinearizeInSegment(xs, ys, i, u);
    LinearizeInSegment(xs, ys, i, v);
    LerpDifference(xs[i], xs[i + 1], ys[i], ys[i + 1], u, v);
    Rising(ys[i + 1] - ys[i], xs[i + 1] - xs[i], v - u);
  }

  lemma IncreasingCurve(xs: seq<real>, ys: seq<real>, u: real, v: real)
    requires Table(xs, ys) && Increasing(ys)
    requires xs[0] <= u < v <= xs[|xs| - 1]
    ensures Linearize(xs, ys, u) < Linearize(xs, ys, v)
  {
    var i, j := BisectRight(xs, u), BisectRight(xs, v);
    if v <= xs[i] {
      SegmentStrict(xs, ys, i - 1, u, v);
    } else {
      SegmentStrict(xs, ys, i - 1, u, xs[i]);
      LinearizeAtKnot(xs, ys, i);
      assert ys[i] <= ys[j - 1];
      if j < |xs| {
        LerpBetween(xs[j - 1], xs[j], ys[j - 1], ys[j], v);
      }
    }
  }

  /** A strictly monotone curve takes each value once. */
  lemma MonotoneCurveInjective(xs: seq<real>, ys: seq<real>, u: real, v: real)
    requires Table(xs, ys) && (Increasing(ys) || Decreasing(ys))
    requires xs[0] <= u < v <= xs[|xs| - 1]
    ensures Linearize(xs, ys, u) != Linearize(xs, ys, v)
  {
    hide Linearize;
    if Increasing(ys) {
      IncreasingCurve(xs, ys, u, v);
    } else {
      LinearizeNegated(xs, ys, u);
      LinearizeNegated(xs, ys, v);
      IncreasingCurve(xs, Negated(ys), u, v);
    }
  }

  /** On a strictly monotone table the inverse also undoes the curve, inside the table. */
  lemma DelinearizeLinearize(xs: seq<real>, ys: seq<real>, v: real)
    requires Table(xs, ys) && (Increasing(ys) || Decreasing(ys))
    requires xs[0] <= v <= xs[|xs| - 1]
    ensures Delinearize(xs, ys, Linearize(xs, ys, v)) == v
  {
    hide Linearize, Delinearize;
    var w := Linearize(xs, ys, v);
    var u := Delinearize(xs, ys, w);
    LinearizeDelinearize(xs, ys, w);
    LinearizeHull(xs, ys, v);
    if u < v {
      MonotoneCurveInjective(xs, ys, u, v);
    } else if v < u {
      MonotoneCurveInjective(xs, ys, v, u);
    }
  }

  /** The curve stays within the ordinates of the table. */
  lemma LinearizeHull(xs: seq<real>, ys: seq<real>, v: real)
    requires Table(xs, ys)
    ensures MinOf(ys) <= Linearize(xs, ys, v) <= MaxOf(ys)
  {
    var i := BisectRight(xs, v);
    if 0 < i < |xs| {
      LerpBetween(xs[i - 1], xs[i], ys[i - 1], ys[i], v);
    }
  }
}
