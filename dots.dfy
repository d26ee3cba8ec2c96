/** The pagination dots: each dot's width follows the scroll offset through a
    three-point piecewise-linear interpolation with the `clamp` extrapolation
    policy, and its colour says whether it is the current slide's dot. */
module Dots {

  import opened Arith

  /** `r` lies between `a` and `b`, in whichever order they come. */
  predicate Between(r: real, a: real, b: real) {
    (a <= r <= b) || (b <= r <= a)
  }

  /** One segment of a clamp-mode interpolation: the input is first held to
      `[inMin, inMax]`, then mapped linearly onto `[outMin, outMax]`. */
  function Interpolate(x: real, inMin: real, inMax: real, outMin: real, outMax: real): (r: real)
    requires inMin < inMax
    ensures x <= inMin ==> r == outMin
    ensures x >= inMax ==> r == outMax
    ensures Between(r, outMin, outMax)
  {
    var c := if x < inMin then inMin else if x > inMax then inMax else x;
    var t := (c - inMin) / (inMax - inMin);
    FractionInUnit(c - inMin, inMax - inMin);
    assert x <= inMin ==> t == 0.0;
    assert x >= inMax ==> t == 1.0 by {
      DivSelf(inMax - inMin);
    }
    FractionScales(t, outMin, outMax);
    outMin + t * (outMax - outMin)
  }

  lemma DivSelf(a: real)
    requires a > 0.0
    ensures a / a == 1.0
  {
  }

  lemma FractionScales(t: real, a: real, b: real)
    requires 0.0 <= t <= 1.0
    ensures Between(a + t * (b - a), a, b)
  {
    var p := if a <= b then b - a else a - b;
    MulNonneg(t, p);
    MulNonneg(1.0 - t, p);
    assert p - t * p == (1.0 - t) * p;
  }

  lemma MulNonneg(p: real, q: real)
    requires p >= 0.0 && q >= 0.0
    ensures p * q >= 0.0
  {
  }

  /** Clamp-mode interpolation over three input points: the segment used is
      the first one whose upper end is at or above `x`. */
  function Interpolate3(x: real, in0: real, in1: real, in2: real, out0: real, out1: real, out2: real): (r: real)
    requires in0 < in1 < in2
    ensures x <= in0 ==> r == out0
    ensures x == in1 ==> r == out1
    ensures x >= in2 ==> r == out2
    ensures x <= in1 ==> Between(r, out0, out1)
    ensures x >= in1 ==> Between(r, out1, out2)
  {
    if x <= in1 then Interpolate(x, in0, in1, out0, out1) else Interpolate(x, in1, in2, out1, out2)
  }

  /** The resting offset of slide `k`: `k` window widths. */
  function Landmark(w: int, k: int): (x: real) {
    (w * k) as real
  }

  /** Consecutive landmarks are one window width apart. */
  lemma LandmarksSpaced(w: int, k: int)
    ensures Landmark(w, k + 1) == Landmark(w, k) + w as real
    ensures Landmark(w, k - 1) == Landmark(w, k) - w as real
  {
    assert w * (k + 1) == w * k + w;
    assert w * (k - 1) == w * k - w;
  }

  /** Landmarks of a positive width increase with the slide. */
  lemma LandmarksIncrease(w: int, a: int, b: int)
    requires w > 0 && a <= b
    ensures Landmark(w, a) <= Landmark(w, b)
  {
    assert w * b - w * a == w * (b - a);
  }

  /** Width of dot `i` at scroll offset `x`: input range
      `[w * (i - 1), w * i, w * (i + 1)]`, output range
      `[dotSize, 2 * dotSize, dotSize]`. */
  function DotWidth(x: real, i: int, w: int, dotSize: real): (r: real)
    requires w > 0
    ensures x == Landmark(w, i) ==> r == 2.0 * dotSize
    ensures x <= Landmark(w, i - 1) || x >= Landmark(w, i + 1) ==> r == dotSize
    ensures Between(r, dotSize, 2.0 * dotSize)
  {
    LandmarksSpaced(w, i);
    Interpolate3(x, Landmark(w, i - 1), Landmark(w, i), Landmark(w, i + 1), dotSize, 2.0 * dotSize, dotSize)
  }

  /** With a non-negative dot size, every width lies in `[dotSize, 2 * dotSize]`. */
  lemma DotWidthBounds(x: real, i: int, w: int, dotSize: real)
    requires w > 0 && dotSize >= 0.0
    ensures dotSize <= DotWidth(x, i, w, dotSize) <= 2.0 * dotSize
  {
  }

  function Abs(r: real): (a: real) {
    if r < 0.0 then -r else r
  }

  function Min(a: real, b: real): (m: real) {
    if a <= b then a else b
  }

  /** A reference form of the dot width: `dotSize` times two minus the
      distance to the dot's slide counted in window widths, that distance
      capped at one. */
  function TentWidth(x: real, i: int, w: int, dotSize: real): (r: real)
    requires w > 0
  {
    dotSize * (2.0 - Min(1.0, Abs(x - Landmark(w, i)) / w as real))
  }

  /** The interpolation and the reference form agree everywhere. */
  lemma DotWidthIsTent(x: real, i: int, w: int, dotSize: real)
    requires w > 0
    ensures DotWidth(x, i, w, dotSize) == TentWidth(x, i, w, dotSize)
  {
    var mid, wr := Landmark(w, i), w as real;
    LandmarksSpaced(w, i);
    if mid - wr <= x <= mid {
      TentLeft(x, i, w, dotSize);
    } else if mid < x <= mid + wr {
      TentRight(x, i, w, dotSize);
    } else {
      AtLeastOne(Abs(x - mid), wr);
      assert TentWidth(x, i, w, dotSize) == dotSize * (2.0 - 1.0);
    }
  }

  lemma TentLeft(x: real, i: int, w: int, dotSize: real)
    requires w > 0 && Landmark(w, i) - w as real <= x <= Landmark(w, i)
    ensures DotWidth(x, i, w, dotSize) == TentWidth(x, i, w, dotSize)
  {
    var mid, wr := Landmark(w, i), w as real;
    LandmarksSpaced(w, i);
    assert DotWidth(x, i, w, dotSize) == Interpolate(x, mid - wr, mid, dotSize, 2.0 * dotSize);
    FractionInUnit(mid - x, wr);
    LeftSegment(x, mid, wr, dotSize);
    assert Abs(x - mid) == mid - x;
  }

  lemma TentRight(x: real, i: int, w: int, dotSize: real)
    requires w > 0 && Landmark(w, i) < x <= Landmark(w, i) + w as real
    ensures DotWidth(x, i, w, dotSize) == TentWidth(x, i, w, dotSize)
  {
    var mid, wr := Landmark(w, i), w as real;
    LandmarksSpaced(w, i);
    assert DotWidth(x, i, w, dotSize) == Interpolate(x, mid, mid + wr, 2.0 * dotSize, dotSize);
    FractionInUnit(x - mid, wr);
    RightSegment(x, mid, wr, dotSize);
    assert Abs(x - mid) == x - mid;
  }

  lemma FractionInUnit(d: real, w: real)
    requires w > 0.0 && 0.0 <= d <= w
    ensures 0.0 <= d / w <= 1.0
  {
    assert (d / w) * w == d;
    MulLessCancel(d / w, 1.0, w);
  }

  lemma LeftSegment(x: real, mid: real, wr: real, dotSize: real)
    requires wr > 0.0 && mid - wr <= x <= mid
    ensures Interpolate(x, mid - wr, mid, dotSize, 2.0 * dotSize) == dotSize * (2.0 - (mid - x) / wr)
  {
    var t := (x - (mid - wr)) / (mid - (mid - wr));
    assert t == (wr - (mid - x)) / wr;
    ShiftedFraction(mid - x, wr);
  }

  lemma RightSegment(x: real, mid: real, wr: real, dotSize: real)
    requires wr > 0.0 && mid < x <= mid + wr
    ensures Interpolate(x, mid, mid + wr, 2.0 * dotSize, dotSize) == dotSize * (2.0 - (x - mid) / wr)
  {
    assert (mid + wr) - mid == wr;
  }

  /** `(w - a) / w` is one less `a / w`. */
  lemma ShiftedFraction(a: real, w: real)
    requires w > 0.0
    ensures (w - a) / w == 1.0 - a / w
  {
    var u, v := a / w, (w - a) / w;
    assert u * w == a;
    assert v * w == w - a;
    assert (1.0 - u) * w == w - u * w;
    MulCancel(v, 1.0 - u, w);
  }

  lemma AtLeastOne(d: real, w: real)
    requires w > 0.0 && d >= w
    ensures d / w >= 1.0
  {
    assert (d / w) * w == d;
  }

  lemma MulCancel(a: real, b: real, c: real)
    requires c > 0.0 && a * c == b * c
    ensures a == b
  {
  }

  /** A dot's width is the same at equal distances before and after its slide. */
  lemma DotWidthSymmetric(d: real, i: int, w: int, dotSize: real)
    requires w > 0
    ensures DotWidth(Landmark(w, i) - d, i, w, dotSize) == DotWidth(Landmark(w, i) + d, i, w, dotSize)
  {
    var m := Landmark(w, i);
    DotWidthIsTent(m - d, i, w, dotSize);
    DotWidthIsTent(m + d, i, w, dotSize);
    assert Abs(m - d - m) == Abs(m + d - m);
  }

  /** Moving the offset and the dot one slide further changes nothing. */
  lemma DotWidthShift(x: real, i: int, w: int, dotSize: real)
    requires w > 0
    ensures DotWidth(x + w as real, i + 1, w, dotSize) == DotWidth(x, i, w, dotSize)
  {
    DotWidthIsTent(x + w as real, i + 1, w, dotSize);
    DotWidthIsTent(x, i, w, dotSize);
    LandmarksSpaced(w, i);
  }

  /** While the offset moves from slide `i` to slide `i + 1`, the width lost by
      dot `i` is the width gained by dot `i + 1`: the two always sum to
      `3 * dotSize`. */
  lemma NeighbourWidthsSum(x: real, i: int, w: int, dotSize: real)
    requires w > 0 && Landmark(w, i) <= x <= Landmark(w, i + 1)
    ensures DotWidth(x, i, w, dotSize) + DotWidth(x, i + 1, w, dotSize) == 3.0 * dotSize
  {
    var mid, wr := Landmark(w, i), w as real;
    LandmarksSpaced(w, i);
    LandmarksSpaced(w, i + 1);
    assert Landmark(w, i + 1 - 1) == mid;
    DotWidthIsTent(x, i, w, dotSize);
    DotWidthIsTent(x, i + 1, w, dotSize);
    var d := x - mid;
    assert x - Landmark(w, i + 1) == d - wr;
    ShiftedFraction(d, wr);
    FractionInUnit(d, wr);
    assert Abs(x - mid) == d;
    assert Abs(x - Landmark(w, i + 1)) == wr - d;
    FractionInUnit(wr - d, wr);
  }

  /** Every dot other than `i` and `i + 1` keeps its resting width while the
      offset is between slides `i` and `i + 1`. */
  lemma OtherDotsAtRest(x: real, i: int, j: int, w: int, dotSize: real)
    requires w > 0 && Landmark(w, i) <= x <= Landmark(w, i + 1)
    requires j != i && j != i + 1
    ensures DotWidth(x, j, w, dotSize) == dotSize
  {
    if j < i {
      LandmarksIncrease(w, j + 1, i);
    } else {
      LandmarksIncrease(w, i + 1, j - 1);
    }
  }

  /** The widths of the `n` dots at offset `x`, in slide order. */
  function Widths(x: real, n: nat, w: int, dotSize: real): (ws: seq<real>)
    requires w > 0
  {
    seq(n, j requires 0 <= j < n => DotWidth(x, j, w, dotSize))
  }

  function Sum(s: seq<real>): (total: real)
    decreases |s|
  {
    if s == [] then 0.0 else Sum(s[..|s| - 1]) + s[|s| - 1]
  }

  lemma {:induction false} SumConstant(s: seq<real>, d: real)
    requires forall j :: 0 <= j < |s| ==> s[j] == d
    ensures Sum(s) == |s| as real * d
    decreases |s|
  {
    if s != [] {
      SumConstant(s[..|s| - 1], d);
    }
  }

  /** A sum whose terms are all `d` apart from those at `i` and `i + 1`. */
  lemma {:induction false} SumAllButTwo(s: seq<real>, i: int, d: real)
    requires 0 <= i < |s| - 1
    requires forall j :: 0 <= j < |s| && j != i && j != i + 1 ==> s[j] == d
    ensures Sum(s) == (|s| - 2) as real * d + s[i] + s[i + 1]
    decreases |s|
  {
    var front := s[..|s| - 1];
    if |s| - 1 > i + 1 {
      SumAllButTwo(front, i, d);
    } else {
      SumConstant(s[..i], d);
      assert front[..|front| - 1] == s[..i];
    }
  }

  /** Across all `n` slides the dots' widths add up to `(n + 1) * dotSize`
      whenever the offset lies between two slides: one dot grows exactly as
      much as its neighbour shrinks. */
  lemma TotalWidthConstant(x: real, i: int, n: nat, w: int, dotSize: real)
    requires w > 0 && 0 <= i < n - 1 && Landmark(w, i) <= x <= Landmark(w, i + 1)
    ensures Sum(Widths(x, n, w, dotSize)) == (n + 1) as real * dotSize
  {
    WidthsAtRest(x, i, n, w, dotSize);
    WidthsPair(x, i, n, w, dotSize);
    SumWithGrowingPair(Widths(x, n, w, dotSize), n, i, dotSize);
  }

  lemma WidthsPair(x: real, i: int, n: nat, w: int, dotSize: real)
    requires w > 0 && 0 <= i < n - 1 && Landmark(w, i) <= x <= Landmark(w, i + 1)
    ensures |Widths(x, n, w, dotSize)| == n
    ensures Widths(x, n, w, dotSize)[i] + Widths(x, n, w, dotSize)[i + 1] == 3.0 * dotSize
  {
    NeighbourWidthsSum(x, i, w, dotSize);
  }

  /** `n` terms, all `d` but a pair that together make `3 * d`: the sum is `(n + 1) * d`. */
  lemma SumWithGrowingPair(s: seq<real>, n: nat, i: int, d: real)
    requires |s| == n && 0 <= i < n - 1 && s[i] + s[i + 1] == 3.0 * d
    requires forall j :: 0 <= j < |s| && j != i && j != i + 1 ==> s[j] == d
    ensures Sum(s) == (n + 1) as real * d
  {
    SumAllButTwo(s, i, d);
    assert (n + 1) as real * d == (n - 2) as real * d + 3.0 * d;
  }

  lemma WidthsAtRest(x: real, i: int, n: nat, w: int, dotSize: real)
    requires w > 0 && Landmark(w, i) <= x <= Landmark(w, i + 1)
    ensures forall j :: 0 <= j < n && j != i && j != i + 1 ==> Widths(x, n, w, dotSize)[j] == dotSize
  {
    forall j | 0 <= j < n && j != i && j != i + 1 ensures Widths(x, n, w, dotSize)[j] == dotSize {
      OtherDotsAtRest(x, i, j, w, dotSize);
    }
  }

  /** The dot for slide `i` is the active one exactly when it is the current slide. */
  predicate IsActiveDot(currentIndex: int, i: int) {
    currentIndex == i
  }

  /** Colour of dot `i`: `activeDotColor` for the active dot, `dotColor` for the rest. */
  function DotColor(currentIndex: int, i: int, activeDotColor: string, dotColor: string): (c: string)
    ensures c == activeDotColor || c == dotColor
    ensures activeDotColor != dotColor ==> (c == activeDotColor <==> IsActiveDot(currentIndex, i))
  {
    if currentIndex == i then activeDotColor else dotColor
  }

  /** The dots of `n` slides that are drawn as active. */
  function ActiveDots(currentIndex: int, n: nat): (active: set<int>) {
    set i | 0 <= i < n && IsActiveDot(currentIndex, i)
  }

  /** Exactly one dot is active when the index names a slide, none otherwise. */
  lemma ExactlyOneActiveDot(currentIndex: int, n: nat)
    ensures |ActiveDots(currentIndex, n)| == if 0 <= currentIndex < n then 1 else 0
    ensures 0 <= currentIndex < n ==> ActiveDots(currentIndex, n) == {currentIndex}
  {
    if 0 <= currentIndex < n {
      assert ActiveDots(currentIndex, n) == {currentIndex};
    } else {
      assert ActiveDots(currentIndex, n) == {};
    }
  }
}
