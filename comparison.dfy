/**
 * The computational part of `pairwise_comparison`: the significance label
 * drawn over a pair of bars, and the corner coordinates of the bracket that
 * joins them together with the point where the label is anchored. The axis
 * extents the source reads from the current plot are parameters here; the
 * drawing itself is not modelled.
 */
module Comparison {
  import opened Wrappers

  // ---------------------------------------------------------------------
  // Significance label
  // ---------------------------------------------------------------------

  /**
   * `p_adj`: either a ready-made label string or a numeric p-value. Any other
   * value (such as `None`) makes the source raise at its first comparison and
   * has no case here.
   */
  datatype PAdjusted = Text(given: string) | PValue(p: real)

  /** The ladder's thresholds, from the most to the least significant. */
  const Thresholds: seq<real> := [0.0001, 0.001, 0.01, 0.05]

  /** The text drawn over the bracket. */
  function SignificanceLabel(pAdj: PAdjusted): (text: string)
    ensures pAdj.Text? ==> text == pAdj.given
    ensures pAdj.PValue? ==> text in {"****", "***", "**", "*", "ns"}
  {
    match pAdj
    case Text(given) => given
    case PValue(p) =>
      if p < 0.0001 then "****"
      else if p < 0.001 then "***"
      else if p < 0.01 then "**"
      else if p < 0.05 then "*"
      else "ns"
  }

  /** How many of the thresholds `ts` the p-value lies strictly below. */
  function ThresholdsPassed(p: real, ts: seq<real>): (k: nat)
    ensures k <= |ts|
  {
    if ts == [] then 0 else (if p < ts[0] then 1 else 0) + ThresholdsPassed(p, ts[1..])
  }

  /** `k` asterisks. */
  function Stars(k: nat): (s: string)
    ensures |s| == k
  {
    if k == 0 then "" else "*" + Stars(k - 1)
  }

  /** The number of asterisks in a label; "ns" has none. */
  function AsteriskCount(s: string): (k: nat)
    ensures k <= |s|
  {
    if s == [] then 0 else (if s[0] == '*' then 1 else 0) + AsteriskCount(s[1..])
  }

  lemma {:induction false} StarsAreAsterisks(k: nat)
    ensures AsteriskCount(Stars(k)) == k
  {
    if k > 0 {
      StarsAreAsterisks(k - 1);
      assert Stars(k)[1..] == Stars(k - 1);
    }
  }

  /**
   * The ladder, stated independently: a p-value gets one asterisk for each
   * threshold it lies below, and "ns" when it lies below none of them.
   */
  lemma LabelCountsThresholds(p: real)
    ensures var k := ThresholdsPassed(p, Thresholds);
      SignificanceLabel(PValue(p)) == if k == 0 then "ns" else Stars(k)
    ensures AsteriskCount(SignificanceLabel(PValue(p))) == ThresholdsPassed(p, Thresholds)
  {
    var k := ThresholdsPassed(p, Thresholds);
    var t1, t2, t3 := Thresholds[1..], Thresholds[2..], Thresholds[3..];
    assert t1 == [0.001, 0.01, 0.05] && t1[1..] == t2;
    assert t2 == [0.01, 0.05] && t2[1..] == t3;
    assert t3 == [0.05] && t3[1..] == [];
    assert ThresholdsPassed(p, t3) == if p < 0.05 then 1 else 0;
    assert ThresholdsPassed(p, t2) == (if p < 0.01 then 1 else 0) + ThresholdsPassed(p, t3);
    assert ThresholdsPassed(p, t1) == (if p < 0.001 then 1 else 0) + ThresholdsPassed(p, t2);
    assert k == (if p < 0.0001 then 1 else 0) + ThresholdsPassed(p, t1);
    assert k == if p < 0.0001 then 4 else if p < 0.001 then 3 else if p < 0.01 then 2
                else if p < 0.05 then 1 else 0;
    assert Stars(1) == "*" && Stars(2) == "**" && Stars(3) == "***" && Stars(4) == "****";
    assert AsteriskCount("ns") == 0;
    StarsAreAsterisks(k);
  }

  /** A numeric p-value is labelled "ns" exactly when it is at least 0.05. */
  lemma NotSignificantIff(p: real)
    ensures SignificanceLabel(PValue(p)) == "ns" <==> p >= 0.05
  {
  }

  /** A larger p-value lies below no more thresholds than a smaller one. */
  lemma {:induction false} ThresholdsPassedMonotone(p1: real, p2: real, ts: seq<real>)
    requires p1 <= p2
    ensures ThresholdsPassed(p1, ts) >= ThresholdsPassed(p2, ts)
  {
    if ts != [] {
      ThresholdsPassedMonotone(p1, p2, ts[1..]);
    }
  }

  /** A smaller p-value never gets fewer asterisks than a larger one. */
  lemma LabelMonotone(p1: real, p2: real)
    requires p1 <= p2
    ensures AsteriskCount(SignificanceLabel(PValue(p1))) >= AsteriskCount(SignificanceLabel(PValue(p2)))
  {
    LabelCountsThresholds(p1);
    LabelCountsThresholds(p2);
    ThresholdsPassedMonotone(p1, p2, Thresholds);
  }

  // ---------------------------------------------------------------------
  // Bracket geometry
  // ---------------------------------------------------------------------

  /** An axis extent, as `get_ylim()` or `get_xlim()` returns it. */
  datatype Limits = Limits(lo: real, hi: real)

  datatype Point = Point(x: real, y: real)

  /**
   * The polyline drawn (four corners, `barx` and `bary`) and the point the
   * label is attached to (`mid`).
   */
  datatype Bracket = Bracket(barx: seq<real>, bary: seq<real>, mid: Point)

  /** Python truthiness of `yerr`, a list of error-bar lengths or None. */
  predicate HasErrorBars(yerr: Option<seq<real>>)
  {
    yerr.Some? && |yerr.value| > 0
  }

  /** The indices the source reads are in range. */
  predicate ValidBars(num1: int, num2: int, center: seq<real>, height: seq<real>,
                      yerr: Option<seq<real>>, vertical: bool)
  {
    && 0 <= num1 < |center| && 0 <= num2 < |center|
    && num1 < |height| && num2 < |height|
    && (!vertical && HasErrorBars(yerr) ==> num1 < |yerr.value| && num2 < |yerr.value|)
  }

  function Larger(a: real, b: real): (m: real)
    ensures m >= a && m >= b && (m == a || m == b)
  {
    if a >= b then a else b
  }

  /** The top of a bar as the horizontal bracket sees it: its height, raised by its error bar when error bars are given. */
  function BarTop(num: int, height: seq<real>, yerr: Option<seq<real>>): (top: real)
    requires 0 <= num < |height|
    requires HasErrorBars(yerr) ==> num < |yerr.value|
  {
    if HasErrorBars(yerr) then height[num] + yerr.value[num] else height[num]
  }

  /**
   * `pairwise_comparison` up to the drawing calls: `dh` is the gap between
   * the taller bar and the bracket and `barh` the height of the bracket, both
   * as fractions of the axis extent across which the bracket rises.
   */
  function BracketGeometry(num1: int, num2: int, center: seq<real>, height: seq<real>,
                           yerr: Option<seq<real>>, dh: real, barh: real,
                           vertical: bool, xlim: Limits, ylim: Limits): (b: Bracket)
    requires ValidBars(num1, num2, center, height, yerr, vertical)
    ensures |b.barx| == 4 && |b.bary| == 4
    ensures !vertical ==> (b.bary[0] == b.bary[3] && b.bary[1] == b.bary[2]
                           && b.mid == Point((b.barx[0] + b.barx[3]) / 2.0, b.bary[1]))
    ensures vertical ==> (b.barx[0] == b.barx[3] && b.barx[1] == b.barx[2]
                          && b.mid == Point(b.barx[1], (b.bary[0] + b.bary[3]) / 2.0))
  {
    var lx, rx := center[num1], center[num2];
    if !vertical then
      var ly, ry := BarTop(num1, height, yerr), BarTop(num2, height, yerr);
      var gap, rise := dh * (ylim.hi - ylim.lo), barh * (ylim.hi - ylim.lo);
      var y := Larger(ly, ry) + gap;
      Bracket([lx, lx, rx, rx], [y, y + rise, y + rise, y], Point((lx + rx) / 2.0, y + rise))
    else
      var ly, ry := height[num1], height[num2];
      var gap, rise := dh * (xlim.hi - xlim.lo), barh * (xlim.hi - xlim.lo);
      var x := Larger(lx, rx) + gap;
      Bracket([x, x + rise, x + rise, x], [ly, ly, ry, ry], Point(x + rise, (ly + ry) / 2.0))
  }

  /**
   * Horizontal mode: the legs stand on the two bar centres, the feet sit a
   * gap of `dh` times the y extent above the taller bar top (error bars
   * included when given), so above both tops when `dh` and the extent are
   * non-negative, and the bracket rises by `barh` times the y extent.
   */
  lemma HorizontalBracket(num1: int, num2: int, center: seq<real>, height: seq<real>,
                          yerr: Option<seq<real>>, dh: real, barh: real, xlim: Limits, ylim: Limits)
    requires ValidBars(num1, num2, center, height, yerr, false)
    ensures var b := BracketGeometry(num1, num2, center, height, yerr, dh, barh, false, xlim, ylim);
      var top1, top2 := BarTop(num1, height, yerr), BarTop(num2, height, yerr);
      && b.barx == [center[num1], center[num1], center[num2], center[num2]]
      && b.bary[0] - Larger(top1, top2) == dh * (ylim.hi - ylim.lo)
      && b.bary[1] - b.bary[0] == barh * (ylim.hi - ylim.lo)
      && (0.0 <= dh && ylim.lo <= ylim.hi ==> b.bary[0] >= top1 && b.bary[0] >= top2)
      && (0.0 <= barh && ylim.lo <= ylim.hi ==> b.mid.y >= b.bary[0])
  {
    var d := ylim.hi - ylim.lo;
    if 0.0 <= dh && 0.0 <= d {
      assert 0.0 <= dh * d;
    }
    if 0.0 <= barh && 0.0 <= d {
      assert 0.0 <= barh * d;
    }
  }

  /**
   * Vertical mode: the bracket's base lies a gap of `dh` times the x extent
   * beyond the larger of the two centres, its ends are at the two heights,
   * and it reaches out by `barh` times the x extent.
   */
  lemma VerticalBracket(num1: int, num2: int, center: seq<real>, height: seq<real>,
                        yerr: Option<seq<real>>, dh: real, barh: real, xlim: Limits, ylim: Limits)
    requires ValidBars(num1, num2, center, height, yerr, true)
    ensures var b := BracketGeometry(num1, num2, center, height, yerr, dh, barh, true, xlim, ylim);
      && b.bary == [height[num1], height[num1], height[num2], height[num2]]
      && b.barx[0] - Larger(center[num1], center[num2]) == dh * (xlim.hi - xlim.lo)
      && b.barx[1] - b.barx[0] == barh * (xlim.hi - xlim.lo)
      && (0.0 <= dh && xlim.lo <= xlim.hi ==> b.barx[0] >= center[num1] && b.barx[0] >= center[num2])
      && (0.0 <= barh && xlim.lo <= xlim.hi ==> b.mid.x >= b.barx[0])
  {
    var b := BracketGeometry(num1, num2, center, height, yerr, dh, barh, true, xlim, ylim);
    var d := xlim.hi - xlim.lo;
    if 0.0 <= dh && 0.0 <= d {
      assert 0.0 <= dh * d;
    }
    if 0.0 <= barh && 0.0 <= d {
      assert 0.0 <= barh * d;
      assert b.mid.x == b.barx[1];
    }
  }

  /** Error bars play no part in vertical mode. */
  lemma VerticalIgnoresErrorBars(num1: int, num2: int, center: seq<real>, height: seq<real>,
                                 yerr: Option<seq<real>>, yerr': Option<seq<real>>,
                                 dh: real, barh: real, xlim: Limits, ylim: Limits)
    requires ValidBars(num1, num2, center, height, yerr, true)
    ensures ValidBars(num1, num2, center, height, yerr', true)
    ensures BracketGeometry(num1, num2, center, height, yerr, dh, barh, true, xlim, ylim)
         == BracketGeometry(num1, num2, center, height, yerr', dh, barh, true, xlim, ylim)
  {
  }

  /** An absent or empty error-bar list is the same as none at all. */
  lemma FalsyErrorBarsIgnored(num1: int, num2: int, center: seq<real>, height: seq<real>,
                              yerr: Option<seq<real>>, dh: real, barh: real,
                              vertical: bool, xlim: Limits, ylim: Limits)
    requires ValidBars(num1, num2, center, height, yerr, vertical) && !HasErrorBars(yerr)
    ensures BracketGeometry(num1, num2, center, height, yerr, dh, barh, vertical, xlim, ylim)
         == BracketGeometry(num1, num2, center, height, None, dh, barh, vertical, xlim, ylim)
  {
  }

  /** Each mode reads only the extent of the axis across which the bracket rises. */
  lemma OneAxisRead(num1: int, num2: int, center: seq<real>, height: seq<real>,
                    yerr: Option<seq<real>>, dh: real, barh: real,
                    vertical: bool, xlim: Limits, ylim: Limits, other: Limits)
    requires ValidBars(num1, num2, center, height, yerr, vertical)
    ensures !vertical ==> (BracketGeometry(num1, num2, center, height, yerr, dh, barh, vertical, xlim, ylim)
                           == BracketGeometry(num1, num2, center, height, yerr, dh, barh, vertical, other, ylim))
    ensures vertical ==> (BracketGeometry(num1, num2, center, height, yerr, dh, barh, vertical, xlim, ylim)
                          == BracketGeometry(num1, num2, center, height, yerr, dh, barh, vertical, xlim, other))
  {
  }

  /** The bracket mirrored across the diagonal, x and y exchanged. */
  function Transpose(b: Bracket): (t: Bracket)
  {
    Bracket(b.bary, b.barx, Point(b.mid.y, b.mid.x))
  }

  /**
   * Vertical mode is horizontal mode with the roles of the axes exchanged:
   * centres as heights, heights as centres, the x extent as the y extent,
   * and no error bars.
   */
  lemma VerticalIsTransposedHorizontal(num1: int, num2: int, center: seq<real>, height: seq<real>,
                                       yerr: Option<seq<real>>, dh: real, barh: real,
                                       xlim: Limits, ylim: Limits)
    requires ValidBars(num1, num2, center, height, yerr, true)
    ensures ValidBars(num1, num2, height, center, None, false)
    ensures BracketGeometry(num1, num2, center, height, yerr, dh, barh, true, xlim, ylim)
         == Transpose(BracketGeometry(num1, num2, height, center, None, dh, barh, false, ylim, xlim))
  {
  }
}
