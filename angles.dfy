/**
 * The angle allocator and the sweep filter: each slice gets a cumulative end
 * angle equal to its running share of 360 degrees, and while the reveal
 * animation runs only the slices up to the current sweep angle are visible,
 * the one being swept through cut short at the sweep angle.
 */
module Angles {
  import opened Wrappers
  import opened PieValues

  /**
   * End angle of slice `i`: the share of the total held by slices 0..i, in
   * degrees.
   */
  function EndAngle(s: seq<PieValue>, i: nat, total: real): real
    requires i < |s| && total > 0.0
  {
    Sum(s[..i + 1]) / total * 360.0
  }

  /** The slices with their end angles assigned; nothing but `angle` is touched. */
  function Allocate(s: seq<PieValue>, total: real): (r: seq<PieValue>)
    requires total > 0.0 || s == []
    ensures |r| == |s|
    ensures forall i :: 0 <= i < |s| ==> r[i] == s[i].(angle := r[i].angle)
  {
    seq(|s|, i requires 0 <= i < |s| => s[i].(angle := EndAngle(s, i, total)))
  }

  /** Allocation keeps the total and the non-negativity of the weights. */
  lemma AllocateKeepsWeights(s: seq<PieValue>, total: real)
    requires total > 0.0 || s == []
    ensures Sum(Allocate(s, total)) == Sum(s)
    ensures NonNegative(s) ==> NonNegative(Allocate(s, total))
  {
    var r := Allocate(s, total);
    SumSameWeights(r, s);
  }

  /** Adding the shares of two weights gives the share of their sum. */
  lemma ShareStep(before: real, v: real, total: real)
    requires total > 0.0
    ensures before / total * 360.0 + v / total * 360.0 == (before + v) / total * 360.0
  {
  }

  /** Where slice `i`'s arc starts: the end angle of slice i - 1, or 0 for the first. */
  function StartAngle(s: seq<PieValue>, total: real, i: nat): real
    requires i <= |s| && (total > 0.0 || i == 0)
  {
    if i == 0 then 0.0 else Sum(s[..i]) / total * 360.0
  }

  /**
   * One step of the running allocation: slice i ends where it starts plus its
   * own share, and that is where slice i + 1 starts.
   */
  lemma AllocateStep(s: seq<PieValue>, total: real, i: nat)
    requires total > 0.0 && i < |s|
    ensures Allocate(s, total)[i] == s[i].(angle := StartAngle(s, total, i) + s[i].value / total * 360.0)
    ensures StartAngle(s, total, i + 1) == StartAngle(s, total, i) + s[i].value / total * 360.0
  {
    SumPrefixStep(s, i);
    if i == 0 {
      assert s[..0] == [];
    } else {
      ShareStep(Sum(s[..i]), s[i].value, total);
    }
  }

  /** A part of a positive whole is a share between 0 and 1. */
  lemma ShareBounds(part: real, whole: real)
    requires 0.0 <= part <= whole && whole > 0.0
    ensures 0.0 <= part / whole <= 1.0
  {
  }

  /** Scaling a non-negative weight by a proper fraction n/d keeps it between 0 and the weight. */
  lemma ScaledBounds(v: real, n: real, d: real)
    requires 0.0 < n < d
    ensures v * n / d * d == v * n
    ensures v >= 0.0 ==> 0.0 <= v * n / d <= v
  {
  }

  /** Dividing by a positive whole keeps the order of the parts. */
  lemma ShareMonotone(a: real, b: real, whole: real)
    requires a <= b && whole > 0.0
    ensures a / whole <= b / whole
  {
  }

  /**
   * Each slice's arc, from the previous end angle (0 for the first) to its
   * own, is its weight's share of 360 degrees.
   */
  lemma ArcIsShare(s: seq<PieValue>, total: real, i: nat)
    requires total > 0.0 && i < |s|
    ensures var r := Allocate(s, total);
            r[i].angle == (if i == 0 then 0.0 else r[i - 1].angle) + s[i].value / total * 360.0
  {
    AllocateStep(s, total, i);
    if i > 0 {
      AllocateStep(s, total, i - 1);
    }
  }

  /** With non-negative weights the end angles never decrease. */
  lemma AnglesNonDecreasing(s: seq<PieValue>, total: real, i: nat, j: nat)
    requires total > 0.0 && NonNegative(s)
    requires i <= j < |s|
    ensures Allocate(s, total)[i].angle <= Allocate(s, total)[j].angle
  {
    PrefixSumMonotone(s, i + 1, j + 1);
    ShareMonotone(Sum(s[..i + 1]), Sum(s[..j + 1]), total);
  }

  /** When `total` is the sum of non-negative weights every end angle lies in [0, 360]. */
  lemma AnglesInRange(s: seq<PieValue>, total: real, i: nat)
    requires total > 0.0 && total == Sum(s) && NonNegative(s)
    requires i < |s|
    ensures 0.0 <= Allocate(s, total)[i].angle <= 360.0
  {
    PrefixSumMonotone(s, i + 1, |s|);
    assert s[..|s|] == s;
    PrefixSumMonotone(s, 0, i + 1);
    assert s[..0] == [];
    ShareBounds(Sum(s[..i + 1]), total);
  }

  /** The last end angle is exactly 360: the slices cover the whole circle. */
  lemma LastAngleIsFullCircle(s: seq<PieValue>, total: real)
    requires total > 0.0 && total == Sum(s)
    ensures |s| > 0 && Allocate(s, total)[|s| - 1].angle == 360.0
  {
    assert s[..|s|] == s;
    assert total / total == 1.0;
  }

  /**
   * The number of leading slices whose end angle does not pass the sweep
   * angle: the first index whose angle exceeds it, or the length.
   */
  function FirstBeyond(s: seq<PieValue>, sweep: real): (k: nat)
    ensures k <= |s|
    ensures forall i :: 0 <= i < k ==> s[i].angle <= sweep
    ensures k < |s| ==> s[k].angle > sweep
  {
    if s == [] then 0
    else if s[0].angle <= sweep then 1 + FirstBeyond(s[1..], sweep)
    else 0
  }

  /**
   * The slice being swept through, cut at the sweep angle: same name and
   * colour, weight scaled by the part of its arc already swept.
   */
  function Partial(v: PieValue, prev: real, sweep: real): (p: PieValue)
    requires prev < sweep < v.angle
    ensures p.name == v.name && p.color == v.color && p.angle == sweep
  {
    PieValue(v.name, v.color, v.value * (sweep - prev) / (v.angle - prev), sweep)
  }

  /**
   * The cut-short slice keeps the weight per degree of the slice it cuts:
   * its weight is to the full weight as the swept part of the arc is to the
   * whole arc, so a non-negative weight only shrinks.
   */
  lemma PartialIsProportional(v: PieValue, prev: real, sweep: real)
    requires prev < sweep < v.angle
    ensures Partial(v, prev, sweep).value * (v.angle - prev) == v.value * (sweep - prev)
    ensures v.value >= 0.0 ==> 0.0 <= Partial(v, prev, sweep).value <= v.value
  {
    assert Partial(v, prev, sweep).value == v.value * (sweep - prev) / (v.angle - prev);
    ScaledBounds(v.value, sweep - prev, v.angle - prev);
  }

  /**
   * The slices a frame draws. Without animation all of them; with animation
   * the longest prefix whose end angles do not pass `sweep`, followed by the
   * cut-short slice being swept through when the sweep has gone past the
   * previous end angle (0 when the prefix is empty).
   */
  function VisibleSegments(s: seq<PieValue>, animating: bool, sweep: real): (r: seq<PieValue>)
    ensures !animating ==> r == s
    ensures |r| <= |s|
  {
    if !animating then s
    else
      var k := FirstBeyond(s, sweep);
      var prev := if k == 0 then 0.0 else s[k - 1].angle;
      if k < |s| && sweep > prev then s[..k] + [Partial(s[k], prev, sweep)] else s[..k]
  }

  /**
   * Exactly what the animated filter keeps: the prefix up to the first slice
   * past the sweep, then the partial slice precisely when the sweep is past
   * the previous end angle.
   */
  lemma VisibleIsSweptPrefix(s: seq<PieValue>, sweep: real)
    ensures var r := VisibleSegments(s, true, sweep);
            var k := FirstBeyond(s, sweep);
            var prev := if k == 0 then 0.0 else s[k - 1].angle;
            r[..k] == s[..k] &&
            |r| == (if k < |s| && sweep > prev then k + 1 else k) &&
            (|r| == k + 1 ==> prev < sweep < s[k].angle && r[k] == Partial(s[k], prev, sweep))
  {
    var k := FirstBeyond(s, sweep);
    var prev := if k == 0 then 0.0 else s[k - 1].angle;
    if k < |s| && sweep > prev {
      var r := s[..k] + [Partial(s[k], prev, sweep)];
      assert r[..k] == s[..k];
    }
  }

  /** While animating, no visible slice ends past the sweep angle. */
  lemma VisibleWithinSweep(s: seq<PieValue>, sweep: real, i: nat)
    requires i < |VisibleSegments(s, true, sweep)|
    ensures VisibleSegments(s, true, sweep)[i].angle <= sweep
  {
    VisibleIsSweptPrefix(s, sweep);
    var k := FirstBeyond(s, sweep);
    if i < k {
      assert VisibleSegments(s, true, sweep)[..k][i] == s[i];
    }
  }

  /** A full sweep over allocated angles shows every slice unchanged. */
  lemma FullSweepShowsAll(s: seq<PieValue>, total: real)
    requires total > 0.0 && total == Sum(s) && NonNegative(s)
    ensures VisibleSegments(Allocate(s, total), true, 360.0) == Allocate(s, total)
  {
    var a := Allocate(s, total);
    var k := FirstBeyond(a, 360.0);
    if k < |a| {
      AnglesInRange(s, total, k);
    }
    assert a[..|a|] == a;
  }

  /** At the start of the sweep nothing is drawn when the first slice has a positive arc. */
  lemma ZeroSweepShowsNothing(s: seq<PieValue>)
    requires |s| > 0 && s[0].angle > 0.0
    ensures VisibleSegments(s, true, 0.0) == []
  {
  }

  /**
   * The first slice, in order, whose end angle reaches `bound`, or none when
   * every end angle falls short of it.
   */
  function FirstReaching(s: seq<PieValue>, bound: real): (r: Option<PieValue>)
    ensures r.Some? ==> r.value in s && bound <= r.value.angle
  {
    if s == [] then None
    else if bound <= s[0].angle then Some(s[0])
    else FirstReaching(s[1..], bound)
  }

  /**
   * The lookup finds a slice exactly when some end angle reaches the bound,
   * and what it finds is the first such slice.
   */
  lemma {:induction false} FirstReachingIsFirstMatch(s: seq<PieValue>, bound: real)
    ensures FirstReaching(s, bound).None? <==> forall j :: 0 <= j < |s| ==> s[j].angle < bound
    ensures FirstReaching(s, bound).Some? ==>
              exists k :: 0 <= k < |s| && s[k] == FirstReaching(s, bound).value && bound <= s[k].angle &&
                forall j :: 0 <= j < k ==> s[j].angle < bound
    decreases |s|
  {
    if s != [] && s[0].angle < bound {
      FirstReachingIsFirstMatch(s[1..], bound);
      if FirstReaching(s, bound).Some? {
        var k :| 0 <= k < |s| - 1 && s[1..][k] == FirstReaching(s, bound).value && bound <= s[1..][k].angle &&
                 forall j :: 0 <= j < k ==> s[1..][j].angle < bound;
        assert forall j :: 0 <= j < k + 1 ==> s[j].angle < bound by {
          forall j | 0 <= j < k + 1
            ensures s[j].angle < bound
          {
            if j > 0 {
              assert s[j] == s[1..][j - 1];
            }
          }
        }
        assert s[k + 1] == s[1..][k];
      }
    }
  }
}
