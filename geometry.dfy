/**
  The per-record geometry rescalers of `Resize` in run.py: `_area`, `_bbox`
  and `_segmentation`. Coordinates alternate x, y; x-coordinates (even
  positions) are multiplied by the width rate and y-coordinates (odd
  positions) by the height rate, and each product is rounded half to even.
 */
module Geometry {
  import opened Numeric
  import opened Outcomes

  /** The rate that applies to position `k` of a flat coordinate list. */
  function AxisRate(k: nat, width: real, height: real): real {
    if k % 2 == 0 then width else height
  }

  /** Position `k` after scaling and rounding. */
  function ScaledCoordinate(v: real, k: nat, width: real, height: real): real {
    RoundHalfEven(v * AxisRate(k, width, height)) as real
  }

  /** `out` is an integral value that is the nearest-even rounding of
      coordinate `v` at position `k` scaled by its axis rate. */
  ghost predicate IsRescaled(v: real, k: nat, width: real, height: real, out: real) {
    out == out.Floor as real && IsNearestEven(v * AxisRate(k, width, height), out.Floor)
  }

  lemma ScaledCoordinateIsRescaled(v: real, k: nat, width: real, height: real)
    ensures IsRescaled(v, k, width, height, ScaledCoordinate(v, k, width, height))
  {
    var n := RoundHalfEven(v * AxisRate(k, width, height));
    assert (n as real).Floor == n;
  }

  lemma ScaledCoordinateOf(v: real, k: nat, width: real, height: real, product: real)
    requires product == v * AxisRate(k, width, height)
    ensures ScaledCoordinate(v, k, width, height) == RoundHalfEven(product) as real
  {
  }

  /** One polygon (a flat x, y, x, y, ... list) rescaled position by position. */
  function ScaledPolygon(p: seq<real>, width: real, height: real): (r: seq<real>)
    ensures |r| == |p|
    ensures forall k :: 0 <= k < |p| ==> IsRescaled(p[k], k, width, height, r[k])
  {
    var r := seq(|p|, k requires 0 <= k < |p| => ScaledCoordinate(p[k], k, width, height));
    assert forall k :: 0 <= k < |p| ==> IsRescaled(p[k], k, width, height, r[k]) by {
      forall k | 0 <= k < |p| {
        ScaledCoordinateIsRescaled(p[k], k, width, height);
      }
    }
    r
  }

  /** Every polygon of a segmentation rescaled, in order. */
  function ScaledSegmentation(polygons: seq<seq<real>>, width: real, height: real): (r: seq<seq<real>>)
    ensures |r| == |polygons|
    ensures forall i :: 0 <= i < |polygons| ==> r[i] == ScaledPolygon(polygons[i], width, height)
  {
    if polygons == [] then []
    else ScaledSegmentation(polygons[..|polygons| - 1], width, height)
         + [ScaledPolygon(polygons[|polygons| - 1], width, height)]
  }

  /** `_area`: `int(area * rate)`, the product truncated toward zero. */
  function Area(area: real, rate: real): (r: int)
    ensures 0.0 <= area * rate ==> 0 <= r && r as real <= area * rate < r as real + 1.0
    ensures area * rate < 0.0 ==> r <= 0 && r as real - 1.0 < area * rate <= r as real
  {
    Trunc(area * rate)
  }

  /** For a positive rate, a larger area never gives a smaller result. */
  lemma AreaMonotone(a: real, b: real, rate: real)
    requires a <= b && 0.0 < rate
    ensures Area(a, rate) <= Area(b, rate)
  {
    assert (b - a) * rate >= 0.0;
    TruncMonotone(a * rate, b * rate);
  }

  /** `_bbox`: the first four entries x, y, w, h scaled and rounded; anything
      past the fourth entry is dropped, and a shorter box raises IndexError. */
  function Bbox(bbox: seq<real>, width: real, height: real): (r: Result<seq<real>>)
    ensures r.Ok? <==> |bbox| >= 4
    ensures r.Err? ==> r.error == IndexError
    ensures r.Ok? ==> |r.value| == 4
    ensures r.Ok? ==> forall k :: 0 <= k < 4 ==> IsRescaled(bbox[k], k, width, height, r.value[k])
  {
    if |bbox| < 4 then Err(IndexError)
    else
      ScaledCoordinateIsRescaled(bbox[0], 0, width, height);
      ScaledCoordinateIsRescaled(bbox[1], 1, width, height);
      ScaledCoordinateIsRescaled(bbox[2], 2, width, height);
      ScaledCoordinateIsRescaled(bbox[3], 3, width, height);
      Ok([ScaledCoordinate(bbox[0], 0, width, height),
          ScaledCoordinate(bbox[1], 1, width, height),
          ScaledCoordinate(bbox[2], 2, width, height),
          ScaledCoordinate(bbox[3], 3, width, height)])
  }

  /** A box is rescaled exactly as a polygon made of its first four entries
      would be. */
  lemma BboxIsPolygonPrefix(bbox: seq<real>, width: real, height: real)
    requires |bbox| >= 4
    ensures Bbox(bbox, width, height) == Ok(ScaledPolygon(bbox[..4], width, height))
  {
    var r := Bbox(bbox, width, height).value;
    var s := ScaledPolygon(bbox[..4], width, height);
    forall k | 0 <= k < 4
      ensures r[k] == s[k]
    {
      assert s[k] == ScaledCoordinate(bbox[k], k, width, height);
    }
    assert r == s;
  }

  /** `s` with the entries at positions of parity `start` multiplied by
      `factor`. */
  function StridedScaled(s: seq<real>, start: nat, factor: real): (r: seq<real>)
    ensures |r| == |s|
  {
    seq(|s|, k requires 0 <= k < |s| => if k % 2 == start then s[k] * factor else s[k])
  }

  /** `s` with every entry rounded half to even. */
  function RoundedAll(s: seq<real>): (r: seq<real>)
    ensures |r| == |s|
  {
    seq(|s|, k requires 0 <= k < |s| => RoundHalfEven(s[k]) as real)
  }

  /** Scaling the even positions by `width`, then the odd ones by `height`,
      then rounding everything, is the rescaling of the polygon. */
  lemma StridesRescalePolygon(seg: seq<real>, width: real, height: real)
    ensures RoundedAll(StridedScaled(StridedScaled(seg, 0, width), 1, height)) == ScaledPolygon(seg, width, height)
  {
    var xScaled := StridedScaled(seg, 0, width);
    var scaled := StridedScaled(xScaled, 1, height);
    var r := RoundedAll(scaled);
    forall k | 0 <= k < |seg|
      ensures r[k] == ScaledCoordinate(seg[k], k, width, height)
    {
      assert scaled[k] == seg[k] * AxisRate(k, width, height);
      ScaledCoordinateOf(seg[k], k, width, height, scaled[k]);
    }
  }

  /** numpy's `seg_array[start::2] *= factor`, in place. */
  method ScaleStrided(a: array<real>, start: nat, factor: real)
    requires start < 2
    modifies a
    ensures a[..] == StridedScaled(old(a[..]), start, factor)
  {
    var k := start;
    while k < a.Length
      invariant start <= k && k % 2 == start
      invariant forall j :: 0 <= j < a.Length ==>
        a[j] == if j % 2 == start && j < k then old(a[j]) * factor else old(a[j])
    {
      a[k] := a[k] * factor;
      k := k + 2;
    }
    assert forall j :: 0 <= j < a.Length ==> a[..][j] == StridedScaled(old(a[..]), start, factor)[j];
  }

  /** numpy's `seg_array = round_(seg_array, 0)`. numpy returns a new array
      and the name is rebound to it; the array is fresh and referenced nowhere
      else, so writing the rounded values back in place is indistinguishable. */
  method RoundAll(a: array<real>)
    modifies a
    ensures a[..] == RoundedAll(old(a[..]))
  {
    for k := 0 to a.Length
      invariant forall j :: 0 <= j < a.Length ==>
        a[j] == if j < k then RoundHalfEven(old(a[j])) as real else old(a[j])
    {
      a[k] := RoundHalfEven(a[k]) as real;
    }
  }

  /** One iteration of `_segmentation`'s loop: the polygon is copied into a
      fresh float array (`np.array(seg)`), its even positions are scaled by
      `width`, its odd positions by `height`, the array is rounded and read
      back as a list. */
  method RescalePolygon(seg: seq<real>, width: real, height: real) returns (out: seq<real>)
    ensures out == ScaledPolygon(seg, width, height)
  {
    var segArray := new real[|seg|](k requires 0 <= k < |seg| => seg[k]);
    assert segArray[..] == seg;
    ScaleStrided(segArray, 0, width);
    ScaleStrided(segArray, 1, height);
    RoundAll(segArray);
    StridesRescalePolygon(seg, width, height);
    out := segArray[..];
  }

  /** `_segmentation`: a new list holding every polygon rescaled, in order;
      the input is left as it was. */
  method Segmentation(segmentation: seq<seq<real>>, width: real, height: real)
    returns (result: seq<seq<real>>)
    ensures |result| == |segmentation|
    ensures forall i :: 0 <= i < |segmentation| ==>
      |result[i]| == |segmentation[i]| &&
      forall k :: 0 <= k < |segmentation[i]| ==> IsRescaled(segmentation[i][k], k, width, height, result[i][k])
    ensures result == ScaledSegmentation(segmentation, width, height)
  {
    result := [];
    for i := 0 to |segmentation|
      invariant result == ScaledSegmentation(segmentation[..i], width, height)
    {
      var polygon := RescalePolygon(segmentation[i], width, height);
      assert segmentation[..i + 1][..i] == segmentation[..i];
      result := result + [polygon];
    }
    assert segmentation[..|segmentation|] == segmentation;
  }
}
