/**
  `Resize.resize_json` of run.py, from an already parsed document: the image
  records get the target size, the annotation records get their geometry
  rescaled by the fixed rate 2048/2024 on both axes, and `categories`, `info`
  and `metainfo` are carried over unchanged.
 */
module Resizer {
  import opened Numeric
  import opened Outcomes
  import opened Document
  import opened Geometry

  /** The fixed output size written into every image record. */
  const TargetSize: int := 2048
  /** The size the source images are assumed to have. */
  const SourceSize: int := 2024
  /** `rate = 2048/2024`, used for both axes and for the area. */
  const Rate: real := TargetSize as real / SourceSize as real

  /** The rate maps the source size exactly onto the target size, and it
      enlarges. */
  lemma RateMapsSourceToTarget()
    ensures SourceSize as real * Rate == TargetSize as real
    ensures 1.0 < Rate
  {
  }

  /** An image record after resizing: `width` and `height` are set to the
      target size (added if absent), every other key is as it was. */
  function ResizedImage(image: Image): (r: Image)
    ensures r.Keys == image.Keys + {"width", "height"}
    ensures r["width"] == Num(Int(TargetSize)) && r["height"] == Num(Int(TargetSize))
    ensures forall key :: key in image && key != "width" && key != "height" ==> r[key] == image[key]
  {
    image["width" := Num(Int(TargetSize))]["height" := Num(Int(TargetSize))]
  }

  /** An annotation record after resizing with `rate` on both axes: `bbox`,
      `segmentation` and `area` are replaced and every other key is as it was.
      A bounding box shorter than four entries raises IndexError. */
  function ResizedAnnotation(a: Annotation, rate: real): (r: Result<Annotation>)
    ensures r.Ok? <==> |a.bbox| >= 4
    ensures r.Err? ==> r.error == IndexError
    ensures r.Ok? ==> r.value.others == a.others
    ensures r.Ok? ==> |r.value.bbox| == 4
    ensures r.Ok? ==> forall k :: 0 <= k < 4 ==> IsRescaled(a.bbox[k], k, rate, rate, r.value.bbox[k])
    ensures r.Ok? ==> |r.value.segmentation| == |a.segmentation|
    ensures r.Ok? ==>
      forall i :: 0 <= i < |a.segmentation| ==>
        |r.value.segmentation[i]| == |a.segmentation[i]| &&
        forall k :: 0 <= k < |a.segmentation[i]| ==>
          IsRescaled(a.segmentation[i][k], k, rate, rate, r.value.segmentation[i][k])
    ensures r.Ok? ==> r.value.area.Int? && r.value.area.i == Trunc(a.area.Real() * rate)
  {
    match Bbox(a.bbox, rate, rate)
    case Err(e) => Err(e)
    case Ok(box) =>
      Ok(a.(bbox := box,
            segmentation := ScaledSegmentation(a.segmentation, rate, rate),
            area := Int(Area(a.area.Real(), rate))))
  }

  /** `resize_json` after the document is loaded. The result has the five
      top-level keys only; the images and annotations keep their number and
      order, each rescaled as above; the first annotation with a short
      bounding box aborts the whole document with IndexError. */
  method ResizeJson(doc: Doc) returns (r: Result<Doc>)
    ensures r.Ok? <==> forall j :: 0 <= j < |doc.annotations| ==> |doc.annotations[j].bbox| >= 4
    ensures r.Err? ==> r.error == IndexError
    ensures r.Ok? ==> && r.value.categories == doc.categories
                      && r.value.info == doc.info
                      && r.value.metainfo == doc.metainfo
                      && r.value.rest == map[]
    ensures r.Ok? ==> |r.value.images| == |doc.images|
    ensures r.Ok? ==>
      forall i :: 0 <= i < |doc.images| ==> r.value.images[i] == ResizedImage(doc.images[i])
    ensures r.Ok? ==> |r.value.annotations| == |doc.annotations|
    ensures r.Ok? ==>
      forall j :: 0 <= j < |doc.annotations| ==> ResizedAnnotation(doc.annotations[j], Rate) == Ok(r.value.annotations[j])
    ensures r.Ok? && WellFormed(doc) ==> WellFormed(r.value)
  {
    var images: seq<Image> := [];
    for i := 0 to |doc.images|
      invariant |images| == i
      invariant forall k :: 0 <= k < i ==> images[k] == ResizedImage(doc.images[k])
    {
      var copyImage := doc.images[i];
      copyImage := copyImage["width" := Num(Int(TargetSize))];
      copyImage := copyImage["height" := Num(Int(TargetSize))];
      images := images + [copyImage];
    }

    var annotations: seq<Annotation> := [];
    for j := 0 to |doc.annotations|
      invariant |annotations| == j
      invariant forall k :: 0 <= k < j ==> ResizedAnnotation(doc.annotations[k], Rate) == Ok(annotations[k])
    {
      var annotation := doc.annotations[j];
      var box := Bbox(annotation.bbox, Rate, Rate);
      if box.Err? {
        return Err(box.error);
      }
      var segmentation := Segmentation(annotation.segmentation, Rate, Rate);
      var copyAnnotation := annotation.(bbox := box.value,
                                        segmentation := segmentation,
                                        area := Int(Area(annotation.area.Real(), Rate)));
      annotations := annotations + [copyAnnotation];
    }
    r := Ok(Doc(images, doc.categories, annotations, doc.info, doc.metainfo, map[]));
  }

  /** A coordinate inside the assumed 2024-wide source frame lands inside the
      2048-wide target frame, and the far edge maps onto the far edge, so the
      rescaled geometry agrees with the new image size. */
  lemma RescaledCoordinateInFrame(c: real, k: nat)
    requires 0.0 <= c <= SourceSize as real
    ensures 0.0 <= ScaledCoordinate(c, k, Rate, Rate) <= TargetSize as real
    ensures c == SourceSize as real ==> ScaledCoordinate(c, k, Rate, Rate) == TargetSize as real
  {
    var product := c * Rate;
    assert Rate == 2048.0 / 2024.0;
    assert 0.0 <= product <= 2048.0;
    assert c == 2024.0 ==> product == 2048.0;
    ScaledCoordinateOf(c, k, Rate, Rate, product);
    RoundMonotone(0.0, product);
    RoundMonotone(product, 2048.0);
    RoundOfInteger(0);
    RoundOfInteger(TargetSize);
  }

  /** A coordinate strictly between -0.49 and 0.49 is rescaled to zero. */
  lemma SmallCoordinateRoundsToZero(v: real, k: nat)
    requires -0.49 < v < 0.49
    ensures ScaledCoordinate(v, k, Rate, Rate) == 0.0
  {
    var product := v * Rate;
    assert Rate == 2048.0 / 2024.0;
    if v >= 0.0 {
      assert 0.0 <= product <= 0.49 * Rate < 0.5;
    } else {
      assert -0.5 < -0.49 * Rate <= product < 0.0;
    }
    ScaledCoordinateOf(v, k, Rate, Rate, product);
    RoundHalfEvenIsNearestEven(product, 0);
  }

  /** The worked example: one annotation with box [0.1, 0.2, 0.3, 0.4], one
      polygon [0.1, 0.1, 0.2, 0.2] and area 100. Fractions this small round
      to zero, and the area becomes int(100 * 2048 / 2024) = 101. */
  lemma WorkedExample()
    ensures ResizedAnnotation(Annotation([0.1, 0.2, 0.3, 0.4], [[0.1, 0.1, 0.2, 0.2]], Int(100), map[]), Rate)
         == Ok(Annotation([0.0, 0.0, 0.0, 0.0], [[0.0, 0.0, 0.0, 0.0]], Int(101), map[]))
  {
    WorkedBox();
    WorkedSegmentation();
    WorkedArea();
  }

  lemma WorkedBox()
    ensures Bbox([0.1, 0.2, 0.3, 0.4], Rate, Rate) == Ok([0.0, 0.0, 0.0, 0.0])
  {
    SmallPolygonRoundsToZero([0.1, 0.2, 0.3, 0.4]);
    BboxIsPolygonPrefix([0.1, 0.2, 0.3, 0.4], Rate, Rate);
    assert [0.1, 0.2, 0.3, 0.4][..4] == [0.1, 0.2, 0.3, 0.4];
  }

  lemma WorkedSegmentation()
    ensures ScaledSegmentation([[0.1, 0.1, 0.2, 0.2]], Rate, Rate) == [[0.0, 0.0, 0.0, 0.0]]
  {
    SmallPolygonRoundsToZero([0.1, 0.1, 0.2, 0.2]);
  }

  lemma WorkedArea()
    ensures Area(Int(100).Real(), Rate) == 101
  {
    assert 101.0 <= 100.0 * Rate < 102.0;
  }

  /** A polygon of four coordinates strictly between -0.49 and 0.49 is
      rescaled to zeros. */
  lemma SmallPolygonRoundsToZero(p: seq<real>)
    requires |p| == 4 && forall k :: 0 <= k < 4 ==> -0.49 < p[k] < 0.49
    ensures ScaledPolygon(p, Rate, Rate) == [0.0, 0.0, 0.0, 0.0]
  {
    forall k | 0 <= k < 4
      ensures ScaledPolygon(p, Rate, Rate)[k] == 0.0
    {
      SmallCoordinateRoundsToZero(p[k], k);
    }
  }

  /** Rescaling is not idempotent: applied twice, the source edge 2024 goes to
      2048 and then to 2072, so the transform must run exactly once. */
  lemma RescaleTwiceOvershoots()
    ensures ScaledPolygon([SourceSize as real], Rate, Rate) == [TargetSize as real]
    ensures ScaledPolygon(ScaledPolygon([SourceSize as real], Rate, Rate), Rate, Rate) == [2072.0]
  {
  }
}
