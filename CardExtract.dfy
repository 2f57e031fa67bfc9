/**
  The embedded-card detector of scripts/extract_card.py (`extract_card`):
  the MSER regions found in a frame are turned into corner boxes, merged
  into the one box that spans them all, and that box is accepted as the
  card only when it covers enough of the frame and is roughly square. The
  image file reading, the MSER detector and the rectangle drawing are
  OpenCV calls outside the model: the loaded image (or its absence), the
  regions' bounding rectangles and the drawing routine are parameters.
 */
module CardExtract {
  import opened Wrappers

  /** `MIN_AREA_RATIO`, `ASPECT_MIN` and `ASPECT_MAX`. */
  const MinAreaRatio: real := 0.03
  const AspectMin: real := 0.6
  const AspectMax: real := 1.6

  const LoadError := "Could not load image"

  /** One BGR pixel of a decoded frame. */
  datatype Pixel = Pixel(b: int, g: int, r: int)

  /** An image as rows of pixels: `img[y][x]`. */
  type Image = seq<seq<Pixel>>

  /** What `cv2.imread` hands back when it succeeds: at least one row, and
      rows of one common, positive width. */
  predicate ValidImage(img: Image) {
    |img| >= 1 && |img[0]| >= 1 &&
    forall y :: 0 <= y < |img| ==> |img[y]| == |img[0]|
  }

  function Height(img: Image): nat { |img| }

  function Width(img: Image): nat { if img == [] then 0 else |img[0]| }

  /** `cv2.boundingRect(r)` of a region: its top-left corner and size. */
  datatype Rect = Rect(x: int, y: int, width: int, height: int)

  /** A box as its corners `[x1, y1, x2, y2]`, right and bottom exclusive. */
  datatype Box = Box(x1: int, y1: int, x2: int, y2: int)

  /** A bounding rectangle of a non-empty set of pixels of `img`: it has a
      positive size and lies inside the image. */
  predicate RectInside(r: Rect, img: Image) {
    r.width >= 1 && r.height >= 1 &&
    0 <= r.x && r.x + r.width <= Width(img) &&
    0 <= r.y && r.y + r.height <= Height(img)
  }

  predicate RegionsInside(regions: seq<Rect>, img: Image) {
    forall k :: 0 <= k < |regions| ==> RectInside(regions[k], img)
  }

  /** `b` lies within `outer`. */
  predicate Within(b: Box, outer: Box) {
    outer.x1 <= b.x1 && outer.y1 <= b.y1 && b.x2 <= outer.x2 && b.y2 <= outer.y2
  }

  /** `[x, y, x + bw, y + bh]`: the same rectangle, given by its corners. */
  function CornerBox(r: Rect): (b: Box)
    ensures b.x1 == r.x && b.y1 == r.y
    ensures b.x2 - b.x1 == r.width && b.y2 - b.y1 == r.height
  {
    Box(r.x, r.y, r.x + r.width, r.y + r.height)
  }

  /** The corner boxes of all regions, in region order. */
  function CornerBoxes(regions: seq<Rect>): (boxes: seq<Box>)
    ensures |boxes| == |regions|
    ensures forall k :: 0 <= k < |regions| ==> boxes[k] == CornerBox(regions[k])
  {
    seq(|regions|, k requires 0 <= k < |regions| => CornerBox(regions[k]))
  }

  /** The loop that appends one corner box per region to `boxes`. */
  method RegionBoxes(regions: seq<Rect>) returns (boxes: seq<Box>)
    ensures boxes == CornerBoxes(regions)
  {
    boxes := [];
    for i := 0 to |regions|
      invariant |boxes| == i
      invariant forall k :: 0 <= k < i ==> boxes[k] == CornerBox(regions[k])
    {
      var r := regions[i];
      boxes := boxes + [Box(r.x, r.y, r.x + r.width, r.y + r.height)];
    }
  }

  function Min(a: int, b: int): int { if a <= b then a else b }

  function Max(a: int, b: int): int { if a >= b then a else b }

  /** The column-wise `min()` of the left and top edges and `max()` of the
      right and bottom edges: the box spanning all the boxes. It contains
      each of them, and each of its edges is an edge of one of them. */
  function Merge(boxes: seq<Box>): (m: Box)
    requires boxes != []
    ensures forall k :: 0 <= k < |boxes| ==> Within(boxes[k], m)
    ensures exists k :: 0 <= k < |boxes| && m.x1 == boxes[k].x1
    ensures exists k :: 0 <= k < |boxes| && m.y1 == boxes[k].y1
    ensures exists k :: 0 <= k < |boxes| && m.x2 == boxes[k].x2
    ensures exists k :: 0 <= k < |boxes| && m.y2 == boxes[k].y2
  {
    if |boxes| == 1 then boxes[0]
    else
      var rest := Merge(boxes[1..]);
      var b := boxes[0];
      var m := Box(Min(b.x1, rest.x1), Min(b.y1, rest.y1), Max(b.x2, rest.x2), Max(b.y2, rest.y2));
      assert forall k :: 1 <= k < |boxes| ==> boxes[k] == boxes[1..][k - 1];
      m
  }

  /** The merged box is the smallest box containing all the boxes. */
  lemma MergeSmallest(boxes: seq<Box>, outer: Box)
    requires boxes != []
    requires forall k :: 0 <= k < |boxes| ==> Within(boxes[k], outer)
    ensures Within(Merge(boxes), outer)
  {
    var m := Merge(boxes);
    var i :| 0 <= i < |boxes| && m.x1 == boxes[i].x1;
    var j :| 0 <= j < |boxes| && m.y1 == boxes[j].y1;
    var k :| 0 <= k < |boxes| && m.x2 == boxes[k].x2;
    var l :| 0 <= l < |boxes| && m.y2 == boxes[l].y2;
  }

  /** The merged box of regions inside the image is a non-empty box inside
      the image. */
  lemma MergeInside(regions: seq<Rect>, img: Image)
    requires regions != [] && RegionsInside(regions, img)
    ensures var m := Merge(CornerBoxes(regions));
      0 <= m.x1 < m.x2 <= Width(img) && 0 <= m.y1 < m.y2 <= Height(img)
  {
    var boxes := CornerBoxes(regions);
    var m := Merge(boxes);
    assert Within(boxes[0], m);
    var i :| 0 <= i < |boxes| && m.x1 == boxes[i].x1;
    var j :| 0 <= j < |boxes| && m.y1 == boxes[j].y1;
    var k :| 0 <= k < |boxes| && m.x2 == boxes[k].x2;
    var l :| 0 <= l < |boxes| && m.y2 == boxes[l].y2;
    assert RectInside(regions[i], img) && RectInside(regions[j], img);
    assert RectInside(regions[k], img) && RectInside(regions[l], img);
  }

  /** A box with positive size inside the image. */
  predicate CropBox(m: Box, img: Image) {
    0 <= m.x1 < m.x2 <= Width(img) && 0 <= m.y1 < m.y2 <= Height(img)
  }

  /** `img[y1:y2, x1:x2]`: rows `y1` to `y2 - 1`, columns `x1` to `x2 - 1`. */
  function Crop(img: Image, m: Box): (card: Image)
    requires ValidImage(img) && CropBox(m, img)
    ensures |card| == m.y2 - m.y1
    ensures forall r :: 0 <= r < |card| ==> |card[r]| == m.x2 - m.x1
    ensures forall r, c :: 0 <= r < |card| && 0 <= c < |card[r]| ==> card[r][c] == img[m.y1 + r][m.x1 + c]
  {
    seq(m.y2 - m.y1, r requires 0 <= r < m.y2 - m.y1 => img[m.y1 + r][m.x1 .. m.x2])
  }

  /** `(bw * bh) / frame_area` with Python's true division. */
  function AreaRatio(img: Image, m: Box): real
    requires ValidImage(img)
  {
    ((m.x2 - m.x1) * (m.y2 - m.y1)) as real / (Height(img) * Width(img)) as real
  }

  /** `bw / bh`. */
  function Aspect(m: Box): real
    requires m.y2 > m.y1
  {
    (m.x2 - m.x1) as real / (m.y2 - m.y1) as real
  }

  /** The value `extract_card` returns: a pair `(card, area_ratio)`, or with
      `debug` on an accepted card the triple `(card, area_ratio, dbg)`. */
  datatype Outcome =
    | Pair(card: Option<Image>, areaRatio: real)
    | Triple(found: Image, areaRatio: real, debugImage: Image)
  {
    /** The card the caller unpacks, whichever shape was returned. */
    function Card(): Option<Image> {
      match this
      case Pair(card, _) => card
      case Triple(found, _, _) => Some(found)
    }
  }

  /** The draw call `cv2.rectangle(dbg, (x1, y1), (x2, y2), ...)` on a copy
      of the frame. */
  type Drawer = (Image, Box) -> Image

  /** The area check, then the aspect check, then the crop. */
  function Decide(img: Image, m: Box, debug: bool, draw: Drawer): (o: Outcome)
    requires ValidImage(img) && CropBox(m, img)
    ensures o.areaRatio == AreaRatio(img, m)
    ensures o.Card().Some? <==> AreaRatio(img, m) >= MinAreaRatio && AspectMin <= Aspect(m) <= AspectMax
    ensures o.Card().Some? ==> o.Card().value == Crop(img, m)
    ensures o.Triple? <==> debug && o.Card().Some?
    ensures o.Triple? ==> o.debugImage == draw(img, m)
  {
    var areaRatio := AreaRatio(img, m);
    var aspect := Aspect(m);
    if areaRatio < MinAreaRatio then Pair(None, areaRatio)
    else if !(AspectMin <= aspect <= AspectMax) then Pair(None, areaRatio)
    else
      var card := Crop(img, m);
      if debug then Triple(card, areaRatio, draw(img, m))
      else Pair(Some(card), areaRatio)
  }

  /** `extract_card`: `loaded` is what `cv2.imread` returned and `regions`
      the bounding rectangles of the MSER regions detected in it. */
  method ExtractCard(loaded: Option<Image>, regions: seq<Rect>, debug: bool, draw: Drawer)
    returns (r: Result<Outcome, string>)
    requires loaded.Some? ==> ValidImage(loaded.value) && RegionsInside(regions, loaded.value)
    ensures loaded.None? ==> r == Failure(LoadError)
    ensures loaded.Some? && regions == [] ==> r == Success(Pair(None, 0.0))
    ensures loaded.Some? && regions != [] ==>
      CropBox(Merge(CornerBoxes(regions)), loaded.value) &&
      r == Success(Decide(loaded.value, Merge(CornerBoxes(regions)), debug, draw))
  {
    if loaded.None? {
      return Failure(LoadError);
    }
    var img := loaded.value;
    if regions == [] {
      return Success(Pair(None, 0.0));
    }
    var boxes := RegionBoxes(regions);
    var m := Merge(boxes);
    MergeInside(regions, img);
    r := Success(Decide(img, m, debug, draw));
  }

  // ----- the acceptance rule without division -----

  /** For a positive denominator `d`, `a / d` is at least `p / q` exactly
      when `q * a >= p * d`. */
  lemma RatioAtLeast(a: int, d: int, p: int, q: int)
    requires d > 0 && q > 0
    ensures a as real / d as real >= p as real / q as real <==> q * a >= p * d
  {
    var x, y := a as real / d as real, p as real / q as real;
    assert x * (d as real) == a as real;
    assert y * (q as real) == p as real;
    assert (q * a) as real == (q as real) * (d as real) * x;
    assert (p * d) as real == (q as real) * (d as real) * y;
    PositiveScale(x, y, (q as real) * (d as real));
  }

  /** Multiplying by a positive number keeps the order. */
  lemma PositiveScale(x: real, y: real, c: real)
    requires c > 0.0
    ensures x >= y <==> c * x >= c * y
  {
  }

  lemma AreaCheck(img: Image, m: Box)
    requires ValidImage(img)
    ensures AreaRatio(img, m) >= MinAreaRatio <==>
      100 * ((m.x2 - m.x1) * (m.y2 - m.y1)) >= 3 * (Height(img) * Width(img))
  {
    assert Height(img) * Width(img) > 0 by {
      assert Height(img) >= 1 && Width(img) >= 1;
    }
    assert MinAreaRatio == 3 as real / 100 as real;
    RatioAtLeast((m.x2 - m.x1) * (m.y2 - m.y1), Height(img) * Width(img), 3, 100);
  }

  lemma AspectCheck(m: Box)
    requires m.y2 > m.y1
    ensures AspectMin <= Aspect(m) <==> 5 * (m.x2 - m.x1) >= 3 * (m.y2 - m.y1)
    ensures Aspect(m) <= AspectMax <==> 5 * (m.x2 - m.x1) <= 8 * (m.y2 - m.y1)
  {
    var bw, bh := m.x2 - m.x1, m.y2 - m.y1;
    assert AspectMin == 3 as real / 5 as real;
    RatioAtLeast(bw, bh, 3, 5);
    assert AspectMax == 8 as real / 5 as real;
    RatioAtLeast(8, 5, bw, bh);
  }

  /** The card is accepted exactly when, in integers, the box covers at
      least 3% of the frame and its width is between 3/5 and 8/5 of its
      height, both ends included. */
  lemma AcceptanceRule(img: Image, m: Box, debug: bool, draw: Drawer)
    requires ValidImage(img) && CropBox(m, img)
    ensures var bw, bh := m.x2 - m.x1, m.y2 - m.y1;
      Decide(img, m, debug, draw).Card().Some? <==>
      100 * (bw * bh) >= 3 * (Height(img) * Width(img)) && 3 * bh <= 5 * bw <= 8 * bh
  {
    AreaCheck(img, m);
    AspectCheck(m);
  }

  /** Both checks include their bounds: on a 20x20 frame a 4x3 box (exactly
      3% of the frame), a 3x5 box (aspect exactly 0.6) and an 8x5 box (aspect
      exactly 1.6) are accepted, while a 2x5 box (2.5%) and a 9x5 box
      (aspect 1.8) are not. */
  lemma BoundsIncluded(img: Image, draw: Drawer)
    requires ValidImage(img) && Height(img) == 20 && Width(img) == 20
    ensures Decide(img, Box(0, 0, 4, 3), false, draw).Card().Some?
    ensures Decide(img, Box(0, 0, 3, 5), false, draw).Card().Some?
    ensures Decide(img, Box(0, 0, 8, 5), false, draw).Card().Some?
    ensures Decide(img, Box(0, 0, 2, 5), false, draw).Card() == None
    ensures Decide(img, Box(0, 0, 9, 5), false, draw).Card() == None
  {
    AcceptanceRule(img, Box(0, 0, 4, 3), false, draw);
    AcceptanceRule(img, Box(0, 0, 3, 5), false, draw);
    AcceptanceRule(img, Box(0, 0, 8, 5), false, draw);
    AcceptanceRule(img, Box(0, 0, 2, 5), false, draw);
    AcceptanceRule(img, Box(0, 0, 9, 5), false, draw);
  }

  /** `debug` changes only an accepted result, which gains the annotated
      frame; the card and the ratio are the same either way, and a rejected
      frame gives the same pair. */
  lemma DebugOnlyAddsImage(img: Image, m: Box, draw: Drawer)
    requires ValidImage(img) && CropBox(m, img)
    ensures var plain, dbg := Decide(img, m, false, draw), Decide(img, m, true, draw);
      plain.Pair? && plain.Card() == dbg.Card() && plain.areaRatio == dbg.areaRatio &&
      (dbg.Card() == None ==> dbg == plain)
  {
  }

  /** An accepted card is the crop of the merged box, which spans every
      detected region. */
  lemma AcceptedCardSpansRegions(img: Image, regions: seq<Rect>, debug: bool, draw: Drawer)
    requires ValidImage(img) && regions != [] && RegionsInside(regions, img)
    ensures var m := Merge(CornerBoxes(regions));
      CropBox(m, img) &&
      (Decide(img, m, debug, draw).Card().Some? ==>
        |Decide(img, m, debug, draw).Card().value| == m.y2 - m.y1 &&
        forall k :: 0 <= k < |regions| ==> Within(CornerBox(regions[k]), m))
  {
    MergeInside(regions, img);
  }
}
