/**
 * `detect_pool`: from a frame to the blob that is reported. Blur, contour tracing, contour area and enclosing circle
 * are parameters (`Vision`); a contour stands for the region it bounds.
 */
module Detection {
  import opened Common
  import opened Configuration
  import opened Morphology

  datatype Image = Image(width: nat, height: nat, value: Pixel -> int)

  datatype Circle = Circle(x: real, y: real, radius: real)

  datatype Vision = Vision(
    blur: (Image, int) -> Image,
    contours: Mask -> seq<Mask>,
    area: Mask -> real,
    circle: Mask -> Circle)

  /** What the two reads of one file return. */
  datatype Shot = Shot(gray: Option<Image>, color: Option<Image>) {
    predicate Loaded() { gray.Some? && color.Some? }
  }

  datatype Detection = Detection(found: bool, circle: Circle)

  const NO_DETECTION := Detection(false, Circle(0.0, 0.0, 0.0))

  /** A file in annotated/: the frame as it came, or with the circle drawn on it. */
  datatype Picture = Raw(frame: Image) | Circled(frame: Image, circle: Circle)

  /** Threshold: the pixels brighter than t. */
  function Bright(image: Image, t: int): Mask {
    set x, y | 0 <= x < image.width && 0 <= y < image.height && image.value(Pixel(x, y)) > t :: Pixel(x, y)
  }

  function Cleaned(v: Vision, s: Settings, gray: Image): Mask {
    var blurred := v.blur(gray, s.blurKernel);
    CleanUp(Frame(blurred.width, blurred.height), s.morphKernel, Bright(blurred, s.threshold))
  }

  function Contours(v: Vision, s: Settings, gray: Image): seq<Mask> { v.contours(Cleaned(v, s, gray)) }

  // ---------- the largest blob ----------

  function Areas(area: Mask -> real, contours: seq<Mask>): (r: seq<real>)
    ensures |r| == |contours| && forall i | 0 <= i < |r| :: r[i] == area(contours[i])
  {
    seq(|contours|, i requires 0 <= i < |contours| => area(contours[i]))
  }

  /** Index of what max() returns: the first among the largest. */
  function FirstMax(areas: seq<real>): (i: nat)
    requires areas != []
    ensures IsFirstMax(areas, i)
  {
    var n := |areas| - 1;
    if n == 0 then 0
    else
      var i := FirstMax(areas[..n]);
      if areas[n] > areas[i] then n else i
  }

  predicate IsFirstMax(areas: seq<real>, i: nat) {
    && i < |areas|
    && (forall j | 0 <= j < |areas| :: areas[j] <= areas[i])
    && (forall j | 0 <= j < i :: areas[j] < areas[i])
  }

  /** The overall largest blob, provided it is large enough. */
  function Largest(area: Mask -> real, contours: seq<Mask>, minArea: real): Option<Mask> {
    if contours == [] then None
    else
      var best := contours[FirstMax(Areas(area, contours))];
      if area(best) < minArea then None else Some(best)
  }

  /** Steps 6 and 7: drop the small ones, then take the maximum of the rest. It is the overall maximum, tested. */
  method LargestContour(area: Mask -> real, contours: seq<Mask>, minArea: real) returns (best: Option<Mask>)
    ensures best == Largest(area, contours, minArea)
    ensures best.None? <==> forall i | 0 <= i < |contours| :: area(contours[i]) < minArea
    ensures best.Some? ==> exists i: nat :: IsFirstMax(Areas(area, contours), i) && best.value == contours[i]
  {
    var valid: seq<(real, Mask)> := [];
    ghost var from: seq<nat> := [];  // where in the list the valid ones come from
    for i := 0 to |contours|
      invariant |from| == |valid|
      invariant forall k | 0 <= k < |from| :: from[k] < i && valid[k] == (area(contours[from[k]]), contours[from[k]])
      invariant forall k | 0 <= k < |from| :: minArea <= area(contours[from[k]])
      invariant forall k, l | 0 <= k < l < |from| :: from[k] < from[l]
      invariant forall j | 0 <= j < i && minArea <= area(contours[j]) :: j in from
    {
      var a := area(contours[i]);
      if a < minArea {
        continue;
      }
      valid := valid + [(a, contours[i])];
      from := from + [i];
    }
    if valid == [] {
      return None;
    }
    var sizes := seq(|valid|, k requires 0 <= k < |valid| => valid[k].0);
    var m := FirstMax(sizes);
    FilterKeepsFirstMax(Areas(area, contours), minArea, from, sizes, m);
    FirstMaxUnique(Areas(area, contours), from[m], FirstMax(Areas(area, contours)));
    best := Some(valid[m].1);
  }

  lemma FilterKeepsFirstMax(areas: seq<real>, minArea: real, from: seq<nat>, sizes: seq<real>, m: nat)
    requires |from| == |sizes|
    requires forall k | 0 <= k < |from| :: from[k] < |areas| && sizes[k] == areas[from[k]] >= minArea
    requires forall k, l | 0 <= k < l < |from| :: from[k] < from[l]
    requires forall j | 0 <= j < |areas| && minArea <= areas[j] :: j in from
    requires IsFirstMax(sizes, m)
    ensures IsFirstMax(areas, from[m])
  {
    forall j: nat | j < |areas| ensures areas[j] <= areas[from[m]] && (j < from[m] ==> areas[j] < areas[from[m]]) {
      if minArea <= areas[j] {
        var k :| 0 <= k < |from| && from[k] == j;
        assert sizes[k] <= sizes[m];
        if j < from[m] { assert k < m; }
      }
    }
  }

  lemma FirstMaxUnique(areas: seq<real>, i: nat, j: nat)
    requires IsFirstMax(areas, i) && IsFirstMax(areas, j)
    ensures i == j
  {
    assert areas[i] == areas[j];
  }

  /** Raising the minimum keeps the blob as long as it is large enough, and otherwise finds none; it picks no other. */
  lemma RaisingMinimum(area: Mask -> real, contours: seq<Mask>, low: real, high: real)
    requires low <= high
    ensures Largest(area, contours, high) ==
      match Largest(area, contours, low)
      case None => None
      case Some(blob) => if area(blob) < high then None else Some(blob)
  {
  }

  // ---------- connected regions ----------

  predicate Neighbours(p: Pixel, q: Pixel) { -1 <= p.x - q.x <= 1 && -1 <= p.y - q.y <= 1 }

  ghost predicate Path(m: Mask, path: seq<Pixel>, p: Pixel, q: Pixel) {
    && path != [] && path[0] == p && path[|path| - 1] == q
    && (forall i | 0 <= i < |path| :: path[i] in m)
    && (forall i | 0 <= i < |path| - 1 :: Neighbours(path[i], path[i + 1]))
  }

  ghost predicate Connected(m: Mask, p: Pixel, q: Pixel) { exists path :: Path(m, path, p, q) }

  /** The white region of p. */
  ghost function Component(m: Mask, p: Pixel): Mask { set q | q in m && Connected(m, p, q) }

  /** A region of a smaller mask lies inside one region of the larger mask. */
  lemma ComponentGrows(m: Mask, n: Mask, p: Pixel)
    requires m <= n
    ensures Component(m, p) <= Component(n, p)
  {
    forall q | q in Component(m, p) ensures q in Component(n, p) {
      var path :| Path(m, path, p, q);
      assert Path(n, path, p, q);
    }
  }

  ghost predicate IsRegion(m: Mask, c: Mask) { exists p | p in m :: c == Component(m, p) }

  /** Some external contour of m has at least this area. */
  ghost predicate Reaches(v: Vision, m: Mask, area: real) {
    exists i | 0 <= i < |v.contours(m)| :: v.area(v.contours(m)[i]) >= area
  }

  /**
   * Assumed of the library: the area does not shrink when a region grows; every external contour bounds a white region;
   * and every white region is bounded by, or lies within, an external contour of at least its area.
   */
  ghost predicate Faithful(v: Vision) {
    && (forall a: Mask, b: Mask | a <= b :: v.area(a) <= v.area(b))
    && (forall m: Mask, i | 0 <= i < |v.contours(m)| :: IsRegion(m, v.contours(m)[i]))
    && (forall m: Mask, p: Pixel | p in m :: Reaches(v, m, v.area(Component(m, p))))
  }

  /** The regions of the pixels in rest. */
  ghost function Regions(m: Mask, rest: set<Pixel>): seq<Mask> {
    if rest == {} then [] else var p :| p in rest; [Component(m, p)] + Regions(m, rest - {p})
  }

  lemma {:induction false} RegionsCover(m: Mask, rest: set<Pixel>)
    requires rest <= m
    ensures forall i | 0 <= i < |Regions(m, rest)| :: IsRegion(m, Regions(m, rest)[i])
    ensures forall p | p in rest :: Component(m, p) in Regions(m, rest)
    decreases rest
  {
    if rest == {} {
    } else {
      var p :| p in rest && Regions(m, rest) == [Component(m, p)] + Regions(m, rest - {p});
      RegionsCover(m, rest - {p});
    }
  }

  lemma {:induction false} SizeMonotone(a: Mask, b: Mask)
    requires a <= b
    ensures |a| <= |b|
  {
    assert b == a + (b - a);
  }

  /** The assumptions can be met: list every region, and count its pixels. */
  lemma FaithfulExists() returns (v: Vision)
    ensures Faithful(v)
  {
    v := Vision((image: Image, k: int) => image, (m: Mask) => Regions(m, m), (a: Mask) => |a| as real,
                (a: Mask) => Circle(0.0, 0.0, 0.0));
    forall a: Mask, b: Mask | a <= b ensures v.area(a) <= v.area(b) {
      SizeMonotone(a, b);
    }
    forall m: Mask, i | 0 <= i < |v.contours(m)| ensures IsRegion(m, v.contours(m)[i]) {
      RegionsCover(m, m);
    }
    forall m: Mask, p: Pixel | p in m ensures Reaches(v, m, v.area(Component(m, p))) {
      RegionsCover(m, m);
      var i :| 0 <= i < |v.contours(m)| && v.contours(m)[i] == Component(m, p);
    }
  }

  /** The blob that the settings select on a loaded frame. */
  function Blob(v: Vision, s: Settings, gray: Image): Option<Mask> {
    Largest(v.area, Contours(v, s, gray), s.minArea as real)
  }

  lemma BlobIff(v: Vision, s: Settings, gray: Image)
    ensures Blob(v, s, gray).Some? <==> Reaches(v, Cleaned(v, s, gray), s.minArea as real)
  {
    var contours := Contours(v, s, gray);
    if contours != [] {
      var areas := Areas(v.area, contours);
      assert areas[FirstMax(areas)] == v.area(contours[FirstMax(areas)]);
      assert forall i | 0 <= i < |contours| :: areas[i] <= areas[FirstMax(areas)];
    }
  }

  lemma CleanedShrinks(v: Vision, s: Settings, t: int, gray: Image)
    requires s.threshold <= t
    ensures Cleaned(v, s.(threshold := t), gray) <= Cleaned(v, s, gray)
  {
    var blurred := v.blur(gray, s.blurKernel);
    var grid := Frame(blurred.width, blurred.height);
    CleanUpMonotone(grid, s.morphKernel, Bright(blurred, t), Bright(blurred, s.threshold));
  }

  /**
   * Lowering the threshold never loses the pool: detected at t, it is detected at every threshold below, whatever the
   * frame, the blur and the kernel.
   */
  lemma LoweringThresholdKeepsPool(v: Vision, s: Settings, t: int, gray: Image)
    requires Faithful(v) && s.threshold <= t
    requires Blob(v, s.(threshold := t), gray).Some?
    ensures Blob(v, s, gray).Some?
  {
    BlobIff(v, s.(threshold := t), gray);
    CleanedShrinks(v, s, t, gray);
    LargeRegionStays(v, Cleaned(v, s.(threshold := t), gray), Cleaned(v, s, gray), s.minArea as real);
    BlobIff(v, s, gray);
  }

  lemma LargeRegionStays(v: Vision, m: Mask, n: Mask, minArea: real)
    requires Faithful(v) && m <= n && Reaches(v, m, minArea)
    ensures Reaches(v, n, minArea)
  {
    var i :| 0 <= i < |v.contours(m)| && v.area(v.contours(m)[i]) >= minArea;
    assert IsRegion(m, v.contours(m)[i]);
    var p :| p in m && v.contours(m)[i] == Component(m, p);
    ComponentGrows(m, n, p);
    assert v.area(Component(m, p)) <= v.area(Component(n, p));
    assert Reaches(v, n, v.area(Component(n, p)));
  }

  ghost predicate EightBit(image: Image) { forall p :: image.value(p) <= 255 }

  lemma NothingAbove255(v: Vision, s: Settings, gray: Image)
    requires Faithful(v) && EightBit(v.blur(gray, s.blurKernel)) && s.threshold >= 255
    ensures Blob(v, s, gray) == None
  {
    assert Bright(v.blur(gray, s.blurKernel), s.threshold) == {};
    assert Cleaned(v, s, gray) == {};
    BlobIff(v, s, gray);
  }

  predicate FoundAt(v: Vision, s: Settings, gray: Image, t: int) { Blob(v, s.(threshold := t), gray).Some? }

  lemma FoundBelow(v: Vision, s: Settings, gray: Image, t: int, low: int)
    requires Faithful(v) && low <= t && FoundAt(v, s, gray, t)
    ensures FoundAt(v, s, gray, low)
  {
    assert s.(threshold := low).(threshold := t) == s.(threshold := t);
    LoweringThresholdKeepsPool(v, s.(threshold := low), t, gray);
  }

  lemma NotFoundAt255(v: Vision, s: Settings, gray: Image)
    requires Faithful(v) && EightBit(v.blur(gray, s.blurKernel))
    ensures !FoundAt(v, s, gray, 255)
  {
    NothingAbove255(v, s.(threshold := 255), gray);
  }

  /** A property that passes to smaller numbers and fails at `bound` holds exactly below some number. */
  lemma Cutoff(f: nat -> bool, bound: nat) returns (critical: nat)
    requires !f(bound) && forall t: nat, low: nat | low <= t && f(t) :: f(low)
    ensures critical <= bound && forall t: nat :: f(t) <==> t < critical
  {
    critical := 0;
    while f(critical)
      invariant critical <= bound && forall t: nat | t < critical :: f(t)
      decreases bound - critical
    {
      critical := critical + 1;
    }
  }

  /** Every frame has one critical threshold: the pool is found below it and not found from it on. */
  lemma CriticalThreshold(v: Vision, s: Settings, gray: Image) returns (critical: nat)
    requires Faithful(v) && EightBit(v.blur(gray, s.blurKernel))
    ensures critical <= 255
    ensures forall t: nat :: FoundAt(v, s, gray, t) <==> t < critical
  {
    NotFoundAt255(v, s, gray);
    var f := (t: nat) => FoundAt(v, s, gray, t);
    forall t: nat, low: nat | low <= t && f(t) ensures f(low) {
      FoundBelow(v, s, gray, t, low);
    }
    critical := Cutoff(f, 255);
    assert forall t: nat :: FoundAt(v, s, gray, t) <==> f(t);
  }

  // ---------- the verdict on one frame ----------

  /** What detect_pool returns. */
  function Verdict(v: Vision, s: Settings, shot: Shot): Detection {
    if !shot.Loaded() then NO_DETECTION
    else
      match Blob(v, s, shot.gray.value)
      case None => NO_DETECTION
      case Some(blob) => Detection(true, v.circle(blob))
  }

  /** What it leaves in annotated/: one picture on each of its three exits after loading, none on the exit before. */
  function Annotation(v: Vision, s: Settings, shot: Shot): Option<Picture> {
    if !shot.Loaded() then None
    else
      match Blob(v, s, shot.gray.value)
      case None => Some(Raw(shot.color.value))
      case Some(blob) => Some(Circled(shot.color.value, v.circle(blob)))
  }

  /**
   * A pool is reported exactly for a frame that loads and has an external contour of at least the minimum area. The
   * circle is then that of the earliest contour of overall largest area; otherwise everything reported is zero.
   */
  lemma ReportedIff(v: Vision, s: Settings, shot: Shot)
    ensures Verdict(v, s, shot).found <==>
      shot.Loaded() && Reaches(v, Cleaned(v, s, shot.gray.value), s.minArea as real)
    ensures Verdict(v, s, shot).found ==>
      var contours := Contours(v, s, shot.gray.value);
      exists i: nat :: IsFirstMax(Areas(v.area, contours), i) && Verdict(v, s, shot).circle == v.circle(contours[i])
    ensures !Verdict(v, s, shot).found ==> Verdict(v, s, shot).circle == Circle(0.0, 0.0, 0.0)
  {
    if shot.Loaded() {
      BlobIff(v, s, shot.gray.value);
      var contours := Contours(v, s, shot.gray.value);
      if contours != [] {
        assert IsFirstMax(Areas(v.area, contours), FirstMax(Areas(v.area, contours)));
      }
    }
  }

  /**
   * The picture of a loaded shot: the colour frame, as it came if no contour has the minimum area, otherwise with the
   * circle of the earliest contour of overall largest area.
   */
  ghost predicate IsPictureOf(v: Vision, s: Settings, shot: Shot, picture: Picture) {
    && shot.Loaded() && picture.frame == shot.color.value
    && (picture.Circled? <==> Reaches(v, Cleaned(v, s, shot.gray.value), s.minArea as real))
    && (picture.Circled? ==>
          var contours := Contours(v, s, shot.gray.value);
          exists i: nat :: IsFirstMax(Areas(v.area, contours), i) && picture.circle == v.circle(contours[i]))
  }

  lemma AnnotationIs(v: Vision, s: Settings, shot: Shot)
    ensures Annotation(v, s, shot).Some? <==> shot.Loaded()
    ensures shot.Loaded() ==> IsPictureOf(v, s, shot, Annotation(v, s, shot).value)
  {
    ReportedIff(v, s, shot);
  }

  // ---------- from brightness to the verdict ----------

  /** The mask consists of the pixels of the image that are brighter than t. */
  ghost predicate BrighterThan(image: Image, t: int, a: Mask) {
    forall p :: p in a <==> 0 <= p.x < image.width && 0 <= p.y < image.height && image.value(p) > t
  }

  lemma BrightIs(image: Image, t: int, a: Mask)
    ensures BrighterThan(image, t, a) <==> a == Bright(image, t)
  {
    forall p
      ensures p in Bright(image, t) <==> 0 <= p.x < image.width && 0 <= p.y < image.height && image.value(p) > t
    {
      assert p == Pixel(p.x, p.y);
    }
  }

  ghost predicate ClearOfBorder(image: Image, k: int, a: Mask) {
    Inside(Frame(image.width, image.height), 2 * (k / 2), 2 * (k / 2), a)
  }

  /**
   * Contours are traced on what the ideal clean-up makes of the bright pixels of the blurred frame, moved by two pixels
   * for an even kernel, whatever shape they have.
   */
  lemma MaskIsMoved(v: Vision, s: Settings, gray: Image, a: Mask)
    requires s.morphKernel >= 1
    requires BrighterThan(v.blur(gray, s.blurKernel), s.threshold, a)
    requires ClearOfBorder(v.blur(gray, s.blurKernel), s.morphKernel, a)
    ensures Contours(v, s, gray) ==
      v.contours(Shift(IdealCleanUp(Plane, s.morphKernel, a), 2 * Drift(s.morphKernel)))
  {
    var blurred := v.blur(gray, s.blurKernel);
    BrightIs(blurred, s.threshold, a);
    FrameDrifts(Frame(blurred.width, blurred.height), s.morphKernel, a);
  }

  /** A bright rectangle at least as large as the kernel reaches the contours with its size unchanged. */
  lemma RectangleMask(v: Vision, s: Settings, gray: Image, p: Pixel, width: nat, height: nat)
    requires 1 <= s.morphKernel <= width && s.morphKernel <= height
    requires BrighterThan(v.blur(gray, s.blurKernel), s.threshold, Rectangle(p, width, height))
    requires ClearOfBorder(v.blur(gray, s.blurKernel), s.morphKernel, Rectangle(p, width, height))
    ensures Contours(v, s, gray) == v.contours(Rectangle(Moved(s.morphKernel, p), width, height))
  {
    MaskIsMoved(v, s, gray, Rectangle(p, width, height));
    MovedRectangle(s.morphKernel, Rectangle(p, width, height), p, width, height);
  }

  /** Some pixel that the block sees around p is in the image and not brighter than t. */
  ghost predicate DarkNear(image: Image, t: int, k: int, p: Pixel) {
    exists b | b in Block(k) ::
      Frame(image.width, image.height).Has(Plus(p, b)) && image.value(Plus(p, b)) <= t
  }

  lemma DarkDoesNotFit(image: Image, t: int, k: int, p: Pixel)
    requires DarkNear(image, t, k, p)
    ensures !Fits(Frame(image.width, image.height), k, Bright(image, t), p)
  {
    BrightIs(image, t, Bright(image, t));
    var b :| b in Block(k) && Frame(image.width, image.height).Has(Plus(p, b)) && image.value(Plus(p, b)) <= t;
    assert Plus(p, b) !in Bright(image, t);
  }

  /** If the block finds a dark pixel wherever it is laid, nothing is left for the contours. */
  lemma SpecksVanish(v: Vision, s: Settings, gray: Image)
    requires var blurred := v.blur(gray, s.blurKernel);
      forall p | Frame(blurred.width, blurred.height).Has(p) :: DarkNear(blurred, s.threshold, s.morphKernel, p)
    ensures Contours(v, s, gray) == v.contours({})
  {
    var blurred := v.blur(gray, s.blurKernel);
    var g, a := Frame(blurred.width, blurred.height), Bright(blurred, s.threshold);
    forall p | p in a ensures !Fits(g, s.morphKernel, a, p) {
      assert g.Has(p);
      DarkDoesNotFit(blurred, s.threshold, s.morphKernel, p);
    }
    NothingLeft(g, s.morphKernel, a);
  }

  lemma NoRegion(c: Mask)
    ensures !IsRegion({}, c)
  {
  }

  lemma NoContours(v: Vision)
    requires Faithful(v)
    ensures v.contours({}) == []
  {
    var contours := v.contours({});
    if contours != [] { NoRegion(contours[0]); }
  }

  lemma NoPool(v: Vision, s: Settings, shot: Shot)
    requires Faithful(v) && shot.Loaded() && Contours(v, s, shot.gray.value) == v.contours({})
    ensures Verdict(v, s, shot) == Detection(false, Circle(0.0, 0.0, 0.0))
    ensures Annotation(v, s, shot) == Some(Raw(shot.color.value))
  {
    NoContours(v);
  }

  /** Noise is not reported: specks that the block does not fit into, however many, and in any place. */
  lemma SpecksNotReported(v: Vision, s: Settings, shot: Shot)
    requires Faithful(v) && shot.Loaded()
    requires var blurred := v.blur(shot.gray.value, s.blurKernel);
      forall p | Frame(blurred.width, blurred.height).Has(p) :: DarkNear(blurred, s.threshold, s.morphKernel, p)
    ensures Verdict(v, s, shot) == Detection(false, Circle(0.0, 0.0, 0.0))
    ensures Annotation(v, s, shot) == Some(Raw(shot.color.value))
  {
    SpecksVanish(v, s, shot.gray.value);
    NoPool(v, s, shot);
  }

  function Towards(from: int, to: int): int { if from < to then from + 1 else if from > to then from - 1 else from }

  function Distance(p: Pixel, q: Pixel): nat {
    (if p.x < q.x then q.x - p.x else p.x - q.x) + (if p.y < q.y then q.y - p.y else p.y - q.y)
  }

  /** A rectangle is one region. */
  lemma {:induction false} RectangleConnected(a: Mask, c: Pixel, width: int, height: int, p: Pixel, q: Pixel)
    returns (path: seq<Pixel>)
    requires IsRectangle(a, c, width, height) && p in a && q in a
    ensures Path(a, path, p, q)
    decreases Distance(p, q)
  {
    if p == q {
      path := [p];
    } else {
      var next := Pixel(Towards(p.x, q.x), Towards(p.y, q.y));
      var rest := RectangleConnected(a, c, width, height, next, q);
      path := [p] + rest;
    }
  }

  lemma RectangleRegion(a: Mask, c: Pixel, width: int, height: int, p: Pixel)
    requires IsRectangle(a, c, width, height) && p in a
    ensures Component(a, p) == a
  {
    forall q | q in a ensures Connected(a, p, q) {
      var path := RectangleConnected(a, c, width, height, p, q);
    }
  }

  lemma OnlyContour(v: Vision, a: Mask, c: Pixel, width: int, height: int)
    requires Faithful(v) && IsRectangle(a, c, width, height) && a != {}
    ensures v.contours(a) != [] && forall i | 0 <= i < |v.contours(a)| :: v.contours(a)[i] == a
  {
    var p :| p in a;
    RectangleRegion(a, c, width, height, p);
    assert Reaches(v, a, v.area(Component(a, p)));
    forall i | 0 <= i < |v.contours(a)| ensures v.contours(a)[i] == a {
      assert IsRegion(a, v.contours(a)[i]);
      var q :| q in a && v.contours(a)[i] == Component(a, q);
      RectangleRegion(a, c, width, height, q);
    }
  }

  /** All contours, if there are several, are the same blob. */
  lemma OneBlob(v: Vision, s: Settings, shot: Shot, blob: Mask)
    requires shot.Loaded() && Contours(v, s, shot.gray.value) != []
    requires forall i | 0 <= i < |Contours(v, s, shot.gray.value)| :: Contours(v, s, shot.gray.value)[i] == blob
    ensures Blob(v, s, shot.gray.value) == if v.area(blob) < s.minArea as real then None else Some(blob)
  {
  }

  /**
   * From brightness to the report: one bright rectangle at least as large as the kernel and clear of the border is
   * reported, if it has the minimum area, with the circle around it, two pixels off for an even kernel.
   */
  lemma RectangleReported(v: Vision, s: Settings, shot: Shot, p: Pixel, width: nat, height: nat)
    requires Faithful(v) && shot.Loaded()
    requires 1 <= s.morphKernel <= width && s.morphKernel <= height
    requires BrighterThan(v.blur(shot.gray.value, s.blurKernel), s.threshold, Rectangle(p, width, height))
    requires ClearOfBorder(v.blur(shot.gray.value, s.blurKernel), s.morphKernel, Rectangle(p, width, height))
    ensures var moved := Rectangle(Moved(s.morphKernel, p), width, height);
      if v.area(moved) >= s.minArea as real then
        && Verdict(v, s, shot) == Detection(true, v.circle(moved))
        && Annotation(v, s, shot) == Some(Circled(shot.color.value, v.circle(moved)))
      else
        && Verdict(v, s, shot) == Detection(false, Circle(0.0, 0.0, 0.0))
        && Annotation(v, s, shot) == Some(Raw(shot.color.value))
  {
    var corner := Moved(s.morphKernel, p);
    var moved := Rectangle(corner, width, height);
    RectangleMask(v, s, shot.gray.value, p, width, height);
    assert corner in moved;
    OnlyContour(v, moved, corner, width, height);
    OneBlob(v, s, shot, moved);
  }
}
