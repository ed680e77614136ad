/** main.cpp `parseDetectionsRobust`: turn one raw detection-head output
    into boxes in source-image pixels, confidences and class ids. The
    decisions it makes from shape and values alone (feature axis,
    objectness column, normalised coordinates, centre or corner boxes) are
    spelled out one function each. */
module Decoder {
  import opened Wrappers
  import opened Numeric
  import opened Seqs
  import opened Letterbox
  import opened Layout

  // ------------------------------------------------------------ inputs

  /** A network output `cv::Mat`: its sizes and its row-major data. */
  datatype Tensor = Tensor(shape: seq<nat>, data: seq<real>) {
    predicate Valid() {
      |data| == Product(shape)
    }
  }

  function Product(s: seq<nat>): nat {
    if s == [] then 1 else s[0] * Product(s[1..])
  }

  lemma ProductOfOne(s: seq<nat>)
    requires |s| == 1
    ensures Product(s) == s[0]
  {
    assert s[1..] == [];
  }

  lemma ProductOfTwo(s: seq<nat>)
    requires |s| == 2
    ensures Product(s) == s[0] * s[1]
  {
    ProductOfOne(s[1..]);
  }

  lemma ProductOfThree(s: seq<nat>)
    requires |s| == 3 && s[0] == 1
    ensures Product(s) == s[1] * s[2]
  {
    ProductOfTwo(s[1..]);
  }

  /** The decoder's arguments besides the tensor and the output vectors. */
  datatype Params = Params(
    confThr: real,
    imgW: int, imgH: int,
    scale: real, pad: Pad,
    inputW: int, inputH: int,
    expectedNumClasses: int)

  /** `cv::Rect`: integer corner and extent. */
  datatype Rect = Rect(x: int, y: int, width: int, height: int)

  /** One accepted row: what is pushed onto `boxes`, `scores`, `classIds`. */
  datatype Detection = Detection(box: Rect, score: real, classId: int)

  /** The three parallel output vectors. */
  datatype Detections = Detections(boxes: seq<Rect>, scores: seq<real>, classIds: seq<int>)

  /** `CV_Assert(d0 == 1)` in `makeDetRowsNxC` throws for other leading sizes. */
  datatype DecodeError = LeadingDimensionNotOne

  const NoDetections := Detections([], [], [])

  // ------------------------------------------------------- objectness

  /** The fallback for an unknown class count: objectness is assumed once
      there are at least 4 box + 1 objectness + 80 class columns. */
  const FallbackObjectnessColumns: int := 80 + 5

  /** `hasObj`: an objectness column exists when `C - 5` is the expected
      class count, not when `C - 4` is, and otherwise when `C >= 85`. */
  function HasObjectness(c: int, expected: int): (hasObj: bool)
    ensures c - 5 == expected ==> hasObj
    ensures c - 4 == expected ==> !hasObj
    ensures c - 5 != expected && c - 4 != expected ==> (hasObj <==> c >= 85)
  {
    if c - 5 == expected then true
    else if c - 4 == expected then false
    else c >= FallbackObjectnessColumns
  }

  /** `clsStart`: the first class-score column. */
  function ClassStart(hasObj: bool): (start: nat)
    ensures start == 5 <==> hasObj
    ensures start == 4 <==> !hasObj
  {
    if hasObj then 5 else 4
  }

  /** When the expected class count matches one of the two layouts, the
      class-score columns are exactly that many. */
  lemma ClassColumnsMatchExpected(c: int, expected: int)
    requires expected == c - 5 || expected == c - 4
    ensures c - ClassStart(HasObjectness(c, expected)) == expected
  {
  }

  /** With a class count that fits neither layout, only the column count
      decides: 84 columns (4 + 80) read as having no objectness, 85 as
      having one. */
  lemma FallbackObjectness(c: int, expected: int)
    requires expected != c - 5 && expected != c - 4
    ensures HasObjectness(c, expected) <==> c >= 85
    ensures c == 84 ==> !HasObjectness(c, expected)
  {
  }

  // ---------------------------------------------------- normalisation

  /** How many values of `xs` are at most `bound`, one at a time. */
  function CountAtMost(xs: seq<real>, bound: real): (n: nat)
    ensures n <= |xs|
  {
    if xs == [] then 0 else (if xs[0] <= bound then 1 else 0) + CountAtMost(xs[1..], bound)
  }

  /** `smallCnt`: how many of the first four values are at most 1.5. */
  function SmallCount(p0: seq<real>): (n: nat)
    requires |p0| >= 4
    ensures n == CountAtMost(p0[..4], 1.5)
  {
    var q := p0[..4];
    assert q[1..][1..][1..][1..] == [];
    assert CountAtMost(q[1..][1..][1..], 1.5) == (if p0[3] <= 1.5 then 1 else 0);
    assert CountAtMost(q[1..][1..], 1.5) == (if p0[2] <= 1.5 then 1 else 0) + (if p0[3] <= 1.5 then 1 else 0);
    (if p0[0] <= 1.5 then 1 else 0) + (if p0[1] <= 1.5 then 1 else 0)
    + (if p0[2] <= 1.5 then 1 else 0) + (if p0[3] <= 1.5 then 1 else 0)
  }

  /** The global guess, taken from the first row only, that box values are
      fractions of the network input size. */
  predicate LooksNormalized(p0: seq<real>)
    requires |p0| >= 4
    ensures LooksNormalized(p0) <==>
              !((p0[0] > 1.5 && p0[1] > 1.5) || (p0[0] > 1.5 && p0[2] > 1.5) || (p0[0] > 1.5 && p0[3] > 1.5) ||
                (p0[1] > 1.5 && p0[2] > 1.5) || (p0[1] > 1.5 && p0[3] > 1.5) || (p0[2] > 1.5 && p0[3] > 1.5))
  {
    SmallCount(p0) >= 3
  }

  /** Every one of the first four values, except possibly the `j`-th, is
      at most 1.5. */
  predicate SmallExcept(p0: seq<real>, j: int)
    requires |p0| >= 4
  {
    && (j == 0 || p0[0] <= 1.5) && (j == 1 || p0[1] <= 1.5)
    && (j == 2 || p0[2] <= 1.5) && (j == 3 || p0[3] <= 1.5)
  }

  /** The guess holds exactly when at most one of the four values exceeds 1.5. */
  lemma LooksNormalizedIff(p0: seq<real>)
    requires |p0| >= 4
    ensures LooksNormalized(p0) <==> exists j :: 0 <= j < 4 && SmallExcept(p0, j)
  {
    if LooksNormalized(p0) {
      var j := if p0[0] > 1.5 then 0 else if p0[1] > 1.5 then 1 else if p0[2] > 1.5 then 2 else 3;
      assert SmallExcept(p0, j);
    }
  }

  // --------------------------------------------------------- box values

  /** `b0..b3`: the first four values, multiplied by the input width (x
      values) and height (y values) when the tensor looks normalised. */
  datatype Quad = Quad(b0: real, b1: real, b2: real, b3: real)

  function BoxValues(p: seq<real>, normalized: bool, inputW: int, inputH: int): (q: Quad)
    requires |p| >= 4
    ensures !normalized ==> q == Quad(p[0], p[1], p[2], p[3])
    ensures normalized ==> q.b0 == p[0] * inputW as real && q.b2 == p[2] * inputW as real
    ensures normalized ==> q.b1 == p[1] * inputH as real && q.b3 == p[3] * inputH as real
  {
    if normalized then
      Quad(p[0] * inputW as real, p[1] * inputH as real, p[2] * inputW as real, p[3] * inputH as real)
    else Quad(p[0], p[1], p[2], p[3])
  }

  /** `toBox(..., true)`: centre x, centre y, width, height. */
  function CentreForm(q: Quad): (r: Rect2f)
    ensures r.x + r.width / 2.0 == q.b0 && r.y + r.height / 2.0 == q.b1
    ensures r.width == q.b2 && r.height == q.b3
  {
    Rect2f(q.b0 - q.b2 / 2.0, q.b1 - q.b3 / 2.0, q.b2, q.b3)
  }

  /** `toBox(..., false)`: two opposite corners. */
  function CornerForm(q: Quad): (r: Rect2f)
    ensures r.x == q.b0 && r.y == q.b1
    ensures r.x + r.width == q.b2 && r.y + r.height == q.b3
  {
    Rect2f(q.b0, q.b1, q.b2 - q.b0, q.b3 - q.b1)
  }

  /** The `valid` lambda: more than one unit wide and high, and reaching
      past the first unit of the canvas. */
  predicate Plausible(r: Rect2f) {
    r.width > 1.0 && r.height > 1.0 && r.x + r.width > 1.0 && r.y + r.height > 1.0
  }

  /** The centre reading passes `valid` exactly when its size exceeds one
      unit each way and its centre lies more than half its size past the
      first unit. */
  lemma PlausibleCentre(q: Quad)
    ensures Plausible(CentreForm(q)) <==>
              q.b2 > 1.0 && q.b3 > 1.0 && q.b0 + q.b2 / 2.0 > 1.0 && q.b1 + q.b3 / 2.0 > 1.0
  {
  }

  /** The centre reading wins whenever it is plausible; the corner reading
      is taken otherwise, without a check of its own. */
  function ChooseBox(q: Quad): (r: Rect2f)
    ensures Plausible(r) || r == CornerForm(q)
    ensures r == CentreForm(q) || r == CornerForm(q)
    ensures r == CornerForm(q) && r != CentreForm(q) ==> !Plausible(CentreForm(q))
  {
    if Plausible(CentreForm(q)) then CentreForm(q) else CornerForm(q)
  }

  // ---------------------------------------------------------- classes

  /** Column scan state: `cls` relative to the first class column, and its score. */
  datatype ClassPick = ClassPick(cls: int, score: real)

  /** The lowest class column holding the largest positive score, or
      `(-1, 0)` when no score is positive. */
  predicate IsBestClass(p: seq<real>, start: nat, end: nat, pick: ClassPick)
    requires start <= end <= |p|
  {
    || (pick == ClassPick(-1, 0.0) && forall c :: start <= c < end ==> p[c] <= 0.0)
    || (&& 0 <= pick.cls < end - start
        && pick.score == p[start + pick.cls] && pick.score > 0.0
        && (forall c :: start <= c < end ==> p[c] <= pick.score)
        && (forall c :: start <= c < start + pick.cls ==> p[c] < pick.score))
  }

  /** The class loop over columns `[start, end)`: a column replaces the
      current pick only with a strictly greater score. */
  function ScanClasses(p: seq<real>, start: nat, end: nat): (pick: ClassPick)
    requires start <= end <= |p|
    ensures IsBestClass(p, start, end, pick)
    decreases end - start
  {
    if end == start then ClassPick(-1, 0.0)
    else
      var prev := ScanClasses(p, start, end - 1);
      if p[end - 1] > prev.score then ClassPick(end - 1 - start, p[end - 1]) else prev
  }

  /** `conf = obj * clsScore`, where `obj` is the objectness column, or 1
      when there is none: so without an objectness column it is the largest
      class score, or 0 when none is positive. */
  function Confidence(p: seq<real>, hasObj: bool): (conf: real)
    requires |p| >= 5
    ensures hasObj ==> conf == p[4] * ScanClasses(p, 5, |p|).score
    ensures !hasObj ==> TopScore(p, 4, conf)
  {
    if hasObj then p[4] * ScanClasses(p, 5, |p|).score
    else
      BestScore(p, 4, |p|);
      ScanClasses(p, 4, |p|).score
  }

  /** `s` is the largest of the scores from column `start` on, or 0 when
      none is positive. */
  predicate TopScore(p: seq<real>, start: nat, s: real)
    requires start <= |p|
  {
    && s >= 0.0
    && (forall k :: start <= k < |p| ==> p[k] <= s)
    && (s == 0.0 || exists k :: start <= k < |p| && p[k] == s)
  }

  /** A row without a positive class score has confidence 0, whatever its
      objectness. */
  lemma NoClassNoConfidence(p: seq<real>, hasObj: bool)
    requires |p| >= 5
    requires forall k :: ClassStart(hasObj) <= k < |p| ==> p[k] <= 0.0
    ensures Confidence(p, hasObj) == 0.0
  {
    if hasObj {
      BestScore(p, 5, |p|);
      TimesZero(p[4], ScanClasses(p, 5, |p|).score);
    } else {
      BestScore(p, 4, |p|);
    }
  }

  lemma TimesZero(a: real, b: real)
    requires b == 0.0
    ensures a * b == 0.0
  {
  }

  /** The scanned score is the top score. */
  lemma BestScore(p: seq<real>, start: nat, end: nat)
    requires start <= end == |p|
    ensures TopScore(p, start, ScanClasses(p, start, end).score)
    ensures (forall k :: start <= k < end ==> p[k] <= 0.0) ==> ScanClasses(p, start, end).score == 0.0
  {
    var pick := ScanClasses(p, start, end);
    if pick.score != 0.0 {
      assert p[start + pick.cls] == pick.score;
    }
  }

  // ---------------------------------------------------- image clamping

  /** A non-empty box wholly inside a `w`-by-`h` image. */
  predicate InImage(b: Rect, w: int, h: int) {
    && 0 <= b.x && 0 <= b.y
    && b.width >= 1 && b.height >= 1
    && b.x + b.width <= w && b.y + b.height <= h
  }

  /** Clamp the corner into the image, then the extent to the image edge.
      The box is moved, not cut: a box wholly left of the image ends up at
      column 0 with its width kept. */
  function ClampToImage(b: Rect, w: int, h: int): (r: Rect)
    ensures 0 <= r.x && 0 <= r.y && 0 <= r.width && 0 <= r.height
    ensures w >= 1 ==> r.x <= w - 1 && r.x + r.width <= w
    ensures h >= 1 ==> r.y <= h - 1 && r.y + r.height <= h
    ensures 0 <= b.x <= w - 1 ==> r.x == b.x
    ensures 0 <= b.y <= h - 1 ==> r.y == b.y
    ensures w >= 1 && b.x < 0 ==> r.x == 0
    ensures h >= 1 && b.y < 0 ==> r.y == 0
    ensures w >= 1 && b.x > w - 1 ==> r.x == w - 1
    ensures h >= 1 && b.y > h - 1 ==> r.y == h - 1
    ensures w >= 1 && b.width >= 0 ==> r.width == Min(b.width, w - r.x)
    ensures h >= 1 && b.height >= 0 ==> r.height == Min(b.height, h - r.y)
    ensures r.width > 0 <==> b.width > 0 && w >= 1
    ensures r.height > 0 <==> b.height > 0 && h >= 1
    ensures r.width <= b.width || r.width == 0
    ensures r.height <= b.height || r.height == 0
  {
    var x := Max(0, Min(b.x, w - 1));
    var y := Max(0, Min(b.y, h - 1));
    Rect(x, y, Max(0, Min(b.width, w - x)), Max(0, Min(b.height, h - y)))
  }

  /** Clamping leaves a box that is already inside the image alone ... */
  lemma ClampKeepsInside(b: Rect, w: int, h: int)
    requires InImage(b, w, h)
    ensures ClampToImage(b, w, h) == b
  {
  }

  /** A box sticking out on the left is moved in, not cut. */
  lemma ClampShiftsNotCuts()
    ensures ClampToImage(Rect(-50, 0, 100, 10), 640, 480) == Rect(0, 0, 100, 10)
  {
  }

  /** ... and is therefore idempotent. */
  lemma ClampIdempotent(b: Rect, w: int, h: int)
    ensures ClampToImage(ClampToImage(b, w, h), w, h) == ClampToImage(b, w, h)
  {
  }

  // ------------------------------------------------------- one row

  /** What the decoder fixes once per tensor before the row loop. */
  datatype RowContext = RowContext(hasObj: bool, normalized: bool, params: Params)

  /** The chosen box mapped back to source pixels and rounded to the
      nearest integer, halves away from zero, before the size check and the
      clamp. */
  function PixelBox(p: seq<real>, ctx: RowContext): (b: Rect)
    requires |p| >= 4 && ctx.params.scale != 0.0
    ensures var u := Unletterbox(ChooseBox(BoxValues(p, ctx.normalized, ctx.params.inputW, ctx.params.inputH)),
                                 ctx.params.scale, ctx.params.pad);
            && Abs(b.x as real - u.x) <= 0.5 && Abs(b.y as real - u.y) <= 0.5
            && Abs(b.width as real - u.width) <= 0.5 && Abs(b.height as real - u.height) <= 0.5
  ensures var u := Unletterbox(ChooseBox(BoxValues(p, ctx.normalized, ctx.params.inputW, ctx.params.inputH)),
                               ctx.params.scale, ctx.params.pad);
          && (b.x as real - u.x == 0.5 ==> u.x > 0.0) && (u.x - b.x as real == 0.5 ==> u.x < 0.0)
          && (b.y as real - u.y == 0.5 ==> u.y > 0.0) && (u.y - b.y as real == 0.5 ==> u.y < 0.0)
          && (b.width as real - u.width == 0.5 ==> u.width > 0.0) && (u.width - b.width as real == 0.5 ==> u.width < 0.0)
          && (b.height as real - u.height == 0.5 ==> u.height > 0.0) && (u.height - b.height as real == 0.5 ==> u.height < 0.0)
  {
    var q := BoxValues(p, ctx.normalized, ctx.params.inputW, ctx.params.inputH);
    var r := Unletterbox(ChooseBox(q), ctx.params.scale, ctx.params.pad);
    Rect(Round(r.x), Round(r.y), Round(r.width), Round(r.height))
  }

  /** The loop body for one candidate row: `None` is a `continue`. */
  function DecodeRow(p: seq<real>, ctx: RowContext): (r: Option<Detection>)
    requires |p| >= 6 && ctx.params.scale != 0.0
    ensures r.Some? ==> r.value.score >= ctx.params.confThr
    ensures r.Some? ==> r.value.score == Confidence(p, ctx.hasObj)
    ensures r.Some? ==> InImage(r.value.box, ctx.params.imgW, ctx.params.imgH)
    ensures r.Some? ==> r.value.box == ClampToImage(PixelBox(p, ctx), ctx.params.imgW, ctx.params.imgH)
    ensures r.Some? ==> r.value.classId == ScanClasses(p, ClassStart(ctx.hasObj), |p|).cls
    ensures r.Some? ==> -1 <= r.value.classId < |p| - ClassStart(ctx.hasObj)
    ensures Confidence(p, ctx.hasObj) < ctx.params.confThr ==> r.None?
  {
    var conf := Confidence(p, ctx.hasObj);
    if conf < ctx.params.confThr then None
    else
      var b := PixelBox(p, ctx);
      if b.width <= 1 || b.height <= 1 then None
      else
        var box := ClampToImage(b, ctx.params.imgW, ctx.params.imgH);
        if box.width * box.height <= 0 then None
        else
          assert box.width > 0 && box.height > 0 by { AreaPositiveIff(box.width, box.height); }
          Some(Detection(box, conf, ScanClasses(p, ClassStart(ctx.hasObj), |p|).cls))
  }

  /** A row yields a detection exactly when its confidence reaches the
      threshold, its rounded box is more than one pixel each way and the
      image is not empty; where the box lies does not matter, since the
      clamp moves it inside. */
  lemma DecodeRowEmitsIff(p: seq<real>, ctx: RowContext)
    requires |p| >= 6 && ctx.params.scale != 0.0
    ensures DecodeRow(p, ctx).Some? <==>
              && Confidence(p, ctx.hasObj) >= ctx.params.confThr
              && PixelBox(p, ctx).width > 1 && PixelBox(p, ctx).height > 1
              && ctx.params.imgW >= 1 && ctx.params.imgH >= 1
  {
    var b := PixelBox(p, ctx);
    var box := ClampToImage(b, ctx.params.imgW, ctx.params.imgH);
    AreaPositiveIff(box.width, box.height);
  }

  lemma AreaPositiveIff(w: int, h: int)
    requires w >= 0 && h >= 0
    ensures w * h > 0 <==> w > 0 && h > 0
  {
    if w > 0 && h > 0 {
      MulPositive(w, h);
    }
  }

  lemma MulPositive(w: int, h: int)
    requires w > 0 && h > 0
    ensures w * h > 0
  {
  }

  /** A detection whose rounded box already lies inside the image carries
      that box unchanged. */
  lemma DecodeRowKeepsInsideBox(p: seq<real>, ctx: RowContext)
    requires |p| >= 6 && ctx.params.scale != 0.0
    requires DecodeRow(p, ctx).Some?
    requires InImage(PixelBox(p, ctx), ctx.params.imgW, ctx.params.imgH)
    ensures DecodeRow(p, ctx).value.box == PixelBox(p, ctx)
  {
    ClampKeepsInside(PixelBox(p, ctx), ctx.params.imgW, ctx.params.imgH);
  }

  // ----------------------------------------------------- whole matrix

  /** The per-tensor decisions, from the column count and the first row. */
  function ContextOf(m: Matrix, params: Params): (ctx: RowContext)
    requires m.Valid() && m.rows > 0 && m.cols >= 4
    ensures ctx.params == params
    ensures ctx.hasObj <==> m.cols - 5 == params.expectedNumClasses
                            || (m.cols - 4 != params.expectedNumClasses && m.cols >= 85)
    ensures ctx.normalized <==> exists j :: 0 <= j < 4 && SmallExcept(m.cells[0], j)
  {
    LooksNormalizedIff(m.cells[0]);
    RowContext(HasObjectness(m.cols, params.expectedNumClasses), LooksNormalized(m.cells[0]), params)
  }

  /** Each row's outcome, in row order. */
  function RowOutcomes(m: Matrix, ctx: RowContext): (rs: seq<Option<Detection>>)
    requires m.Valid() && m.cols >= 6 && ctx.params.scale != 0.0
    ensures |rs| == m.rows
    ensures forall i :: 0 <= i < m.rows ==> rs[i] == DecodeRow(m.cells[i], ctx)
  {
    seq(m.rows, i requires 0 <= i < m.rows => DecodeRow(m.cells[i], ctx))
  }

  /** Split detections into the three parallel vectors. */
  function Unzip(ds: seq<Detection>): (d: Detections)
    ensures |d.boxes| == |ds| && |d.scores| == |ds| && |d.classIds| == |ds|
    ensures forall k :: 0 <= k < |ds| ==>
              ds[k] == Detection(d.boxes[k], d.scores[k], d.classIds[k])
  {
    Detections(seq(|ds|, k requires 0 <= k < |ds| => ds[k].box),
               seq(|ds|, k requires 0 <= k < |ds| => ds[k].score),
               seq(|ds|, k requires 0 <= k < |ds| => ds[k].classId))
  }

  /** The decoder on an N-by-C matrix: nothing when C < 6 or N = 0,
      otherwise the accepted rows in row order. */
  function DecodeMatrix(m: Matrix, params: Params): (d: Detections)
    requires m.Valid() && params.scale != 0.0
    ensures |d.boxes| == |d.scores| == |d.classIds| <= m.rows
    ensures m.cols < 6 || m.rows == 0 ==> d == NoDetections
    ensures forall k :: 0 <= k < |d.scores| ==> d.scores[k] >= params.confThr
    ensures forall k :: 0 <= k < |d.boxes| ==> InImage(d.boxes[k], params.imgW, params.imgH)
    ensures forall k :: 0 <= k < |d.classIds| ==> -1 <= d.classIds[k] < m.cols - 4
    ensures params.imgW < 1 || params.imgH < 1 ==> d == NoDetections
  {
    if m.cols < 6 || m.rows == 0 then NoDetections
    else
      var ctx := ContextOf(m, params);
      AcceptedRows(m, ctx);
      Unzip(Collect(RowOutcomes(m, ctx)))
  }

  /** Every collected detection is one that `DecodeRow` accepted. */
  lemma AcceptedRows(m: Matrix, ctx: RowContext)
    requires m.Valid() && m.cols >= 6 && ctx.params.scale != 0.0
    ensures forall k :: 0 <= k < |Collect(RowOutcomes(m, ctx))| ==>
              Accepted(Collect(RowOutcomes(m, ctx))[k], m.cols, ctx.params)
  {
    var rs := RowOutcomes(m, ctx);
    var ds := Collect(rs);
    var ks := Kept(rs);
    forall k | 0 <= k < |ds|
      ensures Accepted(ds[k], m.cols, ctx.params)
    {
      assert DecodeRow(m.cells[ks[k]], ctx) == Some(ds[k]);
    }
  }

  /** What `DecodeRow` promises of every detection it emits. */
  predicate Accepted(d: Detection, cols: int, params: Params) {
    && d.score >= params.confThr
    && InImage(d.box, params.imgW, params.imgH)
    && -1 <= d.classId < cols - 4
  }

  /** Output follows row order: entry `k` of the vectors is the detection of
      row `Kept(...)[k]`, those rows increase, and every row that yields a
      detection appears. */
  lemma DecodeMatrixFollowsRows(m: Matrix, params: Params)
    requires m.Valid() && params.scale != 0.0 && m.cols >= 6 && m.rows > 0
    ensures var d := DecodeMatrix(m, params);
            var ctx := ContextOf(m, params);
            var ks := Kept(RowOutcomes(m, ctx));
            && |ks| == |d.boxes|
            && (forall k, l :: 0 <= k < l < |ks| ==> ks[k] < ks[l])
            && (forall k :: 0 <= k < |ks| ==>
                  (ks[k] < m.rows &&
                   DecodeRow(m.cells[ks[k]], ctx) == Some(Detection(d.boxes[k], d.scores[k], d.classIds[k]))))
            && (forall i :: 0 <= i < m.rows && DecodeRow(m.cells[i], ctx).Some? ==> i in ks)
  {
    var ctx := ContextOf(m, params);
    var rs := RowOutcomes(m, ctx);
    forall i | 0 <= i < m.rows && DecodeRow(m.cells[i], ctx).Some?
      ensures i in Kept(rs)
    {
      KeptIsComplete(rs, i);
    }
  }

  // ------------------------------------------------------ whole tensor

  /** `parseDetectionsRobust`: rank 3 goes through the layout resolver,
      rank 2 is read as rows-by-columns, any other rank gives nothing. */
  function Decode(t: Tensor, params: Params): (r: Result<Detections, DecodeError>)
    requires t.Valid() && params.scale != 0.0
    ensures |t.shape| != 2 && |t.shape| != 3 ==> r == Success(NoDetections)
    ensures r.Failure? <==> |t.shape| == 3 && t.shape[0] != 1
    ensures r.Success? ==> |r.value.boxes| == |r.value.scores| == |r.value.classIds|
    ensures r.Success? ==> forall k :: 0 <= k < |r.value.scores| ==> r.value.scores[k] >= params.confThr
    ensures r.Success? ==> forall k :: 0 <= k < |r.value.boxes| ==>
              InImage(r.value.boxes[k], params.imgW, params.imgH)
  {
    if |t.shape| == 3 then
      if t.shape[0] != 1 then Failure(LeadingDimensionNotOne)
      else
        var l := ResolveLayout(t.shape[1], t.shape[2]);
        ProductOfThree(t.shape);
        Success(DecodeMatrix(Canonical(t.data, l), params))
    else if |t.shape| == 2 then
      ProductOfTwo(t.shape);
      Success(DecodeMatrix(RowMajor(t.data, t.shape[0], t.shape[1]), params))
    else Success(NoDetections)
  }

  /** Element `(0, a, b)` of a `(1, d1, d2)` tensor: `data[a * d2 + b]`. */
  function Element3(t: Tensor, a: nat, b: nat): real
    requires t.Valid() && |t.shape| == 3 && t.shape[0] == 1
    requires a < t.shape[1] && b < t.shape[2]
  {
    ProductOfThree(t.shape);
    IndexInBounds(a, b, t.shape[1], t.shape[2]);
    t.data[a * t.shape[2] + b]
  }

  /** Element `(i, j)` of a rank-2 tensor: `data[i * cols + j]`. */
  function Element2(t: Tensor, i: nat, j: nat): real
    requires t.Valid() && |t.shape| == 2 && i < t.shape[0] && j < t.shape[1]
  {
    ProductOfTwo(t.shape);
    IndexInBounds(i, j, t.shape[0], t.shape[1]);
    t.data[i * t.shape[1] + j]
  }

  /** `m` lists the candidates of a `(1, d1, d2)` tensor one per row:
      feature `j` of candidate `i` is element `(0, j, i)` when the features
      run along the first axis and `(0, i, j)` when they run along the
      second. */
  predicate CandidateRows3(t: Tensor, m: Matrix)
    requires t.Valid() && |t.shape| == 3 && t.shape[0] == 1
  {
    var l := ResolveLayout(t.shape[1], t.shape[2]);
    && m.Valid() && m.rows == l.count && m.cols == l.channels
    && forall i, j :: 0 <= i < m.rows && 0 <= j < m.cols ==>
         m.At(i, j) == (if l.orientation == ChannelsFirst then Element3(t, j, i) else Element3(t, i, j))
  }

  /** `m` is a rank-2 tensor read as it is: one candidate per row. */
  predicate CandidateRows2(t: Tensor, m: Matrix)
    requires t.Valid() && |t.shape| == 2
  {
    && m.Valid() && m.rows == t.shape[0] && m.cols == t.shape[1]
    && forall i, j :: 0 <= i < m.rows && 0 <= j < m.cols ==> m.At(i, j) == Element2(t, i, j)
  }

  /** Two matrices with the same size and entries are the same matrix. */
  lemma SameMatrix(m: Matrix, c: Matrix)
    requires m.Valid() && c.Valid() && m.rows == c.rows && m.cols == c.cols
    requires forall i, j :: 0 <= i < m.rows && 0 <= j < m.cols ==> m.At(i, j) == c.At(i, j)
    ensures m == c
  {
    forall i | 0 <= i < m.rows
      ensures m.cells[i] == c.cells[i]
    {
      assert forall j :: 0 <= j < m.cols ==> m.cells[i][j] == m.At(i, j) == c.At(i, j) == c.cells[i][j];
    }
  }

  /** A rank-3 output with leading size 1 decodes as its candidate rows
      do: `N` is the resolved candidate axis and `C` the feature axis, so
      `C < 6` or `N = 0` gives nothing, there are at most `N` detections,
      and `DecodeMatrixFollowsRows` applies to `m`. */
  lemma DecodeFollowsTensor(t: Tensor, params: Params, m: Matrix)
    requires t.Valid() && params.scale != 0.0 && |t.shape| == 3 && t.shape[0] == 1
    requires CandidateRows3(t, m)
    ensures Decode(t, params) == Success(DecodeMatrix(m, params))
    ensures m.cols < 6 || m.rows == 0 ==> Decode(t, params) == Success(NoDetections)
    ensures |Decode(t, params).value.boxes| <= m.rows
  {
    var l := ResolveLayout(t.shape[1], t.shape[2]);
    ProductOfThree(t.shape);
    var c := Canonical(t.data, l);
    forall i, j | 0 <= i < m.rows && 0 <= j < m.cols
      ensures m.At(i, j) == c.At(i, j)
    {
    }
    SameMatrix(m, c);
  }

  /** A rank-2 output decodes as its rows do. */
  lemma DecodeFollowsRank2(t: Tensor, params: Params, m: Matrix)
    requires t.Valid() && params.scale != 0.0 && |t.shape| == 2
    requires CandidateRows2(t, m)
    ensures Decode(t, params) == Success(DecodeMatrix(m, params))
    ensures m.cols < 6 || m.rows == 0 ==> Decode(t, params) == Success(NoDetections)
    ensures |Decode(t, params).value.boxes| <= m.rows
  {
    ProductOfTwo(t.shape);
    var c := RowMajor(t.data, t.shape[0], t.shape[1]);
    SameMatrix(m, c);
  }
}
