/** The arithmetic of main.cpp's `letterbox` (aspect-preserving resize into
    a fixed canvas, padded evenly) and of the decoder's `unletterbox`, which
    maps canvas coordinates back to the source image. */
module Letterbox {
  import opened Numeric

  /** `Vec4i pad` as `letterbox` fills it: left, top, right, bottom. */
  datatype Pad = Pad(left: int, top: int, right: int, bottom: int)

  /** What `letterbox` reports besides the canvas pixels. */
  datatype Geometry = Geometry(scale: real, resizedW: int, resizedH: int, pad: Pad)

  /** `cv::Rect2f`: a box with real corner and extent. */
  datatype Rect2f = Rect2f(x: real, y: real, width: real, height: real)

  /** `letterbox(img, newW, newH, pad, scale)` for a `w`-by-`h` image. */
  method Letterbox(w: int, h: int, newW: int, newH: int) returns (g: Geometry)
    requires w > 0 && h > 0 && newW > 0 && newH > 0
    ensures g.scale > 0.0
    ensures g.scale * w as real <= newW as real && g.scale * h as real <= newH as real
    ensures g.scale * w as real == newW as real || g.scale * h as real == newH as real
    ensures Abs(g.resizedW as real - g.scale * w as real) <= 0.5
    ensures Abs(g.resizedH as real - g.scale * h as real) <= 0.5
    ensures g.scale * w as real - g.resizedW as real < 0.5
    ensures g.scale * h as real - g.resizedH as real < 0.5
    ensures 0 <= g.resizedW <= newW && 0 <= g.resizedH <= newH
    ensures g.resizedW == newW || g.resizedH == newH
    ensures g.pad.left >= 0 && g.pad.top >= 0 && g.pad.right >= 0 && g.pad.bottom >= 0
    ensures g.pad.left + g.resizedW + g.pad.right == newW
    ensures g.pad.top + g.resizedH + g.pad.bottom == newH
    ensures 0 <= g.pad.right - g.pad.left <= 1 && 0 <= g.pad.bottom - g.pad.top <= 1
  {
    var r := FitScale(w, h, newW, newH);
    var nw := ResizedSide(r, w, newW);
    var nh := ResizedSide(r, h, newH);
    var across := Split(newW - nw);
    var down := Split(newH - nh);
    g := Geometry(r, nw, nh, Pad(across.0, down.0, across.1, down.1));
  }

  /** `min(newW / w, newH / h)`: the largest scale at which the image fits
      the target, filling it along one side. */
  method FitScale(w: int, h: int, newW: int, newH: int) returns (r: real)
    requires w > 0 && h > 0 && newW > 0 && newH > 0
    ensures 0.0 < r && r * w as real <= newW as real && r * h as real <= newH as real
    ensures r * w as real == newW as real || r * h as real == newH as real
  {
    r := MinReal(newW as real / w as real, newH as real / h as real);
    ScaleFits(w, newW, r);
    ScaleFits(h, newH, r);
    assert r * w as real == newW as real || r * h as real == newH as real by {
      if r == newW as real / w as real {
        ScaleFills(w, newW);
      } else {
        ScaleFills(h, newH);
      }
    }
  }

  /** One side of the resized image: `round(r * side)`, which fits the
      target when the scale does. A side exactly halfway between two
      integers rounds up, since it is positive. */
  method ResizedSide(r: real, side: int, target: int) returns (n: int)
    requires side > 0 && r > 0.0 && r * side as real <= target as real
    ensures 0 <= n <= target && Abs(n as real - r * side as real) <= 0.5
    ensures r * side as real - n as real < 0.5
    ensures r * side as real == target as real ==> n == target
  {
    RoundOfInt(target);
    RoundAtMost(r * side as real, target);
    n := Round(r * side as real);
  }

  /** `pad / 2` on the first side and the rest on the second. */
  method Split(slack: int) returns (p: (int, int))
    requires slack >= 0
    ensures p.0 >= 0 && p.1 >= 0 && p.0 + p.1 == slack
    ensures 0 <= p.1 - p.0 <= 1
  {
    var first := TruncDiv(slack, 2);
    p := (first, slack - first);
  }

  lemma ScaleFits(w: int, newW: int, r: real)
    requires w > 0 && r <= newW as real / w as real
    ensures r * w as real <= newW as real
  {
    assert (newW as real / w as real) * w as real == newW as real;
  }

  lemma ScaleFills(w: int, newW: int)
    requires w > 0
    ensures (newW as real / w as real) * w as real == newW as real
  {
  }

  lemma RoundAtMost(x: real, n: int)
    requires x <= n as real
    ensures Round(x) <= n
  {
  }

  /** The decoder's `unletterbox`: undo the padding, then the scale. */
  function Unletterbox(r: Rect2f, scale: real, pad: Pad): (u: Rect2f)
    requires scale != 0.0
    ensures u.x * scale + pad.left as real == r.x
    ensures u.y * scale + pad.top as real == r.y
    ensures u.width * scale == r.width && u.height * scale == r.height
  {
    Rect2f((r.x - pad.left as real) / scale, (r.y - pad.top as real) / scale,
           r.width / scale, r.height / scale)
  }

  /** Where `letterbox` puts a source-image box on the canvas. */
  function ToCanvas(r: Rect2f, scale: real, pad: Pad): Rect2f {
    Rect2f(r.x * scale + pad.left as real, r.y * scale + pad.top as real,
           r.width * scale, r.height * scale)
  }

  /** `unletterbox` inverts the letterbox placement ... */
  lemma UnletterboxOfCanvas(r: Rect2f, scale: real, pad: Pad)
    requires scale != 0.0
    ensures Unletterbox(ToCanvas(r, scale, pad), scale, pad) == r
  {
  }

  /** ... and the letterbox placement inverts `unletterbox`. */
  lemma CanvasOfUnletterbox(r: Rect2f, scale: real, pad: Pad)
    requires scale != 0.0
    ensures ToCanvas(Unletterbox(r, scale, pad), scale, pad) == r
  {
  }
}
