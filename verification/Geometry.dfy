/** Sizes and offsets of images that are resized and padded for a vision model and unpadded afterwards,
    in exact arithmetic: ratios are compared by cross-multiplication. */
module Geometry {
  import opened Prelude
  import opened Quotients

  datatype Size = Size(width: nat, height: nat)

  /** The size of an image or of a frame, which has at least one pixel. */
  type Frame = s: Size | 0 < s.width && 0 < s.height witness Size(1, 1)

  /** The lines lo, lo + 1, ..., hi - 1 of one axis. */
  datatype Span = Span(lo: int, hi: int)

  datatype Area = Area(columns: Span, rows: Span)

  // ----- padding and unpadding -----

  /** Relative to its height, the image is wider than the frame. */
  predicate IsWider(original: Frame, frame: Frame) {
    frame.width * original.height < frame.height * original.width
  }

  /** The size to which an image is scaled: it fills the target along one axis, and is rounded up along
      the other. */
  function Scaled(original: Frame, target: Frame): Size {
    if IsWider(original, target)
    then Size(target.width, Min(Ceil(original.height * target.width, original.width), target.height))
    else Size(Min(Ceil(original.width * target.height, original.height), target.width), target.height)
  }

  /** Where `resize_and_pad_image` pastes the scaled image. */
  function Pasted(original: Frame, target: Frame): Area {
    var size := Scaled(original, target);
    var x := (target.width - size.width) / 2;
    var y := (target.height - size.height) / 2;
    Area(Span(x, x + size.width), Span(y, y + size.height))
  }

  /** The window that `unpad_image` cuts out of a canvas. */
  function Unpadded(original: Frame, current: Frame): Area {
    if IsWider(original, current) then
      var newHeight := original.height * current.width / original.width;
      var padding := (current.height - newHeight) / 2;
      Area(Span(0, current.width), Span(padding, current.height - padding))
    else
      var newWidth := original.width * current.height / original.height;
      var padding := (current.width - newWidth) / 2;
      Area(Span(padding, current.width - padding), Span(0, current.height))
  }

  lemma Fits(side: Positive, full: Positive, per: Positive, limit: Positive)
    requires side * full <= per * limit
    ensures 0 <= side * full / per <= limit
  {
    Grows(limit, limit, per);
    Quotient(side * full, per, limit + 1);
  }

  /** The size that `unpad_image_shape` reports is that of the window, which lies within the canvas. */
  function UnpadImageShape(currentHeight: Positive, currentWidth: Positive, original: Frame): (shape: (int, int))
    ensures var window := Unpadded(original, Size(currentWidth, currentHeight));
            && 0 <= window.rows.lo <= window.rows.hi <= currentHeight
            && 0 <= window.columns.lo <= window.columns.hi <= currentWidth
            && shape == (window.rows.hi - window.rows.lo, window.columns.hi - window.columns.lo)
  {
    if IsWider(original, Size(currentWidth, currentHeight)) then
      Fits(original.height, currentWidth, original.width, currentHeight);
      var newHeight := original.height * currentWidth / original.width;
      var padding := (currentHeight - newHeight) / 2;
      (currentHeight - 2 * padding, currentWidth)
    else
      Fits(original.width, currentHeight, original.height, currentWidth);
      var newWidth := original.width * currentHeight / original.height;
      var padding := (currentWidth - newWidth) / 2;
      (currentHeight, currentWidth - 2 * padding)
  }

  /** The scaled image fills the side that is met first, its other side is the least that keeps the ratio,
      and it is pasted in the middle: no more than one line further from the end than from the start. */
  lemma ScaledIsLeast(original: Frame, target: Frame)
    ensures var size := Scaled(original, target);
            && (target.width * original.height <= target.height * original.width ==>
                  && size.width == target.width
                  && (size.height - 1) * original.width < original.height * target.width
                  && original.height * target.width <= size.height * original.width)
            && (target.height * original.width <= target.width * original.height ==>
                  && size.height == target.height
                  && (size.width - 1) * original.height < original.width * target.height
                  && original.width * target.height <= size.width * original.height)
    ensures var size := Scaled(original, target);
            var pasted := Pasted(original, target);
            && IsMiddle(pasted.columns, size.width, target.width) && IsMiddle(pasted.rows, size.height, target.height)
  {
    if IsWider(original, target) {
      LeastAlongAxis(original.height, target.width, original.width, target.height);
    } else {
      LeastAlongAxis(original.width, target.height, original.height, target.width);
    }
  }

  predicate IsMiddle(span: Span, lines: nat, limit: nat) {
    span.hi - span.lo == lines && span.lo <= limit - span.hi <= span.lo + 1
  }

  lemma LeastAlongAxis(side: Positive, full: Positive, per: Positive, limit: Positive)
    requires side * full <= per * limit
    ensures var lines := Min(Ceil(side * full, per), limit);
            && lines <= limit && (lines - 1) * per < side * full <= lines * per
            && (side * full == per * limit ==> lines == limit)
  {
    var a := side * full;
    CeilIsNextToFloor(a, per);
    Divided(a, per);
    Quotient(a, per, limit);
    Grows(a / per, a / per, per);
    Grows(a / per - 1, a / per, per);
  }

  /** How the window found along the padded axis differs from the lines that were pasted, when `free`
      lines of the canvas stay blank: `whole` says whether scaling gave a whole number of lines. */
  predicate Found(pasted: Span, window: Span, free: nat, whole: bool) {
    if free % 2 == 0 then window == pasted
    else if whole then window == Span(pasted.lo, pasted.hi + 1)
    else window == Span(pasted.lo + 1, pasted.hi)
  }

  /** Along the padded axis of the target, `side` lines are scaled by full / per. */
  lemma FoundAlongAxis(side: Positive, full: Positive, per: Positive, limit: Positive)
    requires side * full <= per * limit
    ensures var lines := Min(Ceil(side * full, per), limit);
            var padding := (limit - side * full / per) / 2;
            var offset := (limit - lines) / 2;
            && lines == Ceil(side * full, per) >= 1
            && Found(Span(offset, offset + lines), Span(padding, limit - padding), limit - lines,
                     side * full % per == 0)
  {
    var a := side * full;
    assert a >= 1;
    CeilIsNextToFloor(a, per);
    Quotient(a, per, limit);
    Quotient(a, per, 1);
    CutFinds(limit, a / per, a % per == 0);
  }

  /** The same for a number of lines between `floor` and `floor` + 1. */
  lemma CutFinds(limit: nat, floor: nat, whole: bool)
    requires if whole then floor <= limit else floor < limit
    ensures var lines := if whole then floor else floor + 1;
            var padding := (limit - floor) / 2;
            var offset := (limit - lines) / 2;
            Found(Span(offset, offset + lines), Span(padding, limit - padding), limit - lines, whole)
  {
  }

  /** The lines scaled along the padded axis, as a fraction: the side of the image times the size of the
      target along the other axis, over the other side of the image. */
  predicate ScalesToWhole(original: Frame, target: Frame) {
    if IsWider(original, target) then original.height * target.width % original.width == 0
    else original.width * target.height % original.height == 0
  }

  /** Unpadding picks the axis that padding did. Along it the window is exactly the pasted image if an
      even number of lines was left blank; otherwise it includes one blank line after the image when
      scaling gave a whole number of lines, and omits the first line of the image when it did not. Scaling
      never has to be cut down to the target. */
  lemma UnpaddingFindsImage(original: Frame, target: Frame)
    ensures var size := Scaled(original, target);
            var pasted := Pasted(original, target);
            var window := Unpadded(original, target);
            var whole := ScalesToWhole(original, target);
            && 1 <= size.width <= target.width && 1 <= size.height <= target.height
            && (size.width == target.width || size.height == target.height)
            && Found(pasted.columns, window.columns, target.width - size.width, whole)
            && Found(pasted.rows, window.rows, target.height - size.height, whole)
            && (window == pasted <==> (target.width - size.width) % 2 == 0 && (target.height - size.height) % 2 == 0)
  {
    if IsWider(original, target) {
      FoundAlongAxis(original.height, target.width, original.width, target.height);
    } else {
      FoundAlongAxis(original.width, target.height, original.height, target.width);
    }
  }

  /** Nothing at all is left of an image exactly when it was scaled to less than one line, drawn as one,
      in a target with an even number of lines. */
  lemma UnpaddedIsEmptyIff(original: Frame, target: Frame)
    ensures var window := Unpadded(original, target);
            window.rows.lo == window.rows.hi <==>
              IsWider(original, target) && original.height * target.width < original.width && target.height % 2 == 0
    ensures var window := Unpadded(original, target);
            window.columns.lo == window.columns.hi <==>
              !IsWider(original, target) && original.width * target.height < original.height && target.width % 2 == 0
  {
    if IsWider(original, target) {
      EmptyAlongAxis(original.height, target.width, original.width, target.height);
    } else {
      EmptyAlongAxis(original.width, target.height, original.height, target.width);
    }
  }

  lemma EmptyAlongAxis(side: Positive, full: Positive, per: Positive, limit: Positive)
    requires side * full <= per * limit
    ensures var padding := (limit - side * full / per) / 2;
            padding == limit - padding <==> side * full < per && limit % 2 == 0
  {
    Quotient(side * full, per, 1);
    Quotient(side * full, per, limit);
  }

  // ----- choosing a resolution -----

  /** The image scaled to fit in a candidate resolution, rounded down. */
  function Downscaled(original: Frame, candidate: Frame): Size {
    if candidate.width * original.height <= candidate.height * original.width
    then Size(candidate.width, original.height * candidate.width / original.width)
    else Size(original.width * candidate.height / original.height, candidate.height)
  }

  /** It fills the side that is met first; its other side is the greatest that keeps the ratio. */
  lemma DownscaledIsGreatest(original: Frame, candidate: Frame)
    ensures var size := Downscaled(original, candidate);
            && size.width <= candidate.width && size.height <= candidate.height
            && (candidate.width * original.height <= candidate.height * original.width ==>
                  && size.width == candidate.width
                  && size.height * original.width <= original.height * candidate.width
                  && original.height * candidate.width < (size.height + 1) * original.width)
            && (candidate.height * original.width <= candidate.width * original.height ==>
                  && size.height == candidate.height
                  && size.width * original.height <= original.width * candidate.height
                  && original.width * candidate.height < (size.width + 1) * original.height)
  {
    if candidate.width * original.height <= candidate.height * original.width {
      GreatestAlongAxis(original.height, candidate.width, original.width, candidate.height);
    } else {
      GreatestAlongAxis(original.width, candidate.height, original.height, candidate.width);
    }
  }

  lemma GreatestAlongAxis(side: Positive, full: Positive, per: Positive, limit: Positive)
    requires side * full <= per * limit
    ensures var lines := side * full / per;
            && lines <= limit && lines * per <= side * full < (lines + 1) * per
            && (side * full == per * limit ==> lines == limit)
  {
    Fits(side, full, per, limit);
    Divided(side * full, per);
    Quotient(side * full, per, limit);
    Grows(side * full / per, side * full / per, per);
  }

  function Pixels(s: Size): nat {
    s.width * s.height
  }

  /** The pixels of the image that survive in a candidate. */
  function Effective(original: Frame, candidate: Frame): nat {
    Min(Pixels(Downscaled(original, candidate)), Pixels(original))
  }

  function Wasted(original: Frame, candidate: Frame): int {
    Pixels(candidate) - Effective(original, candidate)
  }

  /** Each pixel of a candidate survives from the image or is wasted; no more survive than the image has, or
      than the scaled image does. */
  lemma SurvivingOrWasted(original: Frame, candidate: Frame)
    ensures Effective(original, candidate) + Wasted(original, candidate) == candidate.width * candidate.height
    ensures var fits, effective := Downscaled(original, candidate), Effective(original, candidate);
            && effective <= original.width * original.height && effective <= fits.width * fits.height
            && (effective == original.width * original.height || effective == fits.width * fits.height)
            && 0 <= Wasted(original, candidate)
  {
    DownscaledIsGreatest(original, candidate);
    var fits := Downscaled(original, candidate);
    ProductsGrow(fits.width, fits.height, candidate.width, candidate.height);
  }

  /** More of the image survives, or as much of it with less waste. */
  predicate Better(original: Frame, a: Frame, b: Frame) {
    Effective(original, a) > Effective(original, b) ||
    (Effective(original, a) == Effective(original, b) && Wasted(original, a) < Wasted(original, b))
  }

  predicate IsFirstBest(original: Frame, candidates: seq<Frame>, k: nat) {
    && k < |candidates|
    && (forall j :: 0 <= j < |candidates| ==> !Better(original, candidates[j], candidates[k]))
    && (forall j :: 0 <= j < k ==> Better(original, candidates[k], candidates[j]))
  }

  /** The candidate found in one pass is the first that no other beats; the first candidate always beats
      the starting values, even if nothing of the image would survive in it. */
  method SelectBestResolution(original: Frame, candidates: seq<Frame>) returns (best: Option<Frame>)
    ensures best.None? <==> candidates == []
    ensures best.Some? ==> exists k: nat :: IsFirstBest(original, candidates, k) && best.value == candidates[k]
  {
    best := None;
    var maxEffective := 0;
    var minWasted: Option<int> := None;
    ghost var k := 0;
    for i := 0 to |candidates|
      invariant best.None? <==> i == 0
      invariant best.None? ==> maxEffective == 0 && minWasted.None?
      invariant best.Some? ==>
                  && IsFirstBest(original, candidates[..i], k) && best.value == candidates[k]
                  && maxEffective == Effective(original, candidates[k])
                  && minWasted == Some(Wasted(original, candidates[k]))
    {
      var candidate := candidates[i];
      var downscaled := Downscaled(original, candidate);
      var effective := Min(downscaled.width * downscaled.height, original.width * original.height);
      var wasted := candidate.width * candidate.height - effective;
      if effective > maxEffective || (effective == maxEffective && (minWasted.None? || wasted < minWasted.value)) {
        maxEffective := effective;
        minWasted := Some(wasted);
        best := Some(candidate);
        k := i;
      }
    }
    if best.Some? {
      assert candidates[..|candidates|] == candidates;
    }
  }

  lemma ProductsGrow(a: nat, b: nat, c: nat, d: nat)
    requires a <= c && b <= d
    ensures a * b <= c * d
    ensures a < c && b < d ==> a * b < c * d
    ensures a < c && 0 < d ==> a * d < c * d
  {
    assert a * b <= c * b <= c * d;
    if a < c {
      assert (a + 1) * d <= c * d;
    }
  }

  predicate Contains(candidate: Frame, original: Frame) {
    candidate.width >= original.width && candidate.height >= original.height
  }

  /** Every pixel survives exactly in the candidates that are at least as wide and as high as the image. */
  lemma AllSurviveIffContained(original: Frame, candidate: Frame)
    ensures Effective(original, candidate) == Pixels(original) <==> Contains(candidate, original)
  {
    var fits := Downscaled(original, candidate);
    if candidate.width * original.height <= candidate.height * original.width {
      ShrinkOneSide(original.width, original.height, candidate.width, candidate.height);
    } else {
      ShrinkOneSide(original.height, original.width, candidate.height, candidate.width);
    }
    assert Pixels(fits) >= Pixels(original) <==> Contains(candidate, original);
  }

  /** Scaling a side w to w' takes the other side h to h * w' / w, within the candidate's h'. */
  lemma ShrinkOneSide(w: Positive, h: Positive, w': Positive, h': Positive)
    requires w' * h <= h' * w
    ensures w' * (h * w' / w) >= w * h <==> w' >= w && h' >= h
  {
    ScaledSide(w, h, w');
    if w' >= w {
      ProductsGrow(w, h, w', h * w' / w);
      ProductsGrow(w, h, w', h);
      Cancel(h', h, w);
    } else {
      ProductsGrow(w', h * w' / w, w, h);
    }
  }

  lemma ScaledSide(w: Positive, h: Positive, w': Positive)
    ensures h * w' / w >= h <==> w' >= w
  {
    Quotient(h * w', w, h);
    Cancel(w', w, h);
  }

  /** If some candidate contains the image, the one selected does too and has no more pixels. */
  lemma BestContainsImage(original: Frame, candidates: seq<Frame>, k: nat, j: nat)
    requires IsFirstBest(original, candidates, k)
    requires j < |candidates| && Contains(candidates[j], original)
    ensures Contains(candidates[k], original) && Pixels(candidates[k]) <= Pixels(candidates[j])
  {
    AllSurviveIffContained(original, candidates[k]);
    AllSurviveIffContained(original, candidates[j]);
    assert !Better(original, candidates[j], candidates[k]);
  }
}
