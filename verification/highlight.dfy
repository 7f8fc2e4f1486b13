/** `highlight_frame` and the `is_in_box` test it applies to a fixation's
    coordinates: every box that contains the fixation has its half-open
    interior blended half-and-half with the highlight colour, in place, so a
    pixel under n such boxes is blended n times. */
module Highlight {
  import opened Wrappers
  import opened PyValues
  import opened Grid
  import opened TextBoxes

  // ---- `is_in_box` on a fixation's stored coordinates ----

  /** Python's `v >= k` for a stored value against an int: NaN compares false,
      the infinities compare as such, text and None raise TypeError. */
  function AtLeast(v: Value, k: int): (r: Result<bool, PyError>)
    ensures Numeric(v) ==> r == Ok(AsReal(v) >= k as real)
    ensures r.Err? <==> v.Text? || v.Null?
    ensures r.Err? ==> r.error == TypeError
  {
    match v
    case Int(i) => Ok(i >= k)
    case Float(f) => Ok(f >= k as real)
    case NaN => Ok(false)
    case Infinity(negative) => Ok(!negative)
    case _ => Err(TypeError)
  }

  /** Python's `v <= k`, as `AtLeast`. */
  function AtMost(v: Value, k: int): (r: Result<bool, PyError>)
    ensures Numeric(v) ==> r == Ok(AsReal(v) <= k as real)
    ensures r.Err? <==> v.Text? || v.Null?
    ensures r.Err? ==> r.error == TypeError
  {
    match v
    case Int(i) => Ok(i <= k)
    case Float(f) => Ok(f <= k as real)
    case NaN => Ok(false)
    case Infinity(negative) => Ok(negative)
    case _ => Err(TypeError)
  }

  /** `a and b` where evaluating b may raise: b is evaluated only when a holds. */
  function AndThen(a: Result<bool, PyError>, b: Result<bool, PyError>): Result<bool, PyError> {
    match a
    case Err(e) => Err(e)
    case Ok(x) => if x then b else Ok(false)
  }

  /** `is_in_box(box, (fixation.x, fixation.y))`: four comparisons, left to right,
      short-circuiting. */
  function InBox(b: Box, x: Value, y: Value): (r: Result<bool, PyError>)
    ensures Numeric(x) && Numeric(y) ==> r == Ok(IsInBox(b, AsReal(x), AsReal(y)))
    ensures x.NaN? || y.NaN? ==> r != Ok(true)
    ensures r.Err? ==> r.error == TypeError
    ensures x.Text? || x.Null? ==> r.Err?
  {
    AndThen(AtLeast(x, b.lo.col),
      AndThen(AtMost(x, b.hi.col),
        AndThen(AtLeast(y, b.lo.row), AtMost(y, b.hi.row))))
  }

  /** A missing y coordinate is only reached, and only raises, when x already
      lies within the box's columns. */
  lemma MissingYRaisesOnlyInColumns(b: Box, x: Value, y: Value)
    requires Numeric(x) && (y.Text? || y.Null?)
    ensures InBox(b, x, y).Err? <==> b.lo.col as real <= AsReal(x) <= b.hi.col as real
  {
  }

  // ---- Blending ----

  /** `p * 50 / 100 + c * 50 / 100`, stored back into a uint8 frame (truncated). */
  function Blend(p: int, c: int): (v: int)
    requires IsChannel(p) && IsChannel(c)
    ensures IsChannel(v)
    ensures 2 * v <= p + c < 2 * v + 2
  {
    Truncate(p as real * 50.0 / 100.0 + c as real * 50.0 / 100.0)
  }

  function BlendPixel(p: Bgr, color: Bgr): (q: Bgr)
    requires IsColor(p) && IsColor(color)
    ensures IsColor(q)
  {
    Bgr(Blend(p.b, color.b), Blend(p.g, color.g), Blend(p.r, color.r))
  }

  /** The pixel after k successive blends with the same colour. */
  function BlendTimes(p: Bgr, color: Bgr, k: nat): (q: Bgr)
    requires IsColor(p) && IsColor(color)
    ensures IsColor(q)
  {
    if k == 0 then p else BlendPixel(BlendTimes(p, color, k - 1), color)
  }

  /** Distance from a channel to the colour's channel. */
  function Gap(p: int, c: int): nat {
    if p < c then c - p else p - c
  }

  /** One blend halves the distance to the colour (rounding down can overshoot
      by at most the half unit). */
  lemma BlendHalvesGap(p: int, c: int)
    requires IsChannel(p) && IsChannel(c)
    ensures 2 * Gap(Blend(p, c), c) <= Gap(p, c) + 1
    ensures p == c ==> Blend(p, c) == c
    ensures (p <= c ==> p <= Blend(p, c) <= c) && (c <= p ==> c <= Blend(p, c) <= p)
  {
  }

  /** Repeated blends never leave the interval between the pixel and the colour. */
  lemma {:induction false} BlendTimesBetween(p: Bgr, color: Bgr, k: nat)
    requires IsColor(p) && IsColor(color)
    ensures var q := BlendTimes(p, color, k);
      && (p.b <= color.b ==> p.b <= q.b <= color.b) && (color.b <= p.b ==> color.b <= q.b <= p.b)
      && (p.g <= color.g ==> p.g <= q.g <= color.g) && (color.g <= p.g ==> color.g <= q.g <= p.g)
      && (p.r <= color.r ==> p.r <= q.r <= color.r) && (color.r <= p.r ==> color.r <= q.r <= p.r)
  {
    if k > 0 {
      BlendTimesBetween(p, color, k - 1);
      var q := BlendTimes(p, color, k - 1);
      BlendHalvesGap(q.b, color.b);
      BlendHalvesGap(q.g, color.g);
      BlendHalvesGap(q.r, color.r);
    }
  }

  // ---- The frame ----

  /** The box's interior lies inside the frame (an empty interior touches nothing). */
  predicate Fits(frame: Image, b: Box) {
    b.lo.row < b.hi.row && b.lo.col < b.hi.col ==>
      0 <= b.lo.row && b.hi.row <= |frame| && 0 <= b.lo.col && b.hi.col <= ImageWidth(frame)
  }

  /** How many of the boxes contain the fixation and have (r, c) in their interior. */
  function Covering(boxes: seq<Box>, x: Value, y: Value, r: int, c: int): (n: nat)
    ensures n <= |boxes|
  {
    if |boxes| == 0 then 0 else
    var last := boxes[|boxes| - 1];
    Covering(boxes[..|boxes| - 1], x, y, r, c) + (if InBox(last, x, y) == Ok(true) && InInterior(last, r, c) then 1 else 0)
  }

  /** Covering of one more box of a prefix. */
  lemma CoveringStep(boxes: seq<Box>, k: nat, x: Value, y: Value, i: int, j: int)
    requires k < |boxes|
    ensures Covering(boxes[..k + 1], x, y, i, j)
            == Covering(boxes[..k], x, y, i, j) + (if InBox(boxes[k], x, y) == Ok(true) && InInterior(boxes[k], i, j) then 1 else 0)
  {
    assert boxes[..k + 1][..k] == boxes[..k];
  }

  predicate IsRectImage(img: Image) {
    IsImage(img) && forall r | 0 <= r < |img| :: |img[r]| == ImageWidth(img)
  }

  /** The two nested loops over one box's interior (columns outer). */
  method BlendBox(frame: Image, b: Box, color: Bgr) returns (out: Image)
    requires IsRectImage(frame) && IsColor(color) && Fits(frame, b)
    ensures IsRectImage(out) && SameImageShape(out, frame)
    ensures forall r, c | 0 <= r < |frame| && 0 <= c < ImageWidth(frame) ::
              out[r][c] == (if InInterior(b, r, c) then BlendPixel(frame[r][c], color) else frame[r][c])
  {
    out := frame;
    if b.lo.row >= b.hi.row || b.lo.col >= b.hi.col {
      return;
    }
    for x := b.lo.col to b.hi.col
      invariant IsRectImage(out) && SameImageShape(out, frame)
      invariant forall r, c | 0 <= r < |frame| && 0 <= c < ImageWidth(frame) ::
                  out[r][c] == (if InInterior(b, r, c) && c < x then BlendPixel(frame[r][c], color) else frame[r][c])
    {
      for y := b.lo.row to b.hi.row
        invariant IsRectImage(out) && SameImageShape(out, frame)
        invariant forall r, c | 0 <= r < |frame| && 0 <= c < ImageWidth(frame) ::
                    out[r][c] == (if InInterior(b, r, c) && (c < x || (c == x && r < y))
                                  then BlendPixel(frame[r][c], color) else frame[r][c])
      {
        out := out[y := out[y][x := BlendPixel(out[y][x], color)]];
      }
    }
  }

  /** `out` is `frame` with every pixel blended once per box of `boxes` that
      contains the fixation and covers it. */
  predicate Highlighted(frame: Image, out: Image, boxes: seq<Box>, x: Value, y: Value, color: Bgr)
    requires IsRectImage(frame) && IsColor(color)
  {
    && IsRectImage(out) && SameImageShape(out, frame)
    && forall i, j | 0 <= i < |frame| && 0 <= j < ImageWidth(frame) ::
         out[i][j] == BlendTimes(frame[i][j], color, Covering(boxes, x, y, i, j))
  }

  /** Processing box k after boxes[..k] gives the frame highlighted by boxes[..k + 1]. */
  lemma HighlightStep(frame: Image, out: Image, next: Image, boxes: seq<Box>, k: nat,
                      x: Value, y: Value, color: Bgr)
    requires IsRectImage(frame) && IsColor(color) && k < |boxes|
    requires Highlighted(frame, out, boxes[..k], x, y, color)
    requires IsRectImage(next) && SameImageShape(next, frame)
    requires forall i, j | 0 <= i < |frame| && 0 <= j < ImageWidth(frame) ::
               next[i][j] == (if InBox(boxes[k], x, y) == Ok(true) && InInterior(boxes[k], i, j)
                              then BlendPixel(out[i][j], color) else out[i][j])
    ensures Highlighted(frame, next, boxes[..k + 1], x, y, color)
  {
    forall i, j | 0 <= i < |frame| && 0 <= j < ImageWidth(frame)
      ensures next[i][j] == BlendTimes(frame[i][j], color, Covering(boxes[..k + 1], x, y, i, j))
    {
      CoveringStep(boxes, k, x, y, i, j);
    }
  }

  /** One iteration of the box loop: test box k and blend it if it contains the
      fixation. */
  method HighlightBox(frame: Image, out: Image, boxes: seq<Box>, k: nat, x: Value, y: Value, color: Bgr)
    returns (r: Result<Image, PyError>)
    requires IsRectImage(frame) && IsColor(color) && k < |boxes|
    requires InBox(boxes[k], x, y) == Ok(true) ==> Fits(frame, boxes[k])
    requires Highlighted(frame, out, boxes[..k], x, y, color)
    ensures r.Err? <==> InBox(boxes[k], x, y).Err?
    ensures r.Err? ==> r.error == TypeError
    ensures r.Ok? ==> Highlighted(frame, r.value, boxes[..k + 1], x, y, color)
  {
    var test := InBox(boxes[k], x, y);
    if test.Err? {
      return Err(test.error);
    }
    var next := out;
    if test.value {
      next := BlendBox(out, boxes[k], color);
    }
    HighlightStep(frame, out, next, boxes, k, x, y, color);
    r := Ok(next);
  }

  /** `highlight_frame(frame, boxes, fixation, color)`: every pixel ends up blended
      once for each box that contains the fixation and covers the pixel. A stored
      coordinate that cannot be compared (text, NULL) raises TypeError at the
      first box whose test reaches it. */
  method HighlightFrame(frame: Image, boxes: seq<Box>, x: Value, y: Value, color: Bgr)
    returns (r: Result<Image, PyError>)
    requires IsRectImage(frame) && IsColor(color)
    requires forall k | 0 <= k < |boxes| && InBox(boxes[k], x, y) == Ok(true) :: Fits(frame, boxes[k])
    ensures r.Err? <==> exists k | 0 <= k < |boxes| :: InBox(boxes[k], x, y).Err?
    ensures r.Err? ==> r.error == TypeError
    ensures r.Ok? ==> Highlighted(frame, r.value, boxes, x, y, color)
  {
    var out := frame;
    assert Highlighted(frame, out, boxes[..0], x, y, color);
    for k := 0 to |boxes|
      invariant forall i | 0 <= i < k :: InBox(boxes[i], x, y).Ok?
      invariant Highlighted(frame, out, boxes[..k], x, y, color)
    {
      var step := HighlightBox(frame, out, boxes, k, x, y, color);
      if step.Err? {
        return step;
      }
      out := step.value;
    }
    assert boxes[..|boxes|] == boxes;
    r := Ok(out);
  }

  /** A pixel that no selected box covers keeps its value. */
  lemma UncoveredPixelKept(frame: Image, boxes: seq<Box>, x: Value, y: Value, color: Bgr, i: nat, j: nat)
    requires IsRectImage(frame) && IsColor(color) && i < |frame| && j < ImageWidth(frame)
    requires forall k | 0 <= k < |boxes| :: !InInterior(boxes[k], i, j)
    ensures BlendTimes(frame[i][j], color, Covering(boxes, x, y, i, j)) == frame[i][j]
  {
    NotCovered(boxes, x, y, i, j);
  }

  lemma {:induction false} NotCovered(boxes: seq<Box>, x: Value, y: Value, i: int, j: int)
    requires forall k | 0 <= k < |boxes| :: !InInterior(boxes[k], i, j)
    ensures Covering(boxes, x, y, i, j) == 0
  {
    if |boxes| > 0 {
      NotCovered(boxes[..|boxes| - 1], x, y, i, j);
    }
  }
}
