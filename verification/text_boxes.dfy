/** `get_text_boxes`: recompute the text boxes only when more than 5% of the
    frame's samples changed; recomputing scans the binarised, dilated frame
    column by column, flood-fills every 255 cell it meets, and keeps the boxes
    whose height is close to the most frequent height. The OpenCV preprocessing
    that produces the binarised grid is not modelled: the grid is an input. */
module TextBoxes {
  import opened Wrappers
  import opened PyValues
  import opened Grid
  import opened FloodFill

  // ---- Frames and the change trigger ----

  /** One pixel of a BGR frame. */
  datatype Bgr = Bgr(b: int, g: int, r: int)

  type Image = seq<seq<Bgr>>

  predicate IsChannel(v: int) {
    0 <= v <= 255
  }

  predicate IsColor(p: Bgr) {
    IsChannel(p.b) && IsChannel(p.g) && IsChannel(p.r)
  }

  /** A rectangular uint8 frame. */
  predicate IsImage(img: Image) {
    && (forall r | 0 <= r < |img| :: |img[r]| == |img[0]|)
    && (forall r, c | 0 <= r < |img| && 0 <= c < |img[r]| :: IsColor(img[r][c]))
  }

  function ImageWidth(img: Image): nat {
    if |img| == 0 then 0 else |img[0]|
  }

  predicate SameImageShape(a: Image, b: Image) {
    |a| == |b| && forall r | 0 <= r < |a| :: |a[r]| == |b[r]|
  }

  function InvertPixel(p: Bgr): Bgr {
    Bgr(255 - p.b, 255 - p.g, 255 - p.r)
  }

  /** `255 - current_frame` */
  function Invert(img: Image): (inv: Image)
    ensures SameImageShape(img, inv)
    ensures forall r, c | 0 <= r < |img| && 0 <= c < |img[r]| :: inv[r][c] == InvertPixel(img[r][c])
  {
    seq(|img|, r requires 0 <= r < |img| => seq(|img[r]|, c requires 0 <= c < |img[r]| => InvertPixel(img[r][c])))
  }

  function PixelChanges(p: Bgr, q: Bgr): nat {
    (if p.b != q.b then 1 else 0) + (if p.g != q.g then 1 else 0) + (if p.r != q.r then 1 else 0)
  }

  function RowChanges(a: seq<Bgr>, b: seq<Bgr>): nat
    requires |a| == |b|
  {
    if |a| == 0 then 0 else PixelChanges(a[0], b[0]) + RowChanges(a[1..], b[1..])
  }

  /** `np.count_nonzero(cv2.absdiff(current, previous))`: the samples that differ. */
  function Changes(a: Image, b: Image): nat
    requires SameImageShape(a, b)
  {
    if |a| == 0 then 0 else RowChanges(a[0], b[0]) + Changes(a[1..], b[1..])
  }

  /** `res.size`: three samples per pixel. */
  function Size(img: Image): nat {
    if |img| == 0 then 0 else 3 * |img[0]| + Size(img[1..])
  }

  /** The frame the current one is compared with: the previous frame, or the
      inverse of the current one when there is none (lines 61-62). */
  function Baseline(current: Image, previous: Option<Image>): (base: Image)
    requires previous.Some? ==> SameImageShape(current, previous.value)
    ensures SameImageShape(current, base)
  {
    if previous.Some? then previous.value else Invert(current)
  }

  /** The trigger `count_nonzero(diff) * 100 / size > 5`, in integers; an empty
      frame divides by zero. */
  function Recompute(current: Image, previous: Option<Image>): (r: Result<bool, PyError>)
    requires previous.Some? ==> SameImageShape(current, previous.value)
    ensures r.Err? <==> Size(current) == 0
    ensures r.Err? ==> r.error == ZeroDivisionError
    ensures r.Ok? ==> (r.value <==> 20 * Changes(current, Baseline(current, previous)) > Size(current))
  {
    if Size(current) == 0 then Err(ZeroDivisionError)
    else Ok(Changes(current, Baseline(current, previous)) * 100 > 5 * Size(current))
  }

  lemma {:induction false} InvertedRowAllChanged(row: seq<Bgr>, inv: seq<Bgr>)
    requires |row| == |inv| && forall c | 0 <= c < |row| :: inv[c] == InvertPixel(row[c])
    ensures RowChanges(row, inv) * 3 == |row| * 9
  {
    if |row| > 0 {
      InvertedRowAllChanged(row[1..], inv[1..]);
    }
  }

  lemma {:induction false} InvertedAllChanged(img: Image, inv: Image)
    requires SameImageShape(img, inv)
    requires forall r, c | 0 <= r < |img| && 0 <= c < |img[r]| :: inv[r][c] == InvertPixel(img[r][c])
    ensures Changes(img, inv) == Size(img)
  {
    if |img| > 0 {
      InvertedRowAllChanged(img[0], inv[0]);
      InvertedAllChanged(img[1..], inv[1..]);
    }
  }

  /** With no previous frame every sample differs from its inverse (p != 255 - p
      for every integer p), so every non-empty frame triggers a recomputation. */
  lemma FirstFrameAlwaysRecomputes(current: Image)
    requires Size(current) > 0
    ensures Recompute(current, None) == Ok(true)
  {
    InvertedAllChanged(current, Invert(current));
  }

  lemma {:induction false} RowChangesSame(row: seq<Bgr>)
    ensures RowChanges(row, row) == 0
  {
    if |row| > 0 {
      RowChangesSame(row[1..]);
    }
  }

  /** An unchanged frame never triggers a recomputation. */
  lemma {:induction false} SameFrameNeverRecomputes(current: Image)
    requires Size(current) > 0
    ensures Recompute(current, Some(current)) == Ok(false)
  {
    SameFrameNoChanges(current);
  }

  lemma {:induction false} SameFrameNoChanges(img: Image)
    ensures Changes(img, img) == 0
  {
    if |img| > 0 {
      RowChangesSame(img[0]);
      SameFrameNoChanges(img[1..]);
    }
  }

  // ---- The scan ----

  predicate No255(g: Grid)
    requires Rectangular(g)
  {
    forall r, c | 0 <= r < |g| && 0 <= c < Width(g) :: g[r][c] != 255
  }

  /** A box whose corners lie in the grid, minimum before maximum. */
  predicate BoxInGrid(g: Grid, b: Box) {
    InBounds(g, b.lo) && InBounds(g, b.hi) && b.lo.col <= b.hi.col && b.lo.row <= b.hi.row
  }

  /** Some box of the list contains the cell at row r, column c. */
  predicate Covered(boxes: seq<Box>, r: int, c: int) {
    exists k | 0 <= k < |boxes| :: Contains(boxes[k], Pos(c, r))
  }

  /** The box contains a cell that is 255 in g. */
  predicate Seeded(g: Grid, b: Box)
    requires Rectangular(g)
  {
    exists r, c | 0 <= r < |g| && 0 <= c < Width(g) :: g[r][c] == 255 && Contains(b, Pos(c, r))
  }

  /** The cells one flood fill recorded, seen in the scanned grid g: the fill
      started at `seed`, a 255 cell, every recorded cell is a 255 cell of g inside
      the box, each cell is adjacent to an earlier one, and the box is the tight
      bounding box of the cells. */
  ghost predicate Component(g: Grid, b: Box, seed: Pos, cells: seq<Pos>)
    requires Rectangular(g)
  {
    && InBounds(g, seed) && At(g, seed) == 255
    && |cells| > 0 && cells[0] == seed
    && Chained(seed, cells) && Attained(seed, cells, b.lo, b.hi)
    && forall i | 0 <= i < |cells| :: InBounds(g, cells[i]) && At(g, cells[i]) == 255 && Contains(b, cells[i])
  }

  /** No cell was recorded by two fills. */
  ghost predicate Disjoint(comps: seq<seq<Pos>>) {
    forall k1, k2, i, j | 0 <= k1 < k2 < |comps| && 0 <= i < |comps[k1]| && 0 <= j < |comps[k2]| ::
      comps[k1][i] != comps[k2][j]
  }

  /** Cell p was consumed by one of the fills numbered 0 to `upto`: recorded by
      it, or inside the interior it stamped. */
  ghost predicate Claimed(boxes: seq<Box>, comps: seq<seq<Pos>>, upto: int, p: Pos) {
    exists k | 0 <= k <= upto && k < |boxes| && k < |comps| ::
      p in comps[k] || InInterior(boxes[k], p.row, p.col)
  }

  /** p comes before q in the scan's order: columns outer, rows inner. */
  predicate ScanBefore(p: Pos, q: Pos) {
    p.col < q.col || (p.col == q.col && p.row < q.row)
  }

  /** Every recorded cell is no longer 255. */
  ghost predicate Taken(out: Grid, comps: seq<seq<Pos>>)
    requires Rectangular(out)
  {
    forall k, i | 0 <= k < |comps| && 0 <= i < |comps[k]| ::
      InBounds(out, comps[k][i]) && At(out, comps[k][i]) != 255
  }

  /** Every stamped interior is no longer 255. */
  ghost predicate InteriorsTaken(out: Grid, boxes: seq<Box>)
    requires Rectangular(out)
  {
    forall k, r, c | 0 <= k < |boxes| && 0 <= r < |out| && 0 <= c < Width(out) && InInterior(boxes[k], r, c) ::
      out[r][c] != 255
  }

  /** Every 255 cell of g consumed in `out` was consumed by one of the fills. */
  ghost predicate ConsumedClaimed(g: Grid, out: Grid, boxes: seq<Box>, comps: seq<seq<Pos>>)
    requires Rectangular(g) && Rectangular(out) && SameShape(out, g)
  {
    forall r, c | 0 <= r < |g| && 0 <= c < Width(g) && g[r][c] == 255 && out[r][c] != 255 ::
      Claimed(boxes, comps, |boxes| - 1, Pos(c, r))
  }

  /** The fills are maximal: a 255 cell of g next to a cell of fill k was
      recorded by fill k, or consumed by an earlier fill. */
  ghost predicate Closed(g: Grid, boxes: seq<Box>, comps: seq<seq<Pos>>)
    requires Rectangular(g)
  {
    forall k, i, p | 0 <= k < |comps| && 0 <= i < |comps[k]| && InBounds(g, p) && Adjacent(comps[k][i], p) && At(g, p) == 255 ::
      p in comps[k] || Claimed(boxes, comps, k - 1, p)
  }

  /** Fill k starts at a cell no earlier fill consumed. */
  ghost predicate SeedsFresh(boxes: seq<Box>, seeds: seq<Pos>, comps: seq<seq<Pos>>)
    requires |seeds| == |boxes|
  {
    forall k | 0 <= k < |boxes| :: !Claimed(boxes, comps, k - 1, seeds[k])
  }

  /** Every 255 cell before seed k in scan order was consumed by an earlier fill. */
  ghost predicate SeedsFirst(g: Grid, boxes: seq<Box>, seeds: seq<Pos>, comps: seq<seq<Pos>>)
    requires Rectangular(g) && |seeds| == |boxes|
  {
    forall k, q | 0 <= k < |boxes| && InBounds(g, q) && At(g, q) == 255 && ScanBefore(q, seeds[k]) ::
      Claimed(boxes, comps, k - 1, q)
  }

  /** No cell of a fill lies in the interior an earlier fill stamped. */
  ghost predicate Unstamped(boxes: seq<Box>, comps: seq<seq<Pos>>) {
    forall k1, k2, i | 0 <= k1 < k2 < |comps| && k1 < |boxes| && 0 <= i < |comps[k2]| ::
      !InInterior(boxes[k1], comps[k2][i].row, comps[k2][i].col)
  }

  /** What the scan keeps true: only 255s were consumed into 128; for every box
      found, the fill that produced it, its seed and its recorded cells; the
      recorded cells and stamped interiors are consumed; the fills recorded
      disjoint cells, none inside an earlier interior; every consumed 255 cell
      was consumed by a fill; the fills are maximal; and each fill started at
      the first 255 cell not yet consumed. */
  ghost predicate ScanState(g: Grid, out: Grid, boxes: seq<Box>, seeds: seq<Pos>, comps: seq<seq<Pos>>)
    requires Rectangular(g)
  {
    && Rectangular(out) && SameShape(out, g) && OnlyWrites128(g, out)
    && (|boxes| == 0 ==> out == g)
    && |seeds| == |boxes| && |comps| == |boxes|
    && (forall k | 0 <= k < |boxes| :: BoxInGrid(g, boxes[k]) && Component(g, boxes[k], seeds[k], comps[k]))
    && Taken(out, comps)
    && InteriorsTaken(out, boxes)
    && Disjoint(comps)
    && Unstamped(boxes, comps)
    && ConsumedClaimed(g, out, boxes, comps)
    && Closed(g, boxes, comps)
    && SeedsFresh(boxes, seeds, comps)
    && SeedsFirst(g, boxes, seeds, comps)
  }

  /** `flood_fill(dilation, (y, x))` at a 255 cell, seen from the scan: what
      `Fill` promises, with the box placed in the grid. */
  method FillAt(g: Grid, out: Grid, col: nat, row: nat) returns (out': Grid, b: Box, ghost rec: seq<Pos>)
    requires Rectangular(g) && Rectangular(out) && SameShape(out, g)
    requires row < |g| && col < Width(g) && out[row][col] == 255
    ensures Rectangular(out') && SameShape(out', g) && OnlyWrites128(out, out')
    ensures out'[row][col] == 128
    ensures BoxInGrid(g, b)
    ensures |rec| > 0 && rec[0] == Pos(col, row)
    ensures Chained(Pos(col, row), rec) && Attained(Pos(col, row), rec, b.lo, b.hi)
    ensures forall k | 0 <= k < |rec| ::
              InBounds(out, rec[k]) && At(out, rec[k]) == 255
              && At(out', rec[k]) == 128 && Contains(b, rec[k])
    ensures forall r, c | 0 <= r < |out| && 0 <= c < Width(out) && out'[r][c] != out[r][c] ::
              Pos(c, r) in rec || InInterior(b, r, c)
    ensures forall r, c | 0 <= r < |out| && 0 <= c < Width(out) && InInterior(b, r, c) ::
              out'[r][c] == 128
    ensures forall k, q | 0 <= k < |rec| && InBounds(out, q) && Adjacent(rec[k], q) && At(out, q) == 255 ::
              q in rec
  {
    out', b, rec := Fill(out, Pos(col, row));
    BoxFits(g, out, b);
  }

  lemma BoxFits(g: Grid, out: Grid, b: Box)
    requires SameShape(out, g) && InBounds(out, b.lo) && InBounds(out, b.hi)
    requires b.lo.col <= b.hi.col && b.lo.row <= b.hi.row
    ensures BoxInGrid(g, b)
  {
  }

  /** The new fill's box, seed and cells form a component of g, and the old
      ones stay components. */
  lemma StepComponents(g: Grid, out: Grid, boxes: seq<Box>, seeds: seq<Pos>, comps: seq<seq<Pos>>,
                       b: Box, rec: seq<Pos>, col: nat, row: nat)
    requires Rectangular(g) && Rectangular(out) && SameShape(out, g) && OnlyWrites128(g, out)
    requires |seeds| == |boxes| && |comps| == |boxes|
    requires forall k | 0 <= k < |boxes| :: BoxInGrid(g, boxes[k]) && Component(g, boxes[k], seeds[k], comps[k])
    requires row < |g| && col < Width(g) && out[row][col] == 255
    requires BoxInGrid(g, b)
    requires |rec| > 0 && rec[0] == Pos(col, row)
    requires Chained(Pos(col, row), rec) && Attained(Pos(col, row), rec, b.lo, b.hi)
    requires forall k | 0 <= k < |rec| :: InBounds(out, rec[k]) && At(out, rec[k]) == 255 && Contains(b, rec[k])
    ensures forall k | 0 <= k < |boxes| + 1 ::
              BoxInGrid(g, (boxes + [b])[k])
              && Component(g, (boxes + [b])[k], (seeds + [Pos(col, row)])[k], (comps + [rec])[k])
  {
    assert Component(g, b, Pos(col, row), rec);
    forall k | 0 <= k < |boxes| + 1
      ensures BoxInGrid(g, (boxes + [b])[k])
              && Component(g, (boxes + [b])[k], (seeds + [Pos(col, row)])[k], (comps + [rec])[k])
    {
      if k < |boxes| {
        assert (boxes + [b])[k] == boxes[k] && (seeds + [Pos(col, row)])[k] == seeds[k] && (comps + [rec])[k] == comps[k];
      }
    }
  }

  /** The new fill recorded only 255 cells, which no earlier fill recorded or
      stamped, and consumed them and its interior. */
  lemma StepDisjoint(out: Grid, out': Grid, boxes: seq<Box>, comps: seq<seq<Pos>>, b: Box, rec: seq<Pos>)
    requires Rectangular(out) && Rectangular(out') && SameShape(out', out) && OnlyWrites128(out, out')
    requires |comps| == |boxes|
    requires Taken(out, comps) && InteriorsTaken(out, boxes) && Disjoint(comps) && Unstamped(boxes, comps)
    requires forall k | 0 <= k < |rec| :: InBounds(out, rec[k]) && At(out, rec[k]) == 255 && At(out', rec[k]) == 128
    requires forall r, c | 0 <= r < |out| && 0 <= c < Width(out) && InInterior(b, r, c) :: out'[r][c] == 128
    ensures Taken(out', comps + [rec]) && Disjoint(comps + [rec])
    ensures InteriorsTaken(out', boxes + [b]) && Unstamped(boxes + [b], comps + [rec])
  {
    var comps', boxes' := comps + [rec], boxes + [b];
    forall k, i | 0 <= k < |comps'| && 0 <= i < |comps'[k]|
      ensures InBounds(out', comps'[k][i]) && At(out', comps'[k][i]) != 255
    {
      if k < |comps| {
        assert comps'[k] == comps[k];
        var p := comps[k][i];
        assert out'[p.row][p.col] == out[p.row][p.col] || out'[p.row][p.col] == 128;
      }
    }
    forall k1, k2, i, j | 0 <= k1 < k2 < |comps'| && 0 <= i < |comps'[k1]| && 0 <= j < |comps'[k2]|
      ensures comps'[k1][i] != comps'[k2][j]
    {
      assert comps'[k1] == comps[k1];
      if k2 == |comps| {
        assert At(out, comps[k1][i]) != 255;
      } else {
        assert comps'[k2] == comps[k2];
      }
    }
    forall k, r, c | 0 <= k < |boxes'| && 0 <= r < |out'| && 0 <= c < Width(out') && InInterior(boxes'[k], r, c)
      ensures out'[r][c] != 255
    {
      if k < |boxes| {
        assert boxes'[k] == boxes[k];
        assert out[r][c] != 255;
        assert out'[r][c] == out[r][c] || out'[r][c] == 128;
      }
    }
    forall k1, k2, i | 0 <= k1 < k2 < |comps'| && k1 < |boxes'| && 0 <= i < |comps'[k2]|
      ensures !InInterior(boxes'[k1], comps'[k2][i].row, comps'[k2][i].col)
    {
      assert boxes'[k1] == boxes[k1];
      if k2 == |comps| {
        assert comps'[k2] == rec;
        assert out[rec[i].row][rec[i].col] == 255;
      } else {
        assert comps'[k2] == comps[k2];
      }
    }
  }

  /** Appending a fill leaves the claims of the fills before it unchanged. */
  lemma ClaimedExtend(boxes: seq<Box>, comps: seq<seq<Pos>>, upto: int, p: Pos, b: Box, rec: seq<Pos>)
    requires upto < |boxes| && |comps| == |boxes|
    ensures Claimed(boxes + [b], comps + [rec], upto, p) <==> Claimed(boxes, comps, upto, p)
  {
    if Claimed(boxes, comps, upto, p) {
      var k :| 0 <= k <= upto && k < |boxes| && k < |comps| && (p in comps[k] || InInterior(boxes[k], p.row, p.col));
      assert (boxes + [b])[k] == boxes[k] && (comps + [rec])[k] == comps[k];
    }
    if Claimed(boxes + [b], comps + [rec], upto, p) {
      var k :| 0 <= k <= upto && k < |boxes + [b]| && k < |comps + [rec]|
               && (p in (comps + [rec])[k] || InInterior((boxes + [b])[k], p.row, p.col));
      assert (boxes + [b])[k] == boxes[k] && (comps + [rec])[k] == comps[k];
    }
  }

  /** A claimed cell is consumed. */
  lemma ClaimedTaken(out: Grid, boxes: seq<Box>, comps: seq<seq<Pos>>, upto: int, p: Pos)
    requires Rectangular(out) && InBounds(out, p) && |comps| == |boxes|
    requires Taken(out, comps) && InteriorsTaken(out, boxes)
    requires Claimed(boxes, comps, upto, p)
    ensures out[p.row][p.col] != 255
  {
    var k :| 0 <= k <= upto && k < |boxes| && k < |comps| && (p in comps[k] || InInterior(boxes[k], p.row, p.col));
    if p in comps[k] {
      var i :| 0 <= i < |comps[k]| && comps[k][i] == p;
      assert At(out, comps[k][i]) != 255;
    }
  }

  /** Every 255 cell consumed so far was consumed by an earlier fill or by the new one. */
  lemma StepClaimed(g: Grid, out: Grid, out': Grid, boxes: seq<Box>, comps: seq<seq<Pos>>, b: Box, rec: seq<Pos>)
    requires Rectangular(g) && Rectangular(out) && SameShape(out, g) && Rectangular(out') && SameShape(out', g)
    requires |comps| == |boxes| && ConsumedClaimed(g, out, boxes, comps)
    requires forall r, c | 0 <= r < |out| && 0 <= c < Width(out) && out'[r][c] != out[r][c] ::
               Pos(c, r) in rec || InInterior(b, r, c)
    ensures ConsumedClaimed(g, out', boxes + [b], comps + [rec])
  {
    forall r, c | 0 <= r < |g| && 0 <= c < Width(g) && g[r][c] == 255 && out'[r][c] != 255
      ensures Claimed(boxes + [b], comps + [rec], |boxes|, Pos(c, r))
    {
      if out[r][c] != 255 {
        ClaimedExtend(boxes, comps, |boxes| - 1, Pos(c, r), b, rec);
      } else {
        assert (boxes + [b])[|boxes|] == b && (comps + [rec])[|boxes|] == rec;
      }
    }
  }

  /** The earlier fills stay maximal, and the new one is: a 255 neighbour of
      one of its cells is either still 255 before it, and then recorded by it,
      or was consumed by an earlier fill. */
  lemma StepClosed(g: Grid, out: Grid, boxes: seq<Box>, comps: seq<seq<Pos>>, b: Box, rec: seq<Pos>)
    requires Rectangular(g) && Rectangular(out) && SameShape(out, g)
    requires |comps| == |boxes| && Closed(g, boxes, comps)
    requires ConsumedClaimed(g, out, boxes, comps)
    requires forall k, q | 0 <= k < |rec| && InBounds(out, q) && Adjacent(rec[k], q) && At(out, q) == 255 :: q in rec
    ensures Closed(g, boxes + [b], comps + [rec])
  {
    var boxes', comps' := boxes + [b], comps + [rec];
    forall k, i, p | 0 <= k < |comps'| && 0 <= i < |comps'[k]| && InBounds(g, p) && Adjacent(comps'[k][i], p) && At(g, p) == 255
      ensures p in comps'[k] || Claimed(boxes', comps', k - 1, p)
    {
      ClaimedExtend(boxes, comps, k - 1, p, b, rec);
      if k < |comps| {
        assert comps'[k] == comps[k];
      } else {
        assert comps'[k] == rec && InBounds(out, p) && Adjacent(rec[i], p);
        if out[p.row][p.col] != 255 {
          assert g[p.row][p.col] == 255 && Pos(p.col, p.row) == p;
        }
      }
    }
  }

  /** The new fill starts at the first 255 cell not yet consumed, and the
      earlier fills' seeds keep their property. */
  lemma StepSeeds(g: Grid, out: Grid, boxes: seq<Box>, seeds: seq<Pos>, comps: seq<seq<Pos>>,
                  b: Box, rec: seq<Pos>, col: nat, row: nat)
    requires Rectangular(g) && Rectangular(out) && SameShape(out, g)
    requires |seeds| == |boxes| && |comps| == |boxes|
    requires Taken(out, comps) && InteriorsTaken(out, boxes) && ConsumedClaimed(g, out, boxes, comps)
    requires SeedsFresh(boxes, seeds, comps) && SeedsFirst(g, boxes, seeds, comps)
    requires row < |g| && col < Width(g) && out[row][col] == 255
    requires VisitedBefore(g, out, col, row)
    ensures SeedsFresh(boxes + [b], seeds + [Pos(col, row)], comps + [rec])
    ensures SeedsFirst(g, boxes + [b], seeds + [Pos(col, row)], comps + [rec])
  {
    var boxes', seeds', comps' := boxes + [b], seeds + [Pos(col, row)], comps + [rec];
    forall k | 0 <= k < |boxes'|
      ensures !Claimed(boxes', comps', k - 1, seeds'[k])
    {
      ClaimedExtend(boxes, comps, k - 1, seeds'[k], b, rec);
      if k < |boxes| {
        assert seeds'[k] == seeds[k];
      } else if Claimed(boxes, comps, k - 1, seeds'[k]) {
        ClaimedTaken(out, boxes, comps, k - 1, Pos(col, row));
      }
    }
    forall k, q | 0 <= k < |boxes'| && InBounds(g, q) && At(g, q) == 255 && ScanBefore(q, seeds'[k])
      ensures Claimed(boxes', comps', k - 1, q)
    {
      ClaimedExtend(boxes, comps, k - 1, q, b, rec);
      if k < |boxes| {
        assert seeds'[k] == seeds[k];
      } else {
        assert out[q.row][q.col] != 255 && g[q.row][q.col] == 255 && Pos(q.col, q.row) == q;
      }
    }
  }

  /** The body of the scan (lines 86-88) at one cell: a 255 cell is flood-filled
      and its box appended. */
  method Visit(g: Grid, out: Grid, boxes: seq<Box>, ghost seeds: seq<Pos>, ghost comps: seq<seq<Pos>>, col: nat, row: nat)
    returns (out': Grid, boxes': seq<Box>, ghost seeds': seq<Pos>, ghost comps': seq<seq<Pos>>)
    requires Rectangular(g) && ScanState(g, out, boxes, seeds, comps) && row < |g| && col < Width(g)
    requires VisitedBefore(g, out, col, row)
    ensures ScanState(g, out', boxes', seeds', comps')
    ensures OnlyWrites128(out, out') && out'[row][col] != 255
    ensures out[row][col] != 255 ==> out' == out && boxes' == boxes
    ensures out[row][col] == 255 ==> |boxes'| == |boxes| + 1
  {
    out', boxes', seeds', comps' := out, boxes, seeds, comps;
    if out[row][col] == 255 {
      var b;
      ghost var rec;
      out', b, rec := FillAt(g, out, col, row);
      StepComponents(g, out, boxes, seeds, comps, b, rec, col, row);
      StepDisjoint(out, out', boxes, comps, b, rec);
      StepClaimed(g, out, out', boxes, comps, b, rec);
      StepClosed(g, out, boxes, comps, b, rec);
      StepSeeds(g, out, boxes, seeds, comps, b, rec, col, row);
      OnlyWrites128Trans(g, out, out');
      boxes', seeds', comps' := boxes + [b], seeds + [Pos(col, row)], comps + [rec];
    }
  }

  lemma OnlyWrites128Trans(g: Grid, out: Grid, out': Grid)
    requires Rectangular(g) && Rectangular(out) && SameShape(out, g) && Rectangular(out') && SameShape(out', g)
    requires OnlyWrites128(g, out) && OnlyWrites128(out, out')
    ensures OnlyWrites128(g, out')
  {
    forall r, c | 0 <= r < |g| && 0 <= c < Width(g)
      ensures out'[r][c] == g[r][c] || out'[r][c] == 128
    {
      assert out'[r][c] == out[r][c] || out'[r][c] == 128;
    }
  }

  /** The scan loop (lines 83-88): columns outer, rows inner. It consumes every
      255 cell and finds a box exactly when the grid has a 255 cell. The boxes
      are exactly the source's, in its order: see `Decomposed`. */
  method Scan(g: Grid) returns (boxes: seq<Box>, out: Grid, ghost seeds: seq<Pos>, ghost comps: seq<seq<Pos>>)
    requires Rectangular(g)
    ensures Rectangular(out) && SameShape(out, g)
    ensures No255(out)
    ensures OnlyWrites128(g, out)
    ensures |boxes| == 0 <==> No255(g)
    ensures Decomposed(g, boxes, seeds, comps)
  {
    out := g;
    boxes, seeds, comps := [], [], [];
    for col := 0 to Width(g)
      invariant ScanState(g, out, boxes, seeds, comps) && VisitedBefore(g, out, col, 0)
    {
      for row := 0 to |g|
        invariant ScanState(g, out, boxes, seeds, comps) && VisitedBefore(g, out, col, row)
      {
        var out' := out;
        out, boxes, seeds, comps := Visit(g, out, boxes, seeds, comps, col, row);
        VisitedStep(g, out', out, col, row);
      }
      VisitedColumn(g, out, col);
    }
    ScanDone(g, out, boxes, seeds, comps);
  }

  /** No 255 is left in the cells the scan has visited: the columns before `col`
      and the rows before `row` of column `col`. */
  predicate VisitedBefore(g: Grid, out: Grid, col: int, row: int)
    requires Rectangular(out) && SameShape(out, g)
  {
    forall r, c | 0 <= r < |g| && 0 <= c < Width(g) && (c < col || (c == col && r < row)) :: out[r][c] != 255
  }

  lemma VisitedStep(g: Grid, out: Grid, out': Grid, col: nat, row: nat)
    requires Rectangular(out) && SameShape(out, g) && Rectangular(out') && SameShape(out', g)
    requires OnlyWrites128(out, out') && row < |g| && col < Width(g) && out'[row][col] != 255
    requires VisitedBefore(g, out, col, row)
    ensures VisitedBefore(g, out', col, row + 1)
  {
  }

  lemma VisitedColumn(g: Grid, out: Grid, col: nat)
    requires Rectangular(out) && SameShape(out, g)
    requires VisitedBefore(g, out, col, |g|)
    ensures VisitedBefore(g, out, col + 1, 0)
  {
  }

  /** What the scan finds in g, which determines the boxes and their order:
      fill k starts at the first 255 cell, in scan order, that no earlier fill
      consumed; its cells are 255 cells chained from that seed, never recorded
      or stamped by an earlier fill, and take in every 255 neighbour no earlier
      fill consumed, so they are exactly the cells reachable from the seed
      through unconsumed 255 cells; its box is their tight bounding box; and
      every 255 cell of g is consumed by some fill and lies in some box. */
  ghost predicate Decomposed(g: Grid, boxes: seq<Box>, seeds: seq<Pos>, comps: seq<seq<Pos>>)
    requires Rectangular(g)
  {
    && |seeds| == |boxes| && |comps| == |boxes|
    && (forall k | 0 <= k < |boxes| ::
          BoxInGrid(g, boxes[k]) && Seeded(g, boxes[k]) && Component(g, boxes[k], seeds[k], comps[k]))
    && Disjoint(comps)
    && Unstamped(boxes, comps)
    && Closed(g, boxes, comps)
    && SeedsFresh(boxes, seeds, comps)
    && SeedsFirst(g, boxes, seeds, comps)
    && (forall r, c | 0 <= r < |g| && 0 <= c < Width(g) && g[r][c] == 255 :: Claimed(boxes, comps, |boxes| - 1, Pos(c, r)))
    && (forall r, c | 0 <= r < |g| && 0 <= c < Width(g) && g[r][c] == 255 :: Covered(boxes, r, c))
  }

  /** Once every cell is consumed, the scan state gives the scan's results. */
  lemma ScanDone(g: Grid, out: Grid, boxes: seq<Box>, seeds: seq<Pos>, comps: seq<seq<Pos>>)
    requires Rectangular(g) && ScanState(g, out, boxes, seeds, comps)
    requires VisitedBefore(g, out, Width(g), 0)
    ensures No255(out)
    ensures |boxes| == 0 <==> No255(g)
    ensures Decomposed(g, boxes, seeds, comps)
  {
    ScanSeeded(g, boxes, seeds, comps);
    ScanClaimed(g, out, boxes, comps);
    ScanCovered(g, boxes, seeds, comps);
  }

  /** Every box holds its seed, a 255 cell, so boxes exist only when g has a 255 cell. */
  lemma ScanSeeded(g: Grid, boxes: seq<Box>, seeds: seq<Pos>, comps: seq<seq<Pos>>)
    requires Rectangular(g) && |seeds| == |boxes| && |comps| == |boxes|
    requires forall k | 0 <= k < |boxes| :: Component(g, boxes[k], seeds[k], comps[k])
    ensures forall k | 0 <= k < |boxes| :: Seeded(g, boxes[k])
    ensures |boxes| > 0 ==> !No255(g)
  {
    forall k | 0 <= k < |boxes|
      ensures Seeded(g, boxes[k])
    {
      var s := seeds[k];
      assert g[s.row][s.col] == 255 && Contains(boxes[k], Pos(s.col, s.row));
    }
    if |boxes| > 0 {
      var s := seeds[0];
      assert g[s.row][s.col] == 255;
    }
  }

  /** With nothing left at 255, every 255 cell of g was consumed by a fill. */
  lemma ScanClaimed(g: Grid, out: Grid, boxes: seq<Box>, comps: seq<seq<Pos>>)
    requires Rectangular(g) && Rectangular(out) && SameShape(out, g)
    requires ConsumedClaimed(g, out, boxes, comps)
    requires VisitedBefore(g, out, Width(g), 0)
    ensures forall r, c | 0 <= r < |g| && 0 <= c < Width(g) && g[r][c] == 255 :: Claimed(boxes, comps, |boxes| - 1, Pos(c, r))
  {
    forall r, c | 0 <= r < |g| && 0 <= c < Width(g) && g[r][c] == 255
      ensures Claimed(boxes, comps, |boxes| - 1, Pos(c, r))
    {
      assert out[r][c] != 255;
    }
  }

  /** A consumed 255 cell lies in the box of the fill that consumed it. */
  lemma ScanCovered(g: Grid, boxes: seq<Box>, seeds: seq<Pos>, comps: seq<seq<Pos>>)
    requires Rectangular(g)
    requires |seeds| == |boxes| && |comps| == |boxes|
    requires forall k | 0 <= k < |boxes| :: Component(g, boxes[k], seeds[k], comps[k])
    requires forall r, c | 0 <= r < |g| && 0 <= c < Width(g) && g[r][c] == 255 :: Claimed(boxes, comps, |boxes| - 1, Pos(c, r))
    ensures forall r, c | 0 <= r < |g| && 0 <= c < Width(g) && g[r][c] == 255 :: Covered(boxes, r, c)
  {
    forall r, c | 0 <= r < |g| && 0 <= c < Width(g) && g[r][c] == 255
      ensures Covered(boxes, r, c)
    {
      ClaimedCovered(g, boxes, seeds, comps, Pos(c, r));
    }
  }

  /** A claimed cell lies in the box of the fill that claimed it. */
  lemma ClaimedCovered(g: Grid, boxes: seq<Box>, seeds: seq<Pos>, comps: seq<seq<Pos>>, p: Pos)
    requires Rectangular(g) && |seeds| == |boxes| && |comps| == |boxes|
    requires forall k | 0 <= k < |boxes| :: Component(g, boxes[k], seeds[k], comps[k])
    requires Claimed(boxes, comps, |boxes| - 1, p)
    ensures Covered(boxes, p.row, p.col)
  {
    var k :| 0 <= k <= |boxes| - 1 && k < |boxes| && k < |comps| &&
             (p in comps[k] || InInterior(boxes[k], p.row, p.col));
    if p in comps[k] {
      var i :| 0 <= i < |comps[k]| && comps[k][i] == p;
      assert Component(g, boxes[k], seeds[k], comps[k]);
      assert Contains(boxes[k], comps[k][i]);
    }
    assert Contains(boxes[k], Pos(p.col, p.row));
  }

  // ---- The scan's boxes are determined by the grid ----

  /** Two fills recorded the same cells. */
  ghost predicate SameCells(a: seq<Pos>, b: seq<Pos>) {
    forall p :: p in a <==> p in b
  }

  /** The first n fills of two decompositions have the same boxes and consume
      the same cells. */
  ghost predicate SamePrefix(b1: seq<Box>, c1: seq<seq<Pos>>, b2: seq<Box>, c2: seq<seq<Pos>>, n: nat) {
    && n <= |b1| && n <= |c1| && n <= |b2| && n <= |c2|
    && forall j | 0 <= j < n :: b1[j] == b2[j] && SameCells(c1[j], c2[j])
  }

  /** Fills that agree consume the same cells. */
  lemma ClaimedSame(b1: seq<Box>, c1: seq<seq<Pos>>, b2: seq<Box>, c2: seq<seq<Pos>>, n: nat, p: Pos)
    requires SamePrefix(b1, c1, b2, c2, n)
    ensures Claimed(b1, c1, n - 1, p) <==> Claimed(b2, c2, n - 1, p)
  {
    if Claimed(b1, c1, n - 1, p) {
      var k :| 0 <= k <= n - 1 && k < |b1| && k < |c1| && (p in c1[k] || InInterior(b1[k], p.row, p.col));
      assert b1[k] == b2[k] && (p in c1[k] <==> p in c2[k]);
    }
    if Claimed(b2, c2, n - 1, p) {
      var k :| 0 <= k <= n - 1 && k < |b2| && k < |c2| && (p in c2[k] || InInterior(b2[k], p.row, p.col));
      assert b1[k] == b2[k] && (p in c1[k] <==> p in c2[k]);
    }
  }

  /** The scan order is total. */
  lemma ScanOrderTotal(p: Pos, q: Pos)
    ensures p == q || ScanBefore(p, q) || ScanBefore(q, p)
  {
  }

  /** Fills that agree so far start the next fill at the same seed. */
  lemma SeedSame(g: Grid, b1: seq<Box>, s1: seq<Pos>, c1: seq<seq<Pos>>,
                 b2: seq<Box>, s2: seq<Pos>, c2: seq<seq<Pos>>, k: nat)
    requires Rectangular(g) && |s1| == |b1| && |s2| == |b2|
    requires SamePrefix(b1, c1, b2, c2, k) && k < |b1| && k < |b2| && k < |c1| && k < |c2|
    requires Component(g, b1[k], s1[k], c1[k]) && Component(g, b2[k], s2[k], c2[k])
    requires SeedsFresh(b1, s1, c1) && SeedsFirst(g, b1, s1, c1)
    requires SeedsFresh(b2, s2, c2) && SeedsFirst(g, b2, s2, c2)
    ensures s1[k] == s2[k]
  {
    ClaimedSame(b1, c1, b2, c2, k, s1[k]);
    ClaimedSame(b1, c1, b2, c2, k, s2[k]);
    ScanOrderTotal(s1[k], s2[k]);
  }

  /** A cell of fill k was not consumed by an earlier fill. */
  lemma NotClaimedBefore(b: seq<Box>, c: seq<seq<Pos>>, k: nat, i: nat)
    requires |c| == |b| && k < |c| && i < |c[k]|
    requires Disjoint(c) && Unstamped(b, c)
    ensures !Claimed(b, c, k - 1, c[k][i])
  {
    forall k' | 0 <= k' < k
      ensures c[k][i] !in c[k'] && !InInterior(b[k'], c[k][i].row, c[k][i].col)
    {
      forall j | 0 <= j < |c[k']|
        ensures c[k'][j] != c[k][i]
      {
      }
    }
  }

  /** From the same seed, with the same earlier fills, every cell one fill
      records the other records too. */
  lemma {:induction false} CellShared(g: Grid, b1: seq<Box>, s1: seq<Pos>, c1: seq<seq<Pos>>,
                                      b2: seq<Box>, s2: seq<Pos>, c2: seq<seq<Pos>>, k: nat, i: nat)
    requires Rectangular(g) && |s1| == |b1| && |c1| == |b1| && |s2| == |b2| && |c2| == |b2|
    requires SamePrefix(b1, c1, b2, c2, k) && k < |b1| && k < |b2| && i < |c1[k]|
    requires s1[k] == s2[k]
    requires Component(g, b1[k], s1[k], c1[k]) && Component(g, b2[k], s2[k], c2[k])
    requires Disjoint(c1) && Unstamped(b1, c1) && Closed(g, b2, c2)
    ensures c1[k][i] in c2[k]
    decreases i
  {
    var p := c1[k][i];
    if p != s1[k] {
      var j :| 0 <= j < i && Adjacent(c1[k][j], p);
      CellShared(g, b1, s1, c1, b2, s2, c2, k, j);
      var m :| 0 <= m < |c2[k]| && c2[k][m] == c1[k][j];
      ClaimedSame(b1, c1, b2, c2, k, p);
      NotClaimedBefore(b1, c1, k, i);
      assert InBounds(g, p) && At(g, p) == 255 && Adjacent(c2[k][m], p);
    } else {
      assert c2[k][0] == p;
    }
  }

  /** Two cell lists each of whose cells the other records hold the same cells. */
  lemma SameCellsOf(a: seq<Pos>, b: seq<Pos>)
    requires forall i | 0 <= i < |a| :: a[i] in b
    requires forall i | 0 <= i < |b| :: b[i] in a
    ensures SameCells(a, b)
  {
    forall p
      ensures p in a <==> p in b
    {
      if p in a {
        var i :| 0 <= i < |a| && a[i] == p;
      }
      if p in b {
        var i :| 0 <= i < |b| && b[i] == p;
      }
    }
  }

  /** Boxes tight around the same cells from the same seed are equal. */
  lemma BoxSame(b1: Box, b2: Box, seed: Pos, cells1: seq<Pos>, cells2: seq<Pos>)
    requires Attained(seed, cells1, b1.lo, b1.hi) && Attained(seed, cells2, b2.lo, b2.hi)
    requires Contains(b1, seed) && Contains(b2, seed)
    requires forall i | 0 <= i < |cells1| :: Contains(b1, cells1[i])
    requires forall i | 0 <= i < |cells2| :: Contains(b2, cells2[i])
    requires SameCells(cells1, cells2)
    ensures b1 == b2
  {
    forall i | 0 <= i < |cells1|
      ensures Contains(b2, cells1[i])
    {
      assert cells1[i] in cells2;
      var j :| 0 <= j < |cells2| && cells2[j] == cells1[i];
    }
    forall i | 0 <= i < |cells2|
      ensures Contains(b1, cells2[i])
    {
      assert cells2[i] in cells1;
      var j :| 0 <= j < |cells1| && cells1[j] == cells2[i];
    }
  }

  /** Fill k is the same in two decompositions whose earlier fills agree. */
  lemma FillSame(g: Grid, b1: seq<Box>, s1: seq<Pos>, c1: seq<seq<Pos>>,
                 b2: seq<Box>, s2: seq<Pos>, c2: seq<seq<Pos>>, k: nat)
    requires Rectangular(g) && |s1| == |b1| && |c1| == |b1| && |s2| == |b2| && |c2| == |b2|
    requires SamePrefix(b1, c1, b2, c2, k) && k < |b1| && k < |b2|
    requires Component(g, b1[k], s1[k], c1[k]) && Component(g, b2[k], s2[k], c2[k])
    requires Disjoint(c1) && Unstamped(b1, c1) && Closed(g, b1, c1)
    requires Disjoint(c2) && Unstamped(b2, c2) && Closed(g, b2, c2)
    requires SeedsFresh(b1, s1, c1) && SeedsFirst(g, b1, s1, c1)
    requires SeedsFresh(b2, s2, c2) && SeedsFirst(g, b2, s2, c2)
    ensures s1[k] == s2[k] && b1[k] == b2[k] && SameCells(c1[k], c2[k])
  {
    SeedSame(g, b1, s1, c1, b2, s2, c2, k);
    forall i | 0 <= i < |c1[k]|
      ensures c1[k][i] in c2[k]
    {
      CellShared(g, b1, s1, c1, b2, s2, c2, k, i);
    }
    forall i | 0 <= i < |c2[k]|
      ensures c2[k][i] in c1[k]
    {
      CellShared(g, b2, s2, c2, b1, s1, c1, k, i);
    }
    SameCellsOf(c1[k], c2[k]);
    BoxSame(b1[k], b2[k], s1[k], c1[k], c2[k]);
  }

  /** Two fill sequences agree on their first n fills when each fill agrees
      with the other's as soon as all earlier fills do. */
  lemma {:induction false} PrefixInduct(b1: seq<Box>, s1: seq<Pos>, c1: seq<seq<Pos>>,
                                        b2: seq<Box>, s2: seq<Pos>, c2: seq<seq<Pos>>, n: nat)
    requires n <= |b1| && n <= |c1| && n <= |s1| && n <= |b2| && n <= |c2| && n <= |s2|
    requires forall k | 0 <= k < n && SamePrefix(b1, c1, b2, c2, k) ::
      s1[k] == s2[k] && b1[k] == b2[k] && SameCells(c1[k], c2[k])
    ensures SamePrefix(b1, c1, b2, c2, n) && forall j | 0 <= j < n :: s1[j] == s2[j]
    decreases n
  {
    if n > 0 {
      PrefixInduct(b1, s1, c1, b2, s2, c2, n - 1);
      assert SamePrefix(b1, c1, b2, c2, n - 1);
    }
  }

  /** Two decompositions of the same grid agree on their first n fills. */
  lemma PrefixSame(g: Grid, b1: seq<Box>, s1: seq<Pos>, c1: seq<seq<Pos>>,
                   b2: seq<Box>, s2: seq<Pos>, c2: seq<seq<Pos>>, n: nat)
    requires Rectangular(g) && Decomposed(g, b1, s1, c1) && Decomposed(g, b2, s2, c2)
    requires n <= |b1| && n <= |b2|
    ensures SamePrefix(b1, c1, b2, c2, n) && forall j | 0 <= j < n :: s1[j] == s2[j]
  {
    forall k | 0 <= k < n && SamePrefix(b1, c1, b2, c2, k)
      ensures s1[k] == s2[k] && b1[k] == b2[k] && SameCells(c1[k], c2[k])
    {
      FillSame(g, b1, s1, c1, b2, s2, c2, k);
    }
    PrefixInduct(b1, s1, c1, b2, s2, c2, n);
  }

  /** Once every fill agrees, a further fill would start at a consumed cell. */
  lemma NoExtraFill(g: Grid, b1: seq<Box>, c1: seq<seq<Pos>>, b2: seq<Box>, s2: seq<Pos>, c2: seq<seq<Pos>>)
    requires Rectangular(g) && |s2| == |b2| && |c2| == |b2|
    requires forall r, c | 0 <= r < |g| && 0 <= c < Width(g) && g[r][c] == 255 :: Claimed(b1, c1, |b1| - 1, Pos(c, r))
    requires forall k | 0 <= k < |b2| :: Component(g, b2[k], s2[k], c2[k])
    requires SeedsFresh(b2, s2, c2)
    requires SamePrefix(b1, c1, b2, c2, |b1|)
    ensures |b2| == |b1|
  {
    if |b1| < |b2| {
      var s := s2[|b1|];
      assert g[s.row][s.col] == 255 && Pos(s.col, s.row) == s;
      ClaimedSame(b1, c1, b2, c2, |b1|, s);
    }
  }

  /** The scan's result is determined by the grid: two decompositions of g have
      the same boxes in the same order, started at the same seeds. So `Scan`'s
      contract admits exactly one box list. */
  lemma ScanDetermined(g: Grid, b1: seq<Box>, s1: seq<Pos>, c1: seq<seq<Pos>>,
                       b2: seq<Box>, s2: seq<Pos>, c2: seq<seq<Pos>>)
    requires Rectangular(g) && Decomposed(g, b1, s1, c1) && Decomposed(g, b2, s2, c2)
    ensures b1 == b2 && s1 == s2
  {
    if |b1| <= |b2| {
      PrefixSame(g, b1, s1, c1, b2, s2, c2, |b1|);
      NoExtraFill(g, b1, c1, b2, s2, c2);
    } else {
      PrefixSame(g, b2, s2, c2, b1, s1, c1, |b2|);
      NoExtraFill(g, b2, c2, b1, s1, c1);
    }
  }

  // ---- The modal-height filter ----

  /** `box[1][1] - box[0][1]`: the row extent. */
  function Height(b: Box): int {
    b.hi.row - b.lo.row
  }

  function Heights(boxes: seq<Box>): (hs: seq<int>)
    ensures |hs| == |boxes| && forall k | 0 <= k < |boxes| :: hs[k] == Height(boxes[k])
  {
    seq(|boxes|, k requires 0 <= k < |boxes| => Height(boxes[k]))
  }

  /** The count `height_map[h]` accumulates. */
  function Occurrences(hs: seq<int>, h: int): (n: nat)
    ensures n > 0 <==> h in hs
  {
    if |hs| == 0 then 0 else (if hs[0] == h then 1 else 0) + Occurrences(hs[1..], h)
  }

  /** The position of h's first occurrence: its insertion position in `height_map`. */
  function FirstIndex(hs: seq<int>, h: int): (i: nat)
    requires h in hs
    ensures i < |hs| && hs[i] == h && forall j | 0 <= j < i :: hs[j] != h
  {
    if hs[0] == h then 0 else 1 + FirstIndex(hs[1..], h)
  }

  /** `max(height_map, key=height_map.get)`: the most frequent height, ties
      going to the height inserted first. */
  method ModeHeight(hs: seq<int>) returns (m: int)
    requires |hs| > 0
    ensures m in hs
    ensures forall h :: Occurrences(hs, h) <= Occurrences(hs, m)
    ensures forall j | 0 <= j < |hs| && Occurrences(hs, hs[j]) == Occurrences(hs, m) :: FirstIndex(hs, m) <= j
  {
    m := hs[0];
    var best := Occurrences(hs, m);
    ghost var at := 0;
    for i := 1 to |hs|
      invariant 0 <= at < i && hs[at] == m && best == Occurrences(hs, m) && FirstIndex(hs, m) == at
      invariant forall j | 0 <= j < i :: Occurrences(hs, hs[j]) <= best
      invariant forall j | 0 <= j < i && Occurrences(hs, hs[j]) == best :: at <= j
    {
      var n := Occurrences(hs, hs[i]);
      if n > best {
        FirstSeenAtI(hs, i);
        m, best, at := hs[i], n, i;
      }
    }
    MaxOverAll(hs, m);
  }

  /** A height that beats every earlier one has not occurred earlier. */
  lemma FirstSeenAtI(hs: seq<int>, i: nat)
    requires i < |hs|
    requires forall j | 0 <= j < i :: Occurrences(hs, hs[j]) < Occurrences(hs, hs[i])
    ensures FirstIndex(hs, hs[i]) == i
  {
    var f := FirstIndex(hs, hs[i]);
    if f < i {
      assert false;
    }
  }

  /** Maximal over the positions means maximal over every integer. */
  lemma MaxOverAll(hs: seq<int>, m: int)
    requires forall j | 0 <= j < |hs| :: Occurrences(hs, hs[j]) <= Occurrences(hs, m)
    ensures forall h :: Occurrences(hs, h) <= Occurrences(hs, m)
  {
    forall h | h in hs
      ensures Occurrences(hs, h) <= Occurrences(hs, m)
    {
      assert hs[FirstIndex(hs, h)] == h;
    }
  }

  /** `height > mode / 2 and height < mode * 1.5`, exactly, in integers. */
  predicate InBand(h: int, mode: int) {
    2 * h > mode && 2 * h < 3 * mode
  }

  /** a is b with some elements deleted, order kept. */
  predicate IsSubsequence<T(==)>(a: seq<T>, b: seq<T>)
    decreases |b|
  {
    |a| == 0 || (|b| > 0 && ((a[0] == b[0] && IsSubsequence(a[1..], b[1..])) || IsSubsequence(a, b[1..])))
  }

  /** The filter loop (lines 97-101). */
  function KeepInBand(boxes: seq<Box>, mode: int): (kept: seq<Box>)
    ensures IsSubsequence(kept, boxes)
    ensures forall b | b in kept :: InBand(Height(b), mode)
    ensures forall b | b in boxes && InBand(Height(b), mode) :: b in kept
    ensures forall b :: multiset(kept)[b] == (if InBand(Height(b), mode) then multiset(boxes)[b] else 0)
  {
    if |boxes| == 0 then []
    else
      assert boxes == [boxes[0]] + boxes[1..];
      if InBand(Height(boxes[0]), mode) then [boxes[0]] + KeepInBand(boxes[1..], mode)
      else KeepInBand(boxes[1..], mode)
  }

  /** With a positive mode every box of the modal height survives; with mode 0
      nothing does. */
  lemma {:induction false} ModalBoxesKept(boxes: seq<Box>, mode: int)
    ensures mode > 0 ==> forall b | b in boxes && Height(b) == mode :: b in KeepInBand(boxes, mode)
    ensures mode <= 0 ==> KeepInBand(boxes, mode) == []
  {
    if |boxes| > 0 {
      ModalBoxesKept(boxes[1..], mode);
    }
  }

  /** `get_text_boxes(current, previous, boxes)` given the binarised, dilated grid
      of the current frame. `detected` is the scan's box list and `mode` the
      modal height it computes. */
  method GetTextBoxes(current: Image, previous: Option<Image>, boxes: seq<Box>, dilation: Grid)
    returns (r: Result<seq<Box>, PyError>, ghost detected: seq<Box>, ghost mode: int,
             ghost seeds: seq<Pos>, ghost comps: seq<seq<Pos>>)
    requires previous.Some? ==> SameImageShape(current, previous.value)
    requires Rectangular(dilation)
    ensures Size(current) == 0 ==> r == Err(ZeroDivisionError)
    ensures Size(current) > 0 && 20 * Changes(current, Baseline(current, previous)) <= Size(current) ==> r == Ok(boxes)
    ensures Size(current) > 0 && 20 * Changes(current, Baseline(current, previous)) > Size(current) && No255(dilation) ==>
              r == Err(ValueError)
    ensures Size(current) > 0 && 20 * Changes(current, Baseline(current, previous)) > Size(current) && !No255(dilation) ==>
              && r.Ok?
              && Decomposed(dilation, detected, seeds, comps)
              && mode in Heights(detected)
              && (forall h :: Occurrences(Heights(detected), h) <= Occurrences(Heights(detected), mode))
              && (forall j | 0 <= j < |detected| && Occurrences(Heights(detected), Height(detected[j]))
                                                    == Occurrences(Heights(detected), mode) ::
                    FirstIndex(Heights(detected), mode) <= j)
              && IsSubsequence(r.value, detected)
              && (forall b | b in r.value :: InBand(Height(b), mode))
              && (forall b | b in detected && InBand(Height(b), mode) :: b in r.value)
              && (forall b :: multiset(r.value)[b] == (if InBand(Height(b), mode) then multiset(detected)[b] else 0))
  {
    detected, mode, seeds, comps := [], 0, [], [];
    match Recompute(current, previous)
    case Err(e) => r := Err(e);
    case Ok(changed) =>
      if !changed {
        r := Ok(boxes);
      } else {
        var found, _, seeds', comps' := Scan(dilation);
        detected, seeds, comps := found, seeds', comps';
        if |found| == 0 {
          r := Err(ValueError);
        } else {
          var m := ModeHeight(Heights(found));
          mode := m;
          r := Ok(KeepInBand(found, m));
        }
      }
  }
}
