/** `flood_fill`: a breadth-first fill with an explicit queue that consumes the
    4-connected component of 255 cells around a start position (marking it 128),
    computes the component's bounding box, and stamps the box's half-open
    interior with 128 as well. */
module FloodFill {
  import opened Grid

  /** Every cell of `after` is the cell of `before` or 128: 128 is the only value written. */
  predicate OnlyWrites128(before: Grid, after: Grid)
    requires Rectangular(before) && Rectangular(after) && SameShape(before, after)
  {
    forall r, c | 0 <= r < |before| && 0 <= c < Width(before) ::
      after[r][c] == before[r][c] || after[r][c] == 128
  }

  /** Cells differ from `frame` only where a 255 was consumed into 128 and recorded. */
  predicate ConsumedOnly(frame: Grid, f: Grid, pixels: seq<Pos>)
    requires Rectangular(frame) && Rectangular(f) && SameShape(frame, f)
  {
    forall r, c | 0 <= r < |frame| && 0 <= c < Width(frame) ::
      f[r][c] == frame[r][c] || (frame[r][c] == 255 && f[r][c] == 128 && Pos(c, r) in pixels)
  }

  predicate RecordedConsumed(frame: Grid, f: Grid, pixels: seq<Pos>)
    requires Rectangular(frame) && Rectangular(f) && SameShape(frame, f)
  {
    forall k | 0 <= k < |pixels| ::
      InBounds(frame, pixels[k]) && At(frame, pixels[k]) == 255 && At(f, pixels[k]) == 128
  }

  predicate QueueInBounds(frame: Grid, queue: seq<Pos>) {
    forall k | 0 <= k < |queue| :: InBounds(frame, queue[k])
  }

  /** Every 255 neighbour of a recorded cell is still waiting in the queue. */
  predicate PendingNeighbours(frame: Grid, f: Grid, pixels: seq<Pos>, queue: seq<Pos>)
    requires Rectangular(frame) && Rectangular(f) && SameShape(frame, f)
    requires forall k | 0 <= k < |pixels| :: InBounds(frame, pixels[k])
  {
    forall k, q | 0 <= k < |pixels| && q in Neighbours(frame, pixels[k]) :: At(f, q) != 255 || q in queue
  }

  /** Every recorded cell is the start or 4-adjacent to a cell recorded before it,
      so each is joined to the start through recorded cells. */
  predicate Chained(start: Pos, pixels: seq<Pos>) {
    forall k | 0 <= k < |pixels| ::
      pixels[k] == start || exists j | 0 <= j < k :: Adjacent(pixels[j], pixels[k])
  }

  /** Every queued cell is the start or a neighbour of a recorded cell. */
  predicate QueuedFrom(start: Pos, pixels: seq<Pos>, queue: seq<Pos>) {
    forall k | 0 <= k < |queue| ::
      queue[k] == start || exists j | 0 <= j < |pixels| :: Adjacent(pixels[j], queue[k])
  }

  /** Only the breadth-first discipline enqueues cells: popping keeps the chain. */
  lemma ChainSkip(start: Pos, pixels: seq<Pos>, queue: seq<Pos>)
    requires |queue| > 0 && QueuedFrom(start, pixels, queue)
    ensures QueuedFrom(start, pixels, queue[1..])
  {
    forall k | 0 <= k < |queue| - 1
      ensures queue[1..][k] == start || exists j | 0 <= j < |pixels| :: Adjacent(pixels[j], queue[1..][k])
    {
      assert queue[1..][k] == queue[k + 1];
    }
  }

  /** Recording the popped cell and enqueueing its neighbours keeps the chain. */
  lemma ChainPaint(frame: Grid, start: Pos, pixels: seq<Pos>, queue: seq<Pos>)
    requires |queue| > 0 && InBounds(frame, queue[0])
    requires Chained(start, pixels) && QueuedFrom(start, pixels, queue)
    ensures Chained(start, pixels + [queue[0]])
    ensures QueuedFrom(start, pixels + [queue[0]], queue[1..] + Neighbours(frame, queue[0]))
  {
    var n := queue[0];
    var pixels' := pixels + [n];
    var queue' := queue[1..] + Neighbours(frame, n);
    forall k | 0 <= k < |pixels'|
      ensures pixels'[k] == start || exists j | 0 <= j < k :: Adjacent(pixels'[j], pixels'[k])
    {
      if k < |pixels| {
        assert pixels'[k] == pixels[k];
        if pixels[k] != start {
          var j :| 0 <= j < k && Adjacent(pixels[j], pixels[k]);
          assert pixels'[j] == pixels[j];
        }
      } else if n != start {
        var j :| 0 <= j < |pixels| && Adjacent(pixels[j], n);
        assert pixels'[j] == pixels[j];
      }
    }
    forall k | 0 <= k < |queue'|
      ensures queue'[k] == start || exists j | 0 <= j < |pixels'| :: Adjacent(pixels'[j], queue'[k])
    {
      if k < |queue| - 1 {
        assert queue'[k] == queue[k + 1];
        if queue[k + 1] != start {
          var j :| 0 <= j < |pixels| && Adjacent(pixels[j], queue[k + 1]);
          assert pixels'[j] == pixels[j];
        }
      } else {
        assert queue'[k] in Neighbours(frame, n);
        assert pixels'[|pixels|] == n;
      }
    }
  }

  /** The invariant of the breadth-first loop. */
  predicate FillState(frame: Grid, start: Pos, f: Grid, pixels: seq<Pos>, queue: seq<Pos>)
    requires Rectangular(frame) && InBounds(frame, start)
  {
    && Rectangular(f) && SameShape(f, frame)
    && QueueInBounds(frame, queue)
    && ConsumedOnly(frame, f, pixels) && RecordedConsumed(frame, f, pixels)
    && PendingNeighbours(frame, f, pixels, queue)
    && (At(f, start) == 255 ==> start in queue)
    && (At(frame, start) != 255 ==> f == frame && pixels == [] && forall k | 0 <= k < |queue| :: queue[k] == start)
  }

  /** Popping a cell that is not 255 keeps the invariant. */
  lemma SkipStep(frame: Grid, start: Pos, f: Grid, pixels: seq<Pos>, queue: seq<Pos>)
    requires Rectangular(frame) && InBounds(frame, start)
    requires FillState(frame, start, f, pixels, queue)
    requires |queue| > 0 && At(f, queue[0]) != 255
    ensures FillState(frame, start, f, pixels, queue[1..])
  {
    forall q | q in queue && q != queue[0]
      ensures q in queue[1..]
    {
      var i :| 0 <= i < |queue| && queue[i] == q;
      assert queue[1..][i - 1] == q;
    }
  }

  /** Consuming a 255 cell and enqueueing its neighbours keeps the invariant. */
  lemma PaintStep(frame: Grid, start: Pos, f: Grid, pixels: seq<Pos>, queue: seq<Pos>)
    requires Rectangular(frame) && InBounds(frame, start)
    requires FillState(frame, start, f, pixels, queue)
    requires |queue| > 0 && At(f, queue[0]) == 255
    ensures var n := queue[0];
            FillState(frame, start, Paint(f, n, 128), pixels + [n], queue[1..] + Neighbours(frame, n))
  {
    var n := queue[0];
    var f' := Paint(f, n, 128);
    var pixels' := pixels + [n];
    var queue' := queue[1..] + Neighbours(frame, n);
    assert QueueInBounds(frame, queue');
    assert ConsumedOnly(frame, f', pixels') by {
      forall r, c | 0 <= r < |frame| && 0 <= c < Width(frame)
        ensures f'[r][c] == frame[r][c] || (frame[r][c] == 255 && f'[r][c] == 128 && Pos(c, r) in pixels')
      {
        if r == n.row && c == n.col {
          assert Pos(c, r) == n && pixels'[|pixels|] == n;
        } else {
          assert f'[r][c] == f[r][c];
          if f[r][c] != frame[r][c] {
            assert Pos(c, r) in pixels;
          }
        }
      }
    }
    assert RecordedConsumed(frame, f', pixels');
    forall k, q | 0 <= k < |pixels'| && q in Neighbours(frame, pixels'[k])
      ensures At(f', q) != 255 || q in queue'
    {
      if k == |pixels| {
        assert q in queue'[|queue| - 1..];
      } else if At(f', q) == 255 {
        assert pixels'[k] == pixels[k];
        assert q != n && At(f, q) == 255;
        assert q in queue;
        var i :| 0 <= i < |queue| && queue[i] == q;
        assert queue'[i - 1] == q;
      }
    }
    if At(f', start) == 255 {
      assert start != n && start in queue;
      var i :| 0 <= i < |queue| && queue[i] == start;
      assert queue'[i - 1] == start;
    }
  }

  /** The invariant of the breadth-first loop, with the chain of discovery. */
  predicate LoopState(frame: Grid, start: Pos, f: Grid, pixels: seq<Pos>, queue: seq<Pos>)
    requires Rectangular(frame) && InBounds(frame, start)
  {
    FillState(frame, start, f, pixels, queue) && Chained(start, pixels) && QueuedFrom(start, pixels, queue)
  }

  lemma LoopSkip(frame: Grid, start: Pos, f: Grid, pixels: seq<Pos>, queue: seq<Pos>)
    requires Rectangular(frame) && InBounds(frame, start)
    requires LoopState(frame, start, f, pixels, queue)
    requires |queue| > 0 && At(f, queue[0]) != 255
    ensures LoopState(frame, start, f, pixels, queue[1..])
  {
    SkipStep(frame, start, f, pixels, queue);
    ChainSkip(start, pixels, queue);
  }

  lemma LoopPaint(frame: Grid, start: Pos, f: Grid, pixels: seq<Pos>, queue: seq<Pos>)
    requires Rectangular(frame) && InBounds(frame, start)
    requires LoopState(frame, start, f, pixels, queue)
    requires |queue| > 0 && At(f, queue[0]) == 255
    ensures var n := queue[0];
            LoopState(frame, start, Paint(f, n, 128), pixels + [n], queue[1..] + Neighbours(frame, n))
    ensures Count255(Paint(f, queue[0], 128)) < Count255(f)
  {
    PaintStep(frame, start, f, pixels, queue);
    ChainPaint(frame, start, pixels, queue);
    PaintLowersCount(f, queue[0], 128);
  }

  /** With the queue empty, the invariant gives the loop's results. */
  lemma LoopDone(frame: Grid, start: Pos, f: Grid, pixels: seq<Pos>)
    requires Rectangular(frame) && InBounds(frame, start)
    requires LoopState(frame, start, f, pixels, [])
    ensures Rectangular(f) && SameShape(f, frame)
    ensures ConsumedOnly(frame, f, pixels) && RecordedConsumed(frame, f, pixels)
    ensures forall k, q | 0 <= k < |pixels| && q in Neighbours(frame, pixels[k]) :: At(f, q) != 255
    ensures At(frame, start) == 255 ==> At(f, start) == 128
    ensures At(frame, start) != 255 ==> f == frame && pixels == []
    ensures Chained(start, pixels)
  {
    assert PendingNeighbours(frame, f, pixels, []);
  }

  /** A consumed start is recorded, and being chained from it, it comes first. */
  lemma StartFirst(frame: Grid, start: Pos, f: Grid, pixels: seq<Pos>)
    requires Rectangular(frame) && InBounds(frame, start) && Rectangular(f) && SameShape(f, frame)
    requires ConsumedOnly(frame, f, pixels) && Chained(start, pixels)
    requires At(frame, start) == 255 && At(f, start) == 128
    ensures |pixels| > 0 && pixels[0] == start
  {
    assert f[start.row][start.col] != frame[start.row][start.col];
    assert Pos(start.col, start.row) in pixels;
  }

  /** The breadth-first loop (lines 11-34). No recorded cell is left with a 255
      neighbour, and every recorded cell was reached from the start through
      recorded, hence 255, cells. */
  method Consume(frame: Grid, start: Pos) returns (f: Grid, pixels: seq<Pos>)
    requires Rectangular(frame) && InBounds(frame, start)
    ensures Rectangular(f) && SameShape(f, frame)
    ensures ConsumedOnly(frame, f, pixels) && RecordedConsumed(frame, f, pixels)
    ensures forall k, q | 0 <= k < |pixels| && q in Neighbours(frame, pixels[k]) :: At(f, q) != 255
    ensures At(frame, start) == 255 ==> At(f, start) == 128
    ensures At(frame, start) != 255 ==> f == frame && pixels == []
    ensures Chained(start, pixels)
    ensures At(frame, start) == 255 ==> |pixels| > 0 && pixels[0] == start
  {
    f := frame;
    var queue := [start];
    pixels := [];
    while |queue| != 0
      invariant LoopState(frame, start, f, pixels, queue)
      decreases Count255(f), |queue|
    {
      var n := queue[0];
      if At(f, n) == 255 {
        LoopPaint(frame, start, f, pixels, queue);
        f := Paint(f, n, 128);
        pixels := pixels + [n];
        queue := queue[1..] + Neighbours(frame, n);
      } else {
        LoopSkip(frame, start, f, pixels, queue);
        queue := queue[1..];
      }
    }
    LoopDone(frame, start, f, pixels);
    if At(frame, start) == 255 {
      StartFirst(frame, start, f, pixels);
    }
  }

  /** Each coordinate of the corners is taken from the start or from a recorded
      cell: together with containment, each is the minimum or the maximum. */
  predicate Attained(start: Pos, pixels: seq<Pos>, lo: Pos, hi: Pos) {
    && (lo.col == start.col || exists k | 0 <= k < |pixels| :: pixels[k].col == lo.col)
    && (lo.row == start.row || exists k | 0 <= k < |pixels| :: pixels[k].row == lo.row)
    && (hi.col == start.col || exists k | 0 <= k < |pixels| :: pixels[k].col == hi.col)
    && (hi.row == start.row || exists k | 0 <= k < |pixels| :: pixels[k].row == hi.row)
  }

  /** The min/max loop (lines 36-44), starting from the start position. */
  method BoundingBox(frame: Grid, start: Pos, pixels: seq<Pos>) returns (box: Box)
    requires InBounds(frame, start)
    requires forall k | 0 <= k < |pixels| :: InBounds(frame, pixels[k])
    ensures Contains(box, start) && InBounds(frame, box.lo) && InBounds(frame, box.hi)
    ensures forall k | 0 <= k < |pixels| :: Contains(box, pixels[k])
    ensures box.lo.col <= box.hi.col && box.lo.row <= box.hi.row
    ensures pixels == [] ==> box == Box(start, start)
    ensures Attained(start, pixels, box.lo, box.hi)
  {
    var lo := start;
    var hi := start;
    for i := 0 to |pixels|
      invariant InBounds(frame, lo) && InBounds(frame, hi)
      invariant Attained(start, pixels[..i], lo, hi)
      invariant Contains(Box(lo, hi), start)
      invariant |pixels| == 0 ==> lo == start && hi == start
      invariant forall k | 0 <= k < i :: Contains(Box(lo, hi), pixels[k])
    {
      var p := pixels[i];
      lo := Pos(if p.col < lo.col then p.col else lo.col, if p.row < lo.row then p.row else lo.row);
      hi := Pos(if p.col > hi.col then p.col else hi.col, if p.row > hi.row then p.row else hi.row);
      AttainedExtend(start, pixels, i, lo, hi);
    }
    assert pixels[..|pixels|] == pixels;
    box := Box(lo, hi);
  }

  /** A corner coordinate attained over a prefix, or taken from the next cell,
      is attained over the longer prefix. */
  lemma AttainedExtend(start: Pos, pixels: seq<Pos>, i: nat, lo: Pos, hi: Pos)
    requires i < |pixels|
    requires lo.col == pixels[i].col || Attained(start, pixels[..i], Pos(lo.col, start.row), start)
    requires lo.row == pixels[i].row || Attained(start, pixels[..i], Pos(start.col, lo.row), start)
    requires hi.col == pixels[i].col || Attained(start, pixels[..i], start, Pos(hi.col, start.row))
    requires hi.row == pixels[i].row || Attained(start, pixels[..i], start, Pos(start.col, hi.row))
    ensures Attained(start, pixels[..i + 1], lo, hi)
  {
    var p := pixels[..i + 1];
    assert p[i] == pixels[i];
    assert forall k | 0 <= k < i :: p[k] == pixels[..i][k];
  }

  /** The stamping loops (lines 45-47): `range(min, max)` on both axes. */
  method Stamp(g: Grid, box: Box) returns (out: Grid)
    requires Rectangular(g) && InBounds(g, box.lo) && InBounds(g, box.hi)
    requires box.lo.col <= box.hi.col && box.lo.row <= box.hi.row
    ensures Rectangular(out) && SameShape(out, g)
    ensures forall r, c | 0 <= r < |g| && 0 <= c < Width(g) ::
              out[r][c] == (if InInterior(box, r, c) then 128 else g[r][c])
  {
    out := g;
    for r := box.lo.row to box.hi.row
      invariant Rectangular(out) && SameShape(out, g)
      invariant forall r', c' | 0 <= r' < |g| && 0 <= c' < Width(g) ::
                  out[r'][c'] == (if box.lo.row <= r' < r && box.lo.col <= c' < box.hi.col then 128 else g[r'][c'])
    {
      for c := box.lo.col to box.hi.col
        invariant Rectangular(out) && SameShape(out, g)
        invariant forall r', c' | 0 <= r' < |g| && 0 <= c' < Width(g) ::
                    out[r'][c'] == (if (box.lo.row <= r' < r && box.lo.col <= c' < box.hi.col)
                                       || (r' == r && box.lo.col <= c' < c)
                                    then 128 else g[r'][c'])
      {
        out := Paint(out, Pos(c, r), 128);
      }
    }
  }

  /** `flood_fill(frame, start_pos)`. It returns `((min col, min row), (max col, max row))`;
      `recorded` is its `pixels` list of the cells it consumed. */
  method Fill(frame: Grid, start: Pos) returns (out: Grid, box: Box, ghost recorded: seq<Pos>)
    requires Rectangular(frame) && InBounds(frame, start)
    ensures Rectangular(out) && SameShape(out, frame)
    ensures OnlyWrites128(frame, out)
    ensures At(frame, start) == 255 ==> At(out, start) == 128
    ensures At(frame, start) != 255 ==> out == frame && box == Box(start, start)
    ensures forall k | 0 <= k < |recorded| ::
              InBounds(frame, recorded[k]) && At(frame, recorded[k]) == 255
              && At(out, recorded[k]) == 128 && Contains(box, recorded[k])
    ensures Contains(box, start) && InBounds(frame, box.lo) && InBounds(frame, box.hi)
    ensures box.lo.col <= box.hi.col && box.lo.row <= box.hi.row
    ensures forall r, c | 0 <= r < |frame| && 0 <= c < Width(frame) && out[r][c] != frame[r][c] ::
              Pos(c, r) in recorded || InInterior(box, r, c)
    ensures forall r, c | 0 <= r < |frame| && 0 <= c < Width(frame) && InInterior(box, r, c) ::
              out[r][c] == 128
    ensures forall k, q | 0 <= k < |recorded| && InBounds(frame, q) && Adjacent(recorded[k], q) ::
              At(out, q) != 255
    ensures forall k, q | 0 <= k < |recorded| && InBounds(frame, q) && Adjacent(recorded[k], q) && At(frame, q) == 255 ::
              q in recorded
    ensures Chained(start, recorded)
    ensures Attained(start, recorded, box.lo, box.hi)
    ensures At(frame, start) == 255 ==> |recorded| > 0 && recorded[0] == start
  {
    var f, pixels := Consume(frame, start);
    box := BoundingBox(frame, start, pixels);
    out := Stamp(f, box);
    recorded := pixels;
    FillWrites(frame, start, f, pixels, box, out);
    FillUntouched(frame, start, f, pixels, box, out);
    FillNeighbours(frame, f, pixels, box, out);
    FillComponent(frame, f, pixels);
  }

  /** What `Stamp` leaves: the box interior is 128 and every other cell is kept. */
  predicate Stamped(g: Grid, box: Box, out: Grid)
    requires Rectangular(g)
  {
    && Rectangular(out) && SameShape(out, g)
    && forall r, c | 0 <= r < |g| && 0 <= c < Width(g) ::
         out[r][c] == (if InInterior(box, r, c) then 128 else g[r][c])
  }

  /** The cells `flood_fill` changes: the consumed ones and the stamped interior. */
  lemma FillWrites(frame: Grid, start: Pos, f: Grid, pixels: seq<Pos>, box: Box, out: Grid)
    requires Rectangular(frame) && InBounds(frame, start)
    requires Rectangular(f) && SameShape(f, frame)
    requires ConsumedOnly(frame, f, pixels) && RecordedConsumed(frame, f, pixels)
    requires At(frame, start) == 255 ==> At(f, start) == 128
    requires forall k | 0 <= k < |pixels| :: Contains(box, pixels[k])
    requires Stamped(f, box, out)
    ensures Rectangular(out) && SameShape(out, frame)
    ensures OnlyWrites128(frame, out)
    ensures At(frame, start) == 255 ==> At(out, start) == 128
    ensures forall k | 0 <= k < |pixels| ::
              InBounds(frame, pixels[k]) && At(frame, pixels[k]) == 255
              && At(out, pixels[k]) == 128 && Contains(box, pixels[k])
    ensures forall r, c | 0 <= r < |frame| && 0 <= c < Width(frame) && out[r][c] != frame[r][c] ::
              Pos(c, r) in pixels || InInterior(box, r, c)
    ensures forall r, c | 0 <= r < |frame| && 0 <= c < Width(frame) && InInterior(box, r, c) ::
              out[r][c] == 128
  {
  }

  /** A start that is not 255 leaves the frame as it was. */
  lemma FillUntouched(frame: Grid, start: Pos, f: Grid, pixels: seq<Pos>, box: Box, out: Grid)
    requires Rectangular(frame) && InBounds(frame, start) && Rectangular(f) && SameShape(f, frame)
    requires At(frame, start) != 255 ==> f == frame && pixels == []
    requires pixels == [] ==> box == Box(start, start)
    requires Stamped(f, box, out)
    ensures At(frame, start) != 255 ==> out == frame && box == Box(start, start)
  {
    if At(frame, start) != 255 {
      forall r | 0 <= r < |out|
        ensures out[r] == frame[r]
      {
        assert |out[r]| == |frame[r]|;
      }
    }
  }

  /** Stamping writes only 128, so no consumed cell gains a 255 neighbour. */
  lemma FillNeighbours(frame: Grid, f: Grid, pixels: seq<Pos>, box: Box, out: Grid)
    requires Rectangular(frame) && Rectangular(f) && SameShape(f, frame)
    requires forall k | 0 <= k < |pixels| :: InBounds(frame, pixels[k])
    requires forall k, q | 0 <= k < |pixels| && q in Neighbours(frame, pixels[k]) :: At(f, q) != 255
    requires Stamped(f, box, out)
    ensures forall k, q | 0 <= k < |pixels| && InBounds(frame, q) && Adjacent(pixels[k], q) ::
              At(out, q) != 255
  {
    forall k, q | 0 <= k < |pixels| && InBounds(frame, q) && Adjacent(pixels[k], q)
      ensures At(out, q) != 255
    {
      assert q in Neighbours(frame, pixels[k]);
      assert At(f, q) != 255;
      assert out[q.row][q.col] == 128 || out[q.row][q.col] == f[q.row][q.col];
    }
  }

  /** Every 255 neighbour of a recorded cell was recorded too: the recorded
      cells are closed under adjacency within the 255 cells of the frame. */
  lemma FillComponent(frame: Grid, f: Grid, pixels: seq<Pos>)
    requires Rectangular(frame) && Rectangular(f) && SameShape(f, frame)
    requires forall k | 0 <= k < |pixels| :: InBounds(frame, pixels[k])
    requires ConsumedOnly(frame, f, pixels)
    requires forall k, q | 0 <= k < |pixels| && q in Neighbours(frame, pixels[k]) :: At(f, q) != 255
    ensures forall k, q | 0 <= k < |pixels| && InBounds(frame, q) && Adjacent(pixels[k], q) && At(frame, q) == 255 ::
              q in pixels
  {
    forall k, q | 0 <= k < |pixels| && InBounds(frame, q) && Adjacent(pixels[k], q) && At(frame, q) == 255
      ensures q in pixels
    {
      assert q in Neighbours(frame, pixels[k]);
      assert At(f, q) != 255 && At(frame, q) == 255;
      assert f[q.row][q.col] != frame[q.row][q.col];
      assert Pos(q.col, q.row) in pixels;
    }
  }
}
