/** Positions, boxes and integer grids as the text detector uses them.

    The source keeps positions as tuples whose component 0 indexes a frame's
    second numpy axis and component 1 its first axis (`X_ = 1`, `Y_ = 0`,
    and `frame[x, y]` with `x = pos[1]`). In image terms component 0 is the
    column and component 1 the row, which is what this model calls them;
    a grid is indexed `g[row][col]`. */
module Grid {

  /** A position tuple `(component 0, component 1)`. */
  datatype Pos = Pos(col: int, row: int)

  /** A box `((min col, min row), (max col, max row))`. */
  datatype Box = Box(lo: Pos, hi: Pos)

  type Grid = seq<seq<int>>

  function Width(g: Grid): nat {
    if |g| == 0 then 0 else |g[0]|
  }

  predicate Rectangular(g: Grid) {
    forall r | 0 <= r < |g| :: |g[r]| == Width(g)
  }

  predicate SameShape(a: Grid, b: Grid) {
    |a| == |b| && Width(a) == Width(b)
  }

  predicate InBounds(g: Grid, p: Pos) {
    0 <= p.row < |g| && 0 <= p.col < Width(g)
  }

  function At(g: Grid, p: Pos): int
    requires Rectangular(g) && InBounds(g, p)
  {
    g[p.row][p.col]
  }

  /** `frame[x, y] = v` */
  function Paint(g: Grid, p: Pos, v: int): (h: Grid)
    requires Rectangular(g) && InBounds(g, p)
    ensures Rectangular(h) && SameShape(h, g)
    ensures forall r, c | 0 <= r < |g| && 0 <= c < Width(g) ::
              h[r][c] == (if r == p.row && c == p.col then v else g[r][c])
  {
    g[p.row := g[p.row][p.col := v]]
  }

  /** `is_in_box`: inclusive on both corners, component by component. */
  predicate IsInBox(b: Box, c0: real, c1: real) {
    b.lo.col as real <= c0 <= b.hi.col as real && b.lo.row as real <= c1 <= b.hi.row as real
  }

  /** A corner or any point between them lies in its box. */
  lemma CornersInBox(b: Box)
    requires b.lo.col <= b.hi.col && b.lo.row <= b.hi.row
    ensures IsInBox(b, b.lo.col as real, b.lo.row as real)
    ensures IsInBox(b, b.hi.col as real, b.hi.row as real)
  {
  }

  predicate Contains(b: Box, p: Pos) {
    IsInBox(b, p.col as real, p.row as real)
  }

  /** The half-open interior the source iterates over: `range(min, max)` on both axes. */
  predicate InInterior(b: Box, r: int, c: int) {
    b.lo.row <= r < b.hi.row && b.lo.col <= c < b.hi.col
  }

  /** The two positions are 4-adjacent. */
  predicate Adjacent(p: Pos, q: Pos) {
    (p.row == q.row && (q.col == p.col - 1 || q.col == p.col + 1))
    || (p.col == q.col && (q.row == p.row - 1 || q.row == p.row + 1))
  }

  /** The neighbours `flood_fill` enqueues, in its order, each guarded by its bound check. */
  function Neighbours(g: Grid, p: Pos): (ns: seq<Pos>)
    requires InBounds(g, p)
    ensures forall q :: q in ns <==> InBounds(g, q) && Adjacent(p, q)
  {
    (if p.col > 0 then [Pos(p.col - 1, p.row)] else [])
    + (if p.col < Width(g) - 1 then [Pos(p.col + 1, p.row)] else [])
    + (if p.row > 0 then [Pos(p.col, p.row - 1)] else [])
    + (if p.row < |g| - 1 then [Pos(p.col, p.row + 1)] else [])
  }

  function RowCount(row: seq<int>): nat {
    if |row| == 0 then 0 else (if row[0] == 255 then 1 else 0) + RowCount(row[1..])
  }

  /** The number of 255 cells. */
  function Count255(g: Grid): nat {
    if |g| == 0 then 0 else RowCount(g[0]) + Count255(g[1..])
  }

  lemma {:induction false} RowCountUpdate(row: seq<int>, c: nat, v: int)
    requires c < |row| && row[c] == 255 && v != 255
    ensures RowCount(row[c := v]) + 1 == RowCount(row)
  {
    if c > 0 {
      assert row[c := v][1..] == row[1..][c - 1 := v];
      RowCountUpdate(row[1..], c - 1, v);
    } else {
      assert row[c := v][1..] == row[1..];
    }
  }

  lemma {:induction false} Count255Update(g: Grid, r: nat, row: seq<int>)
    requires r < |g|
    ensures Count255(g[r := row]) + RowCount(g[r]) == Count255(g) + RowCount(row)
  {
    if r > 0 {
      assert g[r := row][1..] == g[1..][r - 1 := row];
      Count255Update(g[1..], r - 1, row);
    } else {
      assert g[r := row][1..] == g[1..];
    }
  }

  /** Consuming a 255 cell lowers the count of 255 cells by one. */
  lemma PaintLowersCount(g: Grid, p: Pos, v: int)
    requires Rectangular(g) && InBounds(g, p) && At(g, p) == 255 && v != 255
    ensures Count255(Paint(g, p, v)) + 1 == Count255(g)
  {
    RowCountUpdate(g[p.row], p.col, v);
    Count255Update(g, p.row, g[p.row][p.col := v]);
  }
}
