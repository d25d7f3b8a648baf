/** The grid-layout engine (`Grid` in grid2d.js): how many whole cells of
    a fixed size fit in the viewport, the pixel footprint of those cells
    and the offset that centres the footprint. The browser globals
    `windowWidth`/`windowHeight` are the explicit `Viewport` argument. */
module Grid2D {

  /** A cell edge in pixels. The cell size comes from the ceiling of the
      largest glyph extent; a zero size (division by zero in the source)
      is excluded. */
  type CellSize = n: nat | n >= 1 witness 1

  datatype Viewport = Viewport(width: nat, height: nat)

  datatype Grid = Grid(
    cellWidth: CellSize, cellHeight: CellSize,
    cols: nat, rows: nat,
    width: nat, height: nat,
    offsetX: int, offsetY: int)

  /** `Math.floor(windowSize / cellSize)`: the most whole cells that fit. */
  function CellCount(viewport: nat, cell: CellSize): (n: nat)
    ensures n * cell <= viewport < (n + 1) * cell
  {
    viewport / cell
  }

  /** `Math.floor((windowSize - gridSize) / 2)`, negative when the grid is
      larger than the viewport. */
  function CentreOffset(viewport: int, size: int): (o: int)
    ensures 2 * o <= viewport - size < 2 * o + 2
  {
    (viewport - size) / 2
  }

  /** The footprint and the offset agree with the counts, the cell size
      and the viewport: what `_resizeGrid` establishes. */
  ghost predicate Consistent(g: Grid, vp: Viewport)
  {
    && g.width == g.cols * g.cellWidth
    && g.height == g.rows * g.cellHeight
    && g.offsetX == CentreOffset(vp.width, g.width)
    && g.offsetY == CentreOffset(vp.height, g.height)
  }

  /** The counts are the derived ones: no further whole cell would fit. */
  ghost predicate Fits(g: Grid, vp: Viewport)
  {
    && g.cols * g.cellWidth <= vp.width < (g.cols + 1) * g.cellWidth
    && g.rows * g.cellHeight <= vp.height < (g.rows + 1) * g.cellHeight
  }

  /** The footprint sits in the middle of the viewport, to within one
      pixel on each axis. */
  ghost predicate Centred(g: Grid, vp: Viewport)
  {
    && vp.width - 1 <= 2 * g.offsetX + g.width <= vp.width
    && vp.height - 1 <= 2 * g.offsetY + g.height <= vp.height
  }

  /** `_resizeGrid`: recomputes footprint and offset, keeping cell size and counts. */
  function ResizeGrid(g: Grid, vp: Viewport): (r: Grid)
    ensures Consistent(r, vp)
    ensures r.cellWidth == g.cellWidth && r.cellHeight == g.cellHeight
    ensures r.cols == g.cols && r.rows == g.rows
  {
    var width := g.cols * g.cellWidth;
    var height := g.rows * g.cellHeight;
    g.(width := width, height := height,
       offsetX := CentreOffset(vp.width, width),
       offsetY := CentreOffset(vp.height, height))
  }

  /** `_calculateGridCellDimensions` followed by storing the counts. */
  function DeriveCounts(g: Grid, vp: Viewport): (r: Grid)
    ensures r.cols * r.cellWidth <= vp.width < (r.cols + 1) * r.cellWidth
    ensures r.rows * r.cellHeight <= vp.height < (r.rows + 1) * r.cellHeight
    ensures r == g.(cols := r.cols, rows := r.rows)
  {
    g.(cols := CellCount(vp.width, g.cellWidth), rows := CellCount(vp.height, g.cellHeight))
  }

  /** The constructor: derived counts for the given cell size. */
  function NewGrid(cellWidth: CellSize, cellHeight: CellSize, vp: Viewport): (g: Grid)
    ensures g.cellWidth == cellWidth && g.cellHeight == cellHeight
    ensures Consistent(g, vp) && Fits(g, vp)
  {
    ResizeGrid(DeriveCounts(Grid(cellWidth, cellHeight, 0, 0, 0, 0, 0, 0), vp), vp)
  }

  /** `windowResized`: re-derives counts for the new viewport. */
  function WindowResized(g: Grid, vp: Viewport): (r: Grid)
    ensures r.cellWidth == g.cellWidth && r.cellHeight == g.cellHeight
    ensures Consistent(r, vp) && Fits(r, vp)
  {
    ResizeGrid(DeriveCounts(g, vp), vp)
  }

  /** `resizeGridCellDimensions`: a manual count override, stored verbatim. */
  function ResizeGridCellDimensions(g: Grid, cols: nat, rows: nat, vp: Viewport): (r: Grid)
    ensures r.cols == cols && r.rows == rows
    ensures r.cellWidth == g.cellWidth && r.cellHeight == g.cellHeight
    ensures Consistent(r, vp)
  {
    ResizeGrid(g.(cols := cols, rows := rows), vp)
  }

  /** `resizeCellDimensions`: a new cell size, with counts re-derived. */
  function ResizeCellDimensions(g: Grid, cellWidth: CellSize, cellHeight: CellSize, vp: Viewport): (r: Grid)
    ensures r.cellWidth == cellWidth && r.cellHeight == cellHeight
    ensures Consistent(r, vp) && Fits(r, vp)
  {
    ResizeGrid(DeriveCounts(g.(cellWidth := cellWidth, cellHeight := cellHeight), vp), vp)
  }

  /** Any consistent grid is centred, and its offset is non-negative
      exactly when its footprint fits in the viewport. */
  lemma ConsistentIsCentred(g: Grid, vp: Viewport)
    requires Consistent(g, vp)
    ensures Centred(g, vp)
    ensures g.offsetX >= 0 <==> g.width <= vp.width
    ensures g.offsetY >= 0 <==> g.height <= vp.height
  {
  }

  /** With derived counts the footprint never exceeds the viewport, so the
      offset is non-negative, and the uncovered border is less than a cell. */
  lemma DerivedGridInsideViewport(g: Grid, vp: Viewport)
    requires Consistent(g, vp) && Fits(g, vp)
    ensures 0 <= g.offsetX && 0 <= g.offsetY
    ensures g.width <= vp.width < g.width + g.cellWidth
    ensures g.height <= vp.height < g.height + g.cellHeight
  {
  }

  /** A consistent grid is determined by its cell size, counts and viewport. */
  lemma ConsistentUnique(g: Grid, h: Grid, vp: Viewport)
    requires Consistent(g, vp) && Consistent(h, vp)
    requires g.cellWidth == h.cellWidth && g.cellHeight == h.cellHeight
    requires g.cols == h.cols && g.rows == h.rows
    ensures g == h
  {
  }

  /** Derived counts are unique: `Fits` pins the counts down. */
  lemma {:induction false} FitsUnique(g: Grid, h: Grid, vp: Viewport)
    requires Fits(g, vp) && Fits(h, vp)
    requires g.cellWidth == h.cellWidth && g.cellHeight == h.cellHeight
    ensures g.cols == h.cols && g.rows == h.rows
  {
    CountUnique(vp.width, g.cellWidth, g.cols, h.cols);
    CountUnique(vp.height, g.cellHeight, g.rows, h.rows);
  }

  lemma {:induction false} CountUnique(viewport: nat, cell: CellSize, a: nat, b: nat)
    requires a * cell <= viewport < (a + 1) * cell
    requires b * cell <= viewport < (b + 1) * cell
    ensures a == b
  {
    if a < b {
      assert (a + 1) * cell <= b * cell by { MulRight(a + 1, b, cell); }
      assert false;
    } else if b < a {
      assert (b + 1) * cell <= a * cell by { MulRight(b + 1, a, cell); }
      assert false;
    }
  }

  lemma {:induction false} MulRight(a: nat, b: nat, k: nat)
    requires a <= b
    ensures a * k <= b * k
  {
    assert b * k - a * k == (b - a) * k;
  }

  /** A viewport narrower than one cell gives an empty column set, whose
      offset is half the viewport; likewise for rows when the viewport is
      also shorter than a cell. */
  lemma DegenerateGrid(cellWidth: CellSize, cellHeight: CellSize, vp: Viewport)
    requires vp.width < cellWidth
    ensures NewGrid(cellWidth, cellHeight, vp).cols == 0
    ensures NewGrid(cellWidth, cellHeight, vp).width == 0
    ensures NewGrid(cellWidth, cellHeight, vp).offsetX == vp.width / 2
    ensures vp.height < cellHeight ==>
              && NewGrid(cellWidth, cellHeight, vp).rows == 0
              && NewGrid(cellWidth, cellHeight, vp).height == 0
              && NewGrid(cellWidth, cellHeight, vp).offsetY == vp.height / 2
  {
  }

  /** `windowResized` on any grid is the grid the constructor would build
      for the same cell size at the new viewport. */
  lemma {:induction false} WindowResizedIsFresh(g: Grid, vp: Viewport)
    ensures WindowResized(g, vp) == NewGrid(g.cellWidth, g.cellHeight, vp)
  {
    var r := WindowResized(g, vp);
    var f := NewGrid(g.cellWidth, g.cellHeight, vp);
    FitsUnique(r, f, vp);
    ConsistentUnique(r, f, vp);
  }

  /** Handling the same resize twice changes nothing. */
  lemma {:induction false} WindowResizedIdempotent(g: Grid, vp: Viewport)
    ensures WindowResized(WindowResized(g, vp), vp) == WindowResized(g, vp)
  {
    WindowResizedIsFresh(g, vp);
    WindowResizedIsFresh(WindowResized(g, vp), vp);
  }

  /** A cell-size change discards any earlier manual count override. */
  lemma {:induction false} CellResizeDiscardsOverride(g: Grid, cols: nat, rows: nat,
                                                     cellWidth: CellSize, cellHeight: CellSize, vp: Viewport)
    ensures ResizeCellDimensions(ResizeGridCellDimensions(g, cols, rows, vp), cellWidth, cellHeight, vp)
            == NewGrid(cellWidth, cellHeight, vp)
  {
    var r := ResizeCellDimensions(ResizeGridCellDimensions(g, cols, rows, vp), cellWidth, cellHeight, vp);
    var f := NewGrid(cellWidth, cellHeight, vp);
    FitsUnique(r, f, vp);
    ConsistentUnique(r, f, vp);
  }

  /** The scenario of a 10 x 18 cell in an 800 x 600 viewport. */
  lemma Scenario800x600()
    ensures var g := NewGrid(10, 18, Viewport(800, 600));
            g.cols == 80 && g.rows == 33 && g.width == 800 && g.height == 594
            && g.offsetX == 0 && g.offsetY == 3
  {
  }

  /** An override wider than the viewport shifts the grid off-canvas with
      floor rounding: 7 cells of 10 in 55 pixels start at -8, not -7. */
  lemma OverrideOffsetFloors()
    ensures ResizeGridCellDimensions(NewGrid(10, 10, Viewport(55, 55)), 7, 7, Viewport(55, 55)).offsetX == -8
  {
  }
}
