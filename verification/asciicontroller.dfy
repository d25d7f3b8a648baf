/** `AsciiController`: the handlers the ascii tab's events reach, as
    transitions of the session record. The viewport is the one current
    when the event arrives. */
module AsciiController {
  import CharacterSets
  import Grid2D
  import Sketch

  /** `setCharacters`: only the character set changes. */
  function SetCharacters(s: Sketch.Session, characters: seq<char>): (r: Sketch.Session)
    requires |characters| >= 1
    ensures r.grid == s.grid && r.params == s.params
    ensures r.characterSet.characters == characters
    ensures r.characterSet.font == s.characterSet.font
    ensures r.characterSet.fontSize == s.characterSet.fontSize
    ensures r.characterSet.glyphs == s.characterSet.glyphs
    ensures r.characterSet.maxGlyphDimensions == s.characterSet.maxGlyphDimensions
  {
    s.(characterSet := CharacterSets.SetCharacterSet(s.characterSet, characters))
  }

  lemma SetCharactersKeepsInv(s: Sketch.Session, characters: seq<char>, vp: Grid2D.Viewport)
    requires Sketch.Inv(s, vp) && Sketch.Synced(s) && |characters| >= 1
    ensures Sketch.Inv(SetCharacters(s, characters), vp) && Sketch.Synced(SetCharacters(s, characters))
  {
  }

  /** `setFont`: the character set takes the font, the grid takes its
      glyph cell with re-derived counts, and the count parameters follow. */
  function SetFont(s: Sketch.Session, font: CharacterSets.Font, vp: Grid2D.Viewport): (r: Sketch.Session)
    requires |s.characterSet.characters| >= 1
    requires Sketch.HasCell(font, s.characterSet.fontSize)
    ensures Sketch.Inv(r, vp) && Sketch.Synced(r) && Grid2D.Fits(r.grid, vp)
    ensures r.characterSet.font == font
    ensures r.characterSet.characters == s.characterSet.characters
    ensures r.characterSet.fontSize == s.characterSet.fontSize
    ensures r.params == s.params.(gridCellCountX := r.params.gridCellCountX, gridCellCountY := r.params.gridCellCountY)
  {
    var cs := CharacterSets.SetFont(s.characterSet, font);
    var grid := Grid2D.ResizeCellDimensions(s.grid, cs.maxGlyphDimensions.width, cs.maxGlyphDimensions.height, vp);
    Sketch.Session(cs, grid, s.params.(gridCellCountX := grid.cols, gridCellCountY := grid.rows))
  }

  /** `setGridDimensions`: the grid takes the count parameters as a manual
      override; the cell size stays. */
  function SetGridDimensions(s: Sketch.Session, vp: Grid2D.Viewport): (r: Sketch.Session)
    ensures r.grid.cols == s.params.gridCellCountX && r.grid.rows == s.params.gridCellCountY
    ensures r.grid.cellWidth == s.grid.cellWidth && r.grid.cellHeight == s.grid.cellHeight
    ensures Grid2D.Consistent(r.grid, vp) && Sketch.Synced(r)
    ensures r.characterSet == s.characterSet && r.params == s.params
  {
    s.(grid := Grid2D.ResizeGridCellDimensions(s.grid, s.params.gridCellCountX, s.params.gridCellCountY, vp))
  }

  lemma SetGridDimensionsKeepsInv(s: Sketch.Session, vp: Grid2D.Viewport)
    requires Sketch.Inv(s, vp)
    ensures Sketch.Inv(SetGridDimensions(s, vp), vp)
  {
  }

  /** The panel bounds each count to `[1, derived count]`; within those
      bounds the overridden grid stays inside the viewport and is not empty. */
  lemma {:induction false} UiBoundedOverrideInside(s: Sketch.Session, vp: Grid2D.Viewport)
    requires Sketch.Inv(s, vp)
    requires 1 <= s.params.gridCellCountX <= Grid2D.CellCount(vp.width, s.grid.cellWidth)
    requires 1 <= s.params.gridCellCountY <= Grid2D.CellCount(vp.height, s.grid.cellHeight)
    ensures var g := SetGridDimensions(s, vp).grid;
            && 0 <= g.offsetX && 0 <= g.offsetY
            && g.cellWidth <= g.width <= vp.width && g.cellHeight <= g.height <= vp.height
  {
    var g := SetGridDimensions(s, vp).grid;
    Grid2D.MulRight(1, g.cols, g.cellWidth);
    Grid2D.MulRight(1, g.rows, g.cellHeight);
    Grid2D.MulRight(g.cols, Grid2D.CellCount(vp.width, g.cellWidth), g.cellWidth);
    Grid2D.MulRight(g.rows, Grid2D.CellCount(vp.height, g.cellHeight), g.cellHeight);
    Grid2D.ConsistentIsCentred(g, vp);
  }

  /** `setFontSize`: the character set takes the size, the grid takes the
      new glyph cell with re-derived counts, and the count parameters
      follow; the atlas is not rebuilt. */
  function SetFontSize(s: Sketch.Session, fontSize: nat, vp: Grid2D.Viewport): (r: Sketch.Session)
    requires Sketch.CellIsNonEmpty(s.characterSet.glyphs, s.characterSet.font.unitsPerEm, fontSize)
    ensures CharacterSets.Valid(s.characterSet) ==> Sketch.Inv(r, vp)
    ensures Sketch.Synced(r) && Grid2D.Fits(r.grid, vp) && Grid2D.Consistent(r.grid, vp)
    ensures r.grid.cellWidth == r.characterSet.maxGlyphDimensions.width
    ensures r.grid.cellHeight == r.characterSet.maxGlyphDimensions.height
    ensures r.characterSet.fontSize == fontSize
    ensures r.characterSet.font == s.characterSet.font && r.characterSet.glyphs == s.characterSet.glyphs
    ensures r.characterSet.maxGlyphDimensions
            == CharacterSets.GetMaxGlyphDimensions(s.characterSet.glyphs, s.characterSet.font.unitsPerEm, fontSize)
    ensures r.characterSet.texture == s.characterSet.texture
    ensures r.characterSet.charsetCols == s.characterSet.charsetCols
    ensures r.characterSet.charsetRows == s.characterSet.charsetRows
    ensures r.characterSet.characters == s.characterSet.characters
    ensures r.params == s.params.(gridCellCountX := r.params.gridCellCountX, gridCellCountY := r.params.gridCellCountY)
  {
    var cs := CharacterSets.SetFontSize(s.characterSet, fontSize);
    var grid := Grid2D.ResizeCellDimensions(s.grid, cs.maxGlyphDimensions.width, cs.maxGlyphDimensions.height, vp);
    Sketch.Session(cs, grid, s.params.(gridCellCountX := grid.cols, gridCellCountY := grid.rows))
  }

  /** A font-size change after a manual override ends in the same session
      as without the override: the counts are re-derived from the viewport. */
  lemma {:induction false} FontSizeDiscardsManualCounts(s: Sketch.Session, fontSize: nat, vp: Grid2D.Viewport)
    requires Sketch.CellIsNonEmpty(s.characterSet.glyphs, s.characterSet.font.unitsPerEm, fontSize)
    ensures SetFontSize(SetGridDimensions(s, vp), fontSize, vp) == SetFontSize(s, fontSize, vp)
  {
    var d := CharacterSets.SetFontSize(s.characterSet, fontSize).maxGlyphDimensions;
    Grid2D.CellResizeDiscardsOverride(s.grid, s.params.gridCellCountX, s.params.gridCellCountY, d.width, d.height, vp);
    var a := Grid2D.ResizeCellDimensions(s.grid, d.width, d.height, vp);
    var b := Grid2D.NewGrid(d.width, d.height, vp);
    Grid2D.FitsUnique(a, b, vp);
    Grid2D.ConsistentUnique(a, b, vp);
  }
}
