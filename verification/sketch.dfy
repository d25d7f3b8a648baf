/** The sketch's shared state as one session record: the character set,
    the grid and the `PARAMS` record, with `setup`, `windowResized` and
    the uniform record `draw` hands to the shader. */
module Sketch {
  import opened Wrappers
  import CharacterSets
  import Grid2D
  import ColorTranslator

  /** The `PARAMS` fields the core reads or writes. */
  datatype Params = Params(
    asciiFontSize: nat,
    gridCellCountX: nat,
    gridCellCountY: nat,
    asciiFont: string,
    asciiCharacterSet: string,
    asciiInvertCharacters: bool,
    asciiCharacterColorMode: int,
    asciiBackgroundColorMode: int,
    asciiCharacterColor: string,
    asciiBackgroundColor: string)

  /** The startup values of `PARAMS`; colour modes are 0 for sampled and
      1 for a fixed colour. */
  const DefaultParams: Params :=
    Params(8, 0, 0, "UrsaFont", "0123456789", false, 0, 1, "#ffffff", "#000000")

  datatype Session = Session(characterSet: CharacterSets.CharacterSet, grid: Grid2D.Grid, params: Params)

  /** The font yields a non-empty glyph cell at this size, so a grid can
      be laid out with it. */
  predicate HasCell(font: CharacterSets.Font, size: nat)
  {
    CellIsNonEmpty(CharacterSets.MappedGlyphs(font.glyphs), font.unitsPerEm, size)
  }

  predicate CellIsNonEmpty(glyphs: seq<CharacterSets.Glyph>, upm: CharacterSets.UnitsPerEm, size: nat)
  {
    var d := CharacterSets.GetMaxGlyphDimensions(glyphs, upm, size);
    d.width >= 1 && d.height >= 1
  }

  /** The grid's cells are the character set's glyph cells and its layout
      agrees with the viewport. */
  ghost predicate Inv(s: Session, vp: Grid2D.Viewport)
  {
    && CharacterSets.Valid(s.characterSet)
    && s.grid.cellWidth == s.characterSet.maxGlyphDimensions.width
    && s.grid.cellHeight == s.characterSet.maxGlyphDimensions.height
    && Grid2D.Consistent(s.grid, vp)
  }

  /** The count parameters show the grid's counts. */
  ghost predicate Synced(s: Session)
  {
    s.params.gridCellCountX == s.grid.cols && s.params.gridCellCountY == s.grid.rows
  }

  /** `setup`: the character set from the defaults, a grid with its glyph
      cell, and the count parameters copied from the grid. */
  function Setup(font: CharacterSets.Font, vp: Grid2D.Viewport): (s: Session)
    requires HasCell(font, DefaultParams.asciiFontSize)
    ensures Inv(s, vp) && Synced(s) && Grid2D.Fits(s.grid, vp)
    ensures s.characterSet.font == font
    ensures s.characterSet.fontSize == 8 && s.characterSet.characters == "0123456789"
    ensures s.params == DefaultParams.(gridCellCountX := s.grid.cols, gridCellCountY := s.grid.rows)
  {
    var cs := CharacterSets.NewCharacterSet(font, DefaultParams.asciiFontSize, DefaultParams.asciiCharacterSet);
    var grid := Grid2D.NewGrid(cs.maxGlyphDimensions.width, cs.maxGlyphDimensions.height, vp);
    Session(cs, grid, DefaultParams.(gridCellCountX := grid.cols, gridCellCountY := grid.rows))
  }

  /** `windowResized`: the grid re-derives its counts for the new viewport
      and the count parameters follow. */
  function WindowResized(s: Session, vp: Grid2D.Viewport): (r: Session)
    ensures Synced(r) && Grid2D.Fits(r.grid, vp) && Grid2D.Consistent(r.grid, vp)
    ensures r.characterSet == s.characterSet
    ensures r.grid.cellWidth == s.grid.cellWidth && r.grid.cellHeight == s.grid.cellHeight
    ensures r.params == s.params.(gridCellCountX := r.grid.cols, gridCellCountY := r.grid.rows)
  {
    var grid := Grid2D.WindowResized(s.grid, vp);
    Session(s.characterSet, grid, s.params.(gridCellCountX := grid.cols, gridCellCountY := grid.rows))
  }

  /** A resize keeps the session invariant, now for the new viewport. */
  lemma WindowResizedKeepsInv(s: Session, oldVp: Grid2D.Viewport, vp: Grid2D.Viewport)
    requires Inv(s, oldVp)
    ensures Inv(WindowResized(s, vp), vp)
  {
  }

  /** The values `draw` passes to the shader each frame. */
  datatype Uniforms = Uniforms(
    characterTexture: CharacterSets.Atlas,
    charsetCols: nat,
    charsetRows: nat,
    totalChars: nat,
    gridOffsetDimensions: (int, int),
    gridPixelDimensions: (int, int),
    gridDimensions: (int, int),
    characterColor: ColorTranslator.Triple<Option<real>>,
    characterColorMode: int,
    backgroundColor: ColorTranslator.Triple<Option<real>>,
    backgroundColorMode: int,
    invertMode: bool)

  /** The uniform assignments of `draw`, as a record read from the session. */
  function DrawUniforms(s: Session): (u: Uniforms)
    ensures u.characterTexture == s.characterSet.texture
    ensures u.charsetCols == s.characterSet.charsetCols && u.charsetRows == s.characterSet.charsetRows
    ensures u.totalChars == |s.characterSet.characters|
    ensures u.gridOffsetDimensions == (s.grid.offsetX, s.grid.offsetY)
    ensures u.gridPixelDimensions == (s.grid.width, s.grid.height)
    ensures u.gridDimensions == (s.grid.cols, s.grid.rows)
    ensures u.characterColor == ColorTranslator.HexToShaderColor(s.params.asciiCharacterColor)
    ensures u.backgroundColor == ColorTranslator.HexToShaderColor(s.params.asciiBackgroundColor)
    ensures u.characterColorMode == s.params.asciiCharacterColorMode
    ensures u.backgroundColorMode == s.params.asciiBackgroundColorMode
    ensures u.invertMode == s.params.asciiInvertCharacters
  {
    var cs, g, p := s.characterSet, s.grid, s.params;
    Uniforms(
      cs.texture, cs.charsetCols, cs.charsetRows, |cs.characters|,
      (g.offsetX, g.offsetY), (g.width, g.height), (g.cols, g.rows),
      ColorTranslator.HexToShaderColor(p.asciiCharacterColor), p.asciiCharacterColorMode,
      ColorTranslator.HexToShaderColor(p.asciiBackgroundColor), p.asciiBackgroundColorMode,
      p.asciiInvertCharacters)
  }

  /** In any session that keeps the invariant the uniforms agree with each
      other: every character has an atlas slot and no atlas row is empty,
      the texture holds one draw per character, the pixel size is the cell
      count times the glyph cell, and the grid is centred to within a
      pixel. */
  lemma {:induction false} UniformsConsistent(s: Session, vp: Grid2D.Viewport)
    requires Inv(s, vp)
    ensures var u := DrawUniforms(s);
            && (u.charsetRows - 1) * u.charsetCols < u.totalChars <= u.charsetCols * u.charsetRows
            && (u.charsetCols - 1) * (u.charsetCols - 1) < u.totalChars <= u.charsetCols * u.charsetCols
            && |u.characterTexture.draws| == u.totalChars
            && u.characterTexture.textSize == CharacterSets.ReferenceSize
            && u.gridPixelDimensions.0 == u.gridDimensions.0 * s.characterSet.maxGlyphDimensions.width
            && u.gridPixelDimensions.1 == u.gridDimensions.1 * s.characterSet.maxGlyphDimensions.height
            && vp.width - 1 <= 2 * u.gridOffsetDimensions.0 + u.gridPixelDimensions.0 <= vp.width
            && vp.height - 1 <= 2 * u.gridOffsetDimensions.1 + u.gridPixelDimensions.1 <= vp.height
  {
    CharacterSets.AtlasLayoutBounds(|s.characterSet.characters|);
    Grid2D.ConsistentIsCentred(s.grid, vp);
  }

  /** With derived counts the grid uniforms describe a footprint inside the
      viewport, at a non-negative offset. */
  lemma {:induction false} DerivedUniformsInsideViewport(s: Session, vp: Grid2D.Viewport)
    requires Inv(s, vp) && Grid2D.Fits(s.grid, vp)
    ensures var u := DrawUniforms(s);
            && 0 <= u.gridOffsetDimensions.0 && 0 <= u.gridOffsetDimensions.1
            && u.gridPixelDimensions.0 <= vp.width && u.gridPixelDimensions.1 <= vp.height
            && u.gridDimensions.0 == Grid2D.CellCount(vp.width, s.grid.cellWidth)
            && u.gridDimensions.1 == Grid2D.CellCount(vp.height, s.grid.cellHeight)
  {
    Grid2D.DerivedGridInsideViewport(s.grid, vp);
    var f := Grid2D.NewGrid(s.grid.cellWidth, s.grid.cellHeight, vp);
    Grid2D.FitsUnique(s.grid, f, vp);
  }

  /** Well-formed colour parameters give colour uniforms in the unit cube;
      modes and the invert flag pass through. */
  lemma {:induction false} ColourUniformsInRange(s: Session)
    requires ColorTranslator.WellFormedHex(s.params.asciiCharacterColor)
    requires ColorTranslator.WellFormedHex(s.params.asciiBackgroundColor)
    ensures var u := DrawUniforms(s);
            && u.characterColor.r.Some? && 0.0 <= u.characterColor.r.value <= 1.0
            && u.characterColor.g.Some? && 0.0 <= u.characterColor.g.value <= 1.0
            && u.characterColor.b.Some? && 0.0 <= u.characterColor.b.value <= 1.0
            && u.backgroundColor.r.Some? && 0.0 <= u.backgroundColor.r.value <= 1.0
            && u.backgroundColor.g.Some? && 0.0 <= u.backgroundColor.g.value <= 1.0
            && u.backgroundColor.b.Some? && 0.0 <= u.backgroundColor.b.value <= 1.0
  {
  }

  /** The first frame after `setup`: ten characters in a 4 x 3 atlas, white
      sampled characters on a fixed black background, no inversion, and
      the grid's derived counts. */
  lemma {:induction false} FirstFrameUniforms(font: CharacterSets.Font, vp: Grid2D.Viewport)
    requires HasCell(font, DefaultParams.asciiFontSize)
    ensures var s := Setup(font, vp);
            var u := DrawUniforms(s);
            && u.totalChars == 10 && u.charsetCols == 4 && u.charsetRows == 3
            && u.characterColor == ColorTranslator.Triple(Some(1.0), Some(1.0), Some(1.0))
            && u.backgroundColor == ColorTranslator.Triple(Some(0.0), Some(0.0), Some(0.0))
            && u.characterColorMode == 0 && u.backgroundColorMode == 1 && !u.invertMode
            && u.gridDimensions == (s.params.gridCellCountX, s.params.gridCellCountY)
            && s.grid.cellWidth == s.characterSet.maxGlyphDimensions.width
            && s.grid.cellHeight == s.characterSet.maxGlyphDimensions.height
  {
    var s := Setup(font, vp);
    CharacterSets.DefaultCharsetLayout();
    assert |s.characterSet.characters| == 10;
    ColorTranslator.WhiteIsOne();
    ColorTranslator.BlackIsZero();
  }
}
