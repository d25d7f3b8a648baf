# p5.js ASCII renderer: atlas and grid layout, in Dafny

This project models the integer layout core of a p5.js ASCII shader
renderer and proves properties of it with Dafny 4.11.

The renderer draws a scene into a frame buffer and hands it to a shader.
The shader replaces each grid cell with a glyph from a texture atlas. The
model covers the parts of the program that decide the numbers the shader
receives:

- **`CharacterSet`** (`characterset.dfy`, module `CharacterSets`). It
  drops glyphs without a code point. It computes the font-wide glyph cell
  as the ceiling of the largest glyph bounding box. It lays the N
  characters into a near-square atlas of `ceil(sqrt N)` columns and
  `ceil(N / cols)` rows. Character `i` is drawn at the origin of slot
  `(i % cols, floor(i / cols))`. The atlas is always built at the
  reference size 512; a font-size change updates only the layout cell.
- **`Grid`** (`grid2d.dfy`, module `Grid2D`). It computes how many whole
  cells fit in the viewport, the grid's pixel footprint, and the floor
  offset that centres it. A manual column/row override is possible. Any
  cell-size change re-derives the counts and discards that override.
- **Session glue** (`sketch.dfy`, module `Sketch`, and
  `asciicontroller.dfy`, module `AsciiController`). The sketch's globals
  `characterSet`, `grid` and `PARAMS` form one immutable session record.
  `setup`, `windowResized` and the controller handlers are functions from
  session to session. The uniforms set in `draw` are a record computed
  from the session.
- **`ColorTranslator`** (`colortranslator.dfy`). It turns `#rrggbb` into
  byte components and divides them by 255. `parseInt(…, 16)` is modelled
  as ECMAScript defines it: leading white space, an optional sign, an
  optional `0x` prefix, then the longest run of hex digits. `NaN` is
  `None`.
- **`EventEmitter`** (`eventemitter.dfy`). A map from event name to an
  ordered list of abstract listener identities. `emit` is the list of
  listeners it calls, in order.
- `intmath.dfy` (module `IntMath`) holds exact integer versions of
  `Math.ceil`, `Math.ceil(Math.sqrt(n))` and `Math.ceil(n / d)`.
  `wrappers.dfy` holds `Option`.

The browser globals `windowWidth`/`windowHeight` are an explicit
`Viewport` argument. The font is an explicit `Font` value: a units-per-em
scale and a glyph list. Each glyph has an optional code point and an
outline extent in font units. A glyph's bounding box at font size `s` is
its extent times `s / unitsPerEm`, which is how opentype.js scales a
glyph path.

## Model

| member | source | states |
|---|---|---|
| IntMath.Ceil | characterset.js:34-35 | `Math.ceil` on an exact real: the result is at least `x` and less than `x + 1` |
| IntMath.Max | characterset.js:34-35 | `Math.max` on non-NaN numbers: the result bounds both arguments and is one of them |
| IntMath.CeilSqrt | characterset.js:85 | atlas columns: `n <= c*c` and `(c-1)^2 < n`, and at least one column for a non-empty charset |
| IntMath.CeilSqrtFrom | characterset.js:85 | the upward search started below the answer ends at the least `c` with `n <= c*c` |
| IntMath.CeilSqrtUnique | characterset.js:85 | any `c >= 1` with `(c-1)^2 < n <= c^2` is the ceiling square root |
| IntMath.CeilDiv | characterset.js:86 | atlas rows: `n <= d*q` and `d*(q-1) < n`, the least such `q` |
| IntMath.CeilDivUnique | characterset.js:86 | any `q` with `d*(q-1) < n <= d*q` is the ceiling quotient |
| Grid2D.CellCount | grid2d.js:40-44 | the derived count is the most whole cells that fit: `n*cell <= W < (n+1)*cell` |
| Grid2D.CentreOffset | grid2d.js:31-32 | the offset is the floor of half the spare space: `2*o <= W - size < 2*o + 2`, negative when the grid is larger |
| Grid2D.ResizeGrid | grid2d.js:27-33 | afterwards footprint and offsets agree with counts, cell size and viewport; cell size and counts are kept |
| Grid2D.DeriveCounts | grid2d.js:40-44 | the stored counts are the fitting ones and no other field changes |
| Grid2D.NewGrid | grid2d.js:10-19 | the constructor keeps the cell size, derives fitting counts and a consistent footprint and offset |
| Grid2D.WindowResized | grid2d.js:50-56 | a resize keeps the cell size and leaves fitting counts with a consistent footprint and offset for the new viewport |
| Grid2D.ResizeGridCellDimensions | grid2d.js:64-69 | the override counts are stored verbatim, the cell size is unchanged, footprint and offset are recomputed |
| Grid2D.ResizeCellDimensions | grid2d.js:77-86 | the new cell size is stored and the counts are re-derived to fit the viewport |
| Grid2D.ConsistentIsCentred | grid2d.js:27-33 | every consistent grid is centred to within one pixel, and its offset is non-negative exactly when the footprint fits |
| Grid2D.DerivedGridInsideViewport | grid2d.js:27-44 | with derived counts the offsets are non-negative and the uncovered border is less than one cell |
| Grid2D.ConsistentUnique | grid2d.js:27-33 | footprint and offset are determined by cell size, counts and viewport |
| Grid2D.FitsUnique | grid2d.js:40-44 | only one count per axis fits a given cell size and viewport |
| Grid2D.DegenerateGrid | grid2d.js:27-44 | a viewport narrower than a cell gives 0 columns, width 0 and offset `floor(W/2)` |
| Grid2D.WindowResizedIsFresh | grid2d.js:10-56 | `windowResized` on any grid equals a freshly constructed grid with the same cell size |
| Grid2D.WindowResizedIdempotent | grid2d.js:50-56 | handling the same resize twice gives the same grid as once |
| Grid2D.CellResizeDiscardsOverride | grid2d.js:64-86 | a cell-size change after a manual override gives the fresh grid for that cell size |
| Grid2D.Scenario800x600 | grid2d.js:27-44 | a 10 x 18 cell in 800 x 600 gives 80 x 33 cells, 800 x 594 pixels, offset (0, 3) |
| Grid2D.OverrideOffsetFloors | grid2d.js:27-69 | 7 cells of 10 px in a 55 px viewport start at -8: floor, not truncation |
| CharacterSets.MappedGlyphs | characterset.js:17-18 | a glyph is kept exactly when it is in the font and has a code point, and no glyph is kept more often than the font lists it |
| CharacterSets.MaxFoldIsCeilOfMax | characterset.js:31-37 | the reduce from any start yields the least integer at or above the start and every glyph extent |
| CharacterSets.GetMaxGlyphDimensions | characterset.js:30-38 | integer width and height, each bounding every glyph's extent and within one of some glyph's extent unless 0; an empty list gives {0, 0} |
| CharacterSets.CeilOfMaxUnique | characterset.js:30-38 | two results that meet that characterisation for the same glyphs are equal |
| CharacterSets.MaxGlyphDimensionsOrderFree | characterset.js:30-38 | the maximum dimensions do not depend on glyph order or repetition |
| CharacterSets.UnmappedGlyphIgnored | characterset.js:17-20 | adding a glyph without a code point anywhere in the font leaves the cell unchanged |
| CharacterSets.AtlasLayoutBounds | characterset.js:85-86 | for N >= 1: `(cols-1)^2 < N <= cols^2`, `(rows-1)*cols < N <= cols*rows`, `(cols-1)*rows < N` and `1 <= rows <= cols` |
| CharacterSets.SlotsInjective | characterset.js:101-102 | distinct indices go to distinct (column, row) slots |
| CharacterSets.SlotInsideAtlas | characterset.js:85-102 | every index below N has a column below `cols` and a row below `rows` |
| CharacterSets.SlotOriginInside | characterset.js:91-104 | every slot's cell lies inside the `width*cols` by `height*rows` texture |
| CharacterSets.BuildAtlas | characterset.js:83-109 | the atlas is drawn at the requested size and is `cell width × cols` by `cell height × rows`; character i is drawn in order at the origin of slot `(i % cols, floor(i / cols))`, and its cell lies inside the texture |
| CharacterSets.DrawOriginsDistinct | characterset.js:100-107 | with a non-empty glyph cell, no two characters share a draw origin |
| CharacterSets.CreateTexture | characterset.js:83-109 | columns and rows meet the near-square bounds; the texture is `cell width × cols` by `cell height × rows` at the requested size, with character i drawn at its slot origin; no other field changes |
| CharacterSets.NewCharacterSet | characterset.js:11-23 | the constructor keeps font, size and characters and leaves a valid set with its atlas at size 512 |
| CharacterSets.SetFont | characterset.js:46-55 | a new font with its mapped glyphs and cell at the current size; characters and size are kept and the atlas is rebuilt |
| CharacterSets.SetCharacterSet | characterset.js:62-66 | the characters are replaced verbatim and the atlas rebuilt; font, size, glyphs and cell are kept; a valid character set stays valid |
| CharacterSets.SetFontSize | characterset.js:73-76 | only the size and the cell change; characters, columns, rows and texture are kept; a valid character set stays valid |
| CharacterSets.AtlasIgnoresFontSize | characterset.js:73-76 | character sets built at two font sizes share the same atlas, rasterised at text size 512 |
| CharacterSets.CellCoversEveryMappedGlyph | characterset.js:17-20 | in a new character set, every glyph of the font that has a code point fits in the cell |
| CharacterSets.DefaultCharsetLayout | characterset.js:85-86 | "0123456789" gives 4 columns and 3 rows with 2 blank trailing slots |
| CharacterSets.CharsetEditScenario | characterset.js:62-66 | editing "AB" to "ABCDE" grows the atlas from 2 x 1 to 3 x 2 and keeps font and size |
| ColorTranslator.TrimStartDropsWhiteSpace | utilities/colortranslator.js:12 | `parseInt` skips exactly the leading white space |
| ColorTranslator.HexDigitRunIsDigits | utilities/colortranslator.js:12 | `parseInt` reads the longest prefix of hex digits |
| ColorTranslator.Slice | utilities/colortranslator.js:12-14 | `slice` is the plain subsequence when in range, runs to the end when `to` passes it, and is empty when `from` passes it |
| ColorTranslator.HexToRgb | utilities/colortranslator.js:11-16 | on a string of 7 or more characters, the components are the parses of positions 1-2, 3-4 and 5-6 |
| ColorTranslator.ParseHexInt | utilities/colortranslator.js:12-14 | `parseInt(…, 16)` is `NaN` exactly when no hex digit follows the white space, sign and `0x` prefix; a negative result comes only from a leading `-` |
| ColorTranslator.ParseSignedDigit | utilities/colortranslator.js:12-14 | a sign then one digit: `-` negates the digit and `+` keeps it |
| ColorTranslator.ParseBarePrefix | utilities/colortranslator.js:12-14 | `"0x"` and `"0X"` alone parse to `NaN` |
| ColorTranslator.ParseDigitThenOther | utilities/colortranslator.js:12-14 | a digit then a non-digit (not a `0x` prefix) reads as the one digit |
| ColorTranslator.ParseNoLeadingDigit | utilities/colortranslator.js:12-14 | a string that starts with no white space, sign or digit parses to `NaN` |
| ColorTranslator.ParseTwoDigits | utilities/colortranslator.js:12-14 | two hex digits parse to `16*d0 + d1` |
| ColorTranslator.ParseByteAt | utilities/colortranslator.js:12-14 | the two digits at a position of the string parse to the byte they denote |
| ColorTranslator.HexToRgbWellFormed | utilities/colortranslator.js:11-16 | with hex digits, in either case, at positions 1-6, each component is defined and in [0, 255] |
| ColorTranslator.HexToRgbReadsOnlyDigits | utilities/colortranslator.js:12-14 | position 0 and everything after position 6 are ignored |
| ColorTranslator.HexRoundTrip | utilities/colortranslator.js:11-16 | writing three bytes as `#rrggbb` and parsing returns the same bytes |
| ColorTranslator.RgbToShaderColor | utilities/colortranslator.js:23-25 | each defined component times 255 gives back the input; `NaN` stays `NaN` |
| ColorTranslator.Normalise | utilities/colortranslator.js:24 | a defined component becomes the real `v / 255` (so `255 * s == v`), which lies in [0, 1] for a byte; `NaN` stays `NaN` |
| ColorTranslator.ShaderColorInUnitRange | utilities/colortranslator.js:23-25 | bytes map into [0, 1] in every component, with 0 exactly at 0 and 1 exactly at 255 |
| ColorTranslator.HexToShaderColor | utilities/colortranslator.js:32-34 | the composition of the two conversions; a well-formed string gives components in [0, 1] |
| ColorTranslator.WhiteIsOne | sketch.js:44 | "#ffffff" gives [255, 255, 255] and shader colour [1, 1, 1] |
| ColorTranslator.BlackIsZero | sketch.js:45 | "#000000" gives [0, 0, 0] and shader colour [0, 0, 0] |
| ColorTranslator.ShorthandNotExpanded | utilities/colortranslator.js:12-14 | the 3-digit form "#fff" is not expanded: it reads as [255, 15, NaN] |
| EventEmitter.NewEmitter | ui/eventemitter.js:8-10 | a new emitter has no event lists |
| EventEmitter.Emit | ui/eventemitter.js:31-35 | an event with no list calls no listener; otherwise its listeners are called in registration order |
| EventEmitter.On | ui/eventemitter.js:18-23 | the listener is appended to that event's emit order, and every other event's list is unchanged |
| EventEmitter.IndexOf | ui/eventemitter.js:45 | -1 exactly when absent, else the first position holding the listener |
| EventEmitter.RemoveListener | ui/eventemitter.js:43-50 | removing for one event leaves every other event's list unchanged |
| EventEmitter.RemoveListenerRemovesFirst | ui/eventemitter.js:43-50 | a registered listener loses its first occurrence only; the rest keep their order, and one copy leaves the multiset |
| EventEmitter.RemoveAbsentIsNoOp | ui/eventemitter.js:44-46 | removing an unregistered listener, or from an unknown event, changes nothing |
| EventEmitter.OnThenRemoveRestores | ui/eventemitter.js:18-50 | `on` then `removeListener` of a fresh listener restores what every event emits |
| EventEmitter.DuplicatesKept | ui/eventemitter.js:18-50 | registering twice calls the listener twice; one removal leaves one registration |
| Sketch.Setup | sketch.js:104-108 | the grid's cell is the glyph cell at font size 8, counts fit the viewport, the count parameters equal the grid's, other parameters are the defaults |
| Sketch.WindowResized | sketch.js:183-185 | counts re-derived for the new viewport and copied into the parameters; character set and cell size kept |
| Sketch.WindowResizedKeepsInv | sketch.js:183-185 | a resize keeps the session invariant for the new viewport |
| Sketch.DrawUniforms | sketch.js:139-151 | each shader uniform is bound to the session field the code names, and the colour uniforms are the shader colours of the colour parameters |
| Sketch.UniformsConsistent | sketch.js:141-146 | every character has an atlas slot with no empty row, one draw per character at size 512, pixel size = counts times the glyph cell, and the grid is centred to within a pixel |
| Sketch.DerivedUniformsInsideViewport | sketch.js:144-146 | with derived counts the grid uniforms give a non-negative offset, a footprint inside the viewport and the fitting counts |
| Sketch.ColourUniformsInRange | sketch.js:147-151 | well-formed colour parameters give colour uniforms in [0, 1] |
| Sketch.FirstFrameUniforms | sketch.js:139-151 | after setup: 10 characters in 4 x 3, white on black, colour modes 0 and 1, no inversion, grid counts equal to the count parameters |
| AsciiController.SetCharacters | ui/controllers/asciicontroller.js:32-34 | only the character set changes; grid and parameters are untouched; font, font size, glyphs and cell are kept |
| AsciiController.SetCharactersKeepsInv | ui/controllers/asciicontroller.js:32-34 | a charset edit keeps the session invariant and the synced counts |
| AsciiController.SetFont | ui/controllers/asciicontroller.js:41-50 | the new font's cell becomes the grid cell, counts fit the viewport and the count parameters equal them |
| AsciiController.SetGridDimensions | ui/controllers/asciicontroller.js:56-58 | the grid takes the count parameters, keeps its cell size and stays consistent |
| AsciiController.SetGridDimensionsKeepsInv | ui/controllers/asciicontroller.js:56-58 | a manual override keeps the session invariant |
| AsciiController.UiBoundedOverrideInside | ui/views/asciiview.js:34-40 | counts within the panel's bounds `[1, derived]` give a non-empty grid inside the viewport at non-negative offsets |
| AsciiController.SetFontSize | ui/controllers/asciicontroller.js:64-70 | font and glyphs are kept and the cell is the glyph cell at the new size; the grid cell equals it, counts fit and are copied to the parameters; the atlas is not rebuilt |
| AsciiController.FontSizeDiscardsManualCounts | ui/controllers/asciicontroller.js:64-70 | a font-size change after a manual override ends in the same session as without it |

## Left out

- Rasterisation is not modelled. This covers `createGraphics`, `pixelDensity`, `textFont`, `fill`, `textAlign`, `noStroke` and the pixels `text` writes. The atlas is its size plus the list of `text(character, x, y)` calls. The code makes a fresh buffer on every call and does no empty-glyph or zero-size check; the model adds neither.
- opentype.js glyph access is not modelled. A glyph is its code point plus its outline extent in font units. The bounding box at a size is that extent scaled by `size / unitsPerEm`.
- The font registry lookup `fontAssetManager.fonts[fontName]` is not modelled. `SetFont` takes the `Font` value. assets/managers/fontassetmanager.js is only a path table.
- CharacterSets.NewCharacterSet, CharacterSets.SetFont, CharacterSets.SetCharacterSet, CharacterSets.CreateTexture, CharacterSets.BuildAtlas and AsciiController.SetCharacters require at least one character. With an empty charset the code computes `rows = 0/0 = NaN`.
- Grid2D.CellSize is at least 1. For a zero cell size the code computes `Infinity` or `NaN` counts. So Sketch.Setup and AsciiController.SetFont require the font to give a non-empty cell (`Sketch.HasCell`). AsciiController.SetFontSize and AsciiController.FontSizeDiscardsManualCounts require the same of the glyphs the character set holds (`Sketch.CellIsNonEmpty`).
- Grid2D.ResizeGridCellDimensions takes natural counts. The panel only offers counts in `[1, derived]`. Negative counts from an imported preset are not modelled.
- Floating point is not modelled. `Math.sqrt`, `n / cols` and `/ 255` are exact integer or real operations in the model. The model does not reason about float rounding, or about `Math.max` with `NaN` extents.
- JavaScript strings are UTF-16 code units; Dafny's `char` is a Unicode scalar value. `slice` over a surrogate pair is not modelled. `parseInt` returning `-0` is modelled as 0.
- UI wiring is not modelled. This covers the Tweakpane views and overlay, preset import/export, recording, `keyPressed`, the demo scene and the shader pass in `draw`. It also covers `toggleAsciiShader`/`resetShader` and `initializeGridDimensionsFolder`. The parameters `desiredFrameRate`, `asciiShaderActive` and the recording fields are left out. The panel writes `asciiFontSize`, `asciiCharacterSet` and the colour fields through its own binding, not through the controller, so the controller transitions leave them alone. The font-file input emits "updateFont", but the controller listens for "setFont". The model has `setFont` as a transition only.
- Listener callbacks are not modelled: their arguments, their side effects, and any change they make to a list while `emit` runs. Event names that collide with `Object.prototype` members (`"__proto__"`, `"constructor"`) are treated as ordinary keys.
- In-place mutation and object identity are not modelled. The character set, grid and session are values, and each operation returns a new one.

## Code notes

- `createTexture` allocates a fresh buffer on every call and has no check for an empty glyph set (characterset.js:91). The model builds a new `Atlas` value each time.
- `hexToRgb` passes `NaN` components on when the string is malformed (utilities/colortranslator.js:12-14). `HexToRgb` yields `None` for such a component and `RgbToShaderColor` keeps it.
- The floor offset meets `W-1 <= 2*offset + width <= W` for every grid, manual overrides included (grid2d.js:31-32, `Grid2D.ConsistentIsCentred`).
