/** The glyph-atlas builder (`CharacterSet` in characterset.js): the
    font-wide glyph cell, the near-square atlas layout of the characters
    and the cell origins at which each character is drawn. Rasterisation
    itself is not modelled: the atlas is the list of `text` calls. */
module CharacterSets {
  import opened Wrappers
  import opened IntMath

  type UnitsPerEm = n: nat | n >= 1 witness 1

  /** One glyph of the font: its code point (`None` when the font gives it
      none) and the extent of its outline's bounding box in font units. */
  datatype Glyph = Glyph(unicode: Option<nat>, unitsWidth: real, unitsHeight: real)

  datatype Font = Font(name: string, unitsPerEm: UnitsPerEm, glyphs: seq<Glyph>)

  datatype Dims = Dims(width: int, height: int)

  /** One `text(character, x, y)` call into the atlas buffer. */
  datatype Draw = Draw(character: char, x: int, y: int)

  /** The atlas buffer: its text size, its pixel size and what is drawn into it. */
  datatype Atlas = Atlas(textSize: nat, width: int, height: int, draws: seq<Draw>)

  datatype CharacterSet = CharacterSet(
    font: Font,
    fontSize: nat,
    characters: seq<char>,
    glyphs: seq<Glyph>,
    maxGlyphDimensions: Dims,
    charsetCols: nat,
    charsetRows: nat,
    texture: Atlas)

  /** Every caller rasterises the atlas at this size, whatever `fontSize` is. */
  const ReferenceSize: nat := 512

  /** Bounding-box width and height of a glyph's path at a font size: the
      outline in font units scaled by `size / unitsPerEm`. */
  function ExtentWidth(g: Glyph, upm: UnitsPerEm, size: nat): real
  {
    g.unitsWidth * (size as real) / (upm as real)
  }

  function ExtentHeight(g: Glyph, upm: UnitsPerEm, size: nat): real
  {
    g.unitsHeight * (size as real) / (upm as real)
  }

  /** The glyph list kept after dropping glyphs whose `unicode` is undefined. */
  function MappedGlyphs(gs: seq<Glyph>): (r: seq<Glyph>)
    ensures forall g :: g in r <==> g in gs && g.unicode.Some?
    ensures |r| <= |gs|
    ensures multiset(r) <= multiset(gs)
  {
    if |gs| == 0 then []
    else
      assert gs == [gs[0]] + gs[1..];
      if gs[0].unicode.Some? then [gs[0]] + MappedGlyphs(gs[1..])
      else MappedGlyphs(gs[1..])
  }

  /** One step of the `reduce` in `getMaxGlyphDimensions`. */
  function MaxStep(acc: Dims, g: Glyph, upm: UnitsPerEm, size: nat): Dims
  {
    Dims(Ceil(Max(acc.width as real, ExtentWidth(g, upm, size))),
         Ceil(Max(acc.height as real, ExtentHeight(g, upm, size))))
  }

  /** The `reduce` itself, a left fold in list order. */
  function MaxFold(acc: Dims, gs: seq<Glyph>, upm: UnitsPerEm, size: nat): Dims
    decreases |gs|
  {
    if |gs| == 0 then acc else MaxFold(MaxStep(acc, gs[0], upm, size), gs[1..], upm, size)
  }

  /** `d` is the ceiling of the largest extent, or `lo` if that is larger:
      it bounds every glyph, and unless it is `lo` one glyph needs all of it. */
  ghost predicate IsCeilOfMax(d: Dims, lo: Dims, gs: seq<Glyph>, upm: UnitsPerEm, size: nat)
  {
    && lo.width <= d.width && lo.height <= d.height
    && (forall g | g in gs :: ExtentWidth(g, upm, size) <= d.width as real)
    && (forall g | g in gs :: ExtentHeight(g, upm, size) <= d.height as real)
    && (d.width == lo.width || exists g | g in gs :: d.width as real - 1.0 < ExtentWidth(g, upm, size))
    && (d.height == lo.height || exists g | g in gs :: d.height as real - 1.0 < ExtentHeight(g, upm, size))
  }

  lemma {:induction false} MaxFoldIsCeilOfMax(acc: Dims, gs: seq<Glyph>, upm: UnitsPerEm, size: nat)
    ensures IsCeilOfMax(MaxFold(acc, gs, upm, size), acc, gs, upm, size)
    decreases |gs|
  {
    if |gs| > 0 {
      var g0 := gs[0];
      var step := MaxStep(acc, g0, upm, size);
      var r := MaxFold(step, gs[1..], upm, size);
      MaxFoldIsCeilOfMax(step, gs[1..], upm, size);
      CeilOfInt(acc.width);
      CeilOfInt(acc.height);
      CeilMonotone(acc.width as real, Max(acc.width as real, ExtentWidth(g0, upm, size)));
      CeilMonotone(acc.height as real, Max(acc.height as real, ExtentHeight(g0, upm, size)));
      forall g | g in gs
        ensures ExtentWidth(g, upm, size) <= r.width as real
        ensures ExtentHeight(g, upm, size) <= r.height as real
      {
        if g != g0 {
          assert g in gs[1..];
        }
      }
      if r.width != acc.width && r.width == step.width {
        assert step.width as real - 1.0 < ExtentWidth(g0, upm, size);
      }
      if r.width != step.width {
        var g :| g in gs[1..] && r.width as real - 1.0 < ExtentWidth(g, upm, size);
        assert g in gs;
      }
      if r.height != acc.height && r.height == step.height {
        assert step.height as real - 1.0 < ExtentHeight(g0, upm, size);
      }
      if r.height != step.height {
        var g :| g in gs[1..] && r.height as real - 1.0 < ExtentHeight(g, upm, size);
        assert g in gs;
      }
    }
  }

  /** `getMaxGlyphDimensions(size)`: integer width and height, each the
      ceiling of the largest glyph extent, with `{0, 0}` as the floor (and
      the result for an empty glyph list). */
  function GetMaxGlyphDimensions(gs: seq<Glyph>, upm: UnitsPerEm, size: nat): (d: Dims)
    ensures IsCeilOfMax(d, Dims(0, 0), gs, upm, size)
  {
    MaxFoldIsCeilOfMax(Dims(0, 0), gs, upm, size);
    MaxFold(Dims(0, 0), gs, upm, size)
  }

  /** The characterisation pins the result down: two results for the same
      glyphs, however computed, coincide. */
  lemma {:induction false} CeilOfMaxUnique(d: Dims, e: Dims, lo: Dims, gs: seq<Glyph>, hs: seq<Glyph>,
                                           upm: UnitsPerEm, size: nat)
    requires forall g :: g in gs <==> g in hs
    requires IsCeilOfMax(d, lo, gs, upm, size) && IsCeilOfMax(e, lo, hs, upm, size)
    ensures d == e
  {
  }

  /** The maximum dimensions depend on which glyphs there are, not on their
      order or repetition. */
  lemma {:induction false} MaxGlyphDimensionsOrderFree(gs: seq<Glyph>, hs: seq<Glyph>, upm: UnitsPerEm, size: nat)
    requires forall g :: g in gs <==> g in hs
    ensures GetMaxGlyphDimensions(gs, upm, size) == GetMaxGlyphDimensions(hs, upm, size)
  {
    CeilOfMaxUnique(GetMaxGlyphDimensions(gs, upm, size), GetMaxGlyphDimensions(hs, upm, size),
                    Dims(0, 0), gs, hs, upm, size);
  }

  /** Glyphs without a code point never influence the cell size: adding one
      to a font leaves the maximum over its mapped glyphs unchanged. */
  lemma {:induction false} UnmappedGlyphIgnored(gs: seq<Glyph>, u: Glyph, i: nat, upm: UnitsPerEm, size: nat)
    requires u.unicode.None? && i <= |gs|
    ensures GetMaxGlyphDimensions(MappedGlyphs(gs[..i] + [u] + gs[i..]), upm, size)
            == GetMaxGlyphDimensions(MappedGlyphs(gs), upm, size)
  {
    var hs := gs[..i] + [u] + gs[i..];
    forall g
      ensures g in MappedGlyphs(hs) <==> g in MappedGlyphs(gs)
    {
      assert gs == gs[..i] + gs[i..];
      assert g in hs <==> g == u || g in gs;
    }
    MaxGlyphDimensionsOrderFree(MappedGlyphs(hs), MappedGlyphs(gs), upm, size);
  }

  /** Atlas columns and rows for `n` characters. */
  function AtlasCols(n: nat): nat
  {
    CeilSqrt(n)
  }

  function AtlasRows(n: nat): nat
    requires n >= 1
  {
    CeilDiv(n, CeilSqrt(n))
  }

  /** The layout is near-square and tight: every character gets a slot,
      and neither a whole row nor a whole column of the atlas is empty. */
  lemma {:induction false} AtlasLayoutBounds(n: nat)
    requires n >= 1
    ensures var cols, rows := AtlasCols(n), AtlasRows(n);
            && 1 <= rows <= cols
            && (cols - 1) * (cols - 1) < n <= cols * cols
            && (rows - 1) * cols < n <= cols * rows
            && (cols - 1) * rows < n
  {
    var cols, rows := AtlasCols(n), AtlasRows(n);
    assert rows >= 1;
    if rows > cols {
      MulLeft(cols, cols, rows - 1);
      assert false;
    }
    if n <= cols * (cols - 1) {
      assert rows <= cols - 1;
      MulLeft(cols - 1, rows, cols - 1);
    } else {
      assert rows == cols by {
        if rows < cols {
          MulLeft(cols, rows, cols - 1);
          assert false;
        }
      }
    }
  }

  /** Slot `i` is cell `(i % cols, floor(i / cols))`; distinct slots map to
      distinct cells, and every slot below `n` lies inside the atlas grid. */
  lemma {:induction false} SlotsInjective(i: nat, j: nat, cols: nat)
    requires cols >= 1
    requires i != j
    ensures (i % cols, i / cols) != (j % cols, j / cols)
  {
    assert i == cols * (i / cols) + i % cols;
    assert j == cols * (j / cols) + j % cols;
  }

  lemma {:induction false} SlotInsideAtlas(i: nat, n: nat)
    requires i < n
    ensures i % AtlasCols(n) < AtlasCols(n)
    ensures i / AtlasCols(n) < AtlasRows(n)
  {
    var cols, rows := AtlasCols(n), AtlasRows(n);
    AtlasLayoutBounds(n);
    assert i == cols * (i / cols) + i % cols;
    if i / cols >= rows {
      MulLeft(cols, rows, i / cols);
      assert false;
    }
  }

  /** The layout arithmetic of `createTexture(size)`: the atlas is
      `dims.width * cols` by `dims.height * rows` where `dims` is the
      maximum glyph cell at `size`, and character `i` is drawn at the
      origin of its slot. */
  function BuildAtlas(glyphs: seq<Glyph>, upm: UnitsPerEm, characters: seq<char>, size: nat): (a: Atlas)
    requires |characters| >= 1
    ensures a.textSize == size
    ensures |a.draws| == |characters|
    ensures var d := GetMaxGlyphDimensions(glyphs, upm, size);
            a.width == d.width * AtlasCols(|characters|) && a.height == d.height * AtlasRows(|characters|)
    ensures forall i | 0 <= i < |a.draws| :: a.draws[i].character == characters[i]
    ensures var d, cols := GetMaxGlyphDimensions(glyphs, upm, size), AtlasCols(|characters|);
            forall i | 0 <= i < |a.draws| ::
              a.draws[i].x == d.width * (i % cols) && a.draws[i].y == d.height * (i / cols)
    ensures var d := GetMaxGlyphDimensions(glyphs, upm, size);
            forall i | 0 <= i < |a.draws| ::
              && 0 <= a.draws[i].x && a.draws[i].x + d.width <= a.width
              && 0 <= a.draws[i].y && a.draws[i].y + d.height <= a.height
  {
    var n := |characters|;
    var cols := AtlasCols(n);
    var rows := AtlasRows(n);
    var d := GetMaxGlyphDimensions(glyphs, upm, size);
    forall i | 0 <= i < n
      ensures 0 <= d.width * (i % cols) && d.width * (i % cols) + d.width <= d.width * cols
      ensures 0 <= d.height * (i / cols) && d.height * (i / cols) + d.height <= d.height * rows
    {
      SlotOriginInside(i, n, d);
    }
    Atlas(size, d.width * cols, d.height * rows,
          seq(n, i requires 0 <= i < n => Draw(characters[i], d.width * (i % cols), d.height * (i / cols))))
  }

  /** The origin of slot `i` and the cell after it stay inside the atlas. */
  lemma {:induction false} SlotOriginInside(i: nat, n: nat, d: Dims)
    requires i < n
    requires d.width >= 0 && d.height >= 0
    ensures var cols, rows := AtlasCols(n), AtlasRows(n);
            && 0 <= d.width * (i % cols) && d.width * (i % cols) + d.width <= d.width * cols
            && 0 <= d.height * (i / cols) && d.height * (i / cols) + d.height <= d.height * rows
  {
    var cols, rows := AtlasCols(n), AtlasRows(n);
    SlotInsideAtlas(i, n);
    CellInside(d.width, i % cols, cols);
    CellInside(d.height, i / cols, rows);
  }

  /** Cell `idx` of `count` cells of size `k` ends inside the strip. */
  lemma {:induction false} CellInside(k: nat, idx: nat, count: nat)
    requires idx < count
    ensures 0 <= k * idx && k * idx + k <= k * count
  {
    MulLeft(k, idx + 1, count);
    assert k * (idx + 1) == k * idx + k;
  }

  /** With a non-empty glyph cell no two characters are drawn at the same
      origin. */
  lemma {:induction false} DrawOriginsDistinct(glyphs: seq<Glyph>, upm: UnitsPerEm, characters: seq<char>,
                                               size: nat, i: nat, j: nat)
    requires |characters| >= 1
    requires i < |characters| && j < |characters| && i != j
    requires GetMaxGlyphDimensions(glyphs, upm, size).width >= 1
    requires GetMaxGlyphDimensions(glyphs, upm, size).height >= 1
    ensures var a := BuildAtlas(glyphs, upm, characters, size);
            (a.draws[i].x, a.draws[i].y) != (a.draws[j].x, a.draws[j].y)
  {
    var d := GetMaxGlyphDimensions(glyphs, upm, size);
    var cols := AtlasCols(|characters|);
    SlotsInjective(i, j, cols);
    if i % cols != j % cols {
      MulInjective(d.width, i % cols, j % cols);
    } else {
      MulInjective(d.height, i / cols, j / cols);
    }
  }

  lemma {:induction false} MulInjective(k: int, a: int, b: int)
    requires k >= 1 && a != b
    ensures k * a != k * b
  {
    if a < b {
      assert k * b - k * a == k * (b - a);
    } else {
      assert k * a - k * b == k * (a - b);
    }
  }

  /** `createTexture({ fontSize })`: sets the atlas columns, rows and
      texture and nothing else. */
  function CreateTexture(cs: CharacterSet, size: nat): (r: CharacterSet)
    requires |cs.characters| >= 1
    ensures (r.charsetCols - 1) * (r.charsetCols - 1) < |r.characters| <= r.charsetCols * r.charsetCols
    ensures (r.charsetRows - 1) * r.charsetCols < |r.characters| <= r.charsetCols * r.charsetRows
    ensures r.texture.textSize == size && |r.texture.draws| == |cs.characters|
    ensures var d := GetMaxGlyphDimensions(cs.glyphs, cs.font.unitsPerEm, size);
            r.texture.width == d.width * r.charsetCols && r.texture.height == d.height * r.charsetRows
    ensures forall i | 0 <= i < |r.texture.draws| :: r.texture.draws[i].character == cs.characters[i]
    ensures var d := GetMaxGlyphDimensions(cs.glyphs, cs.font.unitsPerEm, size);
            forall i | 0 <= i < |r.texture.draws| ::
              r.texture.draws[i].x == d.width * (i % r.charsetCols) && r.texture.draws[i].y == d.height * (i / r.charsetCols)
    ensures r == cs.(charsetCols := r.charsetCols, charsetRows := r.charsetRows, texture := r.texture)
  {
    var n := |cs.characters|;
    AtlasLayoutBounds(n);
    cs.(charsetCols := AtlasCols(n), charsetRows := AtlasRows(n),
        texture := BuildAtlas(cs.glyphs, cs.font.unitsPerEm, cs.characters, size))
  }

  /** The state every public operation leaves behind. */
  ghost predicate Valid(cs: CharacterSet)
  {
    && cs.glyphs == MappedGlyphs(cs.font.glyphs)
    && cs.maxGlyphDimensions == GetMaxGlyphDimensions(cs.glyphs, cs.font.unitsPerEm, cs.fontSize)
    && |cs.characters| >= 1
    && cs.charsetCols == AtlasCols(|cs.characters|)
    && cs.charsetRows == AtlasRows(|cs.characters|)
    && cs.texture == BuildAtlas(cs.glyphs, cs.font.unitsPerEm, cs.characters, ReferenceSize)
  }

  /** The constructor: mapped glyphs, the cell at `fontSize`, and an atlas
      rasterised at the reference size. */
  function NewCharacterSet(font: Font, fontSize: nat, characters: seq<char>): (cs: CharacterSet)
    requires |characters| >= 1
    ensures Valid(cs)
    ensures cs.font == font && cs.fontSize == fontSize && cs.characters == characters
  {
    var glyphs := MappedGlyphs(font.glyphs);
    var cs := CharacterSet(font, fontSize, characters, glyphs,
                           GetMaxGlyphDimensions(glyphs, font.unitsPerEm, fontSize),
                           0, 0, Atlas(0, 0, 0, []));
    CreateTexture(cs, ReferenceSize)
  }

  /** `setFont`: a new font, its mapped glyphs and the cell at the current
      size; characters and size are kept and the atlas is rebuilt. */
  function SetFont(cs: CharacterSet, font: Font): (r: CharacterSet)
    requires |cs.characters| >= 1
    ensures Valid(r)
    ensures r.font == font && r.fontSize == cs.fontSize && r.characters == cs.characters
  {
    var glyphs := MappedGlyphs(font.glyphs);
    CreateTexture(cs.(font := font, glyphs := glyphs,
                      maxGlyphDimensions := GetMaxGlyphDimensions(glyphs, font.unitsPerEm, cs.fontSize)),
                  ReferenceSize)
  }

  /** `setCharacterSet`: replaces the characters, in order and with
      duplicates, and rebuilds the atlas; font, size and cell are kept. */
  function SetCharacterSet(cs: CharacterSet, characters: seq<char>): (r: CharacterSet)
    requires |characters| >= 1
    ensures Valid(cs) ==> Valid(r)
    ensures r.characters == characters
    ensures r.font == cs.font && r.fontSize == cs.fontSize
    ensures r.glyphs == cs.glyphs && r.maxGlyphDimensions == cs.maxGlyphDimensions
  {
    CreateTexture(cs.(characters := characters), ReferenceSize)
  }

  /** `setFontSize`: only the size and the cell follow; the atlas, its
      columns and rows and the characters stay as they were. */
  function SetFontSize(cs: CharacterSet, fontSize: nat): (r: CharacterSet)
    ensures Valid(cs) ==> Valid(r)
    ensures r.fontSize == fontSize
    ensures r.maxGlyphDimensions == GetMaxGlyphDimensions(cs.glyphs, cs.font.unitsPerEm, fontSize)
    ensures r == cs.(fontSize := fontSize, maxGlyphDimensions := r.maxGlyphDimensions)
  {
    cs.(fontSize := fontSize, maxGlyphDimensions := GetMaxGlyphDimensions(cs.glyphs, cs.font.unitsPerEm, fontSize))
  }

  /** The atlas does not depend on the layout font size: character sets
      built at two sizes share one texture, rasterised at 512. */
  lemma AtlasIgnoresFontSize(font: Font, characters: seq<char>, size1: nat, size2: nat)
    requires |characters| >= 1
    ensures NewCharacterSet(font, size1, characters).texture == NewCharacterSet(font, size2, characters).texture
    ensures NewCharacterSet(font, size1, characters).texture.textSize == ReferenceSize
  {
  }

  /** Every mapped glyph of the font fits in the character set's cell. */
  lemma CellCoversEveryMappedGlyph(font: Font, fontSize: nat, characters: seq<char>, g: Glyph)
    requires |characters| >= 1
    requires g in font.glyphs && g.unicode.Some?
    ensures var cs := NewCharacterSet(font, fontSize, characters);
            && ExtentWidth(g, font.unitsPerEm, fontSize) <= cs.maxGlyphDimensions.width as real
            && ExtentHeight(g, font.unitsPerEm, fontSize) <= cs.maxGlyphDimensions.height as real
  {
  }

  /** The default charset "0123456789": a 4 x 3 atlas with two blank
      trailing slots. */
  lemma {:induction false} DefaultCharsetLayout()
    ensures AtlasCols(10) == 4 && AtlasRows(10) == 3
    ensures AtlasCols(10) * AtlasRows(10) - 10 == 2
  {
    CeilSqrtUnique(10, 4);
    CeilDivUnique(10, 4, 3);
  }

  /** Editing "AB" to "ABCDE" grows the atlas from 2 x 1 to 3 x 2 and keeps
      font and size. */
  lemma {:induction false} CharsetEditScenario(font: Font, fontSize: nat)
    ensures var cs := NewCharacterSet(font, fontSize, "AB");
            && cs.charsetCols == 2 && cs.charsetRows == 1
            && var r := SetCharacterSet(cs, "ABCDE");
               r.charsetCols == 3 && r.charsetRows == 2 && r.font == font && r.fontSize == fontSize
  {
    CeilSqrtUnique(2, 2);
    CeilDivUnique(2, 2, 1);
    CeilSqrtUnique(5, 3);
    CeilDivUnique(5, 3, 2);
  }
}
