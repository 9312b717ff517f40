/**
 * Projecting a luma image onto a character grid. The method computes in wrapping
 * 32-bit arithmetic, as the release build does; the lemmas say when that is exact.
 * The row count's f32 rounding is a rational rounding here.
 */
module AsciiRender {
  import opened Arithmetic
  import opened AsciiPrint
  import opened Results

  const U32_SIZE: nat := 0x1_0000_0000
  const MAX_COLS: nat := 400
  const MAX_ROWS: nat := 300

  type U32 = n: nat | n < U32_SIZE

  type Luma = n: nat | n < 256

  datatype GlyphRamp = Standard | Blocks | Dense

  datatype RenderOptions = RenderOptions(cols: U32, maxRows: U32, ramp: GlyphRamp, invert: bool)

  function Glyphs(ramp: GlyphRamp): (r: string)
    ensures |r| == match ramp case Standard => 10 case Blocks => 5 case Dense => 69
  {
    match ramp
    case Standard => " .:-=+*#%@"
    case Blocks => [' ', '\U{2591}', '\U{2592}', '\U{2593}', '\U{2588}']
    case Dense => " .'`^\",:;Il!i><~+_-?][}{1)(|/tfjrxnuvczXYUJCLQ0OZmwqpdbkhao*#MW&8%B@$"
  }

  function Mul32(a: nat, b: nat): U32 {
    a * b % U32_SIZE
  }

  function Min(a: nat, b: nat): nat {
    if a < b then a else b
  }

  function Clamp(x: nat, lo: nat, hi: nat): nat {
    if x < lo then lo else if x > hi then hi else x
  }

  /** n/d to the nearest whole number, halves upwards. */
  function Round(n: nat, d: nat): nat
    requires d > 0
  {
    (2 * n + d) / (2 * d)
  }

  function ColumnCount(opts: RenderOptions, w: nat): nat {
    Min(Clamp(opts.cols, 1, MAX_COLS), if w > 1 then w else 1)
  }

  /** Half the columns times the aspect ratio h/w, kept within the row limit. */
  function RowCount(opts: RenderOptions, w: nat, h: nat): nat
    requires w > 0
  {
    Clamp(Round(ColumnCount(opts, w) * h, 2 * w), 1, Clamp(opts.maxRows, 1, MAX_ROWS))
  }

  function Toned(luma: Luma, invert: bool): Luma {
    if invert then 255 - luma else luma
  }

  /** Rung of a ramp of n steps for one luma value. */
  function Rung(luma: Luma, n: nat): nat
    requires n >= 1
  {
    luma * (n - 1) / 255
  }

  lemma RungInRange(luma: Luma, n: nat)
    requires n >= 1
    ensures Rung(luma, n) < n
  {
    ScaledOrder(luma, 255, n - 1);
    QuotientBelow(luma * (n - 1), 255, n);
  }

  function CellForLuma(luma: Luma, glyphs: string, invert: bool): (cell: Cell)
    requires |glyphs| >= 1
    ensures cell.level < LEVELS && cell.glyph in glyphs
  {
    var l := Toned(luma, invert);
    RungInRange(l, |glyphs|);
    Cell(glyphs[Rung(l, |glyphs|)], Rung(l, LEVELS))
  }

  /** Nearest source index of grid position c, exactly. */
  function Sample(c: nat, size: nat, count: nat): nat
    requires count > 0
  {
    c * size / count
  }

  /** The same in 32-bit arithmetic, clamped to the last index. */
  function Sample32(c: nat, size: nat, count: nat): nat
    requires count > 0 && size > 0
  {
    Min(Mul32(c, size) / count, size - 1)
  }

  // -------------------------------------------------------------------------
  // Sampling
  // -------------------------------------------------------------------------

  /** The first sample is the first index, later ones grow strictly, and the last stays inside. */
  lemma SamplesSpread(c: nat, size: nat, count: nat)
    requires c < count <= size
    ensures Sample(0, size, count) == 0 && Sample(c, size, count) < size
    ensures c + 1 < count ==> Sample(c, size, count) < Sample(c + 1, size, count)
  {
    SampleInside(c, size, count);
    assert (c + 1) * size == c * size + size;
    QuotientLess(c * size, (c + 1) * size, count);
    assert 0 * size == 0;
  }

  /** The clamp to the last index never bites. */
  lemma SampleInside(c: nat, size: nat, count: nat)
    requires c < count && size > 0
    ensures Sample(c, size, count) < size
  {
    ScaledOrder(c + 1, count, size);
    assert (c + 1) * size == c * size + size && count * size == size * count;
    QuotientBelow(c * size, count, size);
  }

  /** 32-bit sampling is exact at every position exactly when the last product fits. */
  lemma SamplesExactIff(size: nat, count: nat)
    requires 0 < size && 0 < count < U32_SIZE
    ensures (forall c :: 0 <= c < count ==> Sample32(c, size, count) == Sample(c, size, count)) <==> (count - 1) * size < U32_SIZE
  {
    var last := count - 1;
    if last * size < U32_SIZE {
      forall c | 0 <= c < count
        ensures Sample32(c, size, count) == Sample(c, size, count)
      {
        SampleExact(c, size, count);
      }
    } else {
      var p := last * size;
      assert p % U32_SIZE + count <= p;
      QuotientLess(p % U32_SIZE, p, count);
      assert Sample32(last, size, count) < Sample(last, size, count);
    }
  }

  lemma SampleExact(c: nat, size: nat, count: nat)
    requires 0 < size && c < count && (count - 1) * size < U32_SIZE
    ensures Sample32(c, size, count) == Sample(c, size, count)
  {
    ScaledOrder(c, count - 1, size);
    SampleInside(c, size, count);
  }

  /** The grid is never larger than the image, in either direction. */
  lemma GridFitsImage(opts: RenderOptions, w: nat, h: nat)
    requires w > 0 && h > 0
    ensures 1 <= ColumnCount(opts, w) <= w && ColumnCount(opts, w) <= MAX_COLS
    ensures 1 <= RowCount(opts, w, h) <= h && RowCount(opts, w, h) <= MAX_ROWS
  {
    var cols := ColumnCount(opts, w);
    ScaledOrder(cols, w, h);
    var p := w * h;
    assert (h + 1) * (2 * (2 * w)) == 4 * p + 4 * w;
    QuotientBelow(2 * (cols * h) + 2 * w, 2 * (2 * w), h + 1);
  }

  /** Between its limits the row count is the closest to half the scaled height, halves up. */
  lemma RowCountKeepsAspect(opts: RenderOptions, w: nat, h: nat)
    requires w > 0 && h > 0 && 1 < RowCount(opts, w, h) < Clamp(opts.maxRows, 1, MAX_ROWS)
    ensures var target, rows := ColumnCount(opts, w) * h, RowCount(opts, w, h);
      rows * (2 * w) - w <= target < rows * (2 * w) + w
  {
    hide ColumnCount;
    var target, rows := ColumnCount(opts, w) * h, RowCount(opts, w, h);
    assert rows == (2 * target + 2 * w) / (2 * (2 * w));
    QuotientBounds(2 * target + 2 * w, 2 * (2 * w));
    assert rows * (2 * (2 * w)) == 2 * (rows * (2 * w));
  }

  /** No product of the sampling loop, and no source index, reaches 2^32. */
  predicate NothingWraps(opts: RenderOptions, w: nat, h: nat)
    requires w > 0
  {
    && (ColumnCount(opts, w) - 1) * w < U32_SIZE
    && (RowCount(opts, w, h) - 1) * h < U32_SIZE
    && w * h < U32_SIZE
  }

  lemma NothingWrapsSamplesExactly(opts: RenderOptions, w: nat, h: nat, c: nat)
    requires w > 0 && h > 0 && NothingWraps(opts, w, h)
    ensures c < ColumnCount(opts, w) ==> Sample32(c, w, ColumnCount(opts, w)) == Sample(c, w, ColumnCount(opts, w))
    ensures c < RowCount(opts, w, h) ==> Sample32(c, h, RowCount(opts, w, h)) == Sample(c, h, RowCount(opts, w, h))
  {
    hide ColumnCount, RowCount, Sample32, Sample;
    GridFitsImage(opts, w, h);
    if c < ColumnCount(opts, w) {
      SampleExact(c, w, ColumnCount(opts, w));
    }
    if c < RowCount(opts, w, h) {
      SampleExact(c, h, RowCount(opts, w, h));
    }
  }

  /** That covers every image whose dimensions times the ceilings, and whose area, stay below 2^32. */
  lemma SmallImagesNeverWrap(opts: RenderOptions, w: nat, h: nat)
    requires w > 0 && h > 0 && MAX_COLS * w < U32_SIZE && MAX_ROWS * h < U32_SIZE && w * h < U32_SIZE
    ensures NothingWraps(opts, w, h)
  {
    hide ColumnCount, RowCount;
    GridFitsImage(opts, w, h);
    ScaledOrder(ColumnCount(opts, w) - 1, MAX_COLS, w);
    ScaledOrder(RowCount(opts, w, h) - 1, MAX_ROWS, h);
  }

  /**
   * The decoder's limit of 24 million pixels does not imply that the products fit:
   * a one-pixel-high strip of 12 million columns passes it and samples wrongly.
   */
  lemma PixelBudgetAllowsWrapping()
    ensures var w, cols := 12_000_000, 400;
      && w * 1 <= 24_000_000
      && Sample(358, w, cols) == 10_740_000
      && Sample32(358, w, cols) < Sample32(357, w, cols)
  {
  }

  /** The column count is the largest that fits the image, the ceiling of 400 and the request, which counts as at least 1. */
  lemma ColumnCountIsLargest(opts: RenderOptions, w: nat, n: nat)
    requires w > 0
    ensures n <= ColumnCount(opts, w) <==> n <= w && n <= 400 && (n <= opts.cols || n <= 1)
  {
  }

  /** The row count is the nearest to half the scaled height, halves up, moved into 1 to the row limit of at most 300. */
  lemma RowCountIs(opts: RenderOptions, w: nat, h: nat)
    requires w > 0
    ensures var rows, target := RowCount(opts, w, h), ColumnCount(opts, w) * h;
      && (1 <= rows <= 300 && (rows <= opts.maxRows || rows == 1))
      && (rows < 300 && rows < opts.maxRows ==> target < rows * (2 * w) + w)
      && (rows > 1 ==> rows * (2 * w) <= target + w)
  {
    hide ColumnCount;
    var target := ColumnCount(opts, w) * h;
    var wanted := (2 * target + 2 * w) / (2 * (2 * w));
    QuotientBounds(2 * target + 2 * w, 2 * (2 * w));
    assert wanted * (2 * (2 * w)) == 2 * (wanted * (2 * w));
    var rows := RowCount(opts, w, h);
    assert rows == Clamp(wanted, 1, Clamp(opts.maxRows, 1, 300));
    if rows < wanted {
      ScaledOrder(rows, wanted, 2 * w);
    } else if wanted < rows {
      ScaledOrder(wanted, rows, 2 * w);
    }
  }

  // -------------------------------------------------------------------------
  // Rendering
  // -------------------------------------------------------------------------

  predicate Rejected(src: seq<Luma>, w: U32, h: U32) {
    w == 0 || h == 0 || |src| < Mul32(w, h)
  }

  /** Without pixels, or with fewer than the product of the sides modulo 2^32, nothing is rendered. */
  lemma RejectedIff(src: seq<Luma>, w: U32, h: U32)
    ensures Rejected(src, w, h) <==> w == 0 || h == 0 || |src| < w * h % 4294967296
  {
  }

  lemma IndexInside(y: nat, x: nat, w: nat, h: nat)
    requires y < h && x < w
    ensures y * w + x < w * h
  {
    assert (h - 1 - y) * w >= 0;
    assert h * w == y * w + w + (h - 1 - y) * w;
  }

  /** The cell at grid position i, from exact samples of the image. */
  function CellAt(src: seq<Luma>, w: nat, h: nat, opts: RenderOptions, i: nat): Cell
    requires w > 0 && h > 0 && |src| >= w * h
    requires i / ColumnCount(opts, w) < RowCount(opts, w, h)
  {
    var cols, rows := ColumnCount(opts, w), RowCount(opts, w, h);
    SampleInside(i / cols, h, rows);
    SampleInside(i % cols, w, cols);
    IndexInside(Sample(i / cols, h, rows), Sample(i % cols, w, cols), w, h);
    CellForLuma(src[Sample(i / cols, h, rows) * w + Sample(i % cols, w, cols)], Glyphs(opts.ramp), opts.invert)
  }

  lemma Position(y: nat, x: nat, cols: nat, rows: nat)
    requires x < cols && y < rows
    ensures (y * cols + x) / cols == y && (y * cols + x) % cols == x && y * cols + x < rows * cols
  {
    IndexInside(y, x, cols, rows);
    var i := y * cols + x;
    assert (y + 1) * cols == y * cols + cols;
    QuotientBelow(i, cols, y + 1);
    QuotientAtLeast(i, cols, y);
    Remainder(i, cols);
  }

  /**
   * None is the out-of-range index the original would panic on. Below 2^32 pixels
   * that never happens, and an image that fits is sampled exactly.
   */
  method RenderLuma(src: seq<Luma>, w: U32, h: U32, opts: RenderOptions) returns (art: Option<AsciiArt>)
    ensures Rejected(src, w, h) ==> art == Some(AsciiArt(0, 0, []))
    ensures !Rejected(src, w, h) && w * h < U32_SIZE ==> art.Some?
    ensures !Rejected(src, w, h) && art.Some? ==>
      && art.value.cols == ColumnCount(opts, w) >= 1
      && art.value.rows == RowCount(opts, w, h)
      && |art.value.cells| == art.value.rows * art.value.cols
      && LevelsInRange(art.value.cells)
    ensures !Rejected(src, w, h) && NothingWraps(opts, w, h) ==>
      forall i :: 0 <= i < |art.value.cells| ==> i / ColumnCount(opts, w) < RowCount(opts, w, h) && art.value.cells[i] == CellAt(src, w, h, opts, i)
  {
    hide ColumnCount, RowCount, CellForLuma, Glyphs, Sample, Sample32;
    if w == 0 || h == 0 || |src| < Mul32(w, h) {
      return Some(AsciiArt(0, 0, []));
    }
    GridFitsImage(opts, w, h);
    var cols := ColumnCount(opts, w);
    var rows := RowCount(opts, w, h);
    var glyphs := Glyphs(opts.ramp);
    var cells: seq<Cell> := [];
    var cy := 0;
    while cy < rows
      invariant 0 <= cy <= rows
      invariant |cells| == cy * cols && LevelsInRange(cells)
      invariant NothingWraps(opts, w, h) ==> ExactSoFar(src, w, h, opts, cells)
    {
      var sy := Sample32(cy, h, rows);
      var cx := 0;
      while cx < cols
        invariant 0 <= cx <= cols
        invariant |cells| == cy * cols + cx && LevelsInRange(cells)
        invariant NothingWraps(opts, w, h) ==> ExactSoFar(src, w, h, opts, cells)
      {
        var sx := Sample32(cx, w, cols);
        var at := (Mul32(sy, w) + sx) % U32_SIZE;
        IndexIsExact(sy, sx, cy, cx, w, h, rows, cols);
        if at >= |src| {
          return None;
        }
        var cell := CellForLuma(src[at], glyphs, opts.invert);
        if NothingWraps(opts, w, h) {
          OneMoreCell(src, w, h, opts, cells, cy, cx, at);
        }
        cells := cells + [cell];
        cx := cx + 1;
      }
      assert (cy + 1) * cols == cy * cols + cols;
      cy := cy + 1;
    }
    return Some(AsciiArt(cols, rows, cells));
  }

  /** The position scaled down from the image to the grid, rounded down. */
  predicate ScalesTo(c: nat, size: nat, count: nat, s: nat) {
    s < size && count * s <= c * size < count * (s + 1)
  }

  /** The glyph and the level that the (inverted) luma scales down to. */
  predicate Shows(luma: Luma, opts: RenderOptions, cell: Cell) {
    var tone: int := if opts.invert then 255 - luma else luma;
    255 * cell.level <= tone * 7 < 255 * (cell.level + 1) &&
    exists g: nat :: g < |Glyphs(opts.ramp)| && cell.glyph == Glyphs(opts.ramp)[g] &&
      255 * g <= tone * (|Glyphs(opts.ramp)| - 1) < 255 * (g + 1)
  }

  /** The cell in row y and column x shows the pixel that y and x scale down to. */
  lemma CellShows(src: seq<Luma>, w: nat, h: nat, opts: RenderOptions, y: nat, x: nat) returns (sy: nat, sx: nat)
    requires w > 0 && h > 0 && |src| >= w * h && y < RowCount(opts, w, h) && x < ColumnCount(opts, w)
    ensures ScalesTo(y, h, RowCount(opts, w, h), sy) && ScalesTo(x, w, ColumnCount(opts, w), sx)
    ensures sy * w + sx < w * h && (y * ColumnCount(opts, w) + x) / ColumnCount(opts, w) < RowCount(opts, w, h)
    ensures Shows(src[sy * w + sx], opts, CellAt(src, w, h, opts, y * ColumnCount(opts, w) + x))
  {
    hide ColumnCount, RowCount, Glyphs, CellForLuma, Shows, ScalesTo, Sample;
    var rows, cols := RowCount(opts, w, h), ColumnCount(opts, w);
    sy, sx := Sample(y, h, rows), Sample(x, w, cols);
    Position(y, x, cols, rows);
    SampleScales(y, h, rows);
    SampleScales(x, w, cols);
    IndexInside(sy, sx, w, h);
    ToneShows(src[sy * w + sx], opts);
  }

  lemma SampleScales(c: nat, size: nat, count: nat)
    requires c < count && size > 0
    ensures Sample(c, size, count) < size && ScalesTo(c, size, count, Sample(c, size, count))
  {
    SampleInside(c, size, count);
    QuotientBounds(c * size, count);
  }

  lemma ToneShows(luma: Luma, opts: RenderOptions)
    ensures Shows(luma, opts, CellForLuma(luma, Glyphs(opts.ramp), opts.invert))
  {
    hide Glyphs;
    var tone, n := Toned(luma, opts.invert), |Glyphs(opts.ramp)|;
    var g := Rung(tone, n);
    RungInRange(tone, n);
    QuotientBounds(tone * (n - 1), 255);
    QuotientBounds(tone * 7, 255);
    assert g < n && CellForLuma(luma, Glyphs(opts.ramp), opts.invert).glyph == Glyphs(opts.ramp)[g];
  }

  predicate ExactSoFar(src: seq<Luma>, w: nat, h: nat, opts: RenderOptions, cells: seq<Cell>)
    requires w > 0 && h > 0 && |src| >= w * h
  {
    forall i :: 0 <= i < |cells| ==> i / ColumnCount(opts, w) < RowCount(opts, w, h) && cells[i] == CellAt(src, w, h, opts, i)
  }

  lemma IndexIsExact(sy: nat, sx: nat, cy: nat, cx: nat, w: nat, h: nat, rows: nat, cols: nat)
    requires 0 < w && 0 < h && cy < rows && cx < cols
    requires sy == Sample32(cy, h, rows) && sx == Sample32(cx, w, cols)
    ensures sy < h && sx < w
    ensures w * h < U32_SIZE ==> (Mul32(sy, w) + sx) % U32_SIZE == sy * w + sx < w * h
  {
    IndexInside(sy, sx, w, h);
  }

  lemma OneMoreCell(src: seq<Luma>, w: nat, h: nat, opts: RenderOptions, cells: seq<Cell>, cy: nat, cx: nat, at: nat)
    requires w > 0 && h > 0 && |src| >= w * h && NothingWraps(opts, w, h)
    requires cy < RowCount(opts, w, h) && cx < ColumnCount(opts, w)
    requires |cells| == cy * ColumnCount(opts, w) + cx && ExactSoFar(src, w, h, opts, cells)
    requires at == Sample32(cy, h, RowCount(opts, w, h)) * w + Sample32(cx, w, ColumnCount(opts, w)) < |src|
    ensures ExactSoFar(src, w, h, opts, cells + [CellForLuma(src[at], Glyphs(opts.ramp), opts.invert)])
  {
    hide ColumnCount, RowCount, CellForLuma, Glyphs, Sample, Sample32;
    var rows, cols := RowCount(opts, w, h), ColumnCount(opts, w);
    NothingWrapsSamplesExactly(opts, w, h, cy);
    NothingWrapsSamplesExactly(opts, w, h, cx);
    SampleInside(cy, h, rows);
    SampleInside(cx, w, cols);
    IndexInside(Sample(cy, h, rows), Sample(cx, w, cols), w, h);
    Position(cy, cx, cols, rows);
  }

  // -------------------------------------------------------------------------
  // Tone
  // -------------------------------------------------------------------------

  lemma RungMonotone(a: Luma, b: Luma, n: nat)
    requires a <= b && n >= 1
    ensures Rung(a, n) <= Rung(b, n)
  {
    ScaledOrder(a, b, n - 1);
    QuotientMonotone(a * (n - 1), b * (n - 1), 255);
  }

  /** A brighter pixel gets a glyph no earlier in the ramp and a level no lower; inverted, the reverse. */
  lemma ToneIsMonotone(a: Luma, b: Luma, ramp: GlyphRamp, invert: bool)
    requires a <= b
    ensures exists i, j ::
      && 0 <= i < |Glyphs(ramp)| && 0 <= j < |Glyphs(ramp)|
      && CellForLuma(a, Glyphs(ramp), invert).glyph == Glyphs(ramp)[i]
      && CellForLuma(b, Glyphs(ramp), invert).glyph == Glyphs(ramp)[j]
      && (if invert then j <= i else i <= j)
    ensures var x, y := CellForLuma(a, Glyphs(ramp), invert).level, CellForLuma(b, Glyphs(ramp), invert).level;
      if invert then y <= x else x <= y
  {
    hide Rung, Glyphs;
    var n := |Glyphs(ramp)|;
    var i, j := Rung(Toned(a, invert), n), Rung(Toned(b, invert), n);
    RungInRange(Toned(a, invert), n);
    RungInRange(Toned(b, invert), n);
    if invert {
      RungMonotone(255 - b, 255 - a, n);
      RungMonotone(255 - b, 255 - a, LEVELS);
    } else {
      RungMonotone(a, b, n);
      RungMonotone(a, b, LEVELS);
    }
    assert CellForLuma(a, Glyphs(ramp), invert).glyph == Glyphs(ramp)[i];
    assert CellForLuma(b, Glyphs(ramp), invert).glyph == Glyphs(ramp)[j];
  }

  /** Black and white reach the two ends of the ramp and of the levels. */
  lemma ToneHitsBothEnds(ramp: GlyphRamp, invert: bool)
    ensures var g := Glyphs(ramp);
      && CellForLuma(if invert then 255 else 0, g, invert) == Cell(g[0], 0)
      && CellForLuma(if invert then 0 else 255, g, invert) == Cell(g[|g| - 1], LEVELS - 1)
  {
    hide Glyphs;
    var n := |Glyphs(ramp)|;
    assert 255 * (n - 1) / 255 == n - 1 && 0 * (n - 1) / 255 == 0;
  }

  /** Every rung of a ramp of at most 256 steps is some luma's rung. */
  lemma EveryRungIsReached(rung: nat, n: nat) returns (luma: Luma)
    requires rung < n <= 256
    ensures Rung(luma, n) == rung
  {
    if n == 1 {
      luma := 0;
    } else {
      var k := n - 1;
      var l := (255 * rung + k - 1) / k;
      QuotientBounds(255 * rung + k - 1, k);
      QuotientBelow(255 * rung + k - 1, k, 256);
      luma := l;
      QuotientBounds(l * k, 255);
      assert 255 * rung <= l * k < 255 * rung + 255;
    }
  }

  /** Every glyph of every ramp can be printed, and every level. */
  lemma EveryGlyphAndLevelIsReached(ramp: GlyphRamp, i: nat, level: nat, invert: bool)
    requires i < |Glyphs(ramp)| && level < LEVELS
    ensures exists a: Luma :: CellForLuma(a, Glyphs(ramp), invert).glyph == Glyphs(ramp)[i]
    ensures exists b: Luma :: CellForLuma(b, Glyphs(ramp), invert).level == level
  {
    hide Rung, Glyphs;
    var a := EveryRungIsReached(i, |Glyphs(ramp)|);
    var b := EveryRungIsReached(level, LEVELS);
    assert CellForLuma(Toned(a, invert), Glyphs(ramp), invert).glyph == Glyphs(ramp)[i];
    assert CellForLuma(Toned(b, invert), Glyphs(ramp), invert).level == level;
  }

  /** The three ramps, sparse to dense. */
  lemma RampsAre()
    ensures Glyphs(Standard) == " .:-=+*#%@"
    ensures Glyphs(Blocks) == [' ', 0x2591 as char, 0x2592 as char, 0x2593 as char, 0x2588 as char]
    ensures Glyphs(Dense) == " .'`^\",:;Il!i><~+_-?][}{1)(|/tfjrxnuvczXYUJCLQ0OZmwqpdbkhao*#MW&8%B@$"
  {
  }
}
