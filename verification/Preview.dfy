/** Image previews: the size of the preview, the averaging of source regions into cells, and the
    choice of a character for each cell. */
module Preview {
  import opened Bits
  import opened GifImage
  import opened Options

  const PREVIEW_CHARS: string := ".:-=+*#%@"

  function Min(a: real, b: real): real { if a <= b then a else b }

  function Clamp(size: int, limit: int): int {
    var low := if limit <= size then limit else size;
    if low >= 1 then low else 1
  }

  function Scale(width: nat, height: nat, maxWidth: nat, maxHeight: nat): real
    requires width > 0 && height > 0
  {
    Min(Min(maxWidth as real / width as real, maxHeight as real / height as real), 1.0)
  }

  function PreviewDimensions(width: nat, height: nat, maxWidth: nat, maxHeight: nat): (int, int)
    requires width > 0 && height > 0
  {
    var scale := Scale(width, height, maxWidth, maxHeight);
    (Clamp((width as real * scale).Floor, maxWidth), Clamp((height as real * scale).Floor, maxHeight))
  }

  lemma ScaledDown(size: nat, scale: real)
    requires scale <= 1.0
    ensures (size as real * scale).Floor <= size
  {
    assert size as real * scale <= size as real;
  }

  /** A preview has at least one cell and is never larger than its source, nor than its limits. */
  lemma PreviewFits(width: nat, height: nat, maxWidth: nat, maxHeight: nat)
    requires width > 0 && height > 0
    ensures var (w, h) := PreviewDimensions(width, height, maxWidth, maxHeight);
      && 1 <= w <= width && 1 <= h <= height
      && (maxWidth > 0 ==> w <= maxWidth) && (maxHeight > 0 ==> h <= maxHeight)
  {
    var scale := Scale(width, height, maxWidth, maxHeight);
    ScaledDown(width, scale);
    ScaledDown(height, scale);
  }

  /** A size rounded down, but never to nothing. */
  predicate IsRoundedDown(n: int, size: real) {
    if size < 1.0 then n == 1 else n as real <= size < n as real + 1.0
  }

  function Scaled(size: nat, scale: real): real { size as real * scale }

  /** A preview is its source scaled down just as far as both limits demand, with the same scale both ways. */
  lemma PreviewIsScaled(width: nat, height: nat, maxWidth: nat, maxHeight: nat) returns (scale: real)
    requires width > 0 && height > 0
    ensures 0.0 <= scale <= 1.0
    ensures Scaled(width, scale) <= maxWidth as real && Scaled(height, scale) <= maxHeight as real
    ensures scale == 1.0 || Scaled(width, scale) == maxWidth as real || Scaled(height, scale) == maxHeight as real
    ensures var (w, h) := PreviewDimensions(width, height, maxWidth, maxHeight);
      IsRoundedDown(w, Scaled(width, scale)) && IsRoundedDown(h, Scaled(height, scale))
  {
    hide Clamp, IsRoundedDown, Scale, Scaled, PreviewDimensions;
    var across, down := ScaleIsLeast(width, height, maxWidth, maxHeight);
    scale := Scale(width, height, maxWidth, maxHeight);
    ScaledFits(width, scale, across, maxWidth);
    ScaledFits(height, scale, down, maxHeight);
    DimensionsAre(width, height, maxWidth, maxHeight);
  }

  lemma ScaleIsLeast(width: nat, height: nat, maxWidth: nat, maxHeight: nat) returns (across: real, down: real)
    requires width > 0 && height > 0
    ensures Scaled(width, across) == maxWidth as real && Scaled(height, down) == maxHeight as real
    ensures var scale := Scale(width, height, maxWidth, maxHeight);
      0.0 <= scale <= 1.0 && scale <= across && scale <= down && (scale == 1.0 || scale == across || scale == down)
  {
    hide Scaled;
    across := Ratio(width, maxWidth);
    down := Ratio(height, maxHeight);
  }

  lemma Ratio(size: nat, limit: nat) returns (ratio: real)
    requires size > 0
    ensures ratio == limit as real / size as real && ratio >= 0.0 && Scaled(size, ratio) == limit as real
  {
    ratio := limit as real / size as real;
  }

  lemma DimensionsAre(width: nat, height: nat, maxWidth: nat, maxHeight: nat)
    requires width > 0 && height > 0
    ensures var scale := Scale(width, height, maxWidth, maxHeight);
      PreviewDimensions(width, height, maxWidth, maxHeight)
      == (Clamp(Scaled(width, scale).Floor, maxWidth), Clamp(Scaled(height, scale).Floor, maxHeight))
  {
    hide Clamp, Scale;
  }

  lemma ScaledFits(size: nat, scale: real, ratio: real, limit: nat)
    requires size > 0 && 0.0 <= scale <= ratio && Scaled(size, ratio) == limit as real
    ensures Scaled(size, scale) <= limit as real && (scale == ratio ==> Scaled(size, scale) == limit as real)
    ensures IsRoundedDown(Clamp(Scaled(size, scale).Floor, limit), Scaled(size, scale))
  {
    hide Scaled, Clamp, IsRoundedDown;
    ScaleGrows(size, scale, ratio);
    RoundedDown(Scaled(size, scale), limit);
  }

  lemma ScaleGrows(size: nat, a: real, b: real)
    requires 0.0 <= a <= b
    ensures 0.0 <= Scaled(size, a) <= Scaled(size, b)
  {
    var x := size as real;
    assert x * (b - a) >= 0.0 && x * b == x * a + x * (b - a);
  }

  lemma RoundedDown(size: real, limit: nat)
    requires 0.0 <= size <= limit as real
    ensures IsRoundedDown(Clamp(size.Floor, limit), size)
  {
  }

  // ----- Cells -----

  /** Where cell `cell` of `cells` begins on an axis of `size` pixels. */
  function CellStart(cell: nat, size: nat, cells: nat): nat
    requires cells > 0
  {
    cell * size / cells
  }

  /** Where it ends; a cell is never empty. */
  function CellEnd(cell: nat, size: nat, cells: nat): nat
    requires cells > 0
  {
    var start, end := CellStart(cell, size, cells), CellStart(cell + 1, size, cells);
    if start + 1 >= end then start + 1 else end
  }

  /** The only cell that can hold pixel `pixel`. */
  function CellOf(pixel: nat, size: nat, cells: nat): nat
    requires cells > 0 && size > 0
  {
    ((pixel + 1) * cells - 1) / size
  }

  lemma QuotientAtMost(a: nat, d: nat, q: nat)
    requires d > 0
    ensures a / d <= q <==> a < (q + 1) * d
  {
    var k := a / d;
    assert k * d <= a < (k + 1) * d by {
      assert a == k * d + a % d;
    }
    if k <= q {
      MulMonotone(k + 1, q + 1, d);
    } else {
      MulMonotone(q + 1, k, d);
    }
  }

  lemma QuotientIs(a: nat, d: nat, q: nat)
    requires d > 0
    ensures a / d == q <==> q * d <= a < (q + 1) * d
  {
    QuotientAtMost(a, d, q);
    if q > 0 {
      QuotientAtMost(a, d, q - 1);
    }
  }

  /** On an axis with no more cells than pixels, neighbouring cells touch. */
  lemma CellsTouch(cell: nat, size: nat, cells: nat)
    requires 0 < cells <= size
    ensures CellEnd(cell, size, cells) == CellStart(cell + 1, size, cells)
    ensures CellStart(0, size, cells) == 0 && CellStart(cells, size, cells) == size
  {
    var start := CellStart(cell, size, cells);
    QuotientAtMost(cell * size, cells, start);
    QuotientAtMost((cell + 1) * size, cells, start);
    assert (cell + 1) * size == cell * size + size;
    assert start * cells <= cell * size by {
      assert cell * size == start * cells + cell * size % cells;
    }
    assert (start + 1) * cells == start * cells + cells;
    DivUnique(cells * size, cells, size, 0);
  }

  /** Every pixel lies in exactly one cell. */
  lemma CellsPartition(pixel: nat, cell: nat, size: nat, cells: nat)
    requires 0 < cells <= size && pixel < size && cell < cells
    ensures CellStart(cell, size, cells) <= pixel < CellEnd(cell, size, cells) <==> cell == CellOf(pixel, size, cells)
    ensures CellOf(pixel, size, cells) < cells
  {
    CellsTouch(cell, size, cells);
    var reach := (pixel + 1) * cells;
    assert reach >= 1 by {
      MulMonotone(1, pixel + 1, cells);
    }
    QuotientAtMost(cell * size, cells, pixel);
    QuotientAtMost((cell + 1) * size, cells, pixel);
    QuotientIs(reach - 1, size, cell);
    CellOfInside(pixel, size, cells);
  }

  lemma CellOfInside(pixel: nat, size: nat, cells: nat)
    requires 0 < cells && pixel < size
    ensures CellOf(pixel, size, cells) < cells
  {
    MulMonotone(1, pixel + 1, cells);
    MulMonotone(pixel + 1, size, cells);
    QuotientAtMost((pixel + 1) * cells - 1, size, cells - 1);
  }

  /** The pixels of the first `n` cells of an axis. */
  function CellSizes(size: nat, cells: nat, n: nat): int
    requires cells > 0
  {
    if n == 0 then 0
    else CellSizes(size, cells, n - 1) + CellEnd(n - 1, size, cells) - CellStart(n - 1, size, cells)
  }

  lemma {:induction false} CellSizesTelescope(size: nat, cells: nat, n: nat)
    requires 0 < cells <= size
    ensures CellSizes(size, cells, n) == CellStart(n, size, cells)
  {
    CellsTouch(0, size, cells);
    if n > 0 {
      CellSizesTelescope(size, cells, n - 1);
      CellsTouch(n - 1, size, cells);
    }
  }

  /** The pixels counted by the first `n` rows of cells, one cell after the other. */
  function CountedRow(width: nat, columns: nat, tall: int, n: nat): int
    requires columns > 0
  {
    if n == 0 then 0
    else
      CountedRow(width, columns, tall, n - 1)
      + tall * (CellEnd(n - 1, width, columns) - CellStart(n - 1, width, columns))
  }

  function Counted(width: nat, height: nat, columns: nat, rows: nat, n: nat): int
    requires columns > 0 && rows > 0
  {
    if n == 0 then 0
    else
      var tall := CellEnd(n - 1, height, rows) - CellStart(n - 1, height, rows);
      Counted(width, height, columns, rows, n - 1) + CountedRow(width, columns, tall, columns)
  }

  lemma {:induction false} CountedRowIsProduct(width: nat, columns: nat, tall: int, n: nat)
    requires columns > 0
    ensures CountedRow(width, columns, tall, n) == tall * CellSizes(width, columns, n)
  {
    if n > 0 {
      CountedRowIsProduct(width, columns, tall, n - 1);
      var wide := CellEnd(n - 1, width, columns) - CellStart(n - 1, width, columns);
      assert tall * (CellSizes(width, columns, n - 1) + wide) == tall * CellSizes(width, columns, n - 1) + tall * wide;
    }
  }

  lemma {:induction false} CountedIsProduct(width: nat, height: nat, columns: nat, rows: nat, n: nat)
    requires 0 < columns <= width && rows > 0
    ensures Counted(width, height, columns, rows, n) == CellSizes(height, rows, n) * width
  {
    if n > 0 {
      CountedIsProduct(width, height, columns, rows, n - 1);
      var tall := CellEnd(n - 1, height, rows) - CellStart(n - 1, height, rows);
      CountedRowIsProduct(width, columns, tall, columns);
      CellSizesTelescope(width, columns, columns);
      CellsTouch(0, width, columns);
      assert (CellSizes(height, rows, n - 1) + tall) * width == CellSizes(height, rows, n - 1) * width + tall * width;
    }
  }

  /** The cell counts of a preview add up to the number of source pixels. */
  lemma CountsAddUp(width: nat, height: nat, columns: nat, rows: nat)
    requires 0 < columns <= width && 0 < rows <= height
    ensures Counted(width, height, columns, rows, rows) == width * height
  {
    CountedIsProduct(width, height, columns, rows, rows);
    CellSizesTelescope(height, rows, rows);
    CellsTouch(0, height, rows);
  }

  // ----- Averages -----

  datatype Totals = Totals(red: nat, green: nat, blue: nat, count: nat)

  const NOTHING: Totals := Totals(0, 0, 0, 0)

  function Add(t: Totals, pixel: Rgb): Totals {
    Totals(t.red + pixel.red, t.green + pixel.green, t.blue + pixel.blue, t.count + 1)
  }

  ghost predicate Full(pixels: seq<Rgb>, width: nat, height: nat) {
    |pixels| >= width * height
  }

  lemma PixelInside(width: nat, height: nat, x: nat, y: nat)
    requires x < width && y < height
    ensures y * width + x < width * height
  {
    MulMonotone(y + 1, height, width);
    assert (y + 1) * width == y * width + width;
  }

  function PixelAt(pixels: seq<Rgb>, width: nat, height: nat, x: nat, y: nat): Rgb
    requires Full(pixels, width, height) && x < width && y < height
  {
    PixelInside(width, height, x, y);
    pixels[y * width + x]
  }

  function RowTotals(pixels: seq<Rgb>, width: nat, height: nat, y: nat, x0: nat, x1: nat, t: Totals): Totals
    requires Full(pixels, width, height) && y < height && x0 <= x1 <= width
    decreases x1
  {
    if x0 == x1 then t
    else Add(RowTotals(pixels, width, height, y, x0, x1 - 1, t), PixelAt(pixels, width, height, x1 - 1, y))
  }

  function RegionTotals(pixels: seq<Rgb>, width: nat, height: nat, y0: nat, y1: nat, x0: nat, x1: nat): Totals
    requires Full(pixels, width, height) && y0 <= y1 <= height && x0 <= x1 <= width
    decreases y1
  {
    if y0 == y1 then NOTHING
    else RowTotals(pixels, width, height, y1 - 1, x0, x1, RegionTotals(pixels, width, height, y0, y1 - 1, x0, x1))
  }

  function Capped(end: nat, size: nat): nat { if end <= size then end else size }

  function Average(t: Totals): (nat, nat, nat) {
    if t.count == 0 then (0, 0, 0) else (t.red / t.count, t.green / t.count, t.blue / t.count)
  }

  lemma CellInside(cell: nat, size: nat, cells: nat)
    requires cell < cells
    ensures CellStart(cell, size, cells) <= Capped(CellEnd(cell, size, cells), size)
  {
    MulMonotone(cell, cells, size);
    QuotientAtMost(cell * size, cells, size);
  }

  /** The average colour of the source region behind cell (`outX`, `outY`). */
  function Sample(pixels: seq<Rgb>, width: nat, height: nat, outX: nat, outY: nat, columns: nat, rows: nat):
    (nat, nat, nat)
    requires Full(pixels, width, height) && outX < columns && outY < rows
  {
    CellInside(outX, width, columns);
    CellInside(outY, height, rows);
    Average(RegionTotals(pixels, width, height,
      CellStart(outY, height, rows), Capped(CellEnd(outY, height, rows), height),
      CellStart(outX, width, columns), Capped(CellEnd(outX, width, columns), width)))
  }

  method SampleRegionRgb(pixels: seq<Rgb>, width: nat, height: nat, outX: nat, outY: nat, columns: nat, rows: nat)
    returns (color: (nat, nat, nat))
    requires Full(pixels, width, height) && outX < columns && outY < rows
    ensures color == Sample(pixels, width, height, outX, outY, columns, rows)
  {
    CellInside(outX, width, columns);
    CellInside(outY, height, rows);
    var y0, y1 := CellStart(outY, height, rows), Capped(CellEnd(outY, height, rows), height);
    var x0, x1 := CellStart(outX, width, columns), Capped(CellEnd(outX, width, columns), width);
    var t := NOTHING;
    for y := y0 to y1
      invariant t == RegionTotals(pixels, width, height, y0, y, x0, x1)
    {
      ghost var above := t;
      for x := x0 to x1
        invariant t == RowTotals(pixels, width, height, y, x0, x, above)
      {
        t := Add(t, PixelAt(pixels, width, height, x, y));
      }
    }
    color := Average(t);
  }

  /** The region's pixels lie between two colours, channel by channel. */
  ghost predicate Within(
      pixels: seq<Rgb>, width: nat, height: nat, y0: nat, y1: nat, x0: nat, x1: nat, low: Rgb, high: Rgb)
    requires Full(pixels, width, height) && y1 <= height && x1 <= width
  {
    forall y, x :: y0 <= y < y1 && x0 <= x < x1 ==> Between(PixelAt(pixels, width, height, x, y), low, high)
  }

  ghost predicate Between(p: Rgb, low: Rgb, high: Rgb) {
    low.red <= p.red <= high.red && low.green <= p.green <= high.green && low.blue <= p.blue <= high.blue
  }

  ghost predicate Weighed(t: Totals, low: Rgb, high: Rgb) {
    && t.count * low.red <= t.red <= t.count * high.red
    && t.count * low.green <= t.green <= t.count * high.green
    && t.count * low.blue <= t.blue <= t.count * high.blue
  }

  lemma AddWeighed(t: Totals, p: Rgb, low: Rgb, high: Rgb)
    requires Weighed(t, low, high)
    requires Between(p, low, high)
    ensures Weighed(Add(t, p), low, high)
  {
    OneMoreBounded(t.count, t.red, p.red, low.red, high.red);
    OneMoreBounded(t.count, t.green, p.green, low.green, high.green);
    OneMoreBounded(t.count, t.blue, p.blue, low.blue, high.blue);
  }

  lemma OneMoreBounded(n: nat, total: nat, v: nat, low: nat, high: nat)
    requires n * low <= total <= n * high && low <= v <= high
    ensures (n + 1) * low <= total + v <= (n + 1) * high
  {
  }

  lemma {:induction false} RowWeighed(
      pixels: seq<Rgb>, width: nat, height: nat, y: nat, x0: nat, x1: nat, t: Totals, low: Rgb, high: Rgb)
    requires Full(pixels, width, height) && y < height && x0 <= x1 <= width && Weighed(t, low, high)
    requires Within(pixels, width, height, y, y + 1, x0, x1, low, high)
    ensures var r := RowTotals(pixels, width, height, y, x0, x1, t);
      Weighed(r, low, high) && r.count == t.count + (x1 - x0)
    decreases x1
  {
    if x0 < x1 {
      RowWeighed(pixels, width, height, y, x0, x1 - 1, t, low, high);
      AddWeighed(RowTotals(pixels, width, height, y, x0, x1 - 1, t), PixelAt(pixels, width, height, x1 - 1, y),
                 low, high);
    }
  }

  lemma {:induction false} RegionWeighed(
      pixels: seq<Rgb>, width: nat, height: nat, y0: nat, y1: nat, x0: nat, x1: nat, low: Rgb, high: Rgb)
    requires Full(pixels, width, height) && y0 <= y1 <= height && x0 <= x1 <= width
    requires Within(pixels, width, height, y0, y1, x0, x1, low, high)
    ensures var t := RegionTotals(pixels, width, height, y0, y1, x0, x1);
      Weighed(t, low, high) && t.count == (y1 - y0) * (x1 - x0)
    decreases y1
  {
    if y0 < y1 {
      RegionWeighed(pixels, width, height, y0, y1 - 1, x0, x1, low, high);
      RowWeighed(pixels, width, height, y1 - 1, x0, x1, RegionTotals(pixels, width, height, y0, y1 - 1, x0, x1),
                 low, high);
      assert (y1 - y0) * (x1 - x0) == (y1 - 1 - y0) * (x1 - x0) + (x1 - x0);
    }
  }

  lemma QuotientBetween(total: nat, count: nat, low: nat, high: nat)
    requires count > 0 && count * low <= total <= count * high
    ensures low <= total / count <= high
  {
    assert count * low == low * count && count * high == high * count;
    assert (high + 1) * count == high * count + count;
    QuotientAtMost(total, count, high);
    if low > 0 {
      QuotientAtMost(total, count, low - 1);
    }
  }

  /** Each averaged channel lies between the smallest and the largest value in its region. */
  lemma SampleBetween(
      pixels: seq<Rgb>, width: nat, height: nat, outX: nat, outY: nat, columns: nat, rows: nat, low: Rgb, high: Rgb)
    requires Full(pixels, width, height)
    requires outX < columns <= width && outY < rows <= height
    requires Capped(CellEnd(outY, height, rows), height) <= height
    requires Capped(CellEnd(outX, width, columns), width) <= width
    requires Within(pixels, width, height,
      CellStart(outY, height, rows), Capped(CellEnd(outY, height, rows), height),
      CellStart(outX, width, columns), Capped(CellEnd(outX, width, columns), width), low, high)
    ensures var (red, green, blue) := Sample(pixels, width, height, outX, outY, columns, rows);
      low.red <= red <= high.red && low.green <= green <= high.green && low.blue <= blue <= high.blue
  {
    CellInside(outX, width, columns);
    CellInside(outY, height, rows);
    var y0, y1 := CellStart(outY, height, rows), Capped(CellEnd(outY, height, rows), height);
    var x0, x1 := CellStart(outX, width, columns), Capped(CellEnd(outX, width, columns), width);
    RegionWeighed(pixels, width, height, y0, y1, x0, x1, low, high);
    CellNotEmpty(outX, width, columns);
    CellNotEmpty(outY, height, rows);
    MulMonotone(1, y1 - y0, x1 - x0);
    var t := RegionTotals(pixels, width, height, y0, y1, x0, x1);
    QuotientBetween(t.red, t.count, low.red, high.red);
    QuotientBetween(t.green, t.count, low.green, high.green);
    QuotientBetween(t.blue, t.count, low.blue, high.blue);
  }

  /** The pixels of a region, row by row. */
  function Region(pixels: seq<Rgb>, width: nat, height: nat, y0: nat, y1: nat, x0: nat, x1: nat): seq<Rgb>
    requires Full(pixels, width, height) && y0 <= y1 <= height && x0 <= x1 <= width
    decreases y1
  {
    if y0 == y1 then []
    else
      RowInside(width, height, y1 - 1);
      Region(pixels, width, height, y0, y1 - 1, x0, x1) + pixels[(y1 - 1) * width + x0..(y1 - 1) * width + x1]
  }

  lemma RowInside(width: nat, height: nat, y: nat)
    requires y < height
    ensures 0 <= y * width && y * width + width <= height * width == width * height
  {
    MulMonotone(y + 1, height, width);
    assert (y + 1) * width == y * width + width;
  }

  function Reds(pixels: seq<Rgb>): nat { if pixels == [] then 0 else pixels[0].red + Reds(pixels[1..]) }

  function Greens(pixels: seq<Rgb>): nat { if pixels == [] then 0 else pixels[0].green + Greens(pixels[1..]) }

  function Blues(pixels: seq<Rgb>): nat { if pixels == [] then 0 else pixels[0].blue + Blues(pixels[1..]) }

  ghost predicate IsTotalOf(t: Totals, pixels: seq<Rgb>) {
    t.red == Reds(pixels) && t.green == Greens(pixels) && t.blue == Blues(pixels) && t.count == |pixels|
  }

  lemma {:induction false} OneMoreSummed(pixels: seq<Rgb>, p: Rgb)
    ensures Reds(pixels + [p]) == Reds(pixels) + p.red
    ensures Greens(pixels + [p]) == Greens(pixels) + p.green
    ensures Blues(pixels + [p]) == Blues(pixels) + p.blue
  {
    if pixels == [] {
      assert pixels + [p] == [p] && [p][1..] == [];
    } else {
      assert (pixels + [p])[1..] == pixels[1..] + [p];
      OneMoreSummed(pixels[1..], p);
    }
  }

  lemma {:induction false} RowIsSummed(
      pixels: seq<Rgb>, width: nat, height: nat, y: nat, x0: nat, x1: nat, t: Totals, before: seq<Rgb>)
    requires Full(pixels, width, height) && y < height && x0 <= x1 <= width && IsTotalOf(t, before)
    ensures 0 <= y * width && y * width + x1 <= |pixels|
    ensures IsTotalOf(RowTotals(pixels, width, height, y, x0, x1, t), before + pixels[y * width + x0..y * width + x1])
    decreases x1
  {
    RowInside(width, height, y);
    var row := y * width;
    if x0 < x1 {
      var most := before + pixels[row + x0..row + (x1 - 1)];
      RowIsSummed(pixels, width, height, y, x0, x1 - 1, t, before);
      OneMoreSummed(most, pixels[row + (x1 - 1)]);
      assert before + pixels[row + x0..row + x1] == most + [pixels[row + (x1 - 1)]];
    } else {
      assert before + pixels[row + x0..row + x1] == before;
    }
  }

  lemma {:induction false} RegionIsSummed(
      pixels: seq<Rgb>, width: nat, height: nat, y0: nat, y1: nat, x0: nat, x1: nat)
    requires Full(pixels, width, height) && y0 <= y1 <= height && x0 <= x1 <= width
    ensures IsTotalOf(RegionTotals(pixels, width, height, y0, y1, x0, x1),
                      Region(pixels, width, height, y0, y1, x0, x1))
    decreases y1
  {
    if y0 < y1 {
      RegionIsSummed(pixels, width, height, y0, y1 - 1, x0, x1);
      RowIsSummed(pixels, width, height, y1 - 1, x0, x1, RegionTotals(pixels, width, height, y0, y1 - 1, x0, x1),
                  Region(pixels, width, height, y0, y1 - 1, x0, x1));
    }
  }

  predicate IsQuotient(q: nat, total: nat, count: nat) { q * count <= total < (q + 1) * count }

  /** Each channel of a cell's colour is the sum of that channel over the pixels of its region, divided by their
      number and rounded down. */
  lemma SampleIsAverage(
      pixels: seq<Rgb>, width: nat, height: nat, outX: nat, outY: nat, columns: nat, rows: nat)
    returns (x0: nat, x1: nat, y0: nat, y1: nat)
    requires Full(pixels, width, height)
    requires outX < columns <= width && outY < rows <= height
    ensures x0 == outX * width / columns && x1 == (outX + 1) * width / columns && x0 < x1 <= width
    ensures y0 == outY * height / rows && y1 == (outY + 1) * height / rows && y0 < y1 <= height
    ensures var region := Region(pixels, width, height, y0, y1, x0, x1);
      var color := Sample(pixels, width, height, outX, outY, columns, rows);
      && IsQuotient(color.0, Reds(region), |region|) && IsQuotient(color.1, Greens(region), |region|)
      && IsQuotient(color.2, Blues(region), |region|)
  {
    hide CellEnd, RegionTotals, Region, Reds, Greens, Blues, Average, IsQuotient, CellStart;
    x0, x1 := CellIs(outX, width, columns);
    y0, y1 := CellIs(outY, height, rows);
    RegionIsSummed(pixels, width, height, y0, y1, x0, x1);
    RegionNotEmpty(pixels, width, height, y0, y1, x0, x1);
    AverageIs(RegionTotals(pixels, width, height, y0, y1, x0, x1));
  }

  lemma AverageIs(t: Totals)
    requires t.count > 0
    ensures var (red, green, blue) := Average(t);
      IsQuotient(red, t.red, t.count) && IsQuotient(green, t.green, t.count) && IsQuotient(blue, t.blue, t.count)
  {
    QuotientIs(t.red, t.count, t.red / t.count);
    QuotientIs(t.green, t.count, t.green / t.count);
    QuotientIs(t.blue, t.count, t.blue / t.count);
  }

  /** The pixels of a cell on one axis. */
  lemma CellIs(cell: nat, size: nat, cells: nat) returns (start: nat, end: nat)
    requires cell < cells <= size
    ensures start == cell * size / cells && end == (cell + 1) * size / cells && start < end <= size
    ensures start == CellStart(cell, size, cells) && end == Capped(CellEnd(cell, size, cells), size)
  {
    start, end := CellStart(cell, size, cells), CellStart(cell + 1, size, cells);
    CellNotEmpty(cell, size, cells);
    CellsTouch(cell, size, cells);
    LastCellInside(cell, size, cells);
  }

  lemma LastCellInside(cell: nat, size: nat, cells: nat)
    requires cell < cells
    ensures CellStart(cell + 1, size, cells) <= size
  {
    MulMonotone(cell + 1, cells, size);
    QuotientAtMost((cell + 1) * size, cells, size);
    assert (size + 1) * cells == size * cells + cells;
  }

  lemma RegionNotEmpty(pixels: seq<Rgb>, width: nat, height: nat, y0: nat, y1: nat, x0: nat, x1: nat)
    requires Full(pixels, width, height) && y0 < y1 <= height && x0 < x1 <= width
    ensures |Region(pixels, width, height, y0, y1, x0, x1)| > 0
  {
    RowInside(width, height, y1 - 1);
  }

  lemma CellNotEmpty(cell: nat, size: nat, cells: nat)
    requires cell < cells <= size
    ensures CellStart(cell, size, cells) < Capped(CellEnd(cell, size, cells), size)
  {
    MulMonotone(cell + 1, cells, size);
    assert (cell + 1) * size == cell * size + size;
    assert cell * size < size * cells;
    QuotientAtMost(cell * size, cells, size - 1);
  }

  // ----- Characters -----

  function Luminance(color: (nat, nat, nat)): int {
    (0.2126 * color.0 as real + 0.7152 * color.1 as real + 0.0722 * color.2 as real).Floor
  }

  /** The weights of the three channels, in ten-thousandths. */
  lemma LuminanceIs(color: (nat, nat, nat))
    ensures var weighed, n := 2126 * color.0 + 7152 * color.1 + 722 * color.2, Luminance(color);
      10000 * n <= weighed < 10000 * (n + 1)
  {
    var weighed := 2126 * color.0 + 7152 * color.1 + 722 * color.2;
    var exact := 0.2126 * color.0 as real + 0.7152 * color.1 as real + 0.0722 * color.2 as real;
    assert 10000.0 * exact == weighed as real;
  }

  function CharIndex(color: (nat, nat, nat)): int {
    var index := Luminance(color) * |PREVIEW_CHARS| / 256;
    if |PREVIEW_CHARS| - 1 <= index then |PREVIEW_CHARS| - 1 else index
  }

  /** Every colour has a character, the cut-off at the last one is never needed, and brighter is never
      earlier. */
  lemma CharIndexInRange(color: (nat, nat, nat), brighter: (nat, nat, nat))
    requires color.0 <= brighter.0 < 256 && color.1 <= brighter.1 < 256 && color.2 <= brighter.2 < 256
    ensures 0 <= Luminance(color) <= Luminance(brighter) < 256
    ensures 0 <= CharIndex(color) <= CharIndex(brighter) < |PREVIEW_CHARS|
    ensures 256 * CharIndex(color) <= 9 * Luminance(color) < 256 * (CharIndex(color) + 1)
  {
    assert |PREVIEW_CHARS| == 9;
  }

  ghost predicate IsCharOf(c: char, color: (nat, nat, nat)) {
    0 <= CharIndex(color) < |PREVIEW_CHARS| && c == PREVIEW_CHARS[CharIndex(color)]
  }

  /** Black is a dot, white an at sign. */
  lemma EndsOfScale(c: char)
    ensures IsCharOf(c, (0, 0, 0)) <==> c == '.'
    ensures IsCharOf(c, (255, 255, 255)) <==> c == '@'
  {
    LuminanceIs((0, 0, 0));
    LuminanceIs((255, 255, 255));
  }

  /** The character grid of a preview of `columns` by `rows` cells. */
  ghost predicate Renders(lines: seq<string>, pixels: seq<Rgb>, width: nat, height: nat, columns: nat, rows: nat)
    requires Full(pixels, width, height)
  {
    && |lines| == rows
    && forall y :: 0 <= y < rows ==> RendersLine(lines[y], pixels, width, height, y, columns, rows)
  }

  ghost predicate RendersLine(line: string, pixels: seq<Rgb>, width: nat, height: nat, y: nat, columns: nat, rows: nat)
    requires Full(pixels, width, height) && y < rows
  {
    && |line| == columns
    && forall x :: 0 <= x < columns ==> IsCharOf(line[x], Sample(pixels, width, height, x, y, columns, rows))
  }

  lemma SampleIsColor(pixels: seq<Rgb>, width: nat, height: nat, x: nat, y: nat, columns: nat, rows: nat)
    requires Full(pixels, width, height) && x < columns <= width && y < rows <= height
    ensures var (red, green, blue) := Sample(pixels, width, height, x, y, columns, rows);
      red < 256 && green < 256 && blue < 256
  {
    CellInside(x, width, columns);
    CellInside(y, height, rows);
    SampleBetween(pixels, width, height, x, y, columns, rows, Rgb(0, 0, 0), Rgb(255, 255, 255));
  }

  /** `render_pixels_as_ascii`: one character per cell; no character is blank, so nothing is
      stripped, and there is a preview exactly if there is an image. */
  method RenderPixelsAsAscii(pixels: seq<Rgb>, width: nat, height: nat, maxWidth: nat, maxHeight: nat)
    returns (preview: Option<seq<string>>)
    requires pixels != [] ==> Full(pixels, width, height)
    ensures preview.None? <==> width == 0 || height == 0 || pixels == []
    ensures preview.Some? ==>
      var (columns, rows) := PreviewDimensions(width, height, maxWidth, maxHeight);
      1 <= columns && 1 <= rows && Renders(preview.value, pixels, width, height, columns, rows)
  {
    if width == 0 || height == 0 || pixels == [] {
      return None;
    }
    PreviewFits(width, height, maxWidth, maxHeight);
    var (columns, rows) := PreviewDimensions(width, height, maxWidth, maxHeight);
    var lines := [];
    for y := 0 to rows
      invariant |lines| == y
      invariant forall k :: 0 <= k < y ==> RendersLine(lines[k], pixels, width, height, k, columns, rows)
    {
      var line := "";
      for x := 0 to columns
        invariant |line| == x
        invariant forall k :: 0 <= k < x ==>
          IsCharOf(line[k], Sample(pixels, width, height, k, y, columns, rows))
      {
        var color := SampleRegionRgb(pixels, width, height, x, y, columns, rows);
        SampleIsColor(pixels, width, height, x, y, columns, rows);
        CharIndexInRange(color, color);
        line := line + [PREVIEW_CHARS[CharIndex(color)]];
      }
      lines := lines + [line];
    }
    preview := Some(lines);
  }
}
