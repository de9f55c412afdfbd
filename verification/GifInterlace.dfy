/** De-interlacing of GIF image data, against the row order of Appendix E of GIF89a. */
module GifInterlace {
  import opened Bits

  // ----- Rows as pieces of one long index list -----

  /** A slice whose bounds may lie past the end, as Python takes it. */
  function Slice<T>(s: seq<T>, lo: nat, hi: nat): seq<T>
    requires lo <= hi
  {
    var from := if lo <= |s| then lo else |s|;
    var to := if hi <= |s| then hi else |s|;
    s[from..to]
  }

  function Row(indices: seq<nat>, width: nat, row: nat): seq<nat> {
    assert row * width <= (row + 1) * width;
    Slice(indices, row * width, (row + 1) * width)
  }

  function Flatten<T>(rows: seq<seq<T>>): seq<T> {
    if rows == [] then [] else rows[0] + Flatten(rows[1..])
  }

  ghost predicate Rectangular<T>(rows: seq<seq<T>>, width: nat) {
    forall i :: 0 <= i < |rows| ==> |rows[i]| == width
  }

  lemma {:induction false} RowOfFlatten(rows: seq<seq<nat>>, width: nat, row: nat)
    requires Rectangular(rows, width) && row < |rows|
    ensures |Flatten(rows)| == |rows| * width
    ensures Row(Flatten(rows), width, row) == rows[row]
  {
    FlattenLength(rows, width);
    assert (row + 1) * width <= |rows| * width;
    if row == 0 {
    } else {
      RowOfFlatten(rows[1..], width, row - 1);
      var rest := Flatten(rows[1..]);
      assert row * width == (row - 1) * width + width;
      assert (row + 1) * width == row * width + width;
      assert row * width <= |rest|;
      assert Row(rest, width, row - 1) == rest[(row - 1) * width..row * width];
    }
  }

  lemma {:induction false} FlattenLength<T>(rows: seq<seq<T>>, width: nat)
    requires Rectangular(rows, width)
    ensures |Flatten(rows)| == |rows| * width
  {
    if rows != [] {
      FlattenLength(rows[1..], width);
      assert |rows| * width == (|rows| - 1) * width + width;
    }
  }

  // ----- Appendix E: the order in which the rows of an interlaced image are stored -----

  /** Every `step`-th row below `height`, from `start` on. */
  function Pass(start: nat, step: nat, height: nat): seq<nat>
    requires step > 0
    decreases if start < height then height - start else 0
  {
    if start >= height then [] else [start] + Pass(start + step, step, height)
  }

  function InterlaceOrder(height: nat): seq<nat> {
    Pass(0, 8, height) + Pass(4, 8, height) + Pass(2, 4, height) + Pass(1, 2, height)
  }

  // ----- The four passes of the decoder -----

  const PASSES: seq<(nat, nat)> := [(0, 8), (4, 8), (2, 4), (1, 2)]

  /** The pass that fills row `row`. */
  function PassOf(row: nat): (pass: nat)
    ensures pass < 4 && row % PASSES[pass].1 == PASSES[pass].0
  {
    if row % 8 == 0 then 0 else if row % 8 == 4 then 1 else if row % 4 == 2 then 2 else 3
  }

  /** The `j`-th row that pass `pass` fills. */
  function PassRow(pass: nat, j: nat): nat
    requires pass < 4
  {
    if pass == 0 then 8 * j else if pass == 1 then 4 + 8 * j else if pass == 2 then 2 + 4 * j else 1 + 2 * j
  }

  /** How many rows the passes before `pass` fill. */
  function FilledBefore(pass: nat, height: nat): nat
    requires pass <= 4
  {
    (if pass > 0 then (height + 7) / 8 else 0) + (if pass > 1 then (height + 3) / 8 else 0)
    + (if pass > 2 then (height + 1) / 4 else 0) + (if pass > 3 then height / 2 else 0)
  }

  /** The place in the stored order of the row that is shown at `row`. */
  function StoredAt(row: nat, height: nat): (k: nat) {
    FilledBefore(PassOf(row), height) + row / PASSES[PassOf(row)].1
  }

  lemma {:induction false} PassAt(start: nat, step: nat, height: nat, k: nat)
    requires step > 0 && start + k * step < height
    ensures k < |Pass(start, step, height)| && Pass(start, step, height)[k] == start + k * step
    decreases k
  {
    if k > 0 {
      assert k * step == (k - 1) * step + step;
      PassAt(start + step, step, height, k - 1);
    }
  }

  lemma {:induction false} PassLength(start: nat, step: nat, height: nat)
    requires start < step
    ensures |Pass(start, step, height)| == (height + step - 1 - start) / step
  {
    PassLengthFrom(start, step, height);
  }

  lemma {:induction false} PassLengthFrom(start: nat, step: nat, height: nat)
    requires step > 0
    ensures start <= height + step - 1 ==> |Pass(start, step, height)| == (height + step - 1 - start) / step
    decreases if start < height then height - start else 0
  {
    if start < height {
      PassLengthFrom(start + step, step, height);
      var n := height - 1 - start;
      var q := n / step;
      assert n == q * step + n % step;
      assert n + step == (q + 1) * step + n % step;
      DivUnique(n + step, step, q + 1, n % step);
    } else if start <= height + step - 1 {
      DivUnique(height + step - 1 - start, step, 0, height + step - 1 - start);
    }
  }

  /** The stored order holds every row exactly once: row `row` stands at `StoredAt(row)`, and the
      places are exactly the first `height`. */
  lemma InterlaceOrderIsBijection(height: nat)
    ensures |InterlaceOrder(height)| == height
    ensures forall row :: 0 <= row < height ==>
      StoredAt(row, height) < height && InterlaceOrder(height)[StoredAt(row, height)] == row
    ensures forall k :: 0 <= k < height ==>
      InterlaceOrder(height)[k] < height && StoredAt(InterlaceOrder(height)[k], height) == k
  {
    PlacesBelow(height);
    forall row | 0 <= row < height
      ensures StoredAt(row, height) < height && InterlaceOrder(height)[StoredAt(row, height)] == row
    {
      RowIsStored(row, height);
    }
    forall k | 0 <= k < height
      ensures InterlaceOrder(height)[k] < height && StoredAt(InterlaceOrder(height)[k], height) == k
    {
      PlaceIsUsed(k, height);
    }
  }

  lemma PassesFillAll(height: nat)
    ensures FilledBefore(4, height) == height
  {
    var q, r := height / 8, height % 8;
    assert height == 8 * q + r;
    assert (height + 7) / 8 == q + (if r > 0 then 1 else 0);
    assert (height + 3) / 8 == q + (if r > 4 then 1 else 0);
    assert (height + 1) / 4 == 2 * q + (if r == 7 then 2 else if r > 2 then 1 else 0);
    assert height / 2 == 4 * q + r / 2;
  }

  lemma PassLengths(height: nat)
    ensures |Pass(0, 8, height)| == (height + 7) / 8
    ensures |Pass(4, 8, height)| == (height + 3) / 8
    ensures |Pass(2, 4, height)| == (height + 1) / 4
    ensures |Pass(1, 2, height)| == height / 2
  {
    PassLength(0, 8, height);
    PassLength(4, 8, height);
    PassLength(2, 4, height);
    PassLength(1, 2, height);
  }

  lemma PlacesBelow(height: nat)
    ensures |InterlaceOrder(height)| == height
  {
    PassLengths(height);
    PassesFillAll(height);
  }

  lemma FourPieces<T>(a: seq<T>, b: seq<T>, c: seq<T>, d: seq<T>, j: nat)
    ensures var s := a + b + c + d;
      && (j < |a| ==> s[j] == a[j])
      && (j < |b| ==> s[|a| + j] == b[j])
      && (j < |c| ==> s[|a| + |b| + j] == c[j])
      && (j < |d| ==> s[|a| + |b| + |c| + j] == d[j])
  {
  }

  lemma PassRowIsStored(pass: nat, j: nat, height: nat)
    requires pass < 4 && PassRow(pass, j) < height
    ensures var k := FilledBefore(pass, height) + j;
      k < |InterlaceOrder(height)| && InterlaceOrder(height)[k] == PassRow(pass, j)
  {
    var p0, p1, p2, p3 := Pass(0, 8, height), Pass(4, 8, height), Pass(2, 4, height), Pass(1, 2, height);
    PassLengths(height);
    FourPieces(p0, p1, p2, p3, j);
    if pass == 0 {
      PassAt(0, 8, height, j);
    } else if pass == 1 {
      PassAt(4, 8, height, j);
    } else if pass == 2 {
      PassAt(2, 4, height, j);
    } else {
      PassAt(1, 2, height, j);
    }
  }

  /** The `j`-th row of a pass belongs to that pass and to no other. */
  lemma RowOfPass(pass: nat, j: nat)
    requires pass < 4
    ensures var row := PassRow(pass, j); PassOf(row) == pass && row / PASSES[pass].1 == j
    ensures PassRow(pass, 0) == PASSES[pass].0
    ensures PassRow(pass, j + 1) == PassRow(pass, j) + PASSES[pass].1
  {
  }

  lemma RowInItsPass(row: nat)
    ensures PassRow(PassOf(row), row / PASSES[PassOf(row)].1) == row
  {
  }

  lemma RowIsStored(row: nat, height: nat)
    requires row < height
    ensures var k := StoredAt(row, height); k < |InterlaceOrder(height)| && InterlaceOrder(height)[k] == row
  {
    RowInItsPass(row);
    PassRowIsStored(PassOf(row), row / PASSES[PassOf(row)].1, height);
  }

  lemma RoomInPass(pass: nat, j: nat, height: nat)
    requires pass < 4 && FilledBefore(pass, height) + j < FilledBefore(pass + 1, height)
    ensures PassRow(pass, j) < height
  {
  }

  lemma PlaceIsUsed(k: nat, height: nat)
    requires k < height
    ensures k < |InterlaceOrder(height)|
    ensures InterlaceOrder(height)[k] < height && StoredAt(InterlaceOrder(height)[k], height) == k
  {
    PassesFillAll(height);
    var pass: nat := 0;
    while FilledBefore(pass + 1, height) <= k
      invariant pass < 4 && FilledBefore(pass, height) <= k
      decreases 4 - pass
    {
      pass := pass + 1;
    }
    var j := k - FilledBefore(pass, height);
    RoomInPass(pass, j, height);
    PassRowIsStored(pass, j, height);
    RowOfPass(pass, j);
  }

  /** Between two rows of a pass there is no third one. */
  lemma NextRowOfPass(pass: nat, j: nat, row: nat)
    requires pass < 4 && PassOf(row) == pass && PassRow(pass, j) <= row < PassRow(pass, j + 1)
    ensures row == PassRow(pass, j)
  {
  }

  lemma PassEnds(pass: nat, j: nat, height: nat)
    requires pass < 4 && PassRow(pass, j) >= height && (j > 0 ==> PassRow(pass, j - 1) < height)
    ensures FilledBefore(pass, height) + j == FilledBefore(pass + 1, height)
  {
  }

  /** The rows as they are stored. */
  function StoredRows(indices: seq<nat>, width: nat, height: nat): (rows: seq<seq<nat>>)
    ensures |rows| == height
  {
    seq(height, row requires 0 <= row < height => Row(indices, width, row))
  }

  /** Cut into rows and joined again, a full index list is unchanged. */
  lemma {:induction false} FlattenOfRows(indices: seq<nat>, width: nat, height: nat)
    requires |indices| == width * height
    ensures Flatten(StoredRows(indices, width, height)) == indices
    ensures Rectangular(StoredRows(indices, width, height), width)
  {
    if height > 0 {
      var rest := indices[width..];
      assert |rest| == width * (height - 1);
      FlattenOfRows(rest, width, height - 1);
      forall row: nat | row < height - 1
        ensures Row(indices, width, row + 1) == Row(rest, width, row)
      {
        RowOfRest(indices, width, height, row);
      }
      assert StoredRows(indices, width, height)[1..] == StoredRows(rest, width, height - 1);
      assert StoredRows(indices, width, height)[0] == indices[..width];
    }
  }

  lemma RowOfRest(indices: seq<nat>, width: nat, height: nat, row: nat)
    requires |indices| == width * height && row < height - 1
    ensures width <= |indices|
    ensures Row(indices, width, row + 1) == Row(indices[width..], width, row)
  {
    MulMonotone(1, height, width);
    MulMonotone(row + 2, height, width);
    assert (row + 2) * width == (row + 1) * width + width;
    assert (row + 1) * width == row * width + width;
  }

  /** The rows in display order. */
  function ShownRows(indices: seq<nat>, width: nat, height: nat): (rows: seq<seq<nat>>)
    ensures |rows| == height
  {
    seq(height, row requires 0 <= row < height => Row(indices, width, StoredAt(row, height)))
  }

  function Deinterlaced(indices: seq<nat>, width: nat, height: nat): seq<nat> {
    Flatten(ShownRows(indices, width, height))
  }

  /** The rows of the passes before `pass`, and those of `pass` above `bound`, are in place. */
  ghost predicate InPlace(output: seq<seq<nat>>, rows: seq<seq<nat>>, pass: nat, bound: nat) {
    && |output| == |rows|
    && forall row :: 0 <= row < |rows| && (PassOf(row) < pass || (PassOf(row) == pass && row < bound)) ==>
         StoredAt(row, |rows|) < |rows| && output[row] == rows[StoredAt(row, |rows|)]
  }

  lemma FillRow(output: seq<seq<nat>>, rows: seq<seq<nat>>, pass: nat, j: nat)
    requires pass < 4 && PassRow(pass, j) < |rows|
    requires InPlace(output, rows, pass, PassRow(pass, j))
    ensures var source := FilledBefore(pass, |rows|) + j;
      && source < |rows|
      && InPlace(output[PassRow(pass, j) := rows[source]], rows, pass, PassRow(pass, j + 1))
  {
    var target, source := PassRow(pass, j), FilledBefore(pass, |rows|) + j;
    PassRowIsStored(pass, j, |rows|);
    PlacesBelow(|rows|);
    RowOfPass(pass, j);
    var after := output[target := rows[source]];
    forall row | 0 <= row < |rows| && (PassOf(row) < pass || (PassOf(row) == pass && row < PassRow(pass, j + 1)))
      ensures StoredAt(row, |rows|) < |rows| && after[row] == rows[StoredAt(row, |rows|)]
    {
      if PassOf(row) == pass && row >= target {
        NextRowOfPass(pass, j, row);
      } else {
        assert row != target;
      }
    }
  }

  function Blank(width: nat, height: nat): (rows: seq<seq<nat>>)
    ensures |rows| == height
  {
    seq(height, _ => seq(width, _ => 0))
  }

  lemma PassStarts(output: seq<seq<nat>>, rows: seq<seq<nat>>, pass: nat)
    requires pass < 4 && InPlace(output, rows, pass, 0)
    ensures InPlace(output, rows, pass, PASSES[pass].0)
  {
  }

  lemma PassIsDone(output: seq<seq<nat>>, rows: seq<seq<nat>>, pass: nat, bound: nat)
    requires pass < 4 && bound >= |rows| && InPlace(output, rows, pass, bound)
    ensures InPlace(output, rows, pass + 1, 0)
  {
  }

  lemma AllInPlace(output: seq<seq<nat>>, rows: seq<seq<nat>>, indices: seq<nat>, width: nat)
    requires InPlace(output, rows, 4, 0) && rows == StoredRows(indices, width, |rows|)
    ensures output == ShownRows(indices, width, |rows|)
  {
  }

  method DeinterlaceGifIndices(indices: seq<nat>, width: nat, height: nat) returns (shown: seq<nat>)
    ensures shown == Deinterlaced(indices, width, height)
  {
    var rows := StoredRows(indices, width, height);
    var output := Blank(width, height);
    var sourceRow := 0;
    for pass := 0 to 4
      invariant sourceRow == FilledBefore(pass, height)
      invariant InPlace(output, rows, pass, 0)
    {
      var (start, step) := PASSES[pass];
      var targetRow := start;
      ghost var j := 0;
      PassStarts(output, rows, pass);
      RowOfPass(pass, 0);
      while targetRow < height
        invariant targetRow == PassRow(pass, j)
        invariant j > 0 ==> PassRow(pass, j - 1) < height
        invariant sourceRow == FilledBefore(pass, height) + j
        invariant InPlace(output, rows, pass, targetRow)
      {
        FillRow(output, rows, pass, j);
        RowOfPass(pass, j);
        if sourceRow >= |rows| {
          break;
        }
        output := output[targetRow := rows[sourceRow]];
        sourceRow := sourceRow + 1;
        targetRow := targetRow + step;
        j := j + 1;
      }
      PassEnds(pass, j, height);
      PassIsDone(output, rows, pass, targetRow);
    }
    AllInPlace(output, rows, indices, width);
    shown := Flatten(output);
  }

  // ----- The two directions -----

  /** The rows of an image in the order in which an interlaced GIF stores them. */
  function Interlaced(image: seq<seq<nat>>): (rows: seq<seq<nat>>)
    ensures |rows| == |image|
  {
    InterlaceOrderIsBijection(|image|);
    seq(|image|, k requires 0 <= k < |image| => image[InterlaceOrder(|image|)[k]])
  }

  lemma DeinterlaceInvertsInterlace(image: seq<seq<nat>>, width: nat)
    requires Rectangular(image, width)
    ensures Deinterlaced(Flatten(Interlaced(image)), width, |image|) == Flatten(image)
  {
    var stored := Interlaced(image);
    InterlaceOrderIsBijection(|image|);
    forall row | 0 <= row < |image|
      ensures ShownRows(Flatten(stored), width, |image|)[row] == image[row]
    {
      RowOfFlatten(stored, width, StoredAt(row, |image|));
    }
    assert ShownRows(Flatten(stored), width, |image|) == image;
  }

  lemma InterlaceInvertsDeinterlace(indices: seq<nat>, width: nat, height: nat)
    requires |indices| == width * height
    ensures Flatten(Interlaced(ShownRows(indices, width, height))) == indices
    ensures |Deinterlaced(indices, width, height)| == |indices|
  {
    var shown := ShownRows(indices, width, height);
    var rows := StoredRows(indices, width, height);
    FlattenOfRows(indices, width, height);
    InterlaceOrderIsBijection(height);
    assert Interlaced(shown) == rows;
    forall row | 0 <= row < height
      ensures |shown[row]| == width
    {
      assert shown[row] == rows[StoredAt(row, height)];
    }
    FlattenLength(shown, width);
  }
}
