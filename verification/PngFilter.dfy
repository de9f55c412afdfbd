/** PNG scanline filters (sections 9.2 and 9.4 of the W3C PNG Specification): the decoder's row loop,
    the filters it undoes, and the proof that each inverts the other. */
module PngFilter {
  import opened Bits
  import opened Options

  function Abs(x: int): nat { if x < 0 then -x else x }

  function PaethPredictor(left: byte, up: byte, upLeft: byte): byte {
    var estimate := left + up - upLeft;
    var distanceLeft := Abs(estimate - left);
    var distanceUp := Abs(estimate - up);
    var distanceUpLeft := Abs(estimate - upLeft);
    if distanceLeft <= distanceUp && distanceLeft <= distanceUpLeft then left
    else if distanceUp <= distanceUpLeft then up
    else upLeft
  }

  /** The predictor is the first of left, up and up-left, in that order, that no other one is
      closer to the estimate than; being first and closest fixes it. */
  lemma PaethIsFirstClosest(left: byte, up: byte, upLeft: byte, k: nat)
    requires k < 3
    ensures var n, e := [left, up, upLeft], left + up - upLeft;
      var closest := forall i :: 0 <= i < 3 ==> Abs(e - n[k]) <= Abs(e - n[i]);
      var first := forall i :: 0 <= i < k ==> Abs(e - n[i]) > Abs(e - n[k]);
      closest && first ==> PaethPredictor(left, up, upLeft) == n[k]
  {
    var n, e := [left, up, upLeft], left + up - upLeft;
    if forall i :: 0 <= i < 3 ==> Abs(e - n[k]) <= Abs(e - n[i]) {
      assert Abs(e - n[k]) <= Abs(e - n[0]) && Abs(e - n[k]) <= Abs(e - n[1]) && Abs(e - n[k]) <= Abs(e - n[2]);
      if k > 0 {
        assert n[0] == left;
      }
      if k > 1 {
        assert n[1] == up;
      }
    }
  }

  /** `a` is undone by adding what was subtracted, and the other way round, modulo 256. */
  lemma ModuloInverse(a: byte, p: byte)
    ensures ((a as int - p as int) % 256 + p) % 256 == a
    ensures ((a + p) % 256 as int - p as int) % 256 == a
  {
  }

  predicate LegalFilter(filterType: nat) { filterType <= 4 }

  function Prediction(filterType: nat, left: byte, up: byte, upLeft: byte): byte
    requires LegalFilter(filterType)
  {
    match filterType
    case 0 => 0
    case 1 => left
    case 2 => up
    case 3 => (left + up) / 2
    case 4 => PaethPredictor(left, up, upLeft)
  }

  /** One byte of the five cases of `unfilter_png_row`. */
  function Unpredicted(filterType: nat, value: byte, left: byte, up: byte, upLeft: byte): byte
    requires LegalFilter(filterType)
  {
    match filterType
    case 0 => value
    case 1 => (value + left) % 256
    case 2 => (value + up) % 256
    case 3 => (value + (left + up) / 2) % 256
    case 4 => (value + PaethPredictor(left, up, upLeft)) % 256
  }

  lemma UnpredictedAdds(filterType: nat, value: byte, left: byte, up: byte, upLeft: byte)
    requires LegalFilter(filterType)
    ensures Unpredicted(filterType, value, left, up, upLeft)
            == (value + Prediction(filterType, left, up, upLeft)) % 256
  {
  }

  /** What the filter predicts for byte `i` of a row whose bytes before `i` are those of `row`. */
  function Predicted(filterType: nat, row: seq<byte>, previous: seq<byte>, i: nat, bpp: nat): byte
    requires LegalFilter(filterType) && 0 < bpp && i <= |row|
  {
    Prediction(filterType,
      if i >= bpp then row[i - bpp] else 0,
      if i < |previous| then previous[i] else 0,
      if i >= bpp && i - bpp < |previous| then previous[i - bpp] else 0)
  }

  /** The first `n` bytes of the row, each one needing the ones before it. */
  function Restored(filtered: seq<byte>, previous: seq<byte>, filterType: nat, bpp: nat, n: nat): (row: seq<byte>)
    requires LegalFilter(filterType) && 0 < bpp && n <= |filtered|
    ensures |row| == n
  {
    if n == 0 then []
    else
      var row := Restored(filtered, previous, filterType, bpp, n - 1);
      row + [(filtered[n - 1] + Predicted(filterType, row, previous, n - 1, bpp)) % 256]
  }

  /** A row of no bytes is accepted whatever its filter type, as no byte asks for the filter. */
  function Unfiltered(filtered: seq<byte>, previous: seq<byte>, filterType: nat, bpp: nat): (row: Option<seq<byte>>)
    requires 0 < bpp
    ensures row.Some? ==> |row.value| == |filtered|
  {
    if LegalFilter(filterType) then Some(Restored(filtered, previous, filterType, bpp, |filtered|))
    else if filtered == [] then Some([])
    else None
  }

  lemma NothingRestored(filtered: seq<byte>, previous: seq<byte>, filterType: nat, bpp: nat)
    requires LegalFilter(filterType) && 0 < bpp
    ensures Restored(filtered, previous, filterType, bpp, 0) == []
  {
  }

  lemma OneMoreRestored(
      filtered: seq<byte>, previous: seq<byte>, filterType: nat, bpp: nat, n: nat, left: byte, up: byte, upLeft: byte)
    requires LegalFilter(filterType) && 0 < bpp && n < |filtered|
    requires var row := Restored(filtered, previous, filterType, bpp, n);
      && left == (if n >= bpp then row[n - bpp] else 0)
      && up == (if n < |previous| then previous[n] else 0)
      && upLeft == if n >= bpp && n - bpp < |previous| then previous[n - bpp] else 0
    ensures Restored(filtered, previous, filterType, bpp, n + 1)
      == Restored(filtered, previous, filterType, bpp, n) + [Unpredicted(filterType, filtered[n], left, up, upLeft)]
  {
    hide Prediction, Unpredicted;
    UnpredictedAdds(filterType, filtered[n], left, up, upLeft);
  }

  method UnfilterPngRow(filtered: seq<byte>, previous: seq<byte>, filterType: nat, bpp: nat)
    returns (result: Option<seq<byte>>)
    requires 0 < bpp
    ensures result == Unfiltered(filtered, previous, filterType, bpp)
  {
    hide Restored, Unpredicted, PaethPredictor, Prediction;
    if LegalFilter(filterType) {
      NothingRestored(filtered, previous, filterType, bpp);
    }
    var row := new byte[|filtered|](i requires 0 <= i < |filtered| => filtered[i]);
    for index := 0 to |filtered|
      invariant index > 0 ==> LegalFilter(filterType)
      invariant LegalFilter(filterType) ==> row[..index] == Restored(filtered, previous, filterType, bpp, index)
    {
      var value := filtered[index];
      var left := if index >= bpp then row[index - bpp] else 0;
      var up := if index < |previous| then previous[index] else 0;
      var upLeft := if index >= bpp && index - bpp < |previous| then previous[index - bpp] else 0;
      if filterType > 4 {
        return None;
      }
      ghost var done := row[..index];
      OneMoreRestored(filtered, previous, filterType, bpp, index, left, up, upLeft);
      row[index] := Unpredicted(filterType, value, left, up, upLeft);
      assert row[..index + 1] == done + [row[index]];
    }
    assert row[..] == row[..|filtered|];
    result := Some(row[..]);
  }

  // ----- The filters of section 9.2 -----

  /** Filtering subtracts from each byte what its unfiltered neighbours predict. */
  function Filtered(row: seq<byte>, previous: seq<byte>, filterType: nat, bpp: nat): (filtered: seq<byte>)
    requires LegalFilter(filterType) && 0 < bpp
    ensures |filtered| == |row|
  {
    seq(|row|, i requires 0 <= i < |row| => (row[i] - Predicted(filterType, row, previous, i, bpp)) % 256)
  }

  lemma {:induction false} RestoredFromFiltered(row: seq<byte>, previous: seq<byte>, filterType: nat, bpp: nat, n: nat)
    requires LegalFilter(filterType) && 0 < bpp && n <= |row|
    ensures Restored(Filtered(row, previous, filterType, bpp), previous, filterType, bpp, n) == row[..n]
  {
    if n > 0 {
      RestoredFromFiltered(row, previous, filterType, bpp, n - 1);
      var p := Predicted(filterType, row, previous, n - 1, bpp);
      assert Predicted(filterType, row[..n - 1], previous, n - 1, bpp) == p;
      ModuloInverse(row[n - 1], p);
      assert row[..n] == row[..n - 1] + [row[n - 1]];
    }
  }

  lemma {:induction false} RestoredPrefix(
      filtered: seq<byte>, previous: seq<byte>, filterType: nat, bpp: nat, m: nat, n: nat)
    requires LegalFilter(filterType) && 0 < bpp && m <= n <= |filtered|
    ensures Restored(filtered, previous, filterType, bpp, m) == Restored(filtered, previous, filterType, bpp, n)[..m]
  {
    if m < n {
      RestoredPrefix(filtered, previous, filterType, bpp, m, n - 1);
    }
  }

  /** Unfiltering a filtered row gives the row back. */
  lemma UnfilterInvertsFilter(row: seq<byte>, previous: seq<byte>, filterType: nat, bpp: nat)
    requires LegalFilter(filterType) && 0 < bpp
    ensures Unfiltered(Filtered(row, previous, filterType, bpp), previous, filterType, bpp) == Some(row)
  {
    RestoredFromFiltered(row, previous, filterType, bpp, |row|);
    assert row[..|row|] == row;
  }

  /** Filtering the unfiltered row again gives the input bytes back. */
  lemma FilterInvertsUnfilter(filtered: seq<byte>, previous: seq<byte>, filterType: nat, bpp: nat)
    requires LegalFilter(filterType) && 0 < bpp
    ensures Filtered(Unfiltered(filtered, previous, filterType, bpp).value, previous, filterType, bpp) == filtered
  {
    hide Predicted, Restored;
    var row := Restored(filtered, previous, filterType, bpp, |filtered|);
    forall i | 0 <= i < |filtered|
      ensures Filtered(row, previous, filterType, bpp)[i] == filtered[i]
    {
      RestoredAt(filtered, previous, filterType, bpp, i);
      ModuloInverse(filtered[i], Predicted(filterType, row, previous, i, bpp));
    }
  }

  /** A restored byte is its filtered one plus the prediction from the restored row. */
  lemma RestoredAt(filtered: seq<byte>, previous: seq<byte>, filterType: nat, bpp: nat, i: nat)
    requires LegalFilter(filterType) && 0 < bpp && i < |filtered|
    ensures var row := Restored(filtered, previous, filterType, bpp, |filtered|);
      |row| == |filtered| && row[i] == (filtered[i] + Predicted(filterType, row, previous, i, bpp)) % 256
  {
    var row := Restored(filtered, previous, filterType, bpp, |filtered|);
    RestoredPrefix(filtered, previous, filterType, bpp, i, |filtered|);
    RestoredPrefix(filtered, previous, filterType, bpp, i + 1, |filtered|);
    assert Predicted(filterType, row[..i], previous, i, bpp) == Predicted(filterType, row, previous, i, bpp);
  }

  // ----- The row loop -----

  /** The bytes of `height` rows of `stride` bytes, with one filter byte each. */
  function Expected(stride: nat, height: nat): nat {
    if height == 0 then 0 else 1 + stride + Expected(stride, height - 1)
  }

  lemma NothingExpected(stride: nat)
    ensures Expected(stride, 0) == 0
  {
  }

  lemma ExpectedOneMore(stride: nat, height: nat)
    requires height > 0
    ensures Expected(stride, height) == 1 + stride + Expected(stride, height - 1)
  {
  }

  lemma {:induction false} ExpectedIsProduct(stride: nat, height: nat)
    ensures Expected(stride, height) == (stride + 1) * height
  {
    if height > 0 {
      ExpectedIsProduct(stride, height - 1);
      assert (stride + 1) * height == (stride + 1) * (height - 1) + (stride + 1);
    }
  }

  /** The rows in `raw`, each led by its filter type and predicted from the row above. */
  function Rows(raw: seq<byte>, previous: seq<byte>, stride: nat, height: nat, bpp: nat): (rows: Option<seq<seq<byte>>>)
    requires 0 < bpp && |raw| >= Expected(stride, height)
    ensures rows.Some? ==> |rows.value| == height
  {
    if height == 0 then Some([])
    else
      match Unfiltered(raw[1..1 + stride], previous, raw[0], bpp)
      case None => None
      case Some(row) =>
        match Rows(raw[1 + stride..], row, stride, height - 1, bpp)
        case None => None
        case Some(rest) => Some([row] + rest)
  }

  function DecodedRows(raw: seq<byte>, stride: nat, height: nat, bpp: nat): Option<seq<seq<byte>>>
    requires 0 < bpp
  {
    if |raw| < Expected(stride, height) then None
    else Rows(raw, seq(stride, _ => 0), stride, height, bpp)
  }

  function Joined(rows: seq<seq<byte>>, rest: Option<seq<seq<byte>>>): Option<seq<seq<byte>>> {
    match rest case None => None case Some(more) => Some(rows + more)
  }

  /** The rows from byte `index` on, unfolded by one row. */
  lemma RowsFrom(raw: seq<byte>, index: nat, previous: seq<byte>, stride: nat, height: nat, bpp: nat)
    requires 0 < bpp && height > 0 && index <= |raw| && |raw| - index >= Expected(stride, height)
    ensures var next := index + 1 + stride;
      var row := Unfiltered(raw[index + 1..next], previous, raw[index], bpp);
      Rows(raw[index..], previous, stride, height, bpp) ==
        if row.None? then None else Joined([row.value], Rows(raw[next..], row.value, stride, height - 1, bpp))
  {
    var next := index + 1 + stride;
    assert raw[index..][1..1 + stride] == raw[index + 1..next];
    assert raw[index..][1 + stride..] == raw[next..];
  }

  /** The row loop of `decode_png_pixels`, from the decompressed bytes to the rows. */
  method DecodePngRows(raw: seq<byte>, stride: nat, height: nat, bpp: nat) returns (result: Option<seq<seq<byte>>>)
    requires 0 < bpp
    ensures result == DecodedRows(raw, stride, height, bpp)
  {
    hide Unfiltered, Rows, Expected, Joined;
    ExpectedIsProduct(stride, height);
    if |raw| < (stride + 1) * height {
      return None;
    }
    var rows: seq<seq<byte>> := [];
    var previous: seq<byte> := seq(stride, _ => 0);
    var index := 0;
    ghost var answer := Rows(raw, previous, stride, height, bpp);
    assert raw[0..] == raw;
    JoinedNothing(answer);
    for done := 0 to height
      invariant 0 <= index <= |raw| && |raw| - index >= Expected(stride, height - done)
      invariant answer == Joined(rows, Rows(raw[index..], previous, stride, height - done, bpp))
    {
      RowsFrom(raw, index, previous, stride, height - done, bpp);
      ExpectedOneMore(stride, height - done);
      var filterType := raw[index];
      index := index + 1;
      var filtered := raw[index..index + stride];
      index := index + stride;
      var row := UnfilterPngRow(filtered, previous, filterType, bpp);
      if row.None? {
        NothingJoined(rows);
        return None;
      }
      JoinedTwice(rows, row.value, Rows(raw[index..], row.value, stride, height - done - 1, bpp));
      rows := rows + [row.value];
      previous := row.value;
    }
    NoRowsLeft(rows, raw[index..], previous, stride, bpp);
    result := Some(rows);
  }

  lemma NoRowsLeft(rows: seq<seq<byte>>, raw: seq<byte>, previous: seq<byte>, stride: nat, bpp: nat)
    requires 0 < bpp && |raw| >= Expected(stride, 0)
    ensures Joined(rows, Rows(raw, previous, stride, 0, bpp)) == Some(rows)
  {
    assert rows + [] == rows;
  }

  lemma NothingJoined(rows: seq<seq<byte>>)
    ensures Joined(rows, None) == None
  {
  }

  lemma JoinedNothing(rest: Option<seq<seq<byte>>>)
    ensures Joined([], rest) == rest
  {
    if rest.Some? {
      assert [] + rest.value == rest.value;
    }
  }

  lemma JoinedTwice(rows: seq<seq<byte>>, row: seq<byte>, rest: Option<seq<seq<byte>>>)
    ensures Joined(rows, Joined([row], rest)) == Joined(rows + [row], rest)
  {
    if rest.Some? {
      assert rows + ([row] + rest.value) == rows + [row] + rest.value;
    }
  }

  predicate LegalTypes(types: seq<byte>) {
    types == [] || (LegalFilter(types[0]) && LegalTypes(types[1..]))
  }

  ghost predicate OfStride(rows: seq<seq<byte>>, stride: nat) {
    forall i :: 0 <= i < |rows| ==> |rows[i]| == stride
  }

  /** Reference encoder: every row filtered by a type of its own choice. */
  function EncodedRows(rows: seq<seq<byte>>, types: seq<byte>, previous: seq<byte>, bpp: nat): seq<byte>
    requires 0 < bpp && |types| == |rows| && LegalTypes(types)
  {
    if rows == [] then []
    else [types[0]] + Filtered(rows[0], previous, types[0], bpp) + EncodedRows(rows[1..], types[1..], rows[0], bpp)
  }

  /** The filter types that lead the rows of `raw`. */
  function TypesOf(raw: seq<byte>, stride: nat, height: nat): (types: seq<byte>)
    requires |raw| >= Expected(stride, height)
    ensures |types| == height
  {
    if height == 0 then []
    else
      [raw[0]] + TypesOf(raw[1 + stride..], stride, height - 1)
  }

  lemma {:induction false} RowsOfEncoded(
      rows: seq<seq<byte>>, types: seq<byte>, previous: seq<byte>, stride: nat, bpp: nat, trailing: seq<byte>)
    requires 0 < bpp && |types| == |rows| && LegalTypes(types) && OfStride(rows, stride)
    ensures var raw := EncodedRows(rows, types, previous, bpp) + trailing;
      |raw| >= Expected(stride, |rows|) && Rows(raw, previous, stride, |rows|, bpp) == Some(rows)
  {
    if rows != [] {
      var body := Filtered(rows[0], previous, types[0], bpp);
      var tail := EncodedRows(rows[1..], types[1..], rows[0], bpp) + trailing;
      RowsOfEncoded(rows[1..], types[1..], rows[0], stride, bpp, trailing);
      var rest := EncodedRows(rows[1..], types[1..], rows[0], bpp);
      assert [types[0]] + body + rest + trailing == [types[0]] + body + (rest + trailing);
      OneEncodedRow(rows[0], types[0], previous, stride, |rows| - 1, bpp, tail);
      assert [rows[0]] + rows[1..] == rows;
    }
  }

  lemma OneEncodedRow(
      row: seq<byte>, filterType: byte, previous: seq<byte>, stride: nat, height: nat, bpp: nat, tail: seq<byte>)
    requires 0 < bpp && LegalFilter(filterType) && |row| == stride && |tail| >= Expected(stride, height)
    ensures var raw := [filterType] + Filtered(row, previous, filterType, bpp) + tail;
      && |raw| >= Expected(stride, height + 1)
      && Rows(raw, previous, stride, height + 1, bpp) == Joined([row], Rows(tail, row, stride, height, bpp))
  {
    var body := Filtered(row, previous, filterType, bpp);
    var raw := [filterType] + body + tail;
    UnfilterInvertsFilter(row, previous, filterType, bpp);
    assert raw[1..1 + stride] == body && raw[1 + stride..] == tail;
  }

  /** The row loop recovers every image from every choice of filters, whatever follows it. */
  lemma PngRoundTrip(rows: seq<seq<byte>>, types: seq<byte>, stride: nat, bpp: nat, trailing: seq<byte>)
    requires 0 < bpp && |types| == |rows| && LegalTypes(types) && OfStride(rows, stride)
    ensures
      DecodedRows(EncodedRows(rows, types, seq(stride, _ => 0), bpp) + trailing, stride, |rows|, bpp) == Some(rows)
  {
    RowsOfEncoded(rows, types, seq(stride, _ => 0), stride, bpp, trailing);
  }

  lemma {:induction false} EncodedOfRows(raw: seq<byte>, previous: seq<byte>, stride: nat, height: nat, bpp: nat)
    requires 0 < bpp && |raw| >= Expected(stride, height)
    requires LegalTypes(TypesOf(raw, stride, height))
    ensures var rows := Rows(raw, previous, stride, height, bpp);
      && rows.Some?
      && EncodedRows(rows.value, TypesOf(raw, stride, height), previous, bpp) == raw[..Expected(stride, height)]
  {
    hide Unfiltered, Filtered, Expected;
    if height == 0 {
      assert raw[..Expected(stride, 0)] == [] by { NothingExpected(stride); }
    } else {
      ExpectedOneMore(stride, height);
      var types, tail, filtered := TypesOf(raw, stride, height), raw[1 + stride..], raw[1..1 + stride];
      assert types[0] == raw[0] && types[1..] == TypesOf(tail, stride, height - 1);
      UnfilteredRow(filtered, previous, raw[0], bpp);
      var row := Unfiltered(filtered, previous, raw[0], bpp).value;
      EncodedOfRows(tail, row, stride, height - 1, bpp);
      var rest := Rows(tail, row, stride, height - 1, bpp).value;
      assert ([row] + rest)[1..] == rest;
      var n := Expected(stride, height - 1);
      assert raw[..1 + stride + n] == [raw[0]] + filtered + tail[..n];
    }
  }

  lemma UnfilteredRow(filtered: seq<byte>, previous: seq<byte>, filterType: byte, bpp: nat)
    requires 0 < bpp && LegalFilter(filterType)
    ensures var row := Unfiltered(filtered, previous, filterType, bpp);
      row.Some? && Filtered(row.value, previous, filterType, bpp) == filtered
  {
    FilterInvertsUnfilter(filtered, previous, filterType, bpp);
  }

  /** Filtered again with the types that were read, the decoded rows give the input bytes back. */
  lemma PngReencodes(raw: seq<byte>, stride: nat, height: nat, bpp: nat)
    requires 0 < bpp && |raw| >= Expected(stride, height)
    requires LegalTypes(TypesOf(raw, stride, height))
    ensures var rows := DecodedRows(raw, stride, height, bpp);
      && rows.Some?
      && EncodedRows(rows.value, TypesOf(raw, stride, height), seq(stride, _ => 0), bpp)
           == raw[..Expected(stride, height)]
  {
    EncodedOfRows(raw, seq(stride, _ => 0), stride, height, bpp);
  }

  lemma {:induction false} RowsRefusedIff(raw: seq<byte>, previous: seq<byte>, stride: nat, height: nat, bpp: nat)
    requires 0 < bpp && |raw| >= Expected(stride, height)
    ensures Rows(raw, previous, stride, height, bpp).Some? <==>
      stride == 0 || LegalTypes(TypesOf(raw, stride, height))
  {
    if height > 0 {
      var types := TypesOf(raw, stride, height);
      var tail := raw[1 + stride..];
      assert types[0] == raw[0];
      assert types[1..] == TypesOf(tail, stride, height - 1);
      var row := Unfiltered(raw[1..1 + stride], previous, raw[0], bpp);
      if row.Some? {
        RowsRefusedIff(tail, row.value, stride, height - 1, bpp);
      }
    }
  }

  /** Exactly the images that are long enough and use known filters are accepted. */
  lemma PngAcceptedIff(raw: seq<byte>, stride: nat, height: nat, bpp: nat)
    requires 0 < bpp
    ensures DecodedRows(raw, stride, height, bpp).Some? <==>
      && |raw| >= Expected(stride, height)
      && (stride == 0 || LegalTypes(TypesOf(raw, stride, height)))
  {
    if |raw| >= Expected(stride, height) {
      RowsRefusedIff(raw, seq(stride, _ => 0), stride, height, bpp);
    }
  }
}
