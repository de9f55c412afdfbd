/** A GIF image from its data sub-blocks to its pixels: sub-block framing (section 15 of GIF89a),
    LZW decoding, de-interlacing and colour lookup, and the round trip through all of them. */
module GifImage {
  import opened Bits
  import opened Options
  import GifLzw
  import GifLzwRoundTrip
  import opened GifInterlace

  // ----- Data sub-blocks -----

  function Prepended(head: seq<byte>, tail: Option<seq<byte>>): Option<seq<byte>> {
    match tail case None => None case Some(rest) => Some(head + rest)
  }

  lemma PrependedTwice(a: seq<byte>, b: seq<byte>, tail: Option<seq<byte>>)
    ensures Prepended(a, Prepended(b, tail)) == Prepended(a + b, tail)
  {
    if tail.Some? {
      assert a + (b + tail.value) == a + b + tail.value;
    }
  }

  lemma PrependedNothing(tail: Option<seq<byte>>)
    ensures Prepended([], tail) == tail
  {
    if tail.Some? {
      assert [] + tail.value == tail.value;
    }
  }

  /** The payload of the sub-blocks at the head of `data`, as the image decoder collects it: a
      missing terminator at the very end of the data is tolerated, a cut block is not. */
  function Collected(data: seq<byte>): Option<seq<byte>> {
    if data == [] || data[0] == 0 then Some([])
    else if 1 + data[0] > |data| then None
    else Prepended(data[1..1 + data[0]], Collected(data[1 + data[0]..]))
  }

  /** How many bytes the sub-blocks at the head of `data` take, terminator included. */
  function Skipped(data: seq<byte>): (n: Option<nat>)
    ensures n.Some? ==> n.value <= |data|
  {
    if data == [] then None
    else if data[0] == 0 then Some(1)
    else if 1 + data[0] > |data| then None
    else match Skipped(data[1 + data[0]..])
      case None => None
      case Some(n) => Some(1 + data[0] + n)
  }

  /** One sub-block: what it adds to the payload and to the length. */
  lemma BlockTurn(data: seq<byte>, offset: nat)
    requires offset < |data|
    ensures var size: nat := data[offset]; var rest := data[offset..];
      && (size == 0 ==> Collected(rest) == Some([]) && Skipped(rest) == Some(1))
      && (size > 0 && offset + 1 + size > |data| ==> Collected(rest) == None && Skipped(rest) == None)
      && (size > 0 && offset + 1 + size <= |data| ==>
            var next := data[offset + 1 + size..];
            && Collected(rest) == Prepended(data[offset + 1..offset + 1 + size], Collected(next))
            && Skipped(rest) == Moved(Skipped(next), 1 + size))
  {
    var size: nat := data[offset];
    if size > 0 && offset + 1 + size <= |data| {
      assert data[offset..][1..1 + size] == data[offset + 1..offset + 1 + size];
      assert data[offset..][1 + size..] == data[offset + 1 + size..];
    }
  }

  function Moved(n: Option<nat>, more: nat): Option<nat> { if n.None? then None else Some(n.value + more) }

  lemma BlocksEnd()
    ensures Collected([]) == Some([]) && Skipped([]) == None
  {
  }

  method SkipGifSubBlocks(data: seq<byte>, start: nat) returns (end: Option<nat>)
    requires start <= |data|
    ensures end == Moved(Skipped(data[start..]), start)
  {
    hide Skipped, Collected;
    var offset := start;
    while offset < |data|
      invariant start <= offset <= |data|
      invariant Moved(Skipped(data[start..]), start) == Moved(Skipped(data[offset..]), offset)
      decreases |data| - offset
    {
      BlockTurn(data, offset);
      var size: nat := data[offset];
      offset := offset + 1;
      if size == 0 {
        return Some(offset);
      }
      offset := offset + size;
      if offset > |data| {
        return None;
      }
    }
    assert data[offset..] == [];
    BlocksEnd();
    return None;
  }

  predicate LegalBlocks(blocks: seq<seq<byte>>) {
    forall i :: 0 <= i < |blocks| ==> 0 < |blocks[i]| < 256
  }

  /** Reference framing of a payload cut into blocks of 1 to 255 bytes. */
  function Framed(blocks: seq<seq<byte>>): seq<byte>
    requires LegalBlocks(blocks)
  {
    if blocks == [] then [0] else [|blocks[0]|] + blocks[0] + Framed(blocks[1..])
  }

  /** However the payload was cut, collecting gives it back and skipping lands right behind it. */
  lemma {:induction false} FramingRoundTrip(blocks: seq<seq<byte>>, rest: seq<byte>)
    requires LegalBlocks(blocks)
    ensures Collected(Framed(blocks) + rest) == Some(Flatten(blocks))
    ensures Skipped(Framed(blocks) + rest) == Some(|Framed(blocks)|)
  {
    hide Collected, Skipped;
    if blocks == [] {
      OnlyTerminator(rest);
    } else {
      var tail := Framed(blocks[1..]) + rest;
      FramingRoundTrip(blocks[1..], rest);
      OneBlock(blocks[0], tail);
      assert Framed(blocks) + rest == [|blocks[0]|] + blocks[0] + tail;
    }
  }

  lemma OnlyTerminator(rest: seq<byte>)
    ensures Collected([0] + rest) == Some([]) && Skipped([0] + rest) == Some(1)
  {
  }

  lemma OneBlock(block: seq<byte>, tail: seq<byte>)
    requires 0 < |block| < 256
    ensures var data := [|block|] + block + tail;
      && Collected(data) == Prepended(block, Collected(tail))
      && Skipped(data) == Moved(Skipped(tail), 1 + |block|)
  {
    var data := [|block|] + block + tail;
    assert data[1 + |block|..] == tail;
    assert data[1..1 + |block|] == block;
  }

  /** Collecting accepts what skipping accepts, and tolerates exactly a missing terminator. */
  lemma {:induction false} CollectedIffSkipped(data: seq<byte>)
    ensures Collected(data).Some? <==> Skipped(data + [0]).Some?
    ensures Skipped(data).Some? ==> Collected(data).Some?
  {
    if data != [] && data[0] != 0 && 1 + data[0] <= |data| {
      var size: nat := data[0];
      CollectedIffSkipped(data[1 + size..]);
      assert (data + [0])[1 + size..] == data[1 + size..] + [0];
    }
  }

  /** What lies behind the skipped bytes plays no part in what is collected. */
  lemma {:induction false} SkippedIsAllThatMatters(data: seq<byte>)
    requires Skipped(data).Some?
    ensures Collected(data[..Skipped(data).value]) == Collected(data)
  {
    if data[0] == 0 {
      assert data[..1] == [0];
    } else {
      var size: nat := data[0];
      var tail := data[1 + size..];
      SkippedIsAllThatMatters(tail);
      var head := data[..1 + size + Skipped(tail).value];
      assert head[1 + size..] == tail[..Skipped(tail).value];
      assert head[1..1 + size] == data[1..1 + size];
    }
  }

  // ----- Pixels -----

  datatype Rgb = Rgb(red: byte, green: byte, blue: byte)

  const BLACK: Rgb := Rgb(0, 0, 0)

  function Color(colors: seq<Rgb>, index: nat): Rgb {
    if index < |colors| then colors[index] else BLACK
  }

  function Colored(indices: seq<nat>, colors: seq<Rgb>): (pixels: seq<Rgb>)
    ensures |pixels| == |indices|
  {
    seq(|indices|, i requires 0 <= i < |indices| => Color(colors, indices[i]))
  }

  /** As many pixels as the image has, black where the data ran out. */
  function Padded(pixels: seq<Rgb>, size: nat): (full: seq<Rgb>)
    ensures |full| >= size
  {
    if |pixels| < size then pixels + seq(size - |pixels|, _ => BLACK) else pixels
  }

  /** The pixels of an image whose data start, in `data`, with the minimum code size. */
  function Pixels(data: seq<byte>, width: nat, height: nat, interlaced: bool, colors: seq<Rgb>): Option<seq<Rgb>> {
    if colors == [] || data == [] then None
    else match Collected(data[1..])
      case None => None
      case Some(codes) =>
        match GifLzw.DecodeData(codes, data[0], width * height)
        case None => None
        case Some(indices) =>
          var ordered := if interlaced then Deinterlaced(indices, width, height) else indices;
          Some(Padded(Colored(GifLzw.Truncate(ordered, width * height), colors), width * height))
  }

  /** The part of `decode_gif_image` behind the colour tables. */
  method DecodeImageData(data: seq<byte>, start: nat, width: nat, height: nat, interlaced: bool, colors: seq<Rgb>)
    returns (result: Option<seq<Rgb>>)
    requires start <= |data|
    ensures result == Pixels(data[start..], width, height, interlaced, colors)
  {
    hide Collected, Skipped;
    if colors == [] || start >= |data| {
      return None;
    }
    var minCodeSize := data[start];
    var offset := start + 1;
    assert data[start..][1..] == data[offset..];
    var imageData: seq<byte> := [];
    ghost var answer := Collected(data[offset..]);
    PrependedNothing(answer);
    while offset < |data|
      invariant start < offset <= |data|
      invariant answer == Prepended(imageData, Collected(data[offset..]))
      decreases |data| - offset
    {
      BlockTurn(data, offset);
      var size: nat := data[offset];
      offset := offset + 1;
      if size == 0 {
        break;
      }
      if offset + size > |data| {
        return None;
      }
      PrependedTwice(imageData, data[offset..offset + size], Collected(data[offset + size..]));
      imageData := imageData + data[offset..offset + size];
      offset := offset + size;
    }
    BlocksEnd();
    assert offset == |data| ==> data[offset..] == [];
    assert imageData + [] == imageData;
    assert answer == Some(imageData);
    var indices := GifLzw.DecodeGifLzw(imageData, minCodeSize, width * height);
    if indices.None? {
      return None;
    }
    var ordered := indices.value;
    if interlaced {
      ordered := DeinterlaceGifIndices(indices.value, width, height);
    }
    var pixels := Colored(GifLzw.Truncate(ordered, width * height), colors);
    result := Some(Padded(pixels, width * height));
  }

  // ----- The whole way -----

  /** Reference encoder for one image: rows put into the stored order, LZW with any clear codes,
      the result cut into blocks in any way. */
  ghost predicate Encodes(
      data: seq<byte>, image: seq<seq<nat>>, interlaced: bool, minCodeSize: byte, clears: nat -> bool,
      blocks: seq<seq<byte>>)
  {
    var stored := Flatten(if interlaced then Interlaced(image) else image);
    && GifLzw.LegalMinCodeSize(minCodeSize) && GifLzw.Symbols(stored, minCodeSize)
    && LegalBlocks(blocks)
    && Flatten(blocks) == GifLzwRoundTrip.EncodeData(stored, minCodeSize, clears)
    && [minCodeSize] + Framed(blocks) <= data
  }

  /** Every image with at least one pixel, interlaced or not, decodes to its own colours. */
  lemma GifImageRoundTrip(
      data: seq<byte>, image: seq<seq<nat>>, width: nat, interlaced: bool, colors: seq<Rgb>,
      minCodeSize: byte, clears: nat -> bool, blocks: seq<seq<byte>>)
    requires Rectangular(image, width) && Flatten(image) != [] && colors != []
    requires Encodes(data, image, interlaced, minCodeSize, clears, blocks)
    ensures Pixels(data, width, |image|, interlaced, colors) == Some(Colored(Flatten(image), colors))
  {
    var rows := if interlaced then Interlaced(image) else image;
    var stored := Flatten(rows);
    StoredImage(image, width, interlaced);
    var rest := BehindFirst(minCodeSize, Framed(blocks), data);
    FramingRoundTrip(blocks, rest);
    var codes := Flatten(blocks);
    assert codes + [] == codes;
    GifLzwRoundTrip.GifLzwRoundTrip(stored, minCodeSize, clears, [], width * |image|);
    assert GifLzw.DecodeData(codes, minCodeSize, width * |image|) == Some(stored);
  }

  lemma BehindFirst(first: byte, body: seq<byte>, data: seq<byte>) returns (rest: seq<byte>)
    requires [first] + body <= data
    ensures data[0] == first && data[1..] == body + rest
  {
    rest := data[1 + |body|..];
    assert data == [first] + body + rest;
  }

  /** The stored rows have as many pixels as the image, and de-interlacing shows the image. */
  lemma StoredImage(image: seq<seq<nat>>, width: nat, interlaced: bool)
    requires Rectangular(image, width)
    ensures var stored := Flatten(if interlaced then Interlaced(image) else image);
      && |stored| == |Flatten(image)| == width * |image|
      && (if interlaced then Deinterlaced(stored, width, |image|) else stored) == Flatten(image)
  {
    FlattenLength(image, width);
    if interlaced {
      InterlaceOrderIsBijection(|image|);
      FlattenLength(Interlaced(image), width);
      DeinterlaceInvertsInterlace(image, width);
    }
  }
}
