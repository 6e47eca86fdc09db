/** RZIP streams byte by byte: the header, the chunks, and what becomes of a chunk that is empty, broken or cut off. */
module RzipStreams {
  import opened Wrappers
  import opened Words
  import opened Rzip

  /** A number of four bytes, the least significant one first. */
  lemma NumberSpelled(w: Word)
    ensures Le32(w) == [w % 0x100, w / 0x100 % 0x100, w / 0x1_0000 % 0x100, w / 0x100_0000]
  {
    BytesOfWord(w);
    hide ByteOf;
  }

  /** The header: eight characters, the size of a chunk, and the size of the content in eight bytes. */
  lemma HeaderSpelled(size: nat)
    ensures Header(size)[..8]
            == ['#' as int, 'R' as int, 'Z' as int, 'I' as int, 'P' as int, 'v' as int, 1, '#' as int]
    ensures Header(size)[8..12] == [0, 0, 0x10, 0]
    ensures Header(size)[12..16] == Le32(size % 0x1_0000_0000)
    ensures Header(size)[16..] == Le32(size / 0x1_0000_0000 % 0x1_0000_0000)
  {
    NumberSpelled(CHUNK);
    hide Le32;
    var h := Header(size);
    assert h == MAGIC + Le32(CHUNK) + Le32(size % TWO_32) + Le32(size / TWO_32 % TWO_32);
  }

  /** A chunk is the length of the compressed bytes and these bytes; a call of up to a mebibyte makes one of them, and a
      longer one is cut up every mebibyte. */
  lemma ChunksSpelled(z: Zlib, data: Bytes)
    requires Lossless(z)
    ensures Packed(z, []) == []
    ensures 0 < |data| <= 0x10_0000 ==> Packed(z, data) == Le32(|z.compress(data)|) + z.compress(data)
    ensures |data| > 0x10_0000 ==> Packed(z, data) == Packed(z, data[..0x10_0000]) + Packed(z, data[0x10_0000..])
  {
    hide Lossless;
    NothingPackedFirst(z, [], []);
    if 0 < |data| <= 0x10_0000 {
      OneChunk(z, data);
    } else if |data| > 0x10_0000 {
      var first := data[..0x10_0000];
      OneChunk(z, first);
      UnfoldPacked(z, data);
    }
  }

  lemma OneChunk(z: Zlib, data: Bytes)
    requires Lossless(z) && 0 < |data| <= 0x10_0000
    ensures Packed(z, data) == Le32(|z.compress(data)|) + z.compress(data)
  {
    hide Lossless;
    UnfoldPacked(z, data);
    assert data[..|data|] == data && data[|data|..] == [];
    assert Packed(z, []) == [];
  }

  // ---------------------------------------------------------------- reading

  /** A stream is opened by its header, whatever size of chunk it names; shorter files and others are not opened. */
  lemma HeaderIsRead(b: Bytes, max: Word, size: nat, rest: Bytes)
    requires size < 0x1_0000_0000
    ensures OpenStream(b).Some?
            <==> |b| >= 20 && b[..8]
                              == ['#' as int, 'R' as int, 'Z' as int, 'I' as int, 'P' as int, 'v' as int, 1, '#' as int]
    ensures b == MAGIC + Le32(max) + Le32(size) + [0, 0, 0, 0] + rest ==>
              OpenStream(b) == Some((size, Reader(rest, [], max)))
  {
    if b == MAGIC + Le32(max) + Le32(size) + [0, 0, 0, 0] + rest {
      From32Le32(max);
      From32Le32(size);
      hide Le32;
      assert b[..8] == MAGIC && b[8..12] == Le32(max) && b[20..] == rest;
      assert b[12..20][..4] == Le32(size) && b[12..20][4..] == [0, 0, 0, 0];
      assert From32([0, 0, 0, 0]) == 0;
      hide From32;
    }
  }

  /** A chunk without bytes is skipped. */
  lemma EmptyChunkIsSkipped(z: Zlib, rest: Bytes, max: Word, length: nat)
    requires length > 0
    ensures ReadFrom(z, Reader([0, 0, 0, 0] + rest, [], max), length) == ReadFrom(z, Reader(rest, [], max), length)
  {
    var b := [0, 0, 0, 0] + rest;
    assert From32([0, 0, 0, 0]) == 0;
    hide From32;
    assert b[..4] == [0, 0, 0, 0] && b[4..] == rest;
  }

  /** A chunk that does not expand, or to more than the header allows, ends the call; the next one goes on behind it. */
  lemma BrokenChunkEndsCall(z: Zlib, zipped: Bytes, rest: Bytes, max: Word, length: nat)
    requires length > 0 && 0 < |zipped| < 0x1_0000_0000
    requires var x := z.uncompress(zipped); x.None? || |x.value| > max
    ensures ReadFrom(z, Reader(Le32(|zipped|) + zipped + rest, [], max), length) == ([], Reader(rest, [], max))
  {
    var b := Le32(|zipped|) + zipped + rest;
    From32Le32(|zipped|);
    hide From32, Le32;
    assert b[..4] == Le32(|zipped|) && b[4..] == zipped + rest;
    assert b[4..][..|zipped|] == zipped && b[4..][|zipped|..] == rest;
  }

  /** A chunk that is cut off ends the call and the stream. */
  lemma CutChunkEndsStream(z: Zlib, n: Word, b: Bytes, max: Word, length: nat)
    requires length > 0
    ensures |b| < 4 ==> ReadFrom(z, Reader(b, [], max), length) == ([], Reader([], [], max))
    ensures |b| < n ==> ReadFrom(z, Reader(Le32(n) + b, [], max), length) == ([], Reader([], [], max))
  {
    var c := Le32(n) + b;
    From32Le32(n);
    hide From32, Le32;
    assert c[..4] == Le32(n) && c[4..] == b;
  }
}
