/** The RZIP stream format: a header and a run of separately compressed chunks in a file. */
module Rzip {
  import opened Wrappers
  import opened Words

  /** The compression library, as the pair of functions it offers. */
  datatype Zlib = Zlib(compress: Bytes -> Bytes, uncompress: Bytes -> Option<Bytes>)

  const CHUNK := 0x10_0000

  /** The room given to the output: 0.1% and 12 bytes more than the input. */
  const MAX_ZIPPED := CHUNK + CHUNK / 1000 + 12

  /** What the library promises: output that is never empty, fits, and expands to the input. */
  ghost predicate Lossless(z: Zlib) {
    forall x: Bytes :: |x| <= CHUNK
                       ==> 0 < |z.compress(x)| <= MAX_ZIPPED && z.uncompress(z.compress(x)) == Some(x)
  }

  const MAGIC: Bytes := ['#' as int, 'R' as int, 'Z' as int, 'I' as int, 'P' as int, 'v' as int, 1, '#' as int]

  function Le64(n: nat): (b: Bytes)
    ensures |b| == 8
  {
    Le32(n % TWO_32) + Le32(n / TWO_32 % TWO_32)
  }

  function From64(b: Bytes): nat
    requires |b| == 8
  {
    From32(b[..4]) + TWO_32 * From32(b[4..])
  }

  // ---------------------------------------------------------------- writing

  function Min(a: nat, b: nat): nat { if a < b then a else b }

  function ZippedChunk(z: Zlib, x: Bytes): Bytes {
    Le32(|z.compress(x)| % TWO_32) + z.compress(x)
  }

  /** One call of Write. */
  function Packed(z: Zlib, data: Bytes): Bytes
    decreases |data|
  {
    if data == [] then []
    else
      var n := Min(CHUNK, |data|);
      ZippedChunk(z, data[..n]) + Packed(z, data[n..])
  }

  function PackedAll(z: Zlib, writes: seq<Bytes>): Bytes {
    if writes == [] then [] else Packed(z, writes[0]) + PackedAll(z, writes[1..])
  }

  function Header(size: nat): Bytes { MAGIC + Le32(CHUNK) + Le64(size) }

  /** A finished stream. */
  function Stream(z: Zlib, writes: seq<Bytes>): Bytes { Header(|Concat(writes)|) + PackedAll(z, writes) }

  /** The same with the 32-bit size field of older files. */
  function OldStream(z: Zlib, writes: seq<Bytes>): Bytes {
    MAGIC + Le32(CHUNK) + Le32(|Concat(writes)| % TWO_32) + PackedAll(z, writes)
  }

  // ---------------------------------------------------------------- reading

  /** What is left of the file, and of the chunk last expanded. */
  datatype Reader = Reader(rest: Bytes, pending: Bytes, maxChunk: Word)

  /** Size and reader of the stream some bytes start with. */
  function OpenStream(b: Bytes): Option<(nat, Reader)> {
    if |b| < 20 || b[..8] != MAGIC then None
    else
      var max, size := From32(b[8..12]), From64(b[12..20]);
      if size / TWO_32 != 0 then Some((size % TWO_32, Reader(b[16..], [], max)))
      else Some((size, Reader(b[20..], [], max)))
  }

  /** What a call of Read returns, and what it leaves. A chunk that does not expand ends the call early. */
  function ReadFrom(z: Zlib, r: Reader, length: nat): (Bytes, Reader)
    decreases |r.rest|, length
  {
    if length == 0 then ([], r)
    else if r.pending != [] then
      var l := Min(|r.pending|, length);
      var (more, left) := ReadFrom(z, r.(pending := r.pending[l..]), length - l);
      (r.pending[..l] + more, left)
    else if |r.rest| < 4 then ([], r.(rest := []))
    else
      var n, after := From32(r.rest[..4]), r.rest[4..];
      if n == 0 then ReadFrom(z, r.(rest := after), length)
      else if |after| < n then ([], r.(rest := []))
      else
        match z.uncompress(after[..n])
        case None => ([], r.(rest := after[n..]))
        case Some(x) =>
          if |x| > r.maxChunk then ([], r.(rest := after[n..]))
          else ReadFrom(z, r.(rest := after[n..], pending := x), length)
  }

  /** The loop of Read counts what is left in 32 bits: of a longer call the stream must not have more than that. */
  predicate ReadEnds(z: Zlib, r: Reader, length: nat) {
    length < TWO_32 || |ReadFrom(z, r, length).0| <= length % TWO_32
  }

  /** A sequence of Read calls: what each returns. */
  function ReadSeries(z: Zlib, r: Reader, lengths: seq<nat>): seq<Bytes>
    decreases |lengths|
  {
    if lengths == [] then []
    else
      var (data, left) := ReadFrom(z, r, lengths[0]);
      [data] + ReadSeries(z, left, lengths[1..])
  }

  /** Consecutive pieces of some content, short only at its end. */
  function Pieces(content: Bytes, lengths: seq<nat>): seq<Bytes>
    decreases |lengths|
  {
    if lengths == [] then []
    else
      var n := Min(lengths[0], |content|);
      [content[..n]] + Pieces(content[n..], lengths[1..])
  }

  // ---------------------------------------------------------------- round trip

  /** Bytes packed by some writes and not yet read, behind a rest of an expanded chunk. */
  ghost predicate Holding(z: Zlib, r: Reader, writes: seq<Bytes>) {
    r.rest == PackedAll(z, writes) && r.maxChunk == CHUNK
  }

  function Content(r: Reader, writes: seq<Bytes>): Bytes { r.pending + Concat(writes) }

  lemma PackedAllStep(z: Zlib, first: Bytes, rest: seq<Bytes>)
    ensures PackedAll(z, [first] + rest) == Packed(z, first) + PackedAll(z, rest)
    ensures Concat([first] + rest) == first + Concat(rest)
  {
    assert ([first] + rest)[1..] == rest;
  }

  lemma Compressed(z: Zlib, x: Bytes)
    requires Lossless(z) && |x| <= CHUNK
    ensures 0 < |z.compress(x)| <= MAX_ZIPPED && z.uncompress(z.compress(x)) == Some(x)
    ensures ZippedChunk(z, x) == Le32(|z.compress(x)|) + z.compress(x)
  {
    hide Le32;
  }

  lemma UnfoldPacked(z: Zlib, data: Bytes)
    requires Lossless(z) && data != []
    ensures
      var n := Min(CHUNK, |data|);
      var zipped := z.compress(data[..n]);
      && 0 < |zipped| <= MAX_ZIPPED && z.uncompress(zipped) == Some(data[..n])
      && Packed(z, data) == Le32(|zipped|) + zipped + Packed(z, data[n..])
  {
    hide Lossless, Le32, ZippedChunk;
    var n := Min(CHUNK, |data|);
    Compressed(z, data[..n]);
  }

  /** A chunk at the head of the file is expanded before anything is returned. */
  lemma ReadExpands(z: Zlib, r: Reader, zipped: Bytes, tail: Bytes, x: Bytes, length: nat)
    requires r.pending == [] && length > 0 && 0 < |zipped| < TWO_32 && r.rest == Le32(|zipped|) + zipped + tail
    requires z.uncompress(zipped) == Some(x) && |x| <= r.maxChunk
    ensures ReadFrom(z, r, length) == ReadFrom(z, Reader(tail, x, r.maxChunk), length)
  {
    From32Le32(|zipped|);
    hide Le32, From32;
    assert r.rest[..4] == Le32(|zipped|) && r.rest[4..] == zipped + tail;
    assert r.rest[4..][..|zipped|] == zipped && r.rest[4..][|zipped|..] == tail;
  }

  /** Unpacking the next chunk of a stream. */
  lemma NextChunk(z: Zlib, r: Reader, first: Bytes, rest: seq<Bytes>, length: nat)
    requires Lossless(z) && Holding(z, r, [first] + rest) && r.pending == [] && first != [] && length > 0
    ensures
      var n := Min(CHUNK, |first|);
      var next := Reader(PackedAll(z, [first[n..]] + rest), first[..n], CHUNK);
      ReadFrom(z, r, length) == ReadFrom(z, next, length) && |next.rest| < |r.rest|
  {
    hide PackedAll, Packed, Le32, ReadFrom, Lossless;
    var n := Min(CHUNK, |first|);
    var zipped := z.compress(first[..n]);
    var tail := PackedAll(z, [first[n..]] + rest);
    PackedAllStep(z, first, rest);
    PackedAllStep(z, first[n..], rest);
    UnfoldPacked(z, first);
    assert r.rest == Le32(|zipped|) + zipped + tail;
    ReadExpands(z, r, zipped, tail, first[..n], length);
  }

  /** Taking a chunk out of the stream leaves the content as it was. */
  lemma NextContent(z: Zlib, r: Reader, first: Bytes, rest: seq<Bytes>)
    requires Holding(z, r, [first] + rest) && r.pending == []
    ensures
      var n := Min(CHUNK, |first|);
      var next := Reader(PackedAll(z, [first[n..]] + rest), first[..n], CHUNK);
      && Holding(z, next, [first[n..]] + rest)
      && Content(next, [first[n..]] + rest) == Content(r, [first] + rest)
  {
    hide PackedAll, Packed, Concat;
    var n := Min(CHUNK, |first|);
    PackedAllStep(z, first, rest);
    PackedAllStep(z, first[n..], rest);
    assert first[..n] + (first[n..] + Concat(rest)) == first + Concat(rest);
  }

  lemma PendingStep(z: Zlib, r: Reader, length: nat)
    requires length > 0 && r.pending != []
    ensures
      var l := Min(|r.pending|, length);
      var (more, left) := ReadFrom(z, r.(pending := r.pending[l..]), length - l);
      ReadFrom(z, r, length) == (r.pending[..l] + more, left)
  {
  }

  /** Any first part of the expanded chunk can be taken first. */
  lemma PendingCut(z: Zlib, r: Reader, length: nat, l: nat)
    requires l <= |r.pending| && l <= length
    ensures
      var (more, left) := ReadFrom(z, r.(pending := r.pending[l..]), length - l);
      ReadFrom(z, r, length) == (r.pending[..l] + more, left)
  {
    hide ReadFrom;
    var p := r.pending;
    var next := r.(pending := p[l..]);
    if l == 0 {
      assert p[0..] == p && p[..0] + ReadFrom(z, r, length).0 == ReadFrom(z, r, length).0;
    } else if l == length {
      PendingStep(z, r, length);
      ReadNothing(z, next);
    } else {
      PendingStep(z, r, length);
      if l < |p| {
        PendingStep(z, next, length - l);
        var k := Min(|p| - l, length - l);
        CutTwice(p, l, k);
        var (more, left) := ReadFrom(z, r.(pending := p[l + k..]), length - (l + k));
        assert next.(pending := next.pending[k..]) == r.(pending := p[l + k..]);
        assert p[..l + k] + more == p[..l] + (p[l..l + k] + more);
      }
    }
  }

  lemma CutTwice(p: Bytes, l: nat, k: nat)
    requires l + k <= |p|
    ensures p[l..][..k] == p[l..l + k] && p[l..][k..] == p[l + k..] && p[..l + k] == p[..l] + p[l..l + k]
  {
  }

  lemma ReadNothing(z: Zlib, r: Reader)
    ensures ReadFrom(z, r, 0) == ([], r)
  {
  }

  /** The content with a first piece cut off. */
  lemma CutContent(all: Bytes, l: nat, length: nat)
    requires l <= length && l <= |all|
    ensures
      var k, n := Min(length - l, |all| - l), Min(length, |all|);
      all[..l] + all[l..][..k] == all[..n] && all[l..][k..] == all[n..]
  {
  }

  /** A Read returns the next bytes of the content, and leaves the rest of it to be read. */
  lemma {:induction false} ReadTakesPrefix(z: Zlib, r: Reader, writes: seq<Bytes>, length: nat)
    returns (left: seq<Bytes>)
    requires Lossless(z) && Holding(z, r, writes)
    ensures
      var (data, r') := ReadFrom(z, r, length);
      var n := Min(length, |Content(r, writes)|);
      && data == Content(r, writes)[..n] && Holding(z, r', left) && Content(r', left) == Content(r, writes)[n..]
    decreases |r.rest|, length, |writes|
  {
    hide Lossless, Packed, PackedAll, Concat;
    var all := Content(r, writes);
    left := writes;
    if length == 0 {
      assert all[..0] == [] && all[0..] == all;
    } else if r.pending != [] {
      var l := Min(|r.pending|, length);
      var r1 := r.(pending := r.pending[l..]);
      PendingStep(z, r, length);
      hide ReadFrom;
      left := ReadTakesPrefix(z, r1, writes, length - l);
      assert Content(r1, writes) == all[l..] && r.pending[..l] == all[..l];
      CutContent(all, l, length);
    } else if writes == [] {
      NothingLeft(z);
      assert all == [];
    } else {
      hide ReadFrom;
      var first, rest := writes[0], writes[1..];
      assert writes == [first] + rest;
      PackedAllStep(z, first, rest);
      if first == [] {
        NothingPackedFirst(z, PackedAll(z, rest), Concat(rest));
        left := ReadTakesPrefix(z, r, rest, length);
      } else {
        var n := Min(CHUNK, |first|);
        var next := Reader(PackedAll(z, [first[n..]] + rest), first[..n], CHUNK);
        NextChunk(z, r, first, rest, length);
        NextContent(z, r, first, rest);
        assert Content(next, [first[n..]] + rest) == all;
        left := ReadTakesPrefix(z, next, [first[n..]] + rest, length);
      }
    }
  }

  lemma NothingLeft(z: Zlib)
    ensures PackedAll(z, []) == [] && Concat([]) == []
  {
  }

  lemma NothingPackedFirst(z: Zlib, packed: Bytes, content: Bytes)
    ensures Packed(z, []) + packed == packed && [] + content == content
  {
  }

  lemma {:induction false} SeriesReadsPieces(z: Zlib, r: Reader, writes: seq<Bytes>, lengths: seq<nat>)
    requires Lossless(z) && Holding(z, r, writes)
    ensures ReadSeries(z, r, lengths) == Pieces(Content(r, writes), lengths)
    decreases |lengths|
  {
    if lengths != [] {
      var left := ReadTakesPrefix(z, r, writes, lengths[0]);
      SeriesReadsPieces(z, ReadFrom(z, r, lengths[0]).1, left, lengths[1..]);
    }
  }

  lemma From64Le64(n: nat)
    ensures From64(Le64(n)) == n % TWO_32 + TWO_32 * (n / TWO_32 % TWO_32)
    ensures n / TWO_32 < TWO_32 ==> From64(Le64(n)) == n
  {
    hide Le32, From32;
    var low, high := n % TWO_32, n / TWO_32 % TWO_32;
    From32Le32(low);
    From32Le32(high);
    assert Le64(n)[..4] == Le32(low) && Le64(n)[4..] == Le32(high);
  }

  /** What a finished stream opens to: from 4 GiB on the upper half of its size is taken for the length of its first
      chunk, as if its size had 32 bits. */
  lemma StreamOpens(z: Zlib, writes: seq<Bytes>)
    requires |Concat(writes)| / TWO_32 < TWO_32
    ensures
      var size, packed := |Concat(writes)|, PackedAll(z, writes);
      OpenStream(Stream(z, writes))
      == if size < TWO_32 then Some((size, Reader(packed, [], CHUNK)))
         else Some((size % TWO_32, Reader(Le32(size / TWO_32) + packed, [], CHUNK)))
  {
    hide Concat, PackedAll;
    HeaderOpens(|Concat(writes)|, PackedAll(z, writes));
  }

  lemma HeaderOpens(size: nat, packed: Bytes)
    requires size / TWO_32 < TWO_32
    ensures OpenStream(Header(size) + packed)
            == if size < TWO_32 then Some((size, Reader(packed, [], CHUNK)))
               else Some((size % TWO_32, Reader(Le32(size / TWO_32) + packed, [], CHUNK)))
  {
    From64Le64(size);
    From32Le32(CHUNK);
    SizeField(size);
    hide Le32, Le64, From32, From64;
    HeaderParts(MAGIC, Le32(CHUNK), Le32(size % TWO_32), Le32(size / TWO_32), packed);
    assert Header(size) + packed == MAGIC + Le32(CHUNK) + (Le32(size % TWO_32) + Le32(size / TWO_32)) + packed;
  }

  lemma SizeField(size: nat)
    requires size / TWO_32 < TWO_32
    ensures Le64(size) == Le32(size % TWO_32) + Le32(size / TWO_32)
    ensures size / TWO_32 == 0 <==> size < TWO_32
  {
    hide Le32;
  }

  lemma HeaderParts(magic: Bytes, chunk: Bytes, low: Bytes, high: Bytes, packed: Bytes)
    requires |magic| == 8 && |chunk| == |low| == |high| == 4
    ensures
      var b := magic + chunk + (low + high) + packed;
      && b[..8] == magic && b[8..12] == chunk && b[12..20] == low + high
      && b[16..] == high + packed && b[20..] == packed
  {
  }

  /** A finished stream opens with its size and at its first chunk if and only if it holds less than 4 GiB. */
  lemma StreamOpensExactly(z: Zlib, writes: seq<Bytes>)
    requires |Concat(writes)| / TWO_32 < TWO_32
    ensures
      var found := OpenStream(Stream(z, writes));
      && found.Some?
      && (found.value.0 == |Concat(writes)| <==> |Concat(writes)| < TWO_32)
      && (found.value.1.rest == PackedAll(z, writes) <==> |Concat(writes)| < TWO_32)
  {
    hide OpenStream, Stream, PackedAll, Le32, Concat;
    StreamOpens(z, writes);
  }

  /** Whatever the writes and the reads, the reads return consecutive pieces of all that was written. */
  lemma StreamReadsBack(z: Zlib, writes: seq<Bytes>, lengths: seq<nat>)
    requires Lossless(z) && |Concat(writes)| < TWO_32
    ensures
      var found := OpenStream(Stream(z, writes));
      && found.Some? && found.value.0 == |Concat(writes)|
      && ReadSeries(z, found.value.1, lengths) == Pieces(Concat(writes), lengths)
  {
    hide OpenStream, Stream, PackedAll, ReadSeries, Pieces, Le32, Concat;
    StreamOpens(z, writes);
    SeriesReadsPieces(z, Reader(PackedAll(z, writes), [], CHUNK), writes, lengths);
    assert [] + Concat(writes) == Concat(writes);
  }

  lemma FirstLength(z: Zlib, first: Bytes)
    requires Lossless(z) && first != []
    ensures |Packed(z, first)| >= 4 && From32(Packed(z, first)[..4]) > 0
  {
    UnfoldPacked(z, first);
    var n := Min(CHUNK, |first|);
    Compressed(z, first[..n]);
    var length := |z.compress(first[..n])|;
    From32Le32(length);
    hide Lossless, Packed, Le32, From32, ZippedChunk;
    assert Packed(z, first)[..4] == Le32(length);
  }

  lemma {:induction false} FirstChunkLength(z: Zlib, writes: seq<Bytes>)
    requires Lossless(z) && Concat(writes) != []
    ensures |PackedAll(z, writes)| >= 4 && From32(PackedAll(z, writes)[..4]) > 0
  {
    var first, rest := writes[0], writes[1..];
    assert writes == [first] + rest;
    PackedAllStep(z, first, rest);
    if first == [] {
      FirstChunkLength(z, rest);
    } else {
      FirstLength(z, first);
      hide Packed, PackedAll, From32;
      assert (Packed(z, first) + PackedAll(z, rest))[..4] == Packed(z, first)[..4];
    }
  }

  /** A non-empty stream with the old size field reads back the same: the missing half shows as a chunk length. */
  lemma OldStreamReadsBack(z: Zlib, writes: seq<Bytes>, lengths: seq<nat>)
    requires Lossless(z) && 0 < |Concat(writes)| < TWO_32
    ensures
      var found := OpenStream(OldStream(z, writes));
      && found.Some? && found.value.0 == |Concat(writes)|
      && ReadSeries(z, found.value.1, lengths) == Pieces(Concat(writes), lengths)
  {
    hide Le32, From32, PackedAll, ReadSeries, Pieces, OldStream;
    var size, packed := |Concat(writes)|, PackedAll(z, writes);
    FirstChunkLength(z, writes);
    OldStreamIs(z, writes);
    OldStreamOpens(OldStream(z, writes), size, packed);
    var r := Reader(packed, [], CHUNK);
    SeriesReadsPieces(z, r, writes, lengths);
    assert [] + Concat(writes) == Concat(writes);
  }

  lemma OldStreamIs(z: Zlib, writes: seq<Bytes>)
    requires |Concat(writes)| < TWO_32
    ensures OldStream(z, writes) == MAGIC + Le32(CHUNK) + Le32(|Concat(writes)|) + PackedAll(z, writes)
  {
    hide Le32, PackedAll;
  }

  lemma OldStreamOpens(b: Bytes, size: Word, packed: Bytes)
    requires b == MAGIC + Le32(CHUNK) + Le32(size) + packed && |packed| >= 4 && From32(packed[..4]) > 0
    ensures OpenStream(b) == Some((size, Reader(packed, [], CHUNK)))
  {
    hide Le32, From32;
    assert b[..8] == MAGIC && b[8..12] == Le32(CHUNK) && b[16..] == packed;
    assert b[12..20][..4] == Le32(size) && b[12..20][4..] == packed[..4];
    From32Le32(CHUNK);
    From32Le32(size);
    SplitSize(size, From32(packed[..4]));
  }

  lemma SplitSize(low: Word, high: Word)
    requires high > 0
    ensures (low + TWO_32 * high) / TWO_32 != 0 && (low + TWO_32 * high) % TWO_32 == low
  {
  }

  /** An empty stream with the old size field is too short to be found. */
  lemma EmptyOldStreamIsRefused(z: Zlib, writes: seq<Bytes>)
    requires Concat(writes) == []
    ensures OpenStream(OldStream(z, writes)) == None
  {
    NothingPacked(z, writes);
  }

  lemma {:induction false} NothingPacked(z: Zlib, writes: seq<Bytes>)
    requires Concat(writes) == []
    ensures PackedAll(z, writes) == []
  {
    if writes != [] {
      NothingPacked(z, writes[1..]);
    }
  }
}
