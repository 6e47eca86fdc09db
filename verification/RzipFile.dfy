/** The RZIP file object over a file of bytes with a position. */
module RzipFiles {
  import opened Wrappers
  import opened Words
  import opened Rzip
  import RzipLoops

  /** A file: what is read moves the position, a short read moves it to the end and yields nothing. */
  class File {
    var data: Bytes
    var pos: nat

    predicate Valid()
      reads this
    {
      pos <= |data|
    }

    constructor (data: Bytes)
      ensures this.data == data && pos == |data|
    {
      this.data, pos := data, |data|;
    }

    method Seek(to: nat)
      requires to <= |data|
      modifies this`pos
      ensures pos == to
    {
      pos := to;
    }

    method Read(n: nat) returns (r: Option<Bytes>)
      requires Valid()
      modifies this`pos
      ensures Valid()
      ensures if n <= |data[old(pos)..]| then r == Some(data[old(pos)..][..n]) && pos == old(pos) + n
              else r == None && pos == |data|
    {
      if n <= |data| - pos {
        r := Some(data[pos..pos + n]);
        assert data[pos..][..n] == data[pos..pos + n];
        pos := pos + n;
      } else {
        r := None;
        pos := |data|;
      }
    }

    /** Over what is there, and beyond the end. */
    method Write(b: Bytes)
      requires Valid()
      modifies this
      ensures Valid() && pos == old(pos) + |b|
      ensures data == old(data)[..old(pos)] + b
                      + if old(pos) + |b| <= |old(data)| then old(data)[old(pos) + |b|..] else []
    {
      var tail := if pos + |b| <= |data| then data[pos + |b|..] else [];
      data := data[..pos] + b + tail;
      pos := pos + |b|;
    }
  }

  class RZipFile {
    const z: Zlib
    var file: File?
    var size: nat
    var maxChunkSize: Word
    var chunk: Bytes
    var chunkSize: nat
    var chunkIndex: nat
    var write: bool
    var startOffset: nat
    ghost var before: Bytes          // the file when it was found
    ghost var writes: seq<Bytes>     // the calls of Write so far

    constructor (z: Zlib)
      ensures this.z == z && file == null && size == 0
    {
      this.z := z;
      file, size, maxChunkSize, chunk, chunkSize, chunkIndex, write, startOffset := null, 0, 0, [], 0, 0, false, 0;
      before, writes := [], [];
    }

    // -------------------------------------------------------------- writing

    ghost predicate Writing()
      reads this, file
    {
      && file != null && file.Valid() && write && maxChunkSize == CHUNK && startOffset == |before|
      && size == |Concat(writes)| && file.pos == |file.data|
      && file.data == before + Header(0) + PackedAll(z, writes)
    }

    method OpenForWriting(f: File)
      requires file == null && size == 0 && f.pos == |f.data|
      modifies this, f
      ensures Writing() && file == f && before == old(f.data) && writes == []
    {
      hide Le32, Le64;
      before, writes := f.data, [];
      startOffset := f.pos;
      maxChunkSize := CHUNK;
      f.Write(MAGIC);
      f.Write(Le32(maxChunkSize));
      f.Write(Le64(size));
      write := true;
      file := f;
      assert f.data == before + Header(0) + PackedAll(z, []);
    }

    method Write(data: Bytes) returns (rv: nat)
      requires Writing() && Lossless(z) && |data| < TWO_32
      modifies this`size, this`writes, file
      ensures Writing() && rv == |data| && before == old(before) && writes == old(writes) + [data]
    {
      hide Lossless, Packed, PackedAll, Concat, Header, Le32;
      ghost var start := file.data;
      size := size + |data|;
      rv := 0;
      assert data[0..] == data;
      while rv < |data|
        invariant rv <= |data| && file.Valid() && file.pos == |file.data|
        invariant file.data + Packed(z, data[rv..]) == start + Packed(z, data)
        modifies file
      {
        ghost var now := file.data;
        UnfoldPacked(z, data[rv..]);
        var uncompressedSize := Min(CHUNK, (|data| - rv) % TWO_32);
        var x := data[rv..rv + uncompressedSize];
        assert data[rv..][..uncompressedSize] == x && data[rv..][uncompressedSize..] == data[rv + uncompressedSize..];
        var zipped := z.compress(x);
        if |zipped| > MAX_ZIPPED {
          break;
        }
        file.Write(Le32(|zipped| % TWO_32));
        file.Write(zipped);
        assert file.data == now + (Le32(|zipped|) + zipped);
        assert now + (Le32(|zipped|) + zipped + Packed(z, data[rv + uncompressedSize..]))
               == file.data + Packed(z, data[rv + uncompressedSize..]);
        rv := rv + uncompressedSize;
      }
      NothingPackedFirst(z, [], []);
      assert data[rv..] == [];
      AddedWrite(z, writes, data);
      assert start + Packed(z, data) == before + Header(0) + (PackedAll(z, writes) + Packed(z, data));
      writes := writes + [data];
    }

    /** The finished file: what was there before it was found, then the stream. */
    method CloseWritten() returns (f: File)
      requires Writing()
      modifies this`file, this`chunk, file
      ensures file == null && f == old(file) && f.data == before + Stream(z, writes)
    {
      hide Le32, Le64, PackedAll;
      f := file;
      assert f.data == before + MAGIC + Le32(CHUNK) + Le64(0) + PackedAll(z, writes);
      f.Seek(startOffset + 8 + 4);
      f.Write(Le64(size));
      assert f.data == before + (MAGIC + Le32(CHUNK) + Le64(size) + PackedAll(z, writes));
      file := null;
      chunk := [];
    }

    // -------------------------------------------------------------- reading

    predicate Reading()
      reads this, file
    {
      file != null && file.Valid() && !write && chunkIndex <= chunkSize == |chunk|
    }

    /** The reader this object is. */
    function View(): Reader
      requires Reading()
      reads this, file
    {
      Reader(file.data[file.pos..], chunk[chunkIndex..], maxChunkSize)
    }

    method OpenForReading(f: File) returns (ok: bool)
      requires file == null && f.Valid()
      modifies this, f`pos
      ensures f.data == old(f.data)
      ensures var b := f.data[old(f.pos)..];
              match OpenStream(b)
              case None => !ok && file == null && f.pos == old(f.pos)
              case Some((n, r)) => ok && Reading() && file == f && size == n && View() == r
    {
      hide From32, From64;
      ghost var b := f.data[f.pos..];
      startOffset := f.pos;
      var header := f.Read(8);
      if header.None? || header.value != MAGIC {
        f.Seek(startOffset);
        return false;
      }
      var max := f.Read(4);
      if max.None? {
        f.Seek(startOffset);
        return false;
      }
      var length := f.Read(8);
      if length.None? {
        f.Seek(startOffset);
        return false;
      }
      assert header.value == b[..8] && max.value == b[8..12] && length.value == b[12..20];
      maxChunkSize := From32(max.value);
      size := From64(length.value);
      if size / TWO_32 != 0 {
        size := size % TWO_32;
        f.Seek(f.pos - 4);
        assert f.data[f.pos..] == b[16..];
      } else {
        assert f.data[f.pos..] == b[20..];
      }
      chunk, chunkIndex, chunkSize := [], 0, 0;
      write := false;
      file := f;
      ok := true;
    }

    /** Expands the next chunk, or steps over an empty one; false when a Read has to end here. */
    method NextChunk(ghost wanted: nat) returns (ok: bool)
      requires Reading() && chunkIndex == chunkSize && wanted > 0
      modifies this`chunk, this`chunkSize, this`chunkIndex, file`pos
      ensures Reading() && file.pos >= old(file.pos)
      ensures if ok then ReadFrom(z, old(View()), wanted) == ReadFrom(z, View(), wanted) && file.pos > old(file.pos)
              else ReadFrom(z, old(View()), wanted) == ([], View())
    {
      hide From32;
      ghost var rest := file.data[file.pos..];
      assert chunk[chunkIndex..] == [];
      chunk, chunkSize, chunkIndex := [], 0, 0;
      var head := file.Read(4);
      if head.None? {
        assert file.data[file.pos..] == [];
        return false;
      }
      var zippedSize := From32(head.value);
      assert file.data[file.pos..] == rest[4..];
      if zippedSize == 0 {
        return true;
      }
      var zipped := file.Read(zippedSize);
      if zipped.None? {
        assert file.data[file.pos..] == [];
        return false;
      }
      assert file.data[file.pos..] == rest[4..][zippedSize..];
      var x := z.uncompress(zipped.value);
      if x.None? || |x.value| > maxChunkSize {
        return false;
      }
      chunk, chunkSize := x.value, |x.value|;
      ok := true;
    }

    method Read(length: nat) returns (data: Bytes)
      requires Reading() && ReadEnds(z, View(), length)
      modifies this`chunk, this`chunkSize, this`chunkIndex, file`pos
      ensures Reading() && (data, View()) == ReadFrom(z, old(View()), length)
    {
      hide ReadFrom, ReadEnds;
      data := [];
      var rv := 0;
      ghost var goal := ReadFrom(z, View(), length);
      ghost var more := goal.0;
      assert [] + goal.0 == goal.0;
      while rv < length
        invariant Reading() && rv == |data| <= length
        invariant ReadEnds(z, View(), length - rv)
        invariant ReadFrom(z, View(), length - rv) == (more, goal.1) && data + more == goal.0
        decreases |file.data| - file.pos, length - rv
      {
        if chunkIndex == chunkSize {
          ghost var r := View();
          var ok := NextChunk(length - rv);
          if !ok {
            break;
          }
          SameEnding(z, r, View(), length - rv);
        } else {
          var l := Min(chunkSize - chunkIndex, (length - rv) % TWO_32);
          RzipLoops.PieceRound(z, View(), length - rv, l);
          ghost var before := data;
          var piece := chunk[chunkIndex..chunkIndex + l];
          assert chunk[chunkIndex..][..l] == piece && chunk[chunkIndex..][l..] == chunk[chunkIndex + l..];
          data := data + piece;
          chunkIndex := chunkIndex + l;
          rv := rv + l;
          more := more[l..];
          assert before + (piece + more) == data + more;
        }
      }
      if rv == length {
        ReadNothing(z, View());
      }
      assert data + [] == data;
    }
  }

  lemma SameEnding(z: Zlib, r: Reader, s: Reader, length: nat)
    requires ReadFrom(z, r, length) == ReadFrom(z, s, length)
    ensures ReadEnds(z, r, length) <==> ReadEnds(z, s, length)
  {
  }

  lemma {:induction false} AddedWrite(z: Zlib, writes: seq<Bytes>, data: Bytes)
    ensures PackedAll(z, writes + [data]) == PackedAll(z, writes) + Packed(z, data)
    ensures |Concat(writes + [data])| == |Concat(writes)| + |data|
    decreases |writes|
  {
    hide Packed;
    if writes == [] {
      assert [data][1..] == [];
      assert Packed(z, data) + [] == Packed(z, data) && data + [] == data;
    } else {
      assert (writes + [data])[1..] == writes[1..] + [data];
      AddedWrite(z, writes[1..], data);
      assert Packed(z, writes[0]) + (PackedAll(z, writes[1..]) + Packed(z, data))
             == Packed(z, writes[0]) + PackedAll(z, writes[1..]) + Packed(z, data);
    }
  }
}
