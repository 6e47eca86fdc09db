/** The audio ring buffer: its layout, and its calls one after another. */
module RingBuffers {
  import opened Modulo
  import opened Words

  /** The place k steps after a cursor. */
  function At(cap: nat, c: nat, k: nat): (x: nat)
    requires c < cap && k <= cap
    ensures x < cap
  {
    if c + k < cap then c + k else c + k - cap
  }

  lemma AtIsRemainder(cap: nat, c: nat, k: nat)
    requires c < cap && k <= cap
    ensures At(cap, c, k) == (c + k) % cap
  {
    if c + k < cap {
      ModSmall(c + k, cap);
    } else if c + k < 2 * cap {
      ModOver(c + k, cap);
    }
  }

  /** The n bytes from a cursor on. */
  function Ring(buf: seq<Byte>, c: nat, n: nat): (r: seq<Byte>)
    requires c < |buf| && n <= |buf|
    ensures |r| == n
    ensures forall k :: 0 <= k < n ==> r[k] == buf[At(|buf|, c, k)]
  {
    seq(n, k requires 0 <= k < n => buf[At(|buf|, c, k)])
  }

  function ReadSize(cap: nat, rc: nat, wc: nat): int
    requires rc < cap && wc < cap
  {
    (wc - rc + cap) % cap
  }

  function WriteSize(cap: nat, rc: nat, wc: nat): int
    requires rc < cap && wc < cap
  {
    (rc - wc + cap - 1) % cap
  }

  /** One place stays free: what can be read and what can be written add up to the capacity less one. */
  lemma Sizes(cap: nat, rc: nat, wc: nat)
    requires rc < cap && wc < cap
    ensures ReadSize(cap, rc, wc) == if wc >= rc then wc - rc else wc - rc + cap
    ensures WriteSize(cap, rc, wc) == cap - 1 - ReadSize(cap, rc, wc)
  {
    if wc >= rc {
      ModOver(wc - rc + cap, cap);
      ModSmall(rc - wc + cap - 1, cap);
    } else {
      ModSmall(wc - rc + cap, cap);
      ModOver(rc - wc + cap - 1, cap);
    }
  }

  /** The cursor after a transfer of some bytes: past the first piece, and past the second if there is one. */
  function Advanced(cap: nat, c: nat, size: nat): int
    requires c < cap && size < cap
  {
    var chunk := if size < cap - c then size else cap - c;
    if size > chunk then ((c + chunk) % cap + (size - chunk)) % cap else (c + chunk) % cap
  }

  lemma AdvancedIs(cap: nat, c: nat, size: nat)
    requires c < cap && size < cap
    ensures Advanced(cap, c, size) == At(cap, c, size)
  {
    AtIsRemainder(cap, c, size);
    if size > cap - c {
      ModOver(cap, cap);
      ModOver(c + size, cap);
      ModSmall(c + size - cap, cap);
    }
  }

  /** The distance from a cursor forward to a place. */
  function Ahead(cap: nat, c: nat, x: nat): (k: nat)
    requires c < cap && x < cap
    ensures k < cap && At(cap, c, k) == x
  {
    if x >= c then x - c else x - c + cap
  }

  /** The buffer with some bytes put at a cursor and onwards. */
  function Filled(buf: seq<Byte>, c: nat, data: seq<Byte>): (r: seq<Byte>)
    requires c < |buf| && |data| <= |buf|
    ensures |r| == |buf|
  {
    seq(|buf|, x requires 0 <= x < |buf| => if Ahead(|buf|, c, x) < |data| then data[Ahead(|buf|, c, x)] else buf[x])
  }

  /** Bytes put behind the ones held make the ring that much longer and change none of it. */
  lemma FilledExtends(buf: seq<Byte>, rc: nat, held: nat, data: seq<Byte>)
    requires rc < |buf| && held + |data| <= |buf|
    ensures Ring(Filled(buf, At(|buf|, rc, held), data), rc, held + |data|) == Ring(buf, rc, held) + data
  {
  }

  lemma RingSplit(buf: seq<Byte>, c: nat, n: nat, k: nat)
    requires c < |buf| && k <= n <= |buf|
    ensures Ring(buf, c, n) == Ring(buf, c, k) + Ring(buf, At(|buf|, c, k), n - k)
  {
  }

  /** A transfer out is one slice, or the end of the buffer and then its beginning. */
  lemma RingPieces(buf: seq<Byte>, c: nat, n: nat)
    requires c < |buf| && n < |buf|
    ensures c + n <= |buf| ==> Ring(buf, c, n) == buf[c..c + n]
    ensures c + n > |buf| ==> Ring(buf, c, n) == buf[c..] + buf[..c + n - |buf|]
  {
  }

  class RingBuffer {
    var buffer: array<Byte>
    var readCursor: nat
    var writeCursor: nat

    predicate Valid()
      reads this
    {
      readCursor < buffer.Length && writeCursor < buffer.Length
    }

    /** The bytes written and not yet read. */
    function Contents(): seq<Byte>
      requires Valid()
      reads this, buffer
    {
      Sizes(buffer.Length, readCursor, writeCursor);
      Ring(buffer[..], readCursor, ReadSize(buffer.Length, readCursor, writeCursor))
    }

    constructor (size: nat)
      requires size > 0
      ensures Valid() && fresh(buffer) && buffer.Length == size && Contents() == []
    {
      buffer := new Byte[size](_ => 0);
      readCursor, writeCursor := 0, 0;
      new;
      Sizes(size, 0, 0);
    }

    method Write(data: seq<Byte>) returns (ok: bool)
      requires Valid()
      modifies this`writeCursor, buffer
      ensures Valid() && (ok <==> |data| < buffer.Length - |old(Contents())|)
      ensures Contents() == if ok then old(Contents()) + data else old(Contents())
    {
      var cap, size := buffer.Length, |data|;
      Sizes(cap, readCursor, writeCursor);
      if size > WriteSize(cap, readCursor, writeCursor) {
        return false;
      }
      hide Ring, Filled;
      ghost var before, held := buffer[..], ReadSize(cap, readCursor, writeCursor);
      FilledExtends(before, readCursor, held, data);
      writeCursor := Put(writeCursor, data);
      Sizes(cap, readCursor, writeCursor);
      ok := true;
    }

    /** The two pieces of a write, and the cursor after them. */
    method Put(to: nat, data: seq<Byte>) returns (wc: nat)
      requires to < buffer.Length && |data| < buffer.Length
      modifies buffer
      ensures wc == At(buffer.Length, to, |data|) && buffer[..] == Filled(old(buffer[..]), to, data)
    {
      var cap, size := buffer.Length, |data|;
      var chunkSize := if size < cap - to then size else cap - to;
      CopyIn(to, data[..chunkSize]);
      wc := (to + chunkSize) % cap;
      AtIsRemainder(cap, to, chunkSize);
      if size > chunkSize {
        CopyIn(wc, data[chunkSize..]);
        wc := (wc + (size - chunkSize)) % cap;
      }
      AdvancedIs(cap, to, size);
    }

    method CopyIn(at: nat, data: seq<Byte>)
      requires at + |data| <= buffer.Length
      modifies buffer
      ensures forall x :: 0 <= x < buffer.Length
                          ==> buffer[x] == if at <= x < at + |data| then data[x - at] else old(buffer[x])
    {
      for k := 0 to |data|
        invariant forall x :: 0 <= x < buffer.Length
                              ==> buffer[x] == if at <= x < at + k then data[x - at] else old(buffer[x])
      {
        buffer[at + k] := data[k];
      }
    }

    /** The two pieces of a read, and the cursor after them. */
    method CopyOut(from: nat, size: nat) returns (rc: nat, data: seq<Byte>)
      requires from < buffer.Length && size < buffer.Length
      ensures rc == At(buffer.Length, from, size) && data == Ring(buffer[..], from, size)
    {
      var cap := buffer.Length;
      var chunkSize := if size < cap - from then size else cap - from;
      data := buffer[from..from + chunkSize];
      rc := (from + chunkSize) % cap;
      AtIsRemainder(cap, from, chunkSize);
      if size > chunkSize {
        data := data + buffer[rc..rc + (size - chunkSize)];
        rc := (rc + (size - chunkSize)) % cap;
      }
      AdvancedIs(cap, from, size);
      RingPieces(buffer[..], from, size);
    }

    /** No data when there are fewer bytes than asked for. */
    method Read(size: nat) returns (ok: bool, data: seq<Byte>)
      requires Valid()
      modifies this`readCursor
      ensures Valid() && (ok <==> size <= |old(Contents())|)
      ensures if ok then old(Contents()) == data + Contents() && |data| == size
              else data == [] && Contents() == old(Contents())
    {
      var cap := buffer.Length;
      Sizes(cap, readCursor, writeCursor);
      if size > ReadSize(cap, readCursor, writeCursor) {
        return false, [];
      }
      hide Ring;
      RingSplit(buffer[..], readCursor, ReadSize(cap, readCursor, writeCursor), size);
      var rc;
      rc, data := CopyOut(readCursor, size);
      readCursor := rc;
      Sizes(cap, readCursor, writeCursor);
      ok := true;
    }
  }
}
