/** The debugger's block accesses to memory, byte by byte: what the accesses of mixed widths amount to.
    Addresses are folded by the memory size, so that they need not wrap around at 32 bits as well. */
module DebugMemory {
  import opened Memory
  import opened Modulo
  import opened Words

  /** The n bytes from an address on. */
  function Block(m: Ram, addr: int, n: nat): (r: Bytes)
    ensures |r| == n && forall k :: 0 <= k < n ==> r[k] == Peek(m, addr + k)
  {
    seq<Byte>(n, k requires 0 <= k < n => Peek(m, addr + k))
  }

  /** The bytes stored upwards from an address. */
  function Stored(m: Ram, addr: int, b: Bytes): (r: Ram)
    ensures |r| == |m|
    decreases |b|
  {
    if b == [] then m else Stored(Poke(m, addr, b[0]), addr + 1, b[1..])
  }

  lemma BlockSplits(m: Ram, addr: int, n: nat, k: nat)
    requires k <= n
    ensures Block(m, addr, n) == Block(m, addr, k) + Block(m, addr + k, n - k)
  {
    hide Peek;
  }

  /** The first bytes of a word. */
  function WordBytes(v: Word, n: nat): (r: Bytes)
    requires n <= 4
    ensures |r| == n && forall k :: 0 <= k < n ==> r[k] == ByteOf(v, k)
  {
    seq(n, k requires 0 <= k < n => ByteOf(v, k))
  }

  /** An access of some width reads the bytes of a block. */
  lemma ReadIsBlock(m: Ram, addr: int, bits: int)
    ensures WordBytes(Read(m, addr, bits), Width(bits)) == Block(m, addr, Width(bits))
  {
    hide Read, Peek, ByteOf;
    forall k | 0 <= k < Width(bits)
      ensures ByteOf(Read(m, addr, bits), k) == Peek(m, addr + k)
    {
      ReadGivesByte(m, addr, bits, k);
    }
  }

  lemma {:induction false} StoredOneMore(m: Ram, addr: int, b: Bytes, c: Byte)
    ensures Stored(m, addr, b + [c]) == Poke(Stored(m, addr, b), addr + |b|, c)
    decreases |b|
  {
    hide Poke;
    if b == [] {
      assert (b + [c])[1..] == [];
    } else {
      assert (b + [c])[1..] == b[1..] + [c];
      StoredOneMore(Poke(m, addr, b[0]), addr + 1, b[1..], c);
    }
  }

  /** An access of some width stores the bytes of a word. */
  lemma {:induction false} PokeIsStored(m: Ram, addr: int, v: Word, n: nat)
    requires n <= 4
    ensures PokeBytes(m, addr, v, n) == Stored(m, addr, WordBytes(v, n))
  {
    hide ByteOf, Poke;
    if n > 0 {
      PokeIsStored(m, addr, v, n - 1);
      StoredOneMore(m, addr, WordBytes(v, n - 1), ByteOf(v, n - 1));
      assert WordBytes(v, n) == WordBytes(v, n - 1) + [ByteOf(v, n - 1)];
    }
  }

  lemma {:induction false} StoredSplits(m: Ram, addr: int, b: Bytes, k: nat)
    requires k <= |b|
    ensures Stored(m, addr, b) == Stored(Stored(m, addr, b[..k]), addr + k, b[k..])
    decreases k
  {
    hide Poke;
    if k > 0 {
      assert b[..k][1..] == b[1..][..k - 1] && b[k..] == b[1..][k - 1..];
      StoredSplits(Poke(m, addr, b[0]), addr + 1, b[1..], k - 1);
    } else {
      assert b[0..] == b && b[..0] == [];
    }
  }

  /** Storing a block no longer than the memory leaves the place in front of it alone. */
  lemma {:induction false} StoredElsewhere(m: Ram, addr: int, b: Bytes, x: int)
    requires addr - |m| + |b| <= x < addr
    ensures Peek(Stored(m, addr, b), x) == Peek(m, x)
    decreases |b|
  {
    if b != [] {
      ModDistinct(x, addr, |m|);
      StoredElsewhere(Poke(m, addr, b[0]), addr + 1, b[1..], x);
    }
  }

  /** What is written is read back, as long as it does not lap itself. */
  lemma {:induction false} WrittenReadsBack(m: Ram, addr: int, b: Bytes)
    requires |b| <= |m|
    ensures Block(Stored(m, addr, b), addr, |b|) == b
    decreases |b|
  {
    hide Peek, Poke;
    if b != [] {
      var n := Poke(m, addr, b[0]);
      PokedIsPeeked(m, addr, b[0]);
      WrittenReadsBack(n, addr + 1, b[1..]);
      StoredElsewhere(n, addr + 1, b[1..], addr);
      var r := Stored(n, addr + 1, b[1..]);
      BlockSplits(r, addr, |b|, 1);
      assert Block(r, addr, 1) == [b[0]];
    }
  }

  lemma PokedIsPeeked(m: Ram, addr: int, v: Byte)
    ensures Peek(Poke(m, addr, v), addr) == v
  {
  }
}
