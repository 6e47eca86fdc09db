/** What an access of the main RAM reads and stores, told as numbers: little-endian, and nothing but the bytes of its
    width. */
module MemoryAccess {
  import Modulo
  import opened Words
  import opened Memory

  /** What an access of a width keeps of a value. */
  function Fitted(v: Word, bits: int): Word {
    if bits == 16 then v % 0x1_0000 else if bits == 32 then v else v % 0x100
  }

  function BytesOf(bits: int): nat { if bits == 16 then 2 else if bits == 32 then 4 else 1 }

  /** The k-th byte from an address on is the one at another address; RAM repeats. */
  predicate Hits(m: Ram, addr: int, k: nat, x: int) { (addr + k) % |m| == x % |m| }

  /** A byte is not one of the n from an address on. */
  predicate Outside(m: Ram, addr: int, n: nat, x: int) { forall k: nat :: k < n ==> !Hits(m, addr, k, x) }

  /** The byte at an address. */
  function At(m: Ram, addr: int): int { m[addr % |m|] }

  lemma ReadIsLittleEndian(m: Ram, addr: int, bits: int)
    ensures bits != 16 && bits != 32 ==> Read(m, addr, bits) == At(m, addr)
    ensures bits == 16 ==> Read(m, addr, bits) == At(m, addr) + 0x100 * At(m, addr + 1)
    ensures bits == 32 ==> Read(m, addr, bits) == At(m, addr) + 0x100 * At(m, addr + 1) + 0x1_0000 * At(m, addr + 2)
                                                  + 0x100_0000 * At(m, addr + 3)
  {
    PeekIsAt(m, addr);
    PeekIsAt(m, addr + 1);
    PeekIsAt(m, addr + 2);
    PeekIsAt(m, addr + 3);
    hide Peek, At;
  }

  lemma PeekIsAt(m: Ram, addr: int)
    ensures Peek(m, addr) == At(m, addr)
  {
  }

  lemma BytesOfNumber(v: Word)
    ensures v % 0x100 == ByteOf(v, 0)
    ensures v % 0x1_0000 == ByteOf(v, 0) + 0x100 * ByteOf(v, 1)
    ensures v == ByteOf(v, 0) + 0x100 * ByteOf(v, 1) + 0x1_0000 * ByteOf(v, 2) + 0x100_0000 * ByteOf(v, 3)
  {
    BytesOfWord(v);
    hide ByteOf;
    DivisionsSum(v);
  }

  lemma DivisionsSum(v: Word)
    ensures v % 0x1_0000 == v % 0x100 + 0x100 * (v / 0x100 % 0x100)
    ensures v == v % 0x1_0000 + 0x1_0000 * (v / 0x1_0000 % 0x100) + 0x100_0000 * (v / 0x100_0000)
  {
    DivisionsJoin(v);
  }

  lemma HitsIsIndex(m: Ram, addr: int, k: nat, x: int)
    ensures Hits(m, addr, k, x) <==> Index(m, addr + k) == Index(m, x)
  {
  }

  lemma IndexesDiffer(m: Ram, addr: int, j: nat, k: nat)
    requires j < k < |m|
    ensures Index(m, addr + j) != Index(m, addr + k)
  {
    Modulo.ModDistinct(addr + j, addr + k, |m|);
  }

  lemma SameSize(m: Ram, r: Ram, addr: int)
    requires |m| == |r|
    ensures Index(m, addr) == Index(r, addr)
  {
  }

  lemma {:induction false} StoredByte(m: Ram, addr: int, v: Word, n: nat, k: nat)
    requires k < n <= 4 && n <= |m|
    ensures Peek(PokeBytes(m, addr, v, n), addr + k) == ByteOf(v, k)
  {
    hide Index, ByteOf;
    var before := PokeBytes(m, addr, v, n - 1);
    var last := addr + (n - 1);
    assert addr + n - 1 == last;
    var r := Poke(before, last, ByteOf(v, n - 1));
    SameSize(before, r, addr + k);
    if k < n - 1 {
      StoredByte(m, addr, v, n - 1, k);
      IndexesDiffer(before, addr, k, n - 1);
    }
  }

  lemma {:induction false} OtherBytesStay(m: Ram, addr: int, v: Word, n: nat, x: int)
    requires n <= 4 && Outside(m, addr, n, x)
    ensures Peek(PokeBytes(m, addr, v, n), x) == Peek(m, x)
  {
    hide Index, ByteOf, Hits;
    if n > 0 {
      HitsIsIndex(m, addr, n - 1, x);
      var before := PokeBytes(m, addr, v, n - 1);
      var last := addr + (n - 1);
      assert addr + n - 1 == last;
      var r := Poke(before, last, ByteOf(v, n - 1));
      SameSize(before, r, x);
      SameSize(m, r, x);
      SameSize(before, m, last);
      OtherBytesStay(m, addr, v, n - 1, x);
    }
  }

  /** What is stored is read again, cut off at the width of the access, and all other bytes stay. */
  lemma StoredIsRead(m: Ram, addr: int, v: Word, bits: int)
    requires |m| >= 4
    ensures Read(Write(m, addr, v, bits), addr, bits) == Fitted(v, bits)
    ensures forall x :: Outside(m, addr, BytesOf(bits), x) ==> At(Write(m, addr, v, bits), x) == At(m, x)
  {
    hide Index, ByteOf, PokeBytes, Peek, At, Hits;
    var n := BytesOf(bits);
    var r := Write(m, addr, v, bits);
    BytesOfNumber(v);
    StoredByte(m, addr, v, n, 0);
    if n >= 2 { StoredByte(m, addr, v, n, 1); }
    if n == 4 {
      StoredByte(m, addr, v, n, 2);
      StoredByte(m, addr, v, n, 3);
    }
    forall x | Outside(m, addr, n, x) ensures At(r, x) == At(m, x) {
      OtherBytesStay(m, addr, v, n, x);
      PeekIsAt(r, x);
      PeekIsAt(m, x);
    }
  }
}
