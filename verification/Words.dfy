/** Machine integers: bytes and 32-bit words with wrap-around, their bytes and their bit patterns. */
module Words {
  const TWO_32 := 0x1_0000_0000

  type Byte = b: int | 0 <= b < 0x100
  type Half = h: int | 0 <= h < 0x1_0000
  type Word = w: int | 0 <= w < TWO_32

  type Bytes = seq<Byte>

  function Plus(a: Word, b: Word): Word { (a + b) % TWO_32 }

  function Minus(a: Word, b: Word): Word { (a - b) % TWO_32 }

  function Times(a: Word, b: Word): Word { (a * b) % TWO_32 }

  function Low16(w: Word): Half { w % 0x1_0000 }

  function ByteOf(v: Word, k: nat): Byte
    requires k < 4
  {
    (if k == 0 then v
     else if k == 1 then v / 0x100
     else if k == 2 then v / 0x100 / 0x100
     else v / 0x100 / 0x100 / 0x100) % 0x100
  }

  function Push(low: Byte, rest: int): int { low + 0x100 * rest }

  function FromBytes(b0: Byte, b1: Byte, b2: Byte, b3: Byte): Word { Push(b0, Push(b1, Push(b2, Push(b3, 0)))) }

  lemma PopPush(low: Byte, rest: nat)
    ensures Push(low, rest) % 0x100 == low && Push(low, rest) / 0x100 == rest
  {
  }

  lemma BytesOfFromBytes(b0: Byte, b1: Byte, b2: Byte, b3: Byte)
    ensures ByteOf(FromBytes(b0, b1, b2, b3), 0) == b0
    ensures ByteOf(FromBytes(b0, b1, b2, b3), 1) == b1
    ensures ByteOf(FromBytes(b0, b1, b2, b3), 2) == b2
    ensures ByteOf(FromBytes(b0, b1, b2, b3), 3) == b3
  {
    var v3: Word := Push(b3, 0);
    var v2: Word := Push(b2, v3);
    var v1: Word := Push(b1, v2);
    PopPush(b3, 0);
    PopPush(b2, v3);
    PopPush(b1, v2);
    PopPush(b0, v1);
    hide Push;
    assert ByteOf(v3, 0) == b3;
    assert ByteOf(v2, 1) == ByteOf(v3, 0) && ByteOf(v2, 0) == b2;
    assert ByteOf(v1, 2) == ByteOf(v2, 1) && ByteOf(v1, 1) == ByteOf(v2, 0) && ByteOf(v1, 0) == b1;
  }

  lemma FromBytesOfBytes(v: Word)
    ensures FromBytes(ByteOf(v, 0), ByteOf(v, 1), ByteOf(v, 2), ByteOf(v, 3)) == v
  {
    var v1: Word := v / 0x100;
    var v2: Word := v1 / 0x100;
    var v3: Word := v2 / 0x100;
    assert Push(v % 0x100, v1) == v && Push(v1 % 0x100, v2) == v1 && Push(v2 % 0x100, v3) == v2;
    assert Push(v3 % 0x100, 0) == v3;
    hide Push;
    assert ByteOf(v, 1) == ByteOf(v1, 0);
    assert ByteOf(v, 2) == ByteOf(v1, 1) == ByteOf(v2, 0);
    assert ByteOf(v, 3) == ByteOf(v1, 2) == ByteOf(v2, 1) == ByteOf(v3, 0);
  }

  lemma BytesOfWord(v: Word)
    ensures ByteOf(v, 0) == v % 0x100 && ByteOf(v, 1) == v / 0x100 % 0x100
    ensures ByteOf(v, 2) == v / 0x1_0000 % 0x100 && ByteOf(v, 3) == v / 0x100_0000
  {
    DivisionsJoin(v);
  }

  lemma DivisionsJoin(v: Word)
    ensures v / 0x100 / 0x100 == v / 0x1_0000
    ensures v / 0x100 / 0x100 / 0x100 == v / 0x100_0000 < 0x100
  {
  }

  /** A word as four bytes, the least significant first. */
  function Le32(w: Word): (b: Bytes)
    ensures |b| == 4
  {
    [ByteOf(w, 0), ByteOf(w, 1), ByteOf(w, 2), ByteOf(w, 3)]
  }

  function From32(b: Bytes): Word
    requires |b| == 4
  {
    FromBytes(b[0], b[1], b[2], b[3])
  }

  lemma From32Le32(w: Word)
    ensures From32(Le32(w)) == w
  {
    hide FromBytes, ByteOf;
    FromBytesOfBytes(w);
  }

  /** The two's complement reading of a word. */
  function Signed(w: Word): int { if w < 0x8000_0000 then w else w - TWO_32 }

  function Concat(bs: seq<Bytes>): Bytes { if bs == [] then [] else bs[0] + Concat(bs[1..]) }

  // ---------------------------------------------------------------- words as bit patterns

  function Join(b0: bv8, b1: bv8, b2: bv8, b3: bv8): bv32 {
    b0 as bv32 | (b1 as bv32 << 8) | (b2 as bv32 << 16) | (b3 as bv32 << 24)
  }

  function Part(b: bv32, k: nat): bv8
    requires k < 4
  {
    if k == 0 then (b & 0xff) as bv8
    else if k == 1 then ((b >> 8) & 0xff) as bv8
    else if k == 2 then ((b >> 16) & 0xff) as bv8
    else (b >> 24) as bv8
  }

  function ToByteBits(x: Byte): bv8 { x as bv8 }

  function FromByteBits(b: bv8): Byte { b as int }

  function ToBits(w: Word): bv32 {
    Join(ToByteBits(ByteOf(w, 0)), ToByteBits(ByteOf(w, 1)), ToByteBits(ByteOf(w, 2)), ToByteBits(ByteOf(w, 3)))
  }

  function FromBits(b: bv32): Word {
    FromBytes(FromByteBits(Part(b, 0)), FromByteBits(Part(b, 1)), FromByteBits(Part(b, 2)), FromByteBits(Part(b, 3)))
  }

  lemma PartsOfJoin(b0: bv8, b1: bv8, b2: bv8, b3: bv8)
    ensures Part(Join(b0, b1, b2, b3), 0) == b0 && Part(Join(b0, b1, b2, b3), 1) == b1
    ensures Part(Join(b0, b1, b2, b3), 2) == b2 && Part(Join(b0, b1, b2, b3), 3) == b3
  {
  }

  lemma JoinOfParts(b: bv32)
    ensures Join(Part(b, 0), Part(b, 1), Part(b, 2), Part(b, 3)) == b
  {
  }

  lemma NextByteBits(b: bv8)
    requires b != 255
    ensures FromByteBits(b + 1) == FromByteBits(b) + 1
  {
  }

  lemma {:induction false} BytesAreBits(x: Byte)
    ensures exists b :: FromByteBits(b) == x
  {
    if x == 0 {
      assert FromByteBits(0) == 0;
    } else {
      BytesAreBits(x - 1);
      var b :| FromByteBits(b) == x - 1;
      assert FromByteBits(255) == 255;
      NextByteBits(b);
      assert FromByteBits(b + 1) == x;
    }
  }

  lemma ByteBits(x: Byte)
    ensures FromByteBits(ToByteBits(x)) == x
  {
    BytesAreBits(x);
    var b :| FromByteBits(b) == x;
    BitsByte(b);
  }

  lemma BitsByte(b: bv8)
    ensures ToByteBits(FromByteBits(b)) == b
  {
  }

  /** The k-th byte of a word is the k-th part of its bit pattern. */
  lemma PartOfToBits(w: Word, k: nat)
    requires k < 4
    ensures Part(ToBits(w), k) == ToByteBits(ByteOf(w, k))
  {
    hide Join, Part, ByteOf, ToByteBits;
    PartsOfJoin(ToByteBits(ByteOf(w, 0)), ToByteBits(ByteOf(w, 1)), ToByteBits(ByteOf(w, 2)), ToByteBits(ByteOf(w, 3)));
  }

  lemma ByteOfFromBits(b: bv32, k: nat)
    requires k < 4
    ensures ByteOf(FromBits(b), k) == FromByteBits(Part(b, k))
  {
    hide Part, ByteOf, FromBytes, FromByteBits;
    BytesOfFromBytes(FromByteBits(Part(b, 0)), FromByteBits(Part(b, 1)), FromByteBits(Part(b, 2)),
                     FromByteBits(Part(b, 3)));
  }

  lemma BitsRoundTrip(w: Word, b: bv32)
    ensures FromBits(ToBits(w)) == w && ToBits(FromBits(b)) == b
  {
    hide Part, ByteOf, FromBytes, Join, ToByteBits, FromByteBits;
    forall k: nat | k < 4
      ensures FromByteBits(Part(ToBits(w), k)) == ByteOf(w, k)
      ensures ToByteBits(ByteOf(FromBits(b), k)) == Part(b, k)
    {
      PartOfToBits(w, k);
      ByteBits(ByteOf(w, k));
      ByteOfFromBits(b, k);
      BitsByte(Part(b, k));
    }
    FromBytesOfBytes(w);
    JoinOfParts(b);
  }
}
