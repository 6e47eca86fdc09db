/** The scrambling of codes in one step: a rotation by ten places and a mask of the key's own. */
module CodeSeeds {
  import opened Words
  import opened CodeCipher

  /** What a code of nothing but its key deciphers to. */
  function Mask(key: bv32): bv32 {
    match key
    case 1 => 0x0142_7921
    case 2 => 0x0C95_28B1
    case 3 => 0x0589_2354
    case 4 => 0x0967_1B12
    case 5 => 0x0CC5_6121
    case 6 => 0x0CB5_381E
    case 7 => 0x0654_36E1
    case 8 => 0x0F2C_3E54
    case 9 => 0x0133_E312
    case 10 => 0x0C5E_7894
    case 11 => 0x09F2_08B1
    case 12 => 0x0E87_DCFE
    case 13 => 0x0317_4312
    case 14 => 0x0D7A_6C99
    case _ => 0x0742_24A2
  }

  /** Ten places to the left within 28 bits. */
  function RotatedBy10(x: bv32): bv32 { ((x << 10) | (x >> 18)) & 0x0FFF_FFFF }

  function RotatedBy3(x: bv32): bv32 { (x << 3) | (x >> 29) }

  lemma SeedIsMask(key: bv32)
    requires IsKey(key)
    ensures Seed(key) & 0x0FFF_FFFF == Mask(key)
  {
  }

  lemma RotatesBy10(x: bv32, key: bv32)
    requires IsPlain(x) && IsKey(key)
    ensures var v := (key << 28) | x; !IsPlain(v) && KeyOf(v) == key && Rotate28(v) == RotatedBy10(x)
  {
  }

  /** A code under a key is rotated and masked. */
  lemma CodeIsRotatedAndMasked(x: bv32, key: bv32)
    requires x < 0x1000_0000 && 1 <= key <= 15
    ensures DecryptCodeBits((key << 28) | x) == RotatedBy10(x) ^ Mask(key)
    ensures DecryptCodeBits(x) == x
  {
    BelowIsPlain(x);
    assert IsKey(key);
    hide IsPlain, IsKey, Seed, Mask, RotatedBy10, Rotate28, KeyOf;
    SeedIsMask(key);
    RotatesBy10(x, key);
  }

  lemma BelowIsPlain(x: bv32)
    requires x < 0x1000_0000
    ensures IsPlain(x)
  {
  }

  /** An argument is shifted by a fixed number, rotated by three places and masked. */
  lemma ArgumentIsRotatedAndMasked(v: bv32)
    ensures DecryptArgBits(v) == RotatedBy3(v + 0x5437_00D0) ^ 0xA53A_8888
  {
    TimesEight(v + 0x5437_00D0);
  }

  lemma TimesEight(x: bv32)
    ensures x * 8 == x << 3
  {
  }

  /** The bit pattern of a word is its number: its bytes count 1, 0x100, 0x1_0000 and 0x100_0000. */
  lemma BitsAreNumber(w: Word, b0: bv8, b1: bv8, b2: bv8, b3: bv8)
    requires FromByteBits(b0) == w % 0x100 && FromByteBits(b1) == w / 0x100 % 0x100
    requires FromByteBits(b2) == w / 0x1_0000 % 0x100 && FromByteBits(b3) == w / 0x100_0000
    ensures ToBits(w) == b0 as bv32 + b1 as bv32 * 0x100 + b2 as bv32 * 0x1_0000 + b3 as bv32 * 0x100_0000
  {
    BytesOfWord(w);
    hide ByteOf, FromByteBits, ToByteBits, Join;
    BitsByte(b0);
    BitsByte(b1);
    BitsByte(b2);
    BitsByte(b3);
    JoinIsSum(b0, b1, b2, b3);
  }

  lemma JoinIsSum(b0: bv8, b1: bv8, b2: bv8, b3: bv8)
    ensures Join(b0, b1, b2, b3)
            == b0 as bv32 + b1 as bv32 * 0x100 + b2 as bv32 * 0x1_0000 + b3 as bv32 * 0x100_0000
  {
  }
}
