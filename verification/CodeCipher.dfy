/** The scrambling of published codes: a 28-bit rotate and xor of a code's first word under a key
    nibble kept in its top four bits, and an add, rotate and xor of some argument words. */
module CodeCipher {
  import opened Words

  function Seed(key: bv32): bv32 {
    match key
    case 0 => 0xA53A8888
    case 1 => 0xA1427921
    case 2 => 0xAC9528B1
    case 3 => 0xC5892354
    case 4 => 0x49671B12
    case 5 => 0xACC56121
    case 6 => 0xACB5381E
    case 7 => 0x765436E1
    case 8 => 0x9F2C3E54
    case 9 => 0x1133E312
    case 10 => 0xAC5E7894
    case 11 => 0xE9F208B1
    case 12 => 0x4E87DCFE
    case 13 => 0x43174312
    case 14 => 0x1D7A6C99
    case _ => 0x874224A2
  }

  /** Ten places to the left, in the steps the decryption takes; the key nibble drops out. */
  function Rotate28(v: bv32): bv32 {
    var a := ((v << 1) & 0x0FFF_FFFE) | ((v >> 27) & 1);
    var b := ((a << 1) & 0x0FFF_FFFE) | ((a >> 27) & 1);
    ((b << 8) & 0x0FFF_FF00) | ((b >> 20) & 0xFF)
  }

  function KeyOf(v: bv32): bv32 { v >> 28 }

  predicate IsPlain(v: bv32) { v & 0xf000_0000 == 0 }

  function Mix(seed: bv32, v: bv32): bv32 { (seed & 0x0FFF_FFFF) ^ v }

  function DecryptCodeBits(v: bv32): bv32 {
    if IsPlain(v) then v else Mix(Seed(KeyOf(v)), Rotate28(v))
  }

  function DecryptArgBits(v: bv32): bv32 {
    (((v + 0x5437_00D0) >> 29) | ((v + 0x5437_00D0) * 8)) ^ Seed(0)
  }

  /** The inverse of the above under a chosen key: what a publisher of codes does. */
  function Unrotate28(x: bv32, key: bv32): bv32 { (key << 28) | (x >> 10) | ((x << 18) & 0x0FFF_FFFF) }

  function EncryptCodeBits(w: bv32, key: bv32): bv32 { Unrotate28(Mix(Seed(key), w), key) }

  function EncryptArgBits(w: bv32): bv32 {
    var x := w ^ Seed(0);
    ((x >> 3) | (x << 29)) - 0x5437_00D0
  }

  predicate IsKey(key: bv32) { 1 <= key <= 15 }

  lemma UnrotateThenRotate(x: bv32, key: bv32)
    requires IsPlain(x) && IsKey(key)
    ensures KeyOf(Unrotate28(x, key)) == key && !IsPlain(Unrotate28(x, key))
    ensures Rotate28(Unrotate28(x, key)) == x
  {
  }

  lemma MixTwice(w: bv32, seed: bv32)
    requires IsPlain(w)
    ensures IsPlain(Mix(seed, w)) && Mix(seed, Mix(seed, w)) == w
  {
  }

  lemma CodeBitsRoundTrip(w: bv32, key: bv32)
    requires IsPlain(w) && IsKey(key)
    ensures !IsPlain(EncryptCodeBits(w, key))
    ensures DecryptCodeBits(EncryptCodeBits(w, key)) == w
  {
    hide KeyOf, IsPlain, Mix, Rotate28, Unrotate28, Seed, IsKey;
    MixTwice(w, Seed(key));
    UnrotateThenRotate(Mix(Seed(key), w), key);
  }

  lemma ArgBitsRoundTrip(w: bv32)
    ensures DecryptArgBits(EncryptArgBits(w)) == w
    ensures EncryptArgBits(DecryptArgBits(w)) == w
  {
  }

  lemma DecryptedCodeFits(v: bv32)
    ensures IsPlain(DecryptCodeBits(v))
  {
    hide Seed;
  }

  // ---------------------------------------------------------------- the same on machine words

  lemma NibbleBits(w: Word)
    ensures w < 0x1000_0000 <==> IsPlain(ToBits(w))
  {
    hide ToBits, IsPlain, Part, ToByteBits;
    TopPart(ToBits(w));
    PartOfToBits(w, 3);
    assert w < 0x1000_0000 <==> ByteOf(w, 3) < 0x10;
    ByteBelow16(ByteOf(w, 3));
  }

  lemma KeyBits(key: int)
    requires 1 <= key <= 15
    ensures IsKey(key as bv32)
  {
  }

  lemma TopPart(b: bv32)
    ensures IsPlain(b) <==> Part(b, 3) < 0x10
  {
  }

  lemma ByteBelow16(x: Byte)
    ensures x < 0x10 <==> ToByteBits(x) < 0x10
  {
  }

  function DecryptCode(v: Word): Word { FromBits(DecryptCodeBits(ToBits(v))) }

  function DecryptArg(v: Word): Word { FromBits(DecryptArgBits(ToBits(v))) }

  function EncryptCode(w: Word, key: int): Word
    requires 1 <= key <= 15
  {
    FromBits(EncryptCodeBits(ToBits(w), key as bv32))
  }

  function EncryptArg(w: Word): Word { FromBits(EncryptArgBits(ToBits(w))) }

  lemma CodeRoundTrip(w: Word, key: int)
    requires w < 0x1000_0000 && 1 <= key <= 15
    ensures EncryptCode(w, key) >= 0x1000_0000
    ensures DecryptCode(EncryptCode(w, key)) == w
  {
    hide ToBits, FromBits, EncryptCodeBits, DecryptCodeBits, IsPlain;
    KeyBits(key);
    var e := EncryptCodeBits(ToBits(w), key as bv32);
    NibbleBits(w);
    CodeBitsRoundTrip(ToBits(w), key as bv32);
    BitsRoundTrip(w, e);
    NibbleBits(FromBits(e));
  }

  lemma ArgRoundTrip(w: Word)
    ensures DecryptArg(EncryptArg(w)) == w && EncryptArg(DecryptArg(w)) == w
  {
    hide ToBits, FromBits, EncryptArgBits, DecryptArgBits;
    ArgBitsRoundTrip(ToBits(w));
    BitsRoundTrip(w, EncryptArgBits(ToBits(w)));
    BitsRoundTrip(w, DecryptArgBits(ToBits(w)));
  }

  lemma DecryptedFits(v: Word)
    ensures DecryptCode(v) < 0x1000_0000
    ensures v < 0x1000_0000 ==> DecryptCode(v) == v
  {
    hide ToBits, FromBits, Rotate28, Seed, Mix, KeyOf, IsPlain;
    var d := DecryptCodeBits(ToBits(v));
    DecryptedCodeFits(ToBits(v));
    NibbleBits(v);
    BitsRoundTrip(v, d);
    NibbleBits(FromBits(d));
  }
}
