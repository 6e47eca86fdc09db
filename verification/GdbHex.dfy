/** Hexadecimal bytes and words of the GDB remote serial protocol, printed and read back. */
module GdbHex {
  import opened Words

  // ---------------------------------------------------------------- hexadecimal digits

  function Digit(n: Byte): Byte { if n < 10 then '0' as int + n else ('a' as int + n - 10) % 0x100 }

  /** The value of a digit; characters above 127 are negative and so below '9'. */
  function DigitValue(c: Byte): Byte {
    var lower: Byte := if 'A' as int <= c <= 'Z' as int then c + 32 else c;
    (if lower <= '9' as int || lower >= 0x80 then lower - '0' as int else lower - 'a' as int + 10) % 0x100
  }

  /** The digit of a nibble, and the nibble of a digit. */
  function PackNibble(n: bv8): Byte { Digit(FromByteBits(n)) }

  function UnpackNibble(c: Byte): bv8 { ToByteBits(DigitValue(c)) }

  /** Two digits, the high nibble first. */
  function PackByte(b: bv8): Bytes { [PackNibble((b >> 4) & 0xf), PackNibble(b & 0xf)] }

  /** Two digits as they are combined: a value over a byte is possible when they are no digits. */
  function UnpackByte(c0: Byte, c1: Byte): bv32 { (UnpackNibble(c0) as bv32 << 4) | UnpackNibble(c1) as bv32 }

  lemma NibbleIsSmall(n: bv8)
    requires n <= 0xf
    ensures FromByteBits(n) < 16
  {
  }

  lemma DigitRoundTrip(n: Byte)
    requires n < 16
    ensures DigitValue(Digit(n)) == n && Digit(n) != 0
  {
  }

  lemma NibbleRoundTrip(n: bv8)
    requires n <= 0xf
    ensures UnpackNibble(PackNibble(n)) == n && PackNibble(n) != 0
  {
    hide FromByteBits, ToByteBits, Digit, DigitValue;
    NibbleIsSmall(n);
    DigitRoundTrip(FromByteBits(n));
    BitsByte(n);
  }

  lemma JoinNibbles(b: bv8)
    ensures (b >> 4) & 0xf <= 0xf && b & 0xf <= 0xf
    ensures (((b >> 4) & 0xf) as bv32 << 4) | (b & 0xf) as bv32 == b as bv32
  {
  }

  lemma ByteRoundTrip(b: bv8)
    ensures UnpackByte(PackByte(b)[0], PackByte(b)[1]) == b as bv32
  {
    hide PackNibble, UnpackNibble;
    JoinNibbles(b);
    NibbleRoundTrip((b >> 4) & 0xf);
    NibbleRoundTrip(b & 0xf);
  }

  function Shifted(b: bv32, k: nat): bv32
    requires k < 4
  {
    if k == 0 then b else if k == 1 then b << 8 else if k == 2 then b << 16 else b << 24
  }

  function Or(a: bv32, b: bv32): bv32 { a | b }

  /** A character of a string; its end reads as zero. */
  function CharAt(s: Bytes, i: nat): Byte { if i < |s| then s[i] else 0 }

  /** The bytes from the k-th to the n-th of a word in digits, least significant first; stops where the string ends. */
  function UnpackFrom(s: Bytes, k: nat, n: nat): bv32
    requires k <= n <= 4
    decreases n - k
  {
    if k == n || CharAt(s, 2 * k) == 0 then 0
    else Or(Shifted(UnpackByte(s[2 * k], CharAt(s, 2 * k + 1)), k), UnpackFrom(s, k + 1, n))
  }

  /** How many bytes a number of digits stands for; an odd last digit is taken with the character behind it. */
  function Pairs(l: int): (n: nat)
    requires l <= 8
    ensures n <= 4
  {
    if l <= 0 then 0 else (l + 1) / 2
  }

  function Pack(v: Word): Bytes {
    var b := ToBits(v);
    PackByte(Part(b, 0)) + PackByte(Part(b, 1)) + PackByte(Part(b, 2)) + PackByte(Part(b, 3))
  }

  /** A length over eight would shift by more than the width of a word. */
  method Unpack(s: Bytes, l: int) returns (v: Word)
    requires l <= 8
    ensures v == FromBits(UnpackFrom(s, 0, Pairs(l)))
  {
    hide UnpackByte, Shifted, Or;
    var r: bv32 := 0;
    var i := 0;
    ghost var k, n := 0, Pairs(l);
    OrZero(UnpackFrom(s, 0, n));
    while i < l && CharAt(s, i) != 0
      invariant i == 2 * k && k <= n && Or(r, UnpackFrom(s, k, n)) == UnpackFrom(s, 0, n)
    {
      var byte := Shifted(UnpackByte(s[i], CharAt(s, i + 1)), i / 2);
      assert i / 2 == k;
      OrAssociates(r, byte, UnpackFrom(s, k + 1, n));
      r := Or(r, byte);
      i, k := i + 2, k + 1;
    }
    UnpackEnd(s, k, n);
    OrZero(r);
    v := FromBits(r);
  }

  lemma UnpackEnd(s: Bytes, k: nat, n: nat)
    requires k <= n <= 4 && (k == n || CharAt(s, 2 * k) == 0)
    ensures UnpackFrom(s, k, n) == 0
  {
  }

  lemma OrZero(r: bv32)
    ensures Or(0, r) == r == Or(r, 0)
  {
  }

  lemma OrAssociates(a: bv32, b: bv32, c: bv32)
    ensures Or(a, Or(b, c)) == Or(Or(a, b), c)
  {
  }

  lemma JoinByOr(b0: bv8, b1: bv8, b2: bv8, b3: bv8)
    ensures Or(Shifted(b0 as bv32, 0),
               Or(Shifted(b1 as bv32, 1), Or(Shifted(b2 as bv32, 2), Or(Shifted(b3 as bv32, 3), 0))))
            == Join(b0, b1, b2, b3)
  {
  }

  lemma DigitsAreNotZero(b: bv8)
    ensures PackByte(b)[0] != 0 && |PackByte(b)| == 2
  {
    hide PackNibble;
    JoinNibbles(b);
    NibbleRoundTrip((b >> 4) & 0xf);
  }

  /** A word survives being printed and read back. */
  lemma WordRoundTrip(v: Word)
    ensures FromBits(UnpackFrom(Pack(v), 0, 4)) == v
  {
    hide PackByte, UnpackByte, Part, Join, ToBits, FromBits, Shifted, Or, UnpackFrom, Pack, CharAt;
    var b, s := ToBits(v), Pack(v);
    PackedByte(v, 0);
    PackedByte(v, 1);
    PackedByte(v, 2);
    PackedByte(v, 3);
    UnpackStep(s, 0);
    UnpackStep(s, 1);
    UnpackStep(s, 2);
    UnpackStep(s, 3);
    JoinByOr(Part(b, 0), Part(b, 1), Part(b, 2), Part(b, 3));
    JoinOfParts(b);
    BitsRoundTrip(v, b);
  }

  lemma PackedByte(v: Word, k: nat)
    requires k < 4
    ensures CharAt(Pack(v), 2 * k) != 0
    ensures UnpackByte(Pack(v)[2 * k], CharAt(Pack(v), 2 * k + 1)) == Part(ToBits(v), k) as bv32
  {
    hide PackByte, UnpackByte, Part, ToBits;
    var b, s := ToBits(v), Pack(v);
    DigitsAreNotZero(Part(b, 0));
    DigitsAreNotZero(Part(b, 1));
    DigitsAreNotZero(Part(b, 2));
    DigitsAreNotZero(Part(b, 3));
    ByteRoundTrip(Part(b, k));
  }

  lemma UnpackStep(s: Bytes, k: nat)
    requires k < 4 && CharAt(s, 2 * k) != 0
    ensures UnpackFrom(s, k, 4) == Or(Shifted(UnpackByte(s[2 * k], CharAt(s, 2 * k + 1)), k), UnpackFrom(s, k + 1, 4))
    ensures UnpackFrom(s, 4, 4) == 0
  {
    hide UnpackByte, Shifted, Or;
  }
}
