/** The main RAM of the console: bytes with little-endian 8/16/32-bit accesses. Addresses are
    folded by the RAM size, as the emulator's RAM mask does. */
module Memory {
  import opened Words

  type Ram = m: seq<Byte> | |m| > 0 witness [0]

  function Index(m: Ram, addr: int): (k: nat)
    ensures k < |m|
  {
    addr % |m|
  }

  function Peek(m: Ram, addr: int): Byte { m[Index(m, addr)] }

  function Poke(m: Ram, addr: int, b: Byte): (r: Ram)
    ensures |r| == |m|
  {
    m[Index(m, addr) := b]
  }

  /** How many bytes an access of the given bit width touches; every width but 16 and 32 is a byte. */
  function Width(bits: int): (n: nat)
    ensures 1 <= n <= 4
  {
    if bits == 16 then 2 else if bits == 32 then 4 else 1
  }

  function Read(m: Ram, addr: int, bits: int): Word {
    if bits == 16 then
      FromBytes(Peek(m, addr), Peek(m, addr + 1), 0, 0)
    else if bits == 32 then
      FromBytes(Peek(m, addr), Peek(m, addr + 1), Peek(m, addr + 2), Peek(m, addr + 3))
    else
      FromBytes(Peek(m, addr), 0, 0, 0)
  }

  /** The first n bytes of a value, stored upwards from an address. */
  function PokeBytes(m: Ram, addr: int, v: Word, n: nat): (r: Ram)
    requires n <= 4
    ensures |r| == |m|
  {
    if n == 0 then m else Poke(PokeBytes(m, addr, v, n - 1), addr + n - 1, ByteOf(v, n - 1))
  }

  function Write(m: Ram, addr: int, v: Word, bits: int): (r: Ram)
    ensures |r| == |m|
  {
    PokeBytes(m, addr, v, Width(bits))
  }

  lemma ReadGivesByte(m: Ram, addr: int, bits: int, k: nat)
    requires k < Width(bits)
    ensures ByteOf(Read(m, addr, bits), k) == Peek(m, addr + k)
  {
    hide FromBytes, ByteOf;
    if bits == 16 {
      BytesOfFromBytes(Peek(m, addr), Peek(m, addr + 1), 0, 0);
    } else if bits == 32 {
      BytesOfFromBytes(Peek(m, addr), Peek(m, addr + 1), Peek(m, addr + 2), Peek(m, addr + 3));
    } else {
      BytesOfFromBytes(Peek(m, addr), 0, 0, 0);
    }
  }

  /** Storing what is already there changes nothing, so the emulator may leave the store out. */
  lemma WriteBackIsIdentity(m: Ram, addr: int, bits: int)
    ensures Write(m, addr, Read(m, addr, bits), bits) == m
  {
    PokeBackIsIdentity(m, addr, bits, Width(bits));
  }

  lemma {:induction false} PokeBackIsIdentity(m: Ram, addr: int, bits: int, n: nat)
    requires n <= Width(bits)
    ensures PokeBytes(m, addr, Read(m, addr, bits), n) == m
  {
    if n > 0 {
      PokeBackIsIdentity(m, addr, bits, n - 1);
      ReadGivesByte(m, addr, bits, n - 1);
    }
  }

  method ReadRam(ram: array<Byte>, addr: int, bits: int) returns (v: Word)
    requires ram.Length > 0
    ensures v == Read(ram[..], addr, bits)
  {
    var n := ram.Length;
    if bits == 16 {
      v := FromBytes(ram[addr % n], ram[(addr + 1) % n], 0, 0);
    } else if bits == 32 {
      v := FromBytes(ram[addr % n], ram[(addr + 1) % n], ram[(addr + 2) % n], ram[(addr + 3) % n]);
    } else {
      v := FromBytes(ram[addr % n], 0, 0, 0);
    }
  }

  method WriteRam(ram: array<Byte>, addr: int, v: Word, bits: int)
    requires ram.Length > 0
    modifies ram
    ensures ram[..] == Write(old(ram[..]), addr, v, bits)
  {
    for k := 0 to Width(bits)
      invariant ram[..] == PokeBytes(old(ram[..]), addr, v, k)
    {
      ram[(addr + k) % ram.Length] := ByteOf(v, k);
    }
  }
}
