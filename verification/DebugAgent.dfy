/** The debug agent over the emulated memory: breakpoints, block accesses and the shadow call stack. */
module DebugAgents {
  import B = Breakpoints
  import S = ShadowStack
  import opened DebugMemory
  import opened Memory
  import opened Words

  class DebugAgent {
    const ram: array<Byte>
    var breakpoints: map<Word, Half>
    var stack: seq<S.Frame>

    predicate Valid() { ram.Length > 0 }

    /** The memory and the breakpoints. */
    function View(): B.Agent
      requires Valid()
      reads this, ram
    {
      B.Agent(ram[..], breakpoints)
    }

    constructor (ram: array<Byte>)
      requires ram.Length > 0
      ensures Valid() && this.ram == ram && breakpoints == map[] && stack == []
    {
      this.ram, breakpoints, stack := ram, map[], [];
    }

    // -------------------------------------------------------------- breakpoints

    method InsertMatchpoint(addr: Word, len: Word) returns (ok: bool)
      requires Valid()
      modifies this`breakpoints, ram
      ensures (View(), ok) == B.InsertMatchpoint(old(View()), addr, len)
    {
      hide Read, Write, Low16;
      if len != 2 {
        return false;
      }
      if addr in breakpoints {
        return true;
      }
      var op := ReadRam(ram, addr, 16);
      breakpoints := breakpoints[addr := Low16(op)];
      WriteRam(ram, addr, B.TRAP, 16);
      ok := true;
    }

    method RemoveMatchpoint(addr: Word, len: Word) returns (ok: bool)
      requires Valid()
      modifies this`breakpoints, ram
      ensures (View(), ok) == B.RemoveMatchpoint(old(View()), addr, len)
    {
      hide Write;
      if len != 2 {
        return false;
      }
      if addr !in breakpoints {
        return false;
      }
      WriteRam(ram, addr, breakpoints[addr], 16);
      breakpoints := breakpoints - {addr};
      ok := true;
    }

    /** The processor runs, making some stores. */
    method Run(stores: seq<B.Store>)
      requires Valid()
      modifies ram
      ensures ram[..] == B.StoreAll(old(ram[..]), stores)
    {
      assert stores[0..] == stores;
      for k := 0 to |stores|
        invariant B.StoreAll(ram[..], stores[k..]) == B.StoreAll(old(ram[..]), stores)
      {
        assert stores[k..][0] == stores[k] && stores[k..][1..] == stores[k + 1..];
        ghost var before := ram[..];
        ram[stores[k].addr % ram.Length] := stores[k].value;
        assert ram[..] == Poke(before, stores[k].addr, stores[k].value);
      }
      assert stores[|stores|..] == [];
    }

    /** One step, from a program counter and with the stores the stepped instruction makes. */
    method Step(pc: Word, stores: seq<B.Store>)
      requires Valid()
      modifies this`breakpoints, ram
      ensures View() == B.StepOver(old(View()), pc, stores)
    {
      hide B.InsertMatchpoint, B.RemoveMatchpoint, B.StoreAll;
      var restoreBreakpoint := RemoveMatchpoint(pc, 2);
      Run(stores);
      if restoreBreakpoint {
        var _ := InsertMatchpoint(pc, 2);
      }
    }

    // -------------------------------------------------------------- block accesses

    /** Accesses of the widest width the alignment and the rest allow read the bytes of the block. */
    method ReadMem(addr: Word, len: nat) returns (data: Bytes)
      requires Valid()
      ensures data == Block(ram[..], addr, len)
    {
      hide Block, Read, WordBytes;
      var m: Ram := ram[..];
      var a, left := addr, len;
      data := [];
      EmptyBlock(m, addr);
      while left > 0
        invariant a == addr + (len - left) && 0 <= left <= len && data == Block(m, addr, len - left)
      {
        var bits := if left >= 4 && a % 4 == 0 then 32 else if left >= 2 && a % 2 == 0 then 16 else 8;
        var v := ReadRam(ram, a, bits);
        ReadIsBlock(m, a, bits);
        BlockSplits(m, addr, len - left + Width(bits), len - left);
        data := data + WordBytes(v, Width(bits));
        a := a + Width(bits);
        left := left - Width(bits);
      }
    }

    /** Accesses of mixed widths store the bytes of the block. */
    method WriteMem(addr: Word, data: Bytes)
      requires Valid()
      modifies ram
      ensures ram[..] == Stored(old(ram[..]), addr, data)
    {
      hide Stored, FromBytes, WordBytes, Write;
      var a, p := addr as int, 0;
      assert data[0..] == data;
      while p < |data|
        invariant a == addr + p && p <= |data| && Stored(ram[..], a, data[p..]) == Stored(old(ram[..]), addr, data)
      {
        var left := |data| - p;
        var bits := if left >= 4 && a % 4 == 0 then 32 else if left >= 2 && a % 4 == 0 then 16 else 8;
        var w := Width(bits);
        var v := Joined(data[p..p + w]);
        ghost var before: Ram := ram[..];
        WriteRam(ram, a, v, bits);
        WriteIsStored(before, a, v, bits);
        assert data[p..][..w] == data[p..p + w] && data[p..][w..] == data[p + w..];
        StoredSplits(before, a, data[p..], w);
        a := a + w;
        p := p + w;
      }
      EmptyStored(ram[..], a);
      assert data[|data|..] == [];
    }

    // -------------------------------------------------------------- shadow stack

    method SubroutineReturn(sp: Word)
      modifies this`stack
      ensures stack == S.Returned(old(stack), sp)
    {
      while stack != [] && sp >= stack[|stack| - 1].sp
        invariant S.Returned(stack, sp) == S.Returned(old(stack), sp)
        decreases |stack|
      {
        stack := stack[..|stack| - 1];
      }
    }

    method SubroutineCall(pc: Word, sp: Word)
      modifies this`stack
      ensures stack == S.After(old(stack), S.Call(pc, sp))
    {
      SubroutineReturn(sp);
      stack := stack + [S.Frame(pc, sp)];
    }
  }

  /** One, two or four bytes as a word. */
  function Joined(b: Bytes): (v: Word)
    requires |b| == 1 || |b| == 2 || |b| == 4
    ensures WordBytes(v, |b|) == b
  {
    var v := if |b| == 1 then FromBytes(b[0], 0, 0, 0)
             else if |b| == 2 then FromBytes(b[0], b[1], 0, 0)
             else FromBytes(b[0], b[1], b[2], b[3]);
    JoinedBytes(b);
    v
  }

  lemma JoinedBytes(b: Bytes)
    ensures |b| == 1 ==> WordBytes(FromBytes(b[0], 0, 0, 0), 1) == b
    ensures |b| == 2 ==> WordBytes(FromBytes(b[0], b[1], 0, 0), 2) == b
    ensures |b| == 4 ==> WordBytes(FromBytes(b[0], b[1], b[2], b[3]), 4) == b
  {
    hide FromBytes, ByteOf;
    if |b| == 1 {
      BytesOfFromBytes(b[0], 0, 0, 0);
    } else if |b| == 2 {
      BytesOfFromBytes(b[0], b[1], 0, 0);
    } else if |b| == 4 {
      BytesOfFromBytes(b[0], b[1], b[2], b[3]);
    }
  }

  lemma WriteIsStored(m: Ram, addr: int, v: Word, bits: int)
    ensures Write(m, addr, v, bits) == Stored(m, addr, WordBytes(v, Width(bits)))
  {
    PokeIsStored(m, addr, v, Width(bits));
  }

  lemma EmptyBlock(m: Ram, addr: int)
    ensures Block(m, addr, 0) == []
  {
  }

  lemma EmptyStored(m: Ram, addr: int)
    ensures Stored(m, addr, []) == m
  {
  }
}
