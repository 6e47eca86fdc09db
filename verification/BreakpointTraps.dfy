/** Breakpoints byte by byte: the trap instruction that shows at one, and the halfword it has saved. */
module BreakpointTraps {
  import opened Words
  import opened Memory
  import opened MemoryAccess
  import opened Breakpoints

  /** Memory with two bytes at an address, and otherwise as other memory. */
  ghost predicate Shows(r: Ram, m: Ram, addr: Word, low: int, high: int) {
    && |r| == |m| && At(r, addr) == low && At(r, addr + 1) == high
    && forall x :: Outside(m, addr, 2, x) ==> At(r, x) == At(m, x)
  }

  lemma StoredHalf(m: Ram, addr: Word, v: Half)
    requires |m| >= 4
    ensures Shows(Write(m, addr, v, 16), m, addr, v % 0x100, v / 0x100)
  {
    var r := Write(m, addr, v, 16);
    StoredIsRead(m, addr, v, 16);
    ReadIsLittleEndian(r, addr, 16);
    hide Write, Read, Outside;
    TwoBytes(At(r, addr), At(r, addr + 1), v);
  }

  lemma TwoBytes(low: Byte, high: Byte, v: Half)
    requires low + 0x100 * high == v
    ensures low == v % 0x100 && high == v / 0x100
  {
  }

  /** A new breakpoint shows the bytes of `trapa #0x20` and saves the two bytes that were there. */
  lemma InsertShowsTrap(a: Agent, addr: Word)
    requires |a.mem| >= 4 && addr !in a.breakpoints
    ensures
      var (b, ok) := InsertMatchpoint(a, addr, 2);
      && ok && Shows(b.mem, a.mem, addr, 0x08, 0xC3)
      && b.breakpoints == a.breakpoints[addr := b.breakpoints[addr]]
      && b.breakpoints[addr] == At(a.mem, addr) + 0x100 * At(a.mem, addr + 1)
  {
    StoredHalf(a.mem, addr, TRAP);
    ReadIsLittleEndian(a.mem, addr, 16);
    hide Read, Write, At, Shows;
  }

  /** A breakpoint that is taken away shows what it has saved. */
  lemma RemoveShowsSaved(a: Agent, addr: Word)
    requires |a.mem| >= 4 && addr in a.breakpoints
    ensures
      var (b, ok) := RemoveMatchpoint(a, addr, 2);
      && ok && b.breakpoints == a.breakpoints - {addr}
      && Shows(b.mem, a.mem, addr, a.breakpoints[addr] % 0x100, a.breakpoints[addr] / 0x100)
  {
    StoredHalf(a.mem, addr, a.breakpoints[addr]);
    hide Read, Write, At, Shows;
  }
}
