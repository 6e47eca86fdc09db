/** Software breakpoints laid over the program's memory: a trap instruction in place of a saved one. */
module Breakpoints {
  import Modulo
  import opened Words
  import opened Memory

  const TRAP: Half := 0xC308

  /** The emulated memory, and the breakpoints with the instructions they hide. */
  datatype Agent = Agent(mem: Ram, breakpoints: map<Word, Half>)

  /** A store by the processor: one byte. */
  datatype Store = Store(addr: Word, value: Byte)

  datatype Op =
    | Insert(addr: Word, len: Word)
    | Remove(addr: Word, len: Word)
    | Resume(stores: seq<Store>)
    | Step(pc: Word, stores: seq<Store>)

  function InsertMatchpoint(a: Agent, addr: Word, len: Word): (Agent, bool) {
    if len != 2 then (a, false)
    else if addr in a.breakpoints then (a, true)
    else (Agent(Write(a.mem, addr, TRAP, 16), a.breakpoints[addr := Low16(Read(a.mem, addr, 16))]), true)
  }

  function RemoveMatchpoint(a: Agent, addr: Word, len: Word): (Agent, bool) {
    if len != 2 then (a, false)
    else if addr !in a.breakpoints then (a, false)
    else (Agent(Write(a.mem, addr, a.breakpoints[addr], 16), a.breakpoints - {addr}), true)
  }

  function StoreAll(m: Ram, stores: seq<Store>): (r: Ram)
    ensures |r| == |m|
    decreases |stores|
  {
    if stores == [] then m else StoreAll(Poke(m, stores[0].addr, stores[0].value), stores[1..])
  }

  /** One step from a program counter: the breakpoint there, if any, is lifted for its duration. */
  function StepOver(a: Agent, pc: Word, stores: seq<Store>): Agent {
    var (b, restore) := RemoveMatchpoint(a, pc, 2);
    var c := b.(mem := StoreAll(b.mem, stores));
    if restore then InsertMatchpoint(c, pc, 2).0 else c
  }

  function Perform(a: Agent, op: Op): Agent {
    match op
    case Insert(addr, len) => InsertMatchpoint(a, addr, len).0
    case Remove(addr, len) => RemoveMatchpoint(a, addr, len).0
    case Resume(stores) => a.(mem := StoreAll(a.mem, stores))
    case Step(pc, stores) => StepOver(a, pc, stores)
  }

  function PerformAll(a: Agent, ops: seq<Op>): Agent
    decreases |ops|
  {
    if ops == [] then a else PerformAll(Perform(a, ops[0]), ops[1..])
  }

  // ---------------------------------------------------------------- what it is meant to be

  /** The program's own memory, and the breakpoints that are set. */
  datatype Program = Program(mem: Ram, breakpoints: set<Word>)

  function Meant(p: Program, op: Op): Program {
    match op
    case Insert(addr, len) => if len == 2 then p.(breakpoints := p.breakpoints + {addr}) else p
    case Remove(addr, len) => if len == 2 then p.(breakpoints := p.breakpoints - {addr}) else p
    case Resume(stores) => p.(mem := StoreAll(p.mem, stores))
    case Step(_, stores) => p.(mem := StoreAll(p.mem, stores))
  }

  function MeantAll(p: Program, ops: seq<Op>): Program
    decreases |ops|
  {
    if ops == [] then p else MeantAll(Meant(p, ops[0]), ops[1..])
  }

  /** The halfword of the memory an address falls on. */
  function Cell(m: Ram, addr: Word): nat { Index(m, addr) / 2 }

  predicate Away(m: Ram, breakpoints: set<Word>, addr: Word) {
    forall b :: b in breakpoints ==> Cell(m, b) != Cell(m, addr)
  }

  predicate AllAway(m: Ram, breakpoints: set<Word>, stores: seq<Store>) {
    forall k :: 0 <= k < |stores| ==> Away(m, breakpoints, stores[k].addr)
  }

  /** Breakpoints at even addresses, and stores away from the breakpoints not stepped on. */
  predicate Keeps(p: Program, op: Op) {
    match op
    case Insert(addr, len) => len == 2 ==> addr % 2 == 0
    case Remove(_, _) => true
    case Resume(stores) => AllAway(p.mem, p.breakpoints, stores)
    case Step(pc, stores) => AllAway(p.mem, p.breakpoints - {pc}, stores)
  }

  /** The same with no breakpoint on a mirror of another. */
  predicate Allowed(p: Program, op: Op) {
    && Keeps(p, op)
    && (op.Insert? && op.len == 2 ==> op.addr in p.breakpoints || Away(p.mem, p.breakpoints, op.addr))
  }

  predicate AllAllowed(p: Program, ops: seq<Op>)
    decreases |ops|
  {
    ops == [] || (Allowed(p, ops[0]) && AllAllowed(Meant(p, ops[0]), ops[1..]))
  }

  /** The breakpoints are at even addresses, each on a halfword of its own. */
  predicate Apart(m: Ram, breakpoints: set<Word>) {
    && (forall b :: b in breakpoints ==> b % 2 == 0)
    && (forall b, c :: b in breakpoints && c in breakpoints && b != c ==> Cell(m, b) != Cell(m, c))
  }

  function HalfAt(m: Ram, c: nat): Half
    requires 2 * c + 1 < |m|
  {
    var low: int, high: int := m[2 * c], m[2 * c + 1];
    low + 0x100 * high
  }

  function HalfPut(m: Ram, c: nat, v: Half): (r: Ram)
    requires 2 * c + 1 < |m|
    ensures |r| == |m| && HalfAt(r, c) == v
    ensures forall d :: d != c && 0 <= 2 * d && 2 * d + 1 < |m| ==> HalfAt(r, d) == HalfAt(m, d)
  {
    m[2 * c := v % 0x100][2 * c + 1 := v / 0x100]
  }

  lemma CellInside(m: Ram, addr: Word)
    requires |m| % 2 == 0
    ensures 2 * Cell(m, addr) + 1 < |m|
    ensures addr % 2 == 0 ==> Index(m, addr) == 2 * Cell(m, addr) && Index(m, addr + 1) == 2 * Cell(m, addr) + 1
  {
    var r := Index(m, addr);
    Modulo.HalfInside(r, |m|);
    if addr % 2 == 0 {
      Modulo.AfterEven(addr, |m|);
      Modulo.Halved(r);
    }
  }

  /** The memory is the program's, but for a trap on the halfword of each breakpoint, which has saved
      the program's own. */
  ghost predicate Overlaid(a: Agent, p: Program) {
    && |a.mem| == |p.mem| && |p.mem| % 2 == 0 && a.breakpoints.Keys == p.breakpoints
    && Apart(p.mem, p.breakpoints)
    && (forall b :: b in p.breakpoints ==> Covered(a, p.mem, b))
    && (forall c: nat :: Uncovered(p, c) ==> HalfAt(a.mem, c) == HalfAt(p.mem, c))
  }

  predicate Covered(a: Agent, m: Ram, b: Word)
    requires b in a.breakpoints && |a.mem| == |m| && |m| % 2 == 0
  {
    CellInside(m, b);
    HalfAt(a.mem, Cell(m, b)) == TRAP && a.breakpoints[b] == HalfAt(m, Cell(m, b))
  }

  ghost predicate Uncovered(p: Program, c: nat) {
    2 * c + 1 < |p.mem| && forall b :: b in p.breakpoints ==> Cell(p.mem, b) != c
  }

  // ---------------------------------------------------------------- one operation

  lemma ReadIsHalf(m: Ram, addr: Word)
    requires |m| % 2 == 0 && addr % 2 == 0
    ensures 2 * Cell(m, addr) + 1 < |m| && Low16(Read(m, addr, 16)) == HalfAt(m, Cell(m, addr))
  {
    CellInside(m, addr);
  }

  lemma WriteIsHalf(m: Ram, addr: Word, v: Half)
    requires |m| % 2 == 0 && addr % 2 == 0
    ensures 2 * Cell(m, addr) + 1 < |m| && Write(m, addr, v, 16) == HalfPut(m, Cell(m, addr), v)
  {
    CellInside(m, addr);
    assert PokeBytes(m, addr, v, 1) == Poke(PokeBytes(m, addr, v, 0), addr, ByteOf(v, 0));
  }

  lemma InsertKeeps(a: Agent, p: Program, addr: Word, len: Word)
    requires Overlaid(a, p) && Allowed(p, Insert(addr, len))
    ensures Overlaid(InsertMatchpoint(a, addr, len).0, Meant(p, Insert(addr, len)))
    ensures InsertMatchpoint(a, addr, len).1 == (len == 2)
  {
    hide Cell, Read, Write, HalfAt, HalfPut;
    if len == 2 {
      if addr in a.breakpoints {
        assert p.breakpoints + {addr} == p.breakpoints;
      } else {
        ReadIsHalf(a.mem, addr);
        WriteIsHalf(a.mem, addr, TRAP);
        SameCells(a.mem, p.mem);
        var b, q := InsertMatchpoint(a, addr, len).0, Meant(p, Insert(addr, len));
        var k := Cell(p.mem, addr);
        assert Uncovered(p, k);
        assert b.mem == HalfPut(a.mem, k, TRAP);
        forall c: nat | Uncovered(q, c)
          ensures HalfAt(b.mem, c) == HalfAt(p.mem, c)
        {
          assert addr in q.breakpoints;
          assert Uncovered(p, c);
        }
        forall x | x in q.breakpoints
          ensures Covered(b, p.mem, x)
        {
          if x != addr {
            assert Covered(a, p.mem, x);
            CellInside(p.mem, x);
          }
        }
      }
    }
  }

  lemma SameCells(m: Ram, n: Ram)
    requires |m| == |n|
    ensures forall b :: Cell(m, b) == Cell(n, b)
  {
  }

  lemma RemoveKeeps(a: Agent, p: Program, addr: Word, len: Word)
    requires Overlaid(a, p)
    ensures Overlaid(RemoveMatchpoint(a, addr, len).0, Meant(p, Remove(addr, len)))
    ensures RemoveMatchpoint(a, addr, len).1 == (len == 2 && addr in p.breakpoints)
  {
    hide Cell, Read, Write, HalfAt, HalfPut;
    if len == 2 {
      if addr !in a.breakpoints {
        assert p.breakpoints - {addr} == p.breakpoints;
      } else {
        WriteIsHalf(a.mem, addr, a.breakpoints[addr]);
        SameCells(a.mem, p.mem);
        var b, q := RemoveMatchpoint(a, addr, len).0, Meant(p, Remove(addr, len));
        var k := Cell(p.mem, addr);
        assert Covered(a, p.mem, addr);
        assert b.mem == HalfPut(a.mem, k, a.breakpoints[addr]);
        forall c: nat | Uncovered(q, c)
          ensures HalfAt(b.mem, c) == HalfAt(p.mem, c)
        {
          if c != k {
            assert Uncovered(p, c);
          }
        }
        forall x | x in q.breakpoints
          ensures Covered(b, p.mem, x)
        {
          assert Covered(a, p.mem, x);
          CellInside(p.mem, x);
        }
      }
    }
  }

  lemma StoreKeeps(a: Agent, p: Program, s: Store)
    requires Overlaid(a, p) && Away(p.mem, p.breakpoints, s.addr)
    ensures Overlaid(a.(mem := Poke(a.mem, s.addr, s.value)), p.(mem := Poke(p.mem, s.addr, s.value)))
  {
    var b, q := a.(mem := Poke(a.mem, s.addr, s.value)), p.(mem := Poke(p.mem, s.addr, s.value));
    var k := Cell(p.mem, s.addr);
    CellInside(p.mem, s.addr);
    SameCells(p.mem, q.mem);
    SameCells(p.mem, a.mem);
    assert Uncovered(p, k);
    SameBytes(a.mem, p.mem, k);
    PokeHalf(a.mem, s);
    PokeHalf(p.mem, s);
    hide Cell, Poke, HalfAt, Index;
    forall c: nat | Uncovered(q, c)
      ensures HalfAt(b.mem, c) == HalfAt(q.mem, c)
    {
      assert Uncovered(p, c);
      if c == k {
        SameHalf(a.mem, p.mem, s);
      }
    }
    forall x | x in q.breakpoints
      ensures Covered(b, q.mem, x)
    {
      assert Covered(a, p.mem, x);
      CellInside(p.mem, x);
    }
  }

  lemma SameBytes(m: Ram, n: Ram, c: nat)
    requires |m| == |n| && 2 * c + 1 < |m| && HalfAt(m, c) == HalfAt(n, c)
    ensures m[2 * c] == n[2 * c] && m[2 * c + 1] == n[2 * c + 1]
  {
  }

  lemma PokeHalf(m: Ram, s: Store)
    requires |m| % 2 == 0
    ensures forall c: nat :: 2 * c + 1 < |m| && c != Cell(m, s.addr)
                             ==> HalfAt(Poke(m, s.addr, s.value), c) == HalfAt(m, c)
  {
    var i := Index(m, s.addr);
    assert i == 2 * Cell(m, s.addr) || i == 2 * Cell(m, s.addr) + 1;
  }

  lemma SameHalf(m: Ram, n: Ram, s: Store)
    requires |m| == |n| && |m| % 2 == 0
    requires var c := Cell(m, s.addr); 2 * c + 1 < |m| && m[2 * c] == n[2 * c] && m[2 * c + 1] == n[2 * c + 1]
    ensures var c := Cell(m, s.addr); HalfAt(Poke(m, s.addr, s.value), c) == HalfAt(Poke(n, s.addr, s.value), c)
  {
  }

  lemma {:induction false} StoresKeep(a: Agent, p: Program, stores: seq<Store>)
    requires Overlaid(a, p) && AllAway(p.mem, p.breakpoints, stores)
    ensures Overlaid(a.(mem := StoreAll(a.mem, stores)), p.(mem := StoreAll(p.mem, stores)))
    decreases |stores|
  {
    hide Overlaid, Cell, Poke;
    if stores != [] {
      var s := stores[0];
      StoreKeeps(a, p, s);
      var q := p.(mem := Poke(p.mem, s.addr, s.value));
      SameCells(p.mem, q.mem);
      forall k | 0 <= k < |stores| - 1
        ensures Away(q.mem, q.breakpoints, stores[1..][k].addr)
      {
        assert stores[1..][k] == stores[k + 1];
        assert Away(p.mem, p.breakpoints, stores[k + 1].addr);
      }
      StoresKeep(a.(mem := Poke(a.mem, s.addr, s.value)), q, stores[1..]);
    }
  }

  lemma StepKeeps(a: Agent, p: Program, pc: Word, stores: seq<Store>)
    requires Overlaid(a, p) && Allowed(p, Step(pc, stores))
    ensures Overlaid(StepOver(a, pc, stores), Meant(p, Step(pc, stores)))
  {
    RemoveKeeps(a, p, pc, 2);
    var (b, restore) := RemoveMatchpoint(a, pc, 2);
    var q := Meant(p, Remove(pc, 2));
    StoresKeep(b, q, stores);
    var c, r := b.(mem := StoreAll(b.mem, stores)), q.(mem := StoreAll(q.mem, stores));
    assert Apart(p.mem, p.breakpoints);
    hide Overlaid, InsertMatchpoint, RemoveMatchpoint, StoreAll, Cell;
    SameCells(p.mem, r.mem);
    if restore {
      InsertKeeps(c, r, pc, 2);
      assert r.breakpoints + {pc} == p.breakpoints;
    } else {
      assert r.breakpoints == p.breakpoints;
    }
  }

  lemma PerformKeeps(a: Agent, p: Program, op: Op)
    requires Overlaid(a, p) && Allowed(p, op)
    ensures Overlaid(Perform(a, op), Meant(p, op))
  {
    hide Overlaid, InsertMatchpoint, RemoveMatchpoint, StepOver;
    match op
    case Insert(addr, len) => InsertKeeps(a, p, addr, len);
    case Remove(addr, len) => RemoveKeeps(a, p, addr, len);
    case Resume(stores) => StoresKeep(a, p, stores);
    case Step(pc, stores) => StepKeeps(a, p, pc, stores);
  }

  // ---------------------------------------------------------------- whole runs

  /** Through every run the memory is the program's with a trap on exactly the breakpoints that are set. */
  lemma {:induction false} EveryRunIsAnOverlay(a: Agent, p: Program, ops: seq<Op>)
    requires Overlaid(a, p) && AllAllowed(p, ops)
    ensures Overlaid(PerformAll(a, ops), MeantAll(p, ops))
    decreases |ops|
  {
    hide Overlaid, Allowed, Perform, Meant;
    if ops != [] {
      PerformKeeps(a, p, ops[0]);
      EveryRunIsAnOverlay(Perform(a, ops[0]), Meant(p, ops[0]), ops[1..]);
    }
  }

  /** Without breakpoints the memory is the program's. */
  lemma NoBreakpointsNoTraps(a: Agent, p: Program)
    requires Overlaid(a, p) && p.breakpoints == {}
    ensures a.mem == p.mem && a.breakpoints == map[]
  {
    forall i | 0 <= i < |p.mem|
      ensures a.mem[i] == p.mem[i]
    {
      var h := |p.mem| / 2;
      assert Uncovered(p, i / 2);
      SameBytes(a.mem, p.mem, i / 2);
    }
  }

  function RemoveEach(addrs: seq<Word>): seq<Op> {
    if addrs == [] then [] else [Remove(addrs[0], 2)] + RemoveEach(addrs[1..])
  }

  lemma {:induction false} RemovingLeaves(p: Program, addrs: seq<Word>)
    ensures AllAllowed(p, RemoveEach(addrs))
    ensures var q := MeantAll(p, RemoveEach(addrs));
            q.mem == p.mem && q.breakpoints == p.breakpoints - set x | x in addrs
    decreases |addrs|
  {
    if addrs != [] {
      var q := Meant(p, Remove(addrs[0], 2));
      assert RemoveEach(addrs)[1..] == RemoveEach(addrs[1..]);
      RemovingLeaves(q, addrs[1..]);
      assert addrs == [addrs[0]] + addrs[1..];
      assert p.breakpoints - (set x | x in addrs) == q.breakpoints - set x | x in addrs[1..];
    }
  }

  /** Removing every breakpoint, in any order and after any run, gives the program its memory back. */
  lemma RemovingAllRestores(a: Agent, p: Program, ops: seq<Op>, addrs: seq<Word>)
    requires Overlaid(a, p) && AllAllowed(p, ops)
    requires forall b :: b in PerformAll(a, ops).breakpoints ==> b in addrs
    ensures PerformAll(PerformAll(a, ops), RemoveEach(addrs)).mem == MeantAll(p, ops).mem
    ensures PerformAll(PerformAll(a, ops), RemoveEach(addrs)).breakpoints == map[]
  {
    EveryRunIsAnOverlay(a, p, ops);
    var b, q := PerformAll(a, ops), MeantAll(p, ops);
    assert b.breakpoints.Keys == q.breakpoints;
    RemovingLeaves(q, addrs);
    EveryRunIsAnOverlay(b, q, RemoveEach(addrs));
    assert q.breakpoints - (set x | x in addrs) == {};
    hide PerformAll, MeantAll, Overlaid, RemoveEach;
    NoBreakpointsNoTraps(PerformAll(b, RemoveEach(addrs)), MeantAll(q, RemoveEach(addrs)));
  }

  // ---------------------------------------------------------------- where it ends

  /** A store leaves the overlay as it is meant to be exactly if it is away from the breakpoints, or stores
      a byte that both the trap and the program already have there. */
  lemma StoreKeepsExactly(a: Agent, p: Program, s: Store)
    requires Overlaid(a, p)
    ensures Overlaid(a.(mem := Poke(a.mem, s.addr, s.value)), p.(mem := Poke(p.mem, s.addr, s.value)))
            <==> Away(p.mem, p.breakpoints, s.addr)
                 || (Peek(a.mem, s.addr) == s.value && Peek(p.mem, s.addr) == s.value)
  {
    hide Overlaid, Covered, Cell, Poke, Peek;
    var b, q := a.(mem := Poke(a.mem, s.addr, s.value)), p.(mem := Poke(p.mem, s.addr, s.value));
    if Away(p.mem, p.breakpoints, s.addr) {
      StoreKeeps(a, p, s);
    } else if Peek(a.mem, s.addr) == s.value && Peek(p.mem, s.addr) == s.value {
      StoreOfSame(a.mem, s);
      StoreOfSame(p.mem, s);
    } else if Overlaid(b, q) {
      var x :| x in p.breakpoints && Cell(p.mem, x) == Cell(p.mem, s.addr);
      CoveredCell(a, p, x);
      CoveredCell(b, q, x);
      SameCells(p.mem, q.mem);
      SameCells(p.mem, a.mem);
      StoreSeen(a.mem, s);
      StoreSeen(p.mem, s);
    }
  }

  lemma CoveredCell(a: Agent, p: Program, x: Word)
    requires Overlaid(a, p) && x in p.breakpoints
    ensures x in a.breakpoints && |a.mem| == |p.mem| && |p.mem| % 2 == 0 && 2 * Cell(p.mem, x) + 1 < |p.mem|
    ensures HalfAt(a.mem, Cell(p.mem, x)) == TRAP && a.breakpoints[x] == HalfAt(p.mem, Cell(p.mem, x))
  {
    hide Cell, HalfAt;
    assert Covered(a, p.mem, x);
    CellInside(p.mem, x);
  }

  lemma StoreOfSame(m: Ram, s: Store)
    requires Peek(m, s.addr) == s.value
    ensures Poke(m, s.addr, s.value) == m
  {
  }

  lemma StoreSeen(m: Ram, s: Store)
    requires |m| % 2 == 0 && 2 * Cell(m, s.addr) + 1 < |m|
    requires HalfAt(Poke(m, s.addr, s.value), Cell(m, s.addr)) == HalfAt(m, Cell(m, s.addr))
    ensures Peek(m, s.addr) == s.value
  {
    var k := Cell(m, s.addr);
    SameBytes(Poke(m, s.addr, s.value), m, k);
    assert Index(m, s.addr) == 2 * k || Index(m, s.addr) == 2 * k + 1;
  }
}
