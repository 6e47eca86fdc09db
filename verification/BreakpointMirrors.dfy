/** Breakpoints through mirrored addresses, several on one halfword: exactly when removing them all gives the
    program its memory back. */
module BreakpointMirrors {
  import opened Words
  import opened Memory
  import opened Breakpoints
  import opened Wrappers

  // ---------------------------------------------------------------- which of several on a halfword

  function Elements(addrs: seq<Word>): set<Word> { set b | b in addrs }

  /** The first of some addresses on a halfword. */
  function FirstOn(m: Ram, addrs: seq<Word>, c: nat): (r: Option<Word>)
    ensures r.Some? ==> r.value in addrs && Cell(m, r.value) == c
    ensures r.None? ==> forall b :: b in addrs ==> Cell(m, b) != c
  {
    if addrs == [] then None
    else if Cell(m, addrs[0]) == c then Some(addrs[0])
    else FirstOn(m, addrs[1..], c)
  }

  /** The last of the set breakpoints on a halfword that removing some addresses in turn takes away. */
  function LastRemoved(m: Ram, breakpoints: set<Word>, addrs: seq<Word>, c: nat): (r: Option<Word>)
    ensures r.Some? ==> r.value in breakpoints && r.value in addrs && Cell(m, r.value) == c
    ensures r.None? ==> forall b :: b in addrs && b in breakpoints ==> Cell(m, b) != c
    decreases |addrs|
  {
    if addrs == [] then None
    else
      var later := LastRemoved(m, breakpoints - {addrs[0]}, addrs[1..], c);
      if later.Some? then later
      else if addrs[0] in breakpoints && Cell(m, addrs[0]) == c then Some(addrs[0])
      else None
  }

  // ---------------------------------------------------------------- setting breakpoints and running

  /** Anything but a removal, with mirrored breakpoints or not. */
  predicate SetsUp(p: Program, op: Op) {
    Keeps(p, op) && !op.Remove? && (op.Insert? ==> op.len == 2)
  }

  predicate AllSetUp(p: Program, ops: seq<Op>)
    decreases |ops|
  {
    ops == [] || (SetsUp(p, ops[0]) && AllSetUp(Meant(p, ops[0]), ops[1..]))
  }

  /** The addresses inserted, in order. */
  function Inserted(ops: seq<Op>): seq<Word> {
    if ops == [] then [] else (if ops[0].Insert? then [ops[0].addr] else []) + Inserted(ops[1..])
  }

  /** The halfword a breakpoint has saved: the program's own under the first one there, the trap under others. */
  predicate SavedAt(a: Agent, m: Ram, ins: seq<Word>, b: Word)
    requires b in a.breakpoints && |m| % 2 == 0
  {
    CellInside(m, b);
    var c := Cell(m, b);
    a.breakpoints[b] == if FirstOn(m, ins, c) == Some(b) then HalfAt(m, c) else TRAP
  }

  /** The breakpoints set by inserting some addresses in turn, over a program's memory. */
  ghost predicate Laid(a: Agent, p: Program, ins: seq<Word>) {
    && |a.mem| == |p.mem| && |p.mem| % 2 == 0
    && a.breakpoints.Keys == p.breakpoints == Elements(ins)
    && (forall b :: b in ins ==> b % 2 == 0 && SavedAt(a, p.mem, ins, b))
    && (forall c: nat :: 2 * c + 1 < |p.mem| ==> ShowsAt(a, p.mem, ins, c))
  }

  predicate ShowsAt(a: Agent, m: Ram, ins: seq<Word>, c: nat)
    requires |a.mem| == |m| && 2 * c + 1 < |m|
  {
    HalfAt(a.mem, c) == if FirstOn(m, ins, c).Some? then TRAP else HalfAt(m, c)
  }

  lemma FirstOnSame(m: Ram, n: Ram, ins: seq<Word>, c: nat)
    requires |m| == |n|
    ensures FirstOn(m, ins, c) == FirstOn(n, ins, c)
  {
  }

  lemma {:induction false} FirstOnMore(m: Ram, ins: seq<Word>, x: Word, c: nat)
    ensures FirstOn(m, ins + [x], c)
            == if FirstOn(m, ins, c).Some? then FirstOn(m, ins, c) else if Cell(m, x) == c then Some(x) else None
    decreases |ins|
  {
    hide Cell;
    if ins == [] {
      assert ins + [x] == [x] && [x][1..] == [];
    } else {
      assert (ins + [x])[1..] == ins[1..] + [x];
      FirstOnMore(m, ins[1..], x, c);
    }
  }

  lemma InsertLays(a: Agent, p: Program, ins: seq<Word>, x: Word)
    requires Laid(a, p, ins) && x % 2 == 0
    ensures Laid(InsertMatchpoint(a, x, 2).0, Meant(p, Insert(x, 2)), ins + [x])
  {
    hide Cell, Read, Write, HalfAt, HalfPut, FirstOn;
    var b, q, more := InsertMatchpoint(a, x, 2).0, Meant(p, Insert(x, 2)), ins + [x];
    var k := Cell(p.mem, x);
    SameCells(a.mem, p.mem);
    assert forall y :: y in more <==> y in ins || y == x;
    assert Elements(more) == Elements(ins) + {x};
    CellInside(p.mem, x);
    ReadIsHalf(a.mem, x);
    WriteIsHalf(a.mem, x, TRAP);
    assert ShowsAt(a, p.mem, ins, k);
    assert x !in a.breakpoints ==> b.mem == HalfPut(a.mem, k, TRAP);
    forall c: nat | 2 * c + 1 < |p.mem|
      ensures ShowsAt(b, q.mem, more, c)
    {
      assert ShowsAt(a, p.mem, ins, c);
      FirstOnMore(p.mem, ins, x, c);
    }
    forall y | y in more
      ensures y % 2 == 0 && y in b.breakpoints && SavedAt(b, q.mem, more, y)
    {
      CellInside(p.mem, y);
      FirstOnMore(p.mem, ins, x, Cell(p.mem, y));
      if y in ins {
        assert SavedAt(a, p.mem, ins, y);
      }
    }
  }

  // ---------------------------------------------------------------- stores

  lemma StoreOn(m: Ram, s: Store, c: nat)
    requires |m| % 2 == 0 && 2 * c + 1 < |m| && Cell(m, s.addr) != c
    ensures HalfAt(Poke(m, s.addr, s.value), c) == HalfAt(m, c)
  {
    PokeHalf(m, s);
  }

  lemma {:induction false} StoresElsewhere(m: Ram, stores: seq<Store>, c: nat)
    requires |m| % 2 == 0 && 2 * c + 1 < |m| && forall k :: 0 <= k < |stores| ==> Cell(m, stores[k].addr) != c
    ensures HalfAt(StoreAll(m, stores), c) == HalfAt(m, c)
    decreases |stores|
  {
    hide Cell, Poke, HalfAt;
    if stores != [] {
      var r := Poke(m, stores[0].addr, stores[0].value);
      StoreOn(m, stores[0], c);
      SameCells(m, r);
      StoresElsewhere(r, stores[1..], c);
    }
  }

  lemma StoreAgrees(m: Ram, n: Ram, s: Store, c: nat)
    requires |m| == |n| && |m| % 2 == 0 && 2 * c + 1 < |m| && HalfAt(m, c) == HalfAt(n, c)
    ensures HalfAt(Poke(m, s.addr, s.value), c) == HalfAt(Poke(n, s.addr, s.value), c)
  {
    hide Cell, HalfAt, Poke;
    SameCells(m, n);
    if Cell(m, s.addr) == c {
      SameBytes(m, n, c);
      SameHalf(m, n, s);
    } else {
      StoreOn(m, s, c);
      StoreOn(n, s, c);
    }
  }

  /** Stores keep two memories the same on a halfword they agree on. */
  lemma {:induction false} StoresAgree(m: Ram, n: Ram, stores: seq<Store>, c: nat)
    requires |m| == |n| && |m| % 2 == 0 && 2 * c + 1 < |m| && HalfAt(m, c) == HalfAt(n, c)
    ensures HalfAt(StoreAll(m, stores), c) == HalfAt(StoreAll(n, stores), c)
    decreases |stores|
  {
    hide Poke, HalfAt;
    if stores != [] {
      var s := stores[0];
      StoreAgrees(m, n, s, c);
      StoresAgree(Poke(m, s.addr, s.value), Poke(n, s.addr, s.value), stores[1..], c);
    }
  }

  lemma AwayFrom(m: Ram, breakpoints: set<Word>, stores: seq<Store>, b: Word)
    requires AllAway(m, breakpoints, stores) && b in breakpoints
    ensures forall k :: 0 <= k < |stores| ==> Cell(m, stores[k].addr) != Cell(m, b)
  {
    hide Cell;
    forall k | 0 <= k < |stores|
      ensures Cell(m, stores[k].addr) != Cell(m, b)
    {
      assert Away(m, breakpoints, stores[k].addr);
    }
  }

  lemma ResumeLays(a: Agent, p: Program, ins: seq<Word>, stores: seq<Store>)
    requires Laid(a, p, ins) && AllAway(p.mem, p.breakpoints, stores)
    ensures Laid(a.(mem := StoreAll(a.mem, stores)), Meant(p, Resume(stores)), ins)
  {
    hide Cell, HalfAt, FirstOn, StoreAll, AllAway;
    var b, q := a.(mem := StoreAll(a.mem, stores)), Meant(p, Resume(stores));
    SameCells(p.mem, q.mem);
    SameCells(p.mem, a.mem);
    forall c: nat | 2 * c + 1 < |p.mem|
      ensures ShowsAt(b, q.mem, ins, c)
    {
      assert ShowsAt(a, p.mem, ins, c);
      FirstOnSame(p.mem, q.mem, ins, c);
      var first := FirstOn(p.mem, ins, c);
      if first.Some? {
        AwayFrom(p.mem, p.breakpoints, stores, first.value);
        StoresElsewhere(a.mem, stores, c);
      } else {
        StoresAgree(a.mem, p.mem, stores, c);
      }
    }
    forall y | y in ins
      ensures y in b.breakpoints && SavedAt(b, q.mem, ins, y)
    {
      SavedStays(a, p, ins, stores, y);
      assert y % 2 == 0 && b.breakpoints[y] == a.breakpoints[y];
      CellInside(p.mem, y);
    }
  }

  lemma SavedStays(a: Agent, p: Program, ins: seq<Word>, stores: seq<Store>, y: Word)
    requires |p.mem| % 2 == 0 && y in a.breakpoints && y in p.breakpoints && SavedAt(a, p.mem, ins, y)
    requires AllAway(p.mem, p.breakpoints, stores)
    ensures SavedAt(a, StoreAll(p.mem, stores), ins, y)
  {
    hide Cell, HalfAt, FirstOn, StoreAll, AllAway;
    CellInside(p.mem, y);
    SameCells(p.mem, StoreAll(p.mem, stores));
    FirstOnSame(p.mem, StoreAll(p.mem, stores), ins, Cell(p.mem, y));
    AwayFrom(p.mem, p.breakpoints, stores, y);
    StoresElsewhere(p.mem, stores, Cell(p.mem, y));
  }

  // ---------------------------------------------------------------- steps

  /** A breakpoint lifted for a step and set again over what the step stored. */
  lemma LiftedHalf(a: Agent, p: Program, ins: seq<Word>, pc: Word, stores: seq<Store>)
    requires Laid(a, p, ins) && AllAway(p.mem, p.breakpoints - {pc}, stores) && pc in ins
    ensures 2 * Cell(p.mem, pc) + 1 < |a.mem|
    ensures
      var k := Cell(p.mem, pc);
      var m2 := StoreAll(HalfPut(a.mem, k, a.breakpoints[pc]), stores);
      HalfAt(m2, k) == if FirstOn(p.mem, ins, k) == Some(pc) then HalfAt(StoreAll(p.mem, stores), k) else TRAP
  {
    hide Cell, HalfAt, HalfPut, FirstOn, StoreAll, AllAway, ShowsAt;
    CellInside(p.mem, pc);
    var k := Cell(p.mem, pc);
    var m1 := HalfPut(a.mem, k, a.breakpoints[pc]);
    SameCells(p.mem, m1);
    var first := FirstOn(p.mem, ins, k);
    if first == Some(pc) {
      StoresAgree(m1, p.mem, stores, k);
    } else {
      assert first.Some? && first.value in p.breakpoints - {pc};
      AwayFrom(p.mem, p.breakpoints - {pc}, stores, first.value);
      StoresElsewhere(m1, stores, k);
    }
  }

  /** The other halfwords through a step. */
  lemma OtherHalves(a: Agent, p: Program, ins: seq<Word>, pc: Word, stores: seq<Store>, c: nat)
    requires Laid(a, p, ins) && AllAway(p.mem, p.breakpoints - {pc}, stores) && pc in ins
    requires 2 * Cell(p.mem, pc) + 1 < |a.mem| && 2 * c + 1 < |a.mem| && c != Cell(p.mem, pc)
    ensures
      HalfAt(StoreAll(HalfPut(a.mem, Cell(p.mem, pc), a.breakpoints[pc]), stores), c)
      == if FirstOn(p.mem, ins, c).Some? then TRAP else HalfAt(StoreAll(p.mem, stores), c)
  {
    hide Cell, HalfAt, HalfPut, FirstOn, StoreAll, AllAway, SavedAt;
    var m1 := HalfPut(a.mem, Cell(p.mem, pc), a.breakpoints[pc]);
    SameCells(p.mem, m1);
    assert ShowsAt(a, p.mem, ins, c);
    var first := FirstOn(p.mem, ins, c);
    if first.Some? {
      AwayFrom(p.mem, p.breakpoints - {pc}, stores, first.value);
      StoresElsewhere(m1, stores, c);
    } else {
      StoresAgree(m1, p.mem, stores, c);
    }
  }

  /** What a step makes of the agent when it starts on a breakpoint. */
  lemma StepOnBreakpoint(a: Agent, pc: Word, stores: seq<Store>)
    requires |a.mem| % 2 == 0 && pc % 2 == 0 && pc in a.breakpoints
    ensures 2 * Cell(a.mem, pc) + 1 < |a.mem|
    ensures
      var k := Cell(a.mem, pc);
      var m2 := StoreAll(HalfPut(a.mem, k, a.breakpoints[pc]), stores);
      StepOver(a, pc, stores) == Agent(HalfPut(m2, k, TRAP), a.breakpoints[pc := HalfAt(m2, k)])
  {
    hide Cell, Read, Write, HalfAt, HalfPut, StoreAll;
    CellInside(a.mem, pc);
    var k := Cell(a.mem, pc);
    WriteIsHalf(a.mem, pc, a.breakpoints[pc]);
    var m1 := HalfPut(a.mem, k, a.breakpoints[pc]);
    var m2 := StoreAll(m1, stores);
    SameCells(a.mem, m2);
    ReadIsHalf(m2, pc);
    WriteIsHalf(m2, pc, TRAP);
    assert (a.breakpoints - {pc})[pc := HalfAt(m2, k)] == a.breakpoints[pc := HalfAt(m2, k)];
  }

  lemma StepLays(a: Agent, p: Program, ins: seq<Word>, pc: Word, stores: seq<Store>)
    requires Laid(a, p, ins) && AllAway(p.mem, p.breakpoints - {pc}, stores)
    ensures Laid(StepOver(a, pc, stores), Meant(p, Step(pc, stores)), ins)
  {
    hide Cell, HalfAt, HalfPut, FirstOn, StoreAll, AllAway;
    var b, q := StepOver(a, pc, stores), Meant(p, Step(pc, stores));
    SameCells(p.mem, q.mem);
    SameCells(p.mem, a.mem);
    if pc !in a.breakpoints {
      assert p.breakpoints - {pc} == p.breakpoints;
      ResumeLays(a, p, ins, stores);
      assert b == a.(mem := StoreAll(a.mem, stores));
    } else {
      hide StepOver;
      StepOnBreakpoint(a, pc, stores);
      LiftedHalf(a, p, ins, pc, stores);
      var k := Cell(p.mem, pc);
      forall c: nat | 2 * c + 1 < |p.mem|
        ensures ShowsAt(b, q.mem, ins, c)
      {
        FirstOnSame(p.mem, q.mem, ins, c);
        if c != k {
          OtherHalves(a, p, ins, pc, stores, c);
        }
      }
      forall y | y in ins
        ensures y % 2 == 0 && y in b.breakpoints && SavedAt(b, q.mem, ins, y)
      {
        CellInside(p.mem, y);
        FirstOnSame(p.mem, q.mem, ins, Cell(p.mem, y));
        if y != pc {
          SavedStays(a, p.(breakpoints := p.breakpoints - {pc}), ins, stores, y);
        }
      }
    }
  }

  lemma OpLays(a: Agent, p: Program, ins: seq<Word>, op: Op)
    requires Laid(a, p, ins) && SetsUp(p, op)
    ensures Laid(Perform(a, op), Meant(p, op), ins + if op.Insert? then [op.addr] else [])
  {
    hide Laid, InsertMatchpoint, StepOver, AllAway, StoreAll;
    assert ins + [] == ins;
    match op
    case Insert(addr, _) => InsertLays(a, p, ins, addr);
    case Resume(stores) => ResumeLays(a, p, ins, stores);
    case Step(pc, stores) => StepLays(a, p, ins, pc, stores);
  }

  lemma {:induction false} RunLays(a: Agent, p: Program, ins: seq<Word>, ops: seq<Op>)
    requires Laid(a, p, ins) && AllSetUp(p, ops)
    ensures Laid(PerformAll(a, ops), MeantAll(p, ops), ins + Inserted(ops))
    decreases |ops|
  {
    hide Laid, SetsUp, Perform, Meant;
    if ops == [] {
      assert ins + [] == ins;
    } else {
      var first := if ops[0].Insert? then [ops[0].addr] else [];
      OpLays(a, p, ins, ops[0]);
      RunLays(Perform(a, ops[0]), Meant(p, ops[0]), ins + first, ops[1..]);
      assert ins + first + Inserted(ops[1..]) == ins + (first + Inserted(ops[1..]));
    }
  }

  // ---------------------------------------------------------------- removing them all

  /** Removing addresses in turn leaves on each halfword what the last breakpoint removed there had saved. */
  lemma {:induction false} RemovalsShow(a: Agent, addrs: seq<Word>, c: nat)
    requires |a.mem| % 2 == 0 && 2 * c + 1 < |a.mem| && forall b :: b in a.breakpoints ==> b % 2 == 0
    ensures
      var end := PerformAll(a, RemoveEach(addrs));
      var last := LastRemoved(a.mem, a.breakpoints.Keys, addrs, c);
      && |end.mem| == |a.mem|
      && HalfAt(end.mem, c) == (if last.Some? then a.breakpoints[last.value] else HalfAt(a.mem, c))
      && end.breakpoints.Keys == a.breakpoints.Keys - Elements(addrs)
    decreases |addrs|
  {
    hide Cell, Read, Write, HalfAt, HalfPut;
    if addrs != [] {
      var x, rest := addrs[0], addrs[1..];
      var b := RemoveMatchpoint(a, x, 2).0;
      assert RemoveEach(addrs)[1..] == RemoveEach(rest);
      assert addrs == [x] + rest;
      if x in a.breakpoints {
        WriteIsHalf(a.mem, x, a.breakpoints[x]);
      }
      assert b.breakpoints.Keys == a.breakpoints.Keys - {x};
      RemovalsShow(b, rest, c);
      LastRemovedSame(a.mem, b.mem, a.breakpoints.Keys - {x}, rest, c);
      assert a.breakpoints.Keys - Elements(addrs) == a.breakpoints.Keys - {x} - Elements(rest);
    }
  }

  lemma {:induction false} LastRemovedSame(m: Ram, n: Ram, breakpoints: set<Word>, addrs: seq<Word>, c: nat)
    requires |m| == |n|
    ensures LastRemoved(m, breakpoints, addrs, c) == LastRemoved(n, breakpoints, addrs, c)
    decreases |addrs|
  {
    if addrs != [] {
      SameCells(m, n);
      LastRemovedSame(m, n, breakpoints - {addrs[0]}, addrs[1..], c);
      hide Cell;
    }
  }

  lemma NothingLaid(m: Ram)
    requires |m| % 2 == 0
    ensures Laid(Agent(m, map[]), Program(m, {}), [])
  {
    hide HalfAt, Cell;
  }

  /** After any run of insertions, stores and steps, removing all breakpoints in some order gives the program
      its memory back exactly if on every halfword the breakpoint removed last is the one inserted first, or
      the program itself has the trap there. */
  lemma RemovingAllRestoresExactly(m: Ram, ops: seq<Op>, addrs: seq<Word>)
    requires |m| % 2 == 0 && AllSetUp(Program(m, {}), ops) && forall b :: b in Inserted(ops) ==> b in addrs
    ensures
      var end := PerformAll(PerformAll(Agent(m, map[]), ops), RemoveEach(addrs));
      var own, ins := MeantAll(Program(m, {}), ops).mem, Inserted(ops);
      && |own| == |end.mem| && end.breakpoints == map[]
      && (end.mem == own
          <==> forall c: nat | 2 * c + 1 < |own| ::
                 FirstOn(own, ins, c) == LastRemoved(own, Elements(ins), addrs, c) || HalfAt(own, c) == TRAP)
  {
    hide Cell, HalfAt, FirstOn, LastRemoved, PerformAll, MeantAll, RemoveEach, AllSetUp, Inserted;
    var a, p, ins := PerformAll(Agent(m, map[]), ops), MeantAll(Program(m, {}), ops), Inserted(ops);
    var end := PerformAll(a, RemoveEach(addrs));
    NothingLaid(m);
    RunLays(Agent(m, map[]), Program(m, {}), [], ops);
    assert [] + ins == ins;
    forall c: nat | 2 * c + 1 < |p.mem|
      ensures |end.mem| == |p.mem| && end.breakpoints == map[]
      ensures HalfAt(end.mem, c) == HalfAt(p.mem, c)
              <==> FirstOn(p.mem, ins, c) == LastRemoved(p.mem, Elements(ins), addrs, c) || HalfAt(p.mem, c) == TRAP
    {
      HalfRestored(a, p, ins, addrs, c);
    }
    assert 2 * 0 + 1 < |p.mem|;
    SameWhenHalvesAre(end.mem, p.mem);
  }

  lemma HalfRestored(a: Agent, p: Program, ins: seq<Word>, addrs: seq<Word>, c: nat)
    requires Laid(a, p, ins) && 2 * c + 1 < |p.mem| && forall b :: b in ins ==> b in addrs
    ensures
      var end := PerformAll(a, RemoveEach(addrs));
      && |end.mem| == |p.mem| && end.breakpoints == map[]
      && (HalfAt(end.mem, c) == HalfAt(p.mem, c)
          <==> FirstOn(p.mem, ins, c) == LastRemoved(p.mem, Elements(ins), addrs, c) || HalfAt(p.mem, c) == TRAP)
  {
    hide Cell, HalfAt, FirstOn, LastRemoved, PerformAll, RemoveEach;
    RemovalsShow(a, addrs, c);
    LastRemovedSame(a.mem, p.mem, a.breakpoints.Keys, addrs, c);
    assert ShowsAt(a, p.mem, ins, c);
    var first, last := FirstOn(p.mem, ins, c), LastRemoved(p.mem, Elements(ins), addrs, c);
    if last.Some? {
      assert SavedAt(a, p.mem, ins, last.value);
    } else {
      assert first.None?;
    }
    assert PerformAll(a, RemoveEach(addrs)).breakpoints.Keys == {};
  }

  lemma SameWhenHalvesAre(m: Ram, n: Ram)
    requires |m| == |n| && |m| % 2 == 0
    ensures m == n <==> forall c: nat | 2 * c + 1 < |m| :: HalfAt(m, c) == HalfAt(n, c)
  {
    if forall c: nat | 2 * c + 1 < |m| :: HalfAt(m, c) == HalfAt(n, c) {
      forall i | 0 <= i < |m|
        ensures m[i] == n[i]
      {
        SameBytes(m, n, i / 2);
      }
    }
  }

  // ---------------------------------------------------------------- in reverse order

  function Reversed(addrs: seq<Word>): (r: seq<Word>)
    ensures forall b :: b in r <==> b in addrs
  {
    if addrs == [] then [] else Reversed(addrs[1..]) + [addrs[0]]
  }

  lemma {:induction false} LastRemovedMore(m: Ram, breakpoints: set<Word>, addrs: seq<Word>, x: Word, c: nat)
    ensures LastRemoved(m, breakpoints, addrs + [x], c)
            == if x in breakpoints && x !in addrs && Cell(m, x) == c then Some(x)
               else LastRemoved(m, breakpoints, addrs, c)
    decreases |addrs|
  {
    hide Cell;
    if addrs == [] {
      assert addrs + [x] == [x] && [x][1..] == [];
    } else {
      assert (addrs + [x])[1..] == addrs[1..] + [x];
      LastRemovedMore(m, breakpoints - {addrs[0]}, addrs[1..], x, c);
    }
  }

  lemma {:induction false} LastRemovedOthers(m: Ram, breakpoints: set<Word>, addrs: seq<Word>, x: Word, c: nat)
    requires x !in addrs
    ensures LastRemoved(m, breakpoints + {x}, addrs, c) == LastRemoved(m, breakpoints, addrs, c)
    decreases |addrs|
  {
    hide Cell;
    if addrs != [] {
      var y := addrs[0];
      assert breakpoints + {x} - {y} == breakpoints - {y} + {x};
      LastRemovedOthers(m, breakpoints - {y}, addrs[1..], x, c);
    }
  }

  /** Removed in reverse order, the last on each halfword is the first that was inserted there. */
  lemma {:induction false} ReverseEndsWithFirst(m: Ram, ins: seq<Word>, c: nat)
    requires forall i, j :: 0 <= i < j < |ins| ==> ins[i] != ins[j]
    ensures LastRemoved(m, Elements(ins), Reversed(ins), c) == FirstOn(m, ins, c)
    decreases |ins|
  {
    hide Cell;
    if ins != [] {
      var x, rest := ins[0], ins[1..];
      var all, others := Elements(ins), Elements(rest);
      assert ins == [x] + rest;
      assert all == others + {x};
      LastRemovedMore(m, all, Reversed(rest), x, c);
      LastRemovedOthers(m, others, Reversed(rest), x, c);
      ReverseEndsWithFirst(m, rest, c);
    }
  }

  /** So removing different breakpoints in the reverse order of their insertion always restores. */
  lemma ReverseOrderRestores(m: Ram, ops: seq<Op>)
    requires |m| % 2 == 0 && AllSetUp(Program(m, {}), ops)
    requires var ins := Inserted(ops); forall i, j :: 0 <= i < j < |ins| ==> ins[i] != ins[j]
    ensures PerformAll(PerformAll(Agent(m, map[]), ops), RemoveEach(Reversed(Inserted(ops)))).mem
            == MeantAll(Program(m, {}), ops).mem
  {
    hide Cell, HalfAt, FirstOn, LastRemoved, PerformAll, MeantAll, RemoveEach, AllSetUp, Inserted, Reversed;
    var own, ins := MeantAll(Program(m, {}), ops).mem, Inserted(ops);
    RemovingAllRestoresExactly(m, ops, Reversed(ins));
    forall c: nat | 2 * c + 1 < |own|
      ensures FirstOn(own, ins, c) == LastRemoved(own, Elements(ins), Reversed(ins), c)
    {
      ReverseEndsWithFirst(own, ins, c);
    }
  }

  lemma TwoInserted(m: Ram, x: Word, y: Word)
    requires x % 2 == y % 2 == 0
    ensures
      var p, ops := Program(m, {}), [Insert(x, 2), Insert(y, 2)];
      AllSetUp(p, ops) && Inserted(ops) == [x, y] && MeantAll(p, ops).mem == m
  {
    var p, ops, last := Program(m, {}), [Insert(x, 2), Insert(y, 2)], [Insert(y, 2)];
    var q := Meant(p, ops[0]);
    assert ops[1..] == last && last[1..] == [];
    assert AllSetUp(q, last) && Inserted(last) == [y] && MeantAll(q, last).mem == m;
  }

  /** Removed in the order they were inserted, two breakpoints on one halfword leave the trap there. */
  lemma InsertionOrderLeavesTrap(m: Ram, x: Word, y: Word)
    requires |m| % 2 == 0 && x % 2 == y % 2 == 0 && x != y && Cell(m, x) == Cell(m, y)
    requires 2 * Cell(m, x) + 1 < |m| && HalfAt(m, Cell(m, x)) != TRAP
    ensures PerformAll(PerformAll(Agent(m, map[]), [Insert(x, 2), Insert(y, 2)]), RemoveEach([x, y])).mem != m
  {
    hide Cell, HalfAt, PerformAll, RemoveEach;
    var ops, c := [Insert(x, 2), Insert(y, 2)], Cell(m, x);
    TwoInserted(m, x, y);
    RemovingAllRestoresExactly(m, ops, [x, y]);
    assert FirstOn(m, [x, y], c) == Some(x);
    assert [x, y][1..] == [y];
    assert y in Elements([x, y]) - {x};
    assert LastRemoved(m, Elements([x, y]), [x, y], c) == Some(y);
  }

  /** As with addresses two bytes apart in a memory of two. */
  lemma MirroredTrapStays()
    ensures
      var m: Ram := [0, 0];
      PerformAll(PerformAll(Agent(m, map[]), [Insert(0, 2), Insert(2, 2)]), RemoveEach([0, 2])).mem != m
  {
    InsertionOrderLeavesTrap([0, 0], 0, 2);
    hide PerformAll;
  }
}
