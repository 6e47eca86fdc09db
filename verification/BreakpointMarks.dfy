/** Breakpoints over any run, mirrored addresses and removals in between included. Which bytes show the trap can be
    kept track of without looking at the memory, and exactly those are not the program's. */
module BreakpointMarks {
  import opened Words
  import opened Memory
  import opened Breakpoints
  import opened Wrappers
  import BreakpointMirrors

  /** The bytes that show the trap's, and for each breakpoint whether the two bytes it has saved are the trap's. */
  datatype Marks = Marks(stale: set<nat>, saved: map<Word, (bool, bool)>)

  const NO_MARKS := Marks({}, map[])

  function TrapByte(x: nat): Byte { if x % 2 == 0 then TRAP % 0x100 else TRAP / 0x100 }

  function Shown(own: Byte, x: nat, stale: bool): Byte { if stale then TrapByte(x) else own }

  function Joined(low: Byte, high: Byte): Half {
    var l: int, h: int := low, high;
    l + 0x100 * h
  }

  /** A halfword of the program's, or the trap's in one or both of its bytes. */
  function HalfShown(own: Ram, c: nat, stale: (bool, bool)): Half
    requires 2 * c + 1 < |own|
  {
    Joined(Shown(own[2 * c], 2 * c, stale.0), Shown(own[2 * c + 1], 2 * c + 1, stale.1))
  }

  // ---------------------------------------------------------------- what operations do to the marks

  function Marked(stale: set<nat>, c: nat, s: (bool, bool)): set<nat> {
    stale - {2 * c, 2 * c + 1} + (if s.0 then {2 * c} else {}) + (if s.1 then {2 * c + 1} else {})
  }

  function InsertMark(m: Ram, k: Marks, addr: Word): Marks {
    if addr in k.saved then k
    else
      var c := Cell(m, addr);
      Marks(Marked(k.stale, c, (true, true)), k.saved[addr := (2 * c in k.stale, 2 * c + 1 in k.stale)])
  }

  function RemoveMark(m: Ram, k: Marks, addr: Word): Marks {
    if addr !in k.saved then k
    else Marks(Marked(k.stale, Cell(m, addr), k.saved[addr]), k.saved - {addr})
  }

  function StoreMarks(m: Ram, stale: set<nat>, stores: seq<Store>): set<nat>
    decreases |stores|
  {
    if stores == [] then stale else StoreMarks(m, stale - {Index(m, stores[0].addr)}, stores[1..])
  }

  function StepMarks(m: Ram, k: Marks, pc: Word, stores: seq<Store>): Marks {
    var lifted := RemoveMark(m, k, pc);
    var run := lifted.(stale := StoreMarks(m, lifted.stale, stores));
    if pc in k.saved then InsertMark(m, run, pc) else run
  }

  function Mark(m: Ram, k: Marks, op: Op): Marks {
    match op
    case Insert(addr, len) => if len == 2 then InsertMark(m, k, addr) else k
    case Remove(addr, len) => if len == 2 then RemoveMark(m, k, addr) else k
    case Resume(stores) => k.(stale := StoreMarks(m, k.stale, stores))
    case Step(pc, stores) => StepMarks(m, k, pc, stores)
  }

  function MarkAll(m: Ram, k: Marks, ops: seq<Op>): Marks
    decreases |ops|
  {
    if ops == [] then k else MarkAll(m, Mark(m, k, ops[0]), ops[1..])
  }

  predicate AllKeep(p: Program, ops: seq<Op>)
    decreases |ops|
  {
    ops == [] || (Keeps(p, ops[0]) && AllKeep(Meant(p, ops[0]), ops[1..]))
  }

  // ---------------------------------------------------------------- the invariant

  predicate ByteShows(m: Ram, own: Ram, stale: set<nat>, x: nat)
    requires |m| == |own| && x < |m|
  {
    m[x] == Shown(own[x], x, x in stale)
  }

  ghost predicate Shows(m: Ram, own: Ram, stale: set<nat>) {
    |m| == |own| && |own| % 2 == 0 && forall x: nat :: x < |m| ==> ByteShows(m, own, stale, x)
  }

  predicate HasSaved(a: Agent, own: Ram, k: Marks, b: Word)
    requires |own| % 2 == 0 && b in a.breakpoints && b in k.saved
  {
    CellInside(own, b);
    b % 2 == 0 && a.breakpoints[b] == HalfShown(own, Cell(own, b), k.saved[b])
  }

  /** Memory and saved halfwords are the program's but for what is marked. */
  ghost predicate Agrees(a: Agent, own: Ram, k: Marks) {
    && Shows(a.mem, own, k.stale) && a.breakpoints.Keys == k.saved.Keys
    && forall b :: b in k.saved ==> HasSaved(a, own, k, b)
  }

  lemma JoinedParts(low: Byte, high: Byte)
    ensures Joined(low, high) % 0x100 == low && Joined(low, high) / 0x100 == high
  {
  }

  lemma HalfIsJoined(m: Ram, c: nat)
    requires 2 * c + 1 < |m|
    ensures HalfAt(m, c) == Joined(m[2 * c], m[2 * c + 1])
  {
  }

  lemma TrapIsJoined(c: nat)
    ensures TRAP == Joined(TrapByte(2 * c), TrapByte(2 * c + 1))
  {
  }

  /** A halfword put back shows what its marks say. */
  lemma PutShows(m: Ram, own: Ram, stale: set<nat>, c: nat, s: (bool, bool))
    requires Shows(m, own, stale) && 2 * c + 1 < |own|
    ensures Shows(HalfPut(m, c, HalfShown(own, c, s)), own, Marked(stale, c, s))
  {
    hide Shown, Joined;
    JoinedParts(Shown(own[2 * c], 2 * c, s.0), Shown(own[2 * c + 1], 2 * c + 1, s.1));
    var r := HalfPut(m, c, HalfShown(own, c, s));
    forall x: nat | x < |m|
      ensures ByteShows(r, own, Marked(stale, c, s), x)
    {
      assert ByteShows(m, own, stale, x);
    }
  }

  lemma HalfOf(m: Ram, own: Ram, stale: set<nat>, c: nat)
    requires Shows(m, own, stale) && 2 * c + 1 < |own|
    ensures HalfAt(m, c) == HalfShown(own, c, (2 * c in stale, 2 * c + 1 in stale))
  {
    hide Shown, Joined;
    HalfIsJoined(m, c);
    assert ByteShows(m, own, stale, 2 * c) && ByteShows(m, own, stale, 2 * c + 1);
  }

  lemma TrapShown(own: Ram, c: nat)
    requires 2 * c + 1 < |own|
    ensures TRAP == HalfShown(own, c, (true, true))
  {
    TrapIsJoined(c);
  }

  lemma InsertAgrees(a: Agent, own: Ram, k: Marks, x: Word)
    requires Agrees(a, own, k) && x % 2 == 0
    ensures Agrees(InsertMatchpoint(a, x, 2).0, own, InsertMark(own, k, x))
  {
    hide Cell, Read, Write, HalfAt, HalfPut, HalfShown, Shows, Marked, Low16;
    if x !in a.breakpoints {
      var c := Cell(own, x);
      ShowsSize(a.mem, own, k.stale);
      CellInside(own, x);
      SameCells(a.mem, own);
      ReadIsHalf(a.mem, x);
      WriteIsHalf(a.mem, x, TRAP);
      HalfOf(a.mem, own, k.stale, c);
      TrapShown(own, c);
      PutShows(a.mem, own, k.stale, c, (true, true));
      var b, k2 := InsertMatchpoint(a, x, 2).0, InsertMark(own, k, x);
      forall y | y in k2.saved
        ensures HasSaved(b, own, k2, y)
      {
        if y != x {
          assert HasSaved(a, own, k, y);
        }
      }
    }
  }

  lemma ShowsSize(m: Ram, own: Ram, stale: set<nat>)
    requires Shows(m, own, stale)
    ensures |m| == |own| && |own| % 2 == 0
  {
  }

  lemma RemoveAgrees(a: Agent, own: Ram, k: Marks, x: Word)
    requires Agrees(a, own, k)
    ensures Agrees(RemoveMatchpoint(a, x, 2).0, own, RemoveMark(own, k, x))
  {
    hide Cell, Read, Write, HalfAt, HalfPut, HalfShown, Shows, Marked;
    if x in a.breakpoints {
      ShowsSize(a.mem, own, k.stale);
      assert HasSaved(a, own, k, x);
      CellInside(own, x);
      SameCells(a.mem, own);
      WriteIsHalf(a.mem, x, a.breakpoints[x]);
      PutShows(a.mem, own, k.stale, Cell(own, x), k.saved[x]);
      var b, k2 := RemoveMatchpoint(a, x, 2).0, RemoveMark(own, k, x);
      forall y | y in k2.saved
        ensures HasSaved(b, own, k2, y)
      {
        assert HasSaved(a, own, k, y);
      }
    }
  }

  /** A byte stored on both sides is the program's again. */
  lemma PokeShows(m: Ram, own: Ram, stale: set<nat>, s: Store)
    requires Shows(m, own, stale)
    ensures Shows(Poke(m, s.addr, s.value), Poke(own, s.addr, s.value), stale - {Index(own, s.addr)})
  {
    hide Shown, Index;
    var r, o := Poke(m, s.addr, s.value), Poke(own, s.addr, s.value);
    SameIndex(m, own, s.addr);
    forall x: nat | x < |m|
      ensures ByteShows(r, o, stale - {Index(own, s.addr)}, x)
    {
      assert ByteShows(m, own, stale, x);
      assert Shown(s.value, x, false) == s.value by { NothingStale(s.value, x); }
    }
  }

  lemma NothingStale(own: Byte, x: nat)
    ensures Shown(own, x, false) == own
  {
  }

  lemma SameIndex(m: Ram, n: Ram, addr: Word)
    requires |m| == |n|
    ensures Index(m, addr) == Index(n, addr)
  {
  }

  lemma {:induction false} StoreMarksSame(m: Ram, n: Ram, stale: set<nat>, stores: seq<Store>)
    requires |m| == |n|
    ensures StoreMarks(m, stale, stores) == StoreMarks(n, stale, stores)
    decreases |stores|
  {
    hide Index;
    if stores != [] {
      SameIndex(m, n, stores[0].addr);
      StoreMarksSame(m, n, stale - {Index(m, stores[0].addr)}, stores[1..]);
    }
  }

  lemma {:induction false} StoresShow(m: Ram, own: Ram, stale: set<nat>, stores: seq<Store>)
    requires Shows(m, own, stale)
    ensures Shows(StoreAll(m, stores), StoreAll(own, stores), StoreMarks(own, stale, stores))
    decreases |stores|
  {
    hide Shows, Poke, Index;
    if stores != [] {
      var s := stores[0];
      var o := Poke(own, s.addr, s.value);
      PokeShows(m, own, stale, s);
      StoresShow(Poke(m, s.addr, s.value), o, stale - {Index(own, s.addr)}, stores[1..]);
      StoreMarksSame(own, o, stale - {Index(own, s.addr)}, stores[1..]);
    }
  }

  /** Stores away from a breakpoint leave what it has saved up to date. */
  lemma SavedStays(a: Agent, own: Ram, k: Marks, breakpoints: set<Word>, stores: seq<Store>, b: Word)
    requires |own| % 2 == 0 && b in a.breakpoints && b in k.saved && HasSaved(a, own, k, b)
    requires AllAway(own, breakpoints, stores) && b in breakpoints
    ensures HasSaved(a, StoreAll(own, stores), k, b)
  {
    hide Cell, HalfAt, StoreAll, AllAway, Shown, Joined;
    var c, o := Cell(own, b), StoreAll(own, stores);
    CellInside(own, b);
    SameCells(own, o);
    BreakpointMirrors.AwayFrom(own, breakpoints, stores, b);
    BreakpointMirrors.StoresElsewhere(own, stores, c);
    SameBytes(own, o, c);
  }

  lemma StoresAgree(a: Agent, own: Ram, k: Marks, stores: seq<Store>)
    requires Agrees(a, own, k) && AllAway(own, k.saved.Keys, stores)
    ensures Agrees(a.(mem := StoreAll(a.mem, stores)), StoreAll(own, stores),
                   k.(stale := StoreMarks(own, k.stale, stores)))
  {
    hide Shows, AllAway, StoreAll, StoreMarks, HalfShown, Cell;
    StoresShow(a.mem, own, k.stale, stores);
    ShowsSize(a.mem, own, k.stale);
    var b, o, k2 := a.(mem := StoreAll(a.mem, stores)), StoreAll(own, stores),
                    k.(stale := StoreMarks(own, k.stale, stores));
    forall y | y in k.saved
      ensures HasSaved(b, o, k2, y)
    {
      SavedStays(a, own, k, k.saved.Keys, stores, y);
    }
  }

  lemma MarksByLength(m: Ram, n: Ram, k: Marks, x: Word)
    requires |m| == |n|
    ensures InsertMark(m, k, x) == InsertMark(n, k, x)
  {
    SameCells(m, n);
    hide Cell, Marked;
  }

  lemma StepAgrees(a: Agent, own: Ram, k: Marks, pc: Word, stores: seq<Store>)
    requires Agrees(a, own, k) && AllAway(own, k.saved.Keys - {pc}, stores)
    ensures Agrees(StepOver(a, pc, stores), StoreAll(own, stores), StepMarks(own, k, pc, stores))
  {
    RemoveAgrees(a, own, k, pc);
    var (b, restore) := RemoveMatchpoint(a, pc, 2);
    var lifted := RemoveMark(own, k, pc);
    assert lifted.saved.Keys == k.saved.Keys - {pc};
    assert restore == (pc in k.saved) && (restore ==> pc % 2 == 0) by {
      assert restore ==> HasSaved(a, own, k, pc);
    }
    hide Agrees, RemoveMark, InsertMark, RemoveMatchpoint, InsertMatchpoint, AllAway, StoreAll, StoreMarks;
    StoresAgree(b, own, lifted, stores);
    if restore {
      var c, o := b.(mem := StoreAll(b.mem, stores)), StoreAll(own, stores);
      InsertAgrees(c, o, lifted.(stale := StoreMarks(own, lifted.stale, stores)), pc);
      MarksByLength(own, o, lifted.(stale := StoreMarks(own, lifted.stale, stores)), pc);
    }
  }

  lemma OpAgrees(a: Agent, p: Program, k: Marks, op: Op)
    requires Agrees(a, p.mem, k) && k.saved.Keys == p.breakpoints && Keeps(p, op)
    ensures Agrees(Perform(a, op), Meant(p, op).mem, Mark(p.mem, k, op))
    ensures Mark(p.mem, k, op).saved.Keys == Meant(p, op).breakpoints
  {
    hide Agrees, Cell, Marked, StoreMarks, AllAway, StoreAll, Read, Write;
    match op
    case Insert(addr, len) => if len == 2 { InsertAgrees(a, p.mem, k, addr); }
    case Remove(addr, len) => if len == 2 { RemoveAgrees(a, p.mem, k, addr); }
    case Resume(stores) => StoresAgree(a, p.mem, k, stores);
    case Step(pc, stores) => StepAgrees(a, p.mem, k, pc, stores);
  }

  lemma {:induction false} MarkAllSame(m: Ram, n: Ram, k: Marks, ops: seq<Op>)
    requires |m| == |n|
    ensures MarkAll(m, k, ops) == MarkAll(n, k, ops)
    decreases |ops|
  {
    if ops != [] {
      MarkSame(m, n, k, ops[0]);
      hide Mark;
      MarkAllSame(m, n, Mark(m, k, ops[0]), ops[1..]);
    }
  }

  lemma MarkSame(m: Ram, n: Ram, k: Marks, op: Op)
    requires |m| == |n|
    ensures Mark(m, k, op) == Mark(n, k, op)
  {
    SameCells(m, n);
    forall stale: set<nat>, stores ensures StoreMarks(m, stale, stores) == StoreMarks(n, stale, stores) {
      StoreMarksSame(m, n, stale, stores);
    }
    hide Cell, Marked, StoreMarks;
  }

  /** Over any run: the memory and the saved halfwords are the program's, but for exactly the marked bytes. */
  lemma {:induction false} RunAgrees(a: Agent, p: Program, k: Marks, ops: seq<Op>)
    requires Agrees(a, p.mem, k) && k.saved.Keys == p.breakpoints && AllKeep(p, ops)
    ensures Agrees(PerformAll(a, ops), MeantAll(p, ops).mem, MarkAll(p.mem, k, ops))
    decreases |ops|
  {
    hide Agrees, Perform, Meant, Mark, Keeps;
    if ops != [] {
      OpAgrees(a, p, k, ops[0]);
      var q := Meant(p, ops[0]);
      SameSize(p, ops[0]);
      RunAgrees(Perform(a, ops[0]), q, Mark(p.mem, k, ops[0]), ops[1..]);
      MarkAllSame(p.mem, q.mem, Mark(p.mem, k, ops[0]), ops[1..]);
    }
  }

  lemma SameSize(p: Program, op: Op)
    ensures |Meant(p, op).mem| == |p.mem|
  {
  }

  /** After any run the memory is the program's exactly if the program has the trap's byte wherever one is marked. */
  lemma RestoredExactly(m: Ram, ops: seq<Op>)
    requires |m| % 2 == 0 && AllKeep(Program(m, {}), ops)
    ensures
      var end, own := PerformAll(Agent(m, map[]), ops), MeantAll(Program(m, {}), ops).mem;
      var stale := MarkAll(m, NO_MARKS, ops).stale;
      && |end.mem| == |own|
      && (end.mem == own <==> forall x :: x in stale && x < |own| ==> own[x] == TrapByte(x))
  {
    hide PerformAll, MeantAll, MarkAll, AllKeep;
    assert Agrees(Agent(m, map[]), m, NO_MARKS) by {
      forall x: nat | x < |m| ensures ByteShows(m, m, {}, x) { NothingStale(m[x], x); }
    }
    RunAgrees(Agent(m, map[]), Program(m, {}), NO_MARKS, ops);
    var end, own := PerformAll(Agent(m, map[]), ops), MeantAll(Program(m, {}), ops).mem;
    var stale := MarkAll(m, NO_MARKS, ops).stale;
    forall x: nat | x < |own|
      ensures end.mem[x] == own[x] <==> (x in stale ==> own[x] == TrapByte(x))
    {
      assert ByteShows(end.mem, own, stale, x);
    }
  }

  // ---------------------------------------------------------------- the latest one first

  /** The breakpoints set, in the order of their insertion. */
  function Dropped(ins: seq<Word>, x: Word): (r: seq<Word>)
    ensures forall b :: b in r <==> b in ins && b != x
  {
    if ins == [] then [] else (if ins[0] == x then [] else [ins[0]]) + Dropped(ins[1..], x)
  }

  function Ordered(ins: seq<Word>, op: Op): seq<Word> {
    match op
    case Insert(addr, len) => if len == 2 && addr !in ins then ins + [addr] else ins
    case Remove(addr, len) => if len == 2 then Dropped(ins, addr) else ins
    case _ => ins
  }

  function OrderedAll(ins: seq<Word>, ops: seq<Op>): seq<Word>
    decreases |ops|
  {
    if ops == [] then ins else OrderedAll(Ordered(ins, ops[0]), ops[1..])
  }

  /** Nothing has been inserted on an address's halfword after it. */
  predicate IsLatest(m: Ram, ins: seq<Word>, x: Word)
    decreases |ins|
  {
    ins == []
    || ((ins[0] == x ==> forall b :: b in ins[1..] ==> Cell(m, b) != Cell(m, x)) && IsLatest(m, ins[1..], x))
  }

  /** A removal only ever takes the latest breakpoint on its halfword. */
  predicate LatestFirst(m: Ram, ins: seq<Word>, ops: seq<Op>)
    decreases |ops|
  {
    ops == []
    || ((ops[0].Remove? && ops[0].len == 2 ==> IsLatest(m, ins, ops[0].addr))
        && LatestFirst(m, Ordered(ins, ops[0]), ops[1..]))
  }

  /** The first breakpoint on a halfword has saved the program's own, the others the trap, and exactly their
      halfwords are marked. */
  ghost predicate Stacked(m: Ram, k: Marks, ins: seq<Word>) {
    && (forall b :: b in ins <==> b in k.saved)
    && (forall b :: b in ins ==> SavedInOrder(m, k, ins, b))
    && (forall x: nat :: x in k.stale <==> BreakpointMirrors.FirstOn(m, ins, x / 2).Some?)
  }

  predicate SavedInOrder(m: Ram, k: Marks, ins: seq<Word>, b: Word)
    requires b in k.saved
  {
    var later := BreakpointMirrors.FirstOn(m, ins, Cell(m, b)) != Some(b);
    k.saved[b] == (later, later)
  }

  lemma FirstOnStep(m: Ram, y: Word, rest: seq<Word>, c: nat)
    ensures BreakpointMirrors.FirstOn(m, [y] + rest, c)
            == if Cell(m, y) == c then Some(y) else BreakpointMirrors.FirstOn(m, rest, c)
  {
    assert ([y] + rest)[1..] == rest;
    hide Cell;
  }

  lemma {:induction false} FirstWithoutLatest(m: Ram, ins: seq<Word>, x: Word, c: nat)
    requires IsLatest(m, ins, x)
    ensures
      var first := BreakpointMirrors.FirstOn(m, ins, c);
      BreakpointMirrors.FirstOn(m, Dropped(ins, x), c) == if first == Some(x) then None else first
    decreases |ins|
  {
    hide Cell, BreakpointMirrors.FirstOn;
    if ins == [] {
      assert Dropped(ins, x) == ins;
    } else {
      var y, rest := ins[0], ins[1..];
      FirstWithoutLatest(m, rest, x, c);
      assert ins == [y] + rest;
      FirstOnStep(m, y, rest, c);
      if y == x {
        assert Dropped(ins, x) == Dropped(rest, x);
      } else {
        FirstOnStep(m, y, Dropped(rest, x), c);
      }
    }
  }

  lemma MarkedWhole(stale: set<nat>, c: nat, on: bool)
    ensures forall x: nat :: x in Marked(stale, c, (on, on)) <==> if x / 2 == c then on else x in stale
  {
  }

  lemma InsertStacks(m: Ram, k: Marks, ins: seq<Word>, x: Word)
    requires Stacked(m, k, ins)
    ensures Stacked(m, InsertMark(m, k, x), Ordered(ins, Insert(x, 2)))
  {
    hide Cell, Marked;
    if x !in ins {
      var c, more, k2 := Cell(m, x), ins + [x], InsertMark(m, k, x);
      MarkedWhole(k.stale, c, true);
      assert 2 * c / 2 == c && (2 * c + 1) / 2 == c;
      forall y: nat
        ensures y in k2.stale <==> BreakpointMirrors.FirstOn(m, more, y / 2).Some?
      {
        BreakpointMirrors.FirstOnMore(m, ins, x, y / 2);
      }
      forall b | b in more
        ensures b in k2.saved && SavedInOrder(m, k2, more, b)
      {
        BreakpointMirrors.FirstOnMore(m, ins, x, Cell(m, b));
        if b != x {
          assert SavedInOrder(m, k, ins, b);
        }
      }
    }
  }

  lemma RemoveStacks(m: Ram, k: Marks, ins: seq<Word>, x: Word)
    requires Stacked(m, k, ins) && IsLatest(m, ins, x)
    ensures Stacked(m, RemoveMark(m, k, x), Dropped(ins, x))
  {
    hide Cell, Marked, IsLatest;
    var less, k2 := Dropped(ins, x), RemoveMark(m, k, x);
    var c := Cell(m, x);
    if x in ins {
      assert SavedInOrder(m, k, ins, x);
      MarkedWhole(k.stale, c, k.saved[x].0);
    }
    forall y: nat
      ensures y in k2.stale <==> BreakpointMirrors.FirstOn(m, less, y / 2).Some?
    {
      FirstWithoutLatest(m, ins, x, y / 2);
    }
    forall b | b in less
      ensures b in k2.saved && SavedInOrder(m, k2, less, b)
    {
      FirstWithoutLatest(m, ins, x, Cell(m, b));
      assert SavedInOrder(m, k, ins, b);
    }
  }

  lemma {:induction false} StoresMiss(m: Ram, stale: set<nat>, stores: seq<Store>)
    requires forall k :: 0 <= k < |stores| ==> Index(m, stores[k].addr) !in stale
    ensures StoreMarks(m, stale, stores) == stale
    decreases |stores|
  {
    hide Index;
    if stores != [] {
      assert Index(m, stores[0].addr) !in stale;
      assert stale - {Index(m, stores[0].addr)} == stale;
      forall k | 0 <= k < |stores| - 1 ensures Index(m, stores[1..][k].addr) !in stale {
        assert stores[1..][k] == stores[k + 1];
      }
      StoresMiss(m, stale, stores[1..]);
    }
  }

  lemma AwayMisses(m: Ram, breakpoints: set<Word>, stores: seq<Store>, stale: set<nat>)
    requires AllAway(m, breakpoints, stores)
    requires forall x :: x in stale ==> exists b :: b in breakpoints && Cell(m, b) == x / 2
    ensures StoreMarks(m, stale, stores) == stale
  {
    forall k | 0 <= k < |stores|
      ensures Index(m, stores[k].addr) !in stale
    {
      assert Away(m, breakpoints, stores[k].addr);
      CellIs(m, stores[k].addr);
    }
    StoresMiss(m, stale, stores);
  }

  lemma CellIs(m: Ram, addr: Word)
    ensures Cell(m, addr) == Index(m, addr) / 2
  {
  }

  lemma StaleHasBreakpoint(m: Ram, k: Marks, ins: seq<Word>, x: nat)
    requires Stacked(m, k, ins) && x in k.stale
    ensures
      var first := BreakpointMirrors.FirstOn(m, ins, x / 2);
      first.Some? && first.value in k.saved && Cell(m, first.value) == x / 2
  {
    hide Cell;
  }

  lemma ResumeStacks(m: Ram, k: Marks, ins: seq<Word>, stores: seq<Store>)
    requires Stacked(m, k, ins) && AllAway(m, k.saved.Keys, stores)
    ensures StoreMarks(m, k.stale, stores) == k.stale
  {
    hide AllAway, Stacked, Cell;
    forall x | x in k.stale
      ensures exists b :: b in k.saved.Keys && Cell(m, b) == x / 2
    {
      StaleHasBreakpoint(m, k, ins, x);
    }
    AwayMisses(m, k.saved.Keys, stores, k.stale);
  }

  lemma LiftedMisses(m: Ram, k: Marks, ins: seq<Word>, pc: Word, stores: seq<Store>)
    requires Stacked(m, k, ins) && AllAway(m, k.saved.Keys - {pc}, stores) && pc in k.saved
    ensures var lifted := RemoveMark(m, k, pc).stale; StoreMarks(m, lifted, stores) == lifted
  {
    hide AllAway, Cell, Marked, StoreMarks;
    assert SavedInOrder(m, k, ins, pc);
    var c, lifted := Cell(m, pc), RemoveMark(m, k, pc).stale;
    MarkedWhole(k.stale, c, k.saved[pc].0);
    forall x | x in lifted
      ensures exists b :: b in k.saved.Keys - {pc} && Cell(m, b) == x / 2
    {
      var first := BreakpointMirrors.FirstOn(m, ins, x / 2);
      assert first.Some? && first.value != pc;
    }
    AwayMisses(m, k.saved.Keys - {pc}, stores, lifted);
  }

  lemma MarkedAgain(stale: set<nat>, c: nat, on: bool)
    requires 2 * c in stale && 2 * c + 1 in stale
    ensures
      var lifted := Marked(stale, c, (on, on));
      && Marked(lifted, c, (true, true)) == stale && (2 * c in lifted) == (2 * c + 1 in lifted) == on
  {
  }

  lemma CellStale(m: Ram, k: Marks, ins: seq<Word>, b: Word)
    requires Stacked(m, k, ins) && b in k.saved
    ensures k.saved[b].0 == k.saved[b].1
    ensures var c := Cell(m, b); 2 * c in k.stale && 2 * c + 1 in k.stale
  {
    hide Cell;
    assert SavedInOrder(m, k, ins, b);
    var c := Cell(m, b);
    assert 2 * c / 2 == c && (2 * c + 1) / 2 == c;
  }

  /** A step puts every mark back. */
  lemma StepStacks(m: Ram, k: Marks, ins: seq<Word>, pc: Word, stores: seq<Store>)
    requires Stacked(m, k, ins) && AllAway(m, k.saved.Keys - {pc}, stores)
    ensures StepMarks(m, k, pc, stores) == k
  {
    if pc !in k.saved {
      assert k.saved.Keys - {pc} == k.saved.Keys;
      ResumeStacks(m, k, ins, stores);
    } else {
      hide AllAway, Cell, Marked, StoreMarks, Stacked;
      LiftedMisses(m, k, ins, pc, stores);
      CellStale(m, k, ins, pc);
      var c, later := Cell(m, pc), k.saved[pc].0;
      MarkedAgain(k.stale, c, later);
      assert (k.saved - {pc})[pc := (later, later)] == k.saved;
    }
  }

  lemma OpStacks(m: Ram, p: Program, k: Marks, ins: seq<Word>, op: Op)
    requires Stacked(m, k, ins) && |m| == |p.mem| && k.saved.Keys == p.breakpoints && Keeps(p, op)
    requires op.Remove? && op.len == 2 ==> IsLatest(m, ins, op.addr)
    ensures Stacked(m, Mark(m, k, op), Ordered(ins, op)) && Mark(m, k, op).saved.Keys == Meant(p, op).breakpoints
  {
    hide Cell, Marked, StoreMarks, IsLatest, StoreAll, StepMarks, Dropped, Stacked;
    SameCells(m, p.mem);
    match op
    case Insert(addr, len) => if len == 2 { InsertStacks(m, k, ins, addr); }
    case Remove(addr, len) => if len == 2 { RemoveStacks(m, k, ins, addr); }
    case Resume(stores) => ResumeStacks(m, k, ins, stores);
    case Step(pc, stores) => StepStacks(m, k, ins, pc, stores);
  }

  lemma {:induction false} RunStacks(m: Ram, p: Program, k: Marks, ins: seq<Word>, ops: seq<Op>)
    requires Stacked(m, k, ins) && |m| == |p.mem| && k.saved.Keys == p.breakpoints && AllKeep(p, ops)
    requires LatestFirst(m, ins, ops)
    ensures Stacked(m, MarkAll(m, k, ops), OrderedAll(ins, ops))
    decreases |ops|
  {
    hide Stacked, Mark, Ordered, Keeps, IsLatest, Meant;
    if ops != [] {
      OpStacks(m, p, k, ins, ops[0]);
      SameSize(p, ops[0]);
      RunStacks(m, Meant(p, ops[0]), Mark(m, k, ops[0]), Ordered(ins, ops[0]), ops[1..]);
    }
  }

  /** Any run that takes away the latest breakpoint on a halfword first, and leaves none, gives the program its
      memory back, however many breakpoints share a halfword in between. */
  lemma LatestFirstRestores(m: Ram, ops: seq<Op>)
    requires |m| % 2 == 0 && AllKeep(Program(m, {}), ops)
    requires LatestFirst(m, [], ops) && OrderedAll([], ops) == []
    ensures PerformAll(Agent(m, map[]), ops).mem == MeantAll(Program(m, {}), ops).mem
  {
    hide PerformAll, MeantAll, MarkAll, AllKeep, LatestFirst, OrderedAll;
    RunStacks(m, Program(m, {}), NO_MARKS, [], ops);
    RestoredExactly(m, ops);
  }
}
