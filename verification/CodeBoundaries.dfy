/** What the compiled records do with conditionals outside the well-formed domain. Each lemma gives the
    outcome for a whole family of lists; the last one is a concrete list for which a test fails to guard. */
module CodeBoundaries {
  import opened Words
  import opened Wrappers
  import opened Memory
  import opened CheatVm
  import opened GameShark
  import opened CodeMeaning
  import opened CodeDeciphering

  lemma CoveredStartsWithGuard(name: string, ws: Codes, i: nat, b: Block)
    requires i < |ws| && Accepted(ws, i) && i < b.limit
    ensures CompileFrom(name, ws, i, b).Ok?
    ensures CompileFrom(name, ws, i, b).value != [] && CompileFrom(name, ws, i, b).value[0] == b.guard
  {
    hide CompileCode, CompileFrom, Extent;
    AcceptedExtent(ws, i);
    AcceptedCompiles(name, ws, i, b);
    CompileStep(name, ws, i, b);
    GuardFirst(name, ws, i, b);
  }

  lemma AcceptedExtent(ws: Codes, i: nat)
    requires i < |ws| && Accepted(ws, i)
    ensures Extent(ws, i) > 0 && Accepted(ws, i + Extent(ws, i))
  {
    hide Extent;
  }

  lemma GuardFirst(name: string, ws: Codes, i: nat, b: Block)
    requires i < |ws| && i < b.limit && CompileCode(name, ws, i, b).Ok?
    ensures CompileCode(name, ws, i, b).value.cheats != [] && CompileCode(name, ws, i, b).value.cheats[0] == b.guard
  {
    hide GroupRecords, Opcode, Subcode, Low16, Low24, Record;
  }

  lemma FrameSplit(cs: seq<Cheat>, m: Ram, skip: bool)
    requires cs != []
    ensures Frame(cs, m, skip) == var s := Frame([cs[0]], m, skip); Frame(cs[1..], s.ram, s.skip)
  {
    assert cs == [cs[0]] + cs[1..];
    FrameAppend([cs[0]], cs[1..], m, skip);
  }

  /** A failing test swallows the record after it, whatever that is. */
  lemma FrameSwallow(test: Cheat, next: Cheat, rest: seq<Cheat>, m: Ram)
    requires !test.builtIn && !next.builtIn && Skips(test, m) && Act(test, m) == m
    ensures Frame([test] + ([next] + rest), m, false) == Frame(rest, m, false)
  {
    hide Frame, Skips, Act;
    FrameAppend([test], [next] + rest, m, false);
    FrameOne(test, m, false);
    FrameAppend([next], rest, m, true);
    FrameOne(next, m, true);
  }

  lemma OneShotExtent(ws: Codes, i: nat)
    requires i < |ws| && Accepted(ws, i) && Opcode(ws[i]) == 13
    ensures Extent(ws, i) == 2
  {
    hide Opcode, Subcode;
  }

  /** A one-shot conditional inside a block, with the next code inside too, has no effect at all: its
      skip only ever swallows the next code's copy of the guard. */
  lemma CoveredOneShotIsIgnored(name: string, ws: Codes, i: nat, c: Cover, m: Ram)
    requires i + 2 < |ws| && i + 2 < c.limit && c.test.relation <= 3
    requires Accepted(ws, i) && Opcode(ws[i]) == 13
    ensures Accepted(ws, i + 2)
    ensures
      var b := BlockOf(name, c);
      && CompileFrom(name, ws, i, b).Ok? && CompileFrom(name, ws, i + 2, b).Ok?
      && Frame(CompileFrom(name, ws, i, b).value, m, false) == Frame(CompileFrom(name, ws, i + 2, b).value, m, false)
  {
    hide Frame, CodeRecord, CompileFrom, Act, Skips, Holds, Accepted, Extent, Opcode, NextTest;
    OneShotExtent(ws, i);
    AcceptedExtent(ws, i);
    OneShotIsSingle(ws, i);
    var b := BlockOf(name, c);
    var x := CodeRecord(name, ws, i);
    SingleStep(name, ws, i, b);
    RecordIsOwn(name, ws, i);
    CoveredStartsWithGuard(name, ws, i + 2, b);
    var rest := CompileFrom(name, ws, i + 2, b).value;
    FrameAppend([b.guard] + [x], rest, m, false);
    FrameGuarded(name, c, i, x, m);
    OneShotSkips(name, ws, i, m);
    FrameSplit(rest, m, true);
    FrameSplit(rest, m, false);
    FrameOne(b.guard, m, true);
    FrameOne(b.guard, m, false);
    TestRecordTests(name, c.test, m);
  }

  /** A block inside a block whose test fails: the inner block's first write happens without its test. */
  lemma CoveredBlockLeaks(name: string, ws: Codes, i: nat, c: Cover, m: Ram)
    requires i + 2 < |ws| && i < c.limit && c.test.relation <= 3 && !Holds(c.test, m)
    requires Accepted(ws, i) && Opcode(ws[i]) == 14 && i + 2 < i + 1 + Subcode(ws[i])
    requires IsSingle(ws, i + 2) && Opcode(ws[i + 2]) != 13
    ensures
      var inner := BlockOf(name, Cover(i + 1 + Subcode(ws[i]), BlockTest(ws, i)));
      var rest := CompileFrom(name, ws, i + 2 + Extent(ws, i + 2), inner);
      && rest.Ok? && CompileFrom(name, ws, i, BlockOf(name, c)).Ok?
      && Frame(CompileFrom(name, ws, i, BlockOf(name, c)).value, m, false)
         == Frame(rest.value, Effect(ws, i + 2, m), false)
  {
    hide Frame, CompileFrom, Act, Skips, Holds, Effect, Extent, Accepted, Opcode, Subcode, BlockTest, IsSingle, Guard;
    BlockExtent(ws, i);
    var b, n := BlockOf(name, c), i + 2;
    var inner := BlockOf(name, Cover(i + 1 + Subcode(ws[i]), BlockTest(ws, i)));
    TestRecordTests(name, c.test, m);
    FrameOne(b.guard, m, false);
    GuardInside(name, c, i);
    BlockStep(name, ws, i, b);
    SkipMeetsGuard(name, ws, n, inner, m);
    FrameBehind(name, ws, i, Guard(b, i), n, b, inner, m, false);
  }

  lemma BlockExtent(ws: Codes, i: nat)
    requires i < |ws| && Accepted(ws, i) && Opcode(ws[i]) == 14
    ensures Extent(ws, i) == 2 && i + 2 <= |ws| && Accepted(ws, i + 2) && BlockTest(ws, i).relation <= 3
  {
    hide Opcode, Subcode, Low16, Low24;
  }

  lemma GuardInside(name: string, c: Cover, k: nat)
    requires c.test.relation <= 3
    ensures k < c.limit ==> Guard(BlockOf(name, c), k) == [BlockOf(name, c).guard]
  {
  }

  /** The values of a group write but for the first. */
  function AllButFirst(ws: Codes, n: nat, c: Cover, m: Ram): Ram
    requires n + 2 < |ws| && 1 <= Low16(ws[n]) <= |ws| - n - 2
  {
    WriteValues(ws, n + 3, n + 2, Low16(ws[n]) - 1, Plus(Low24(ws[n + 1]), 4), c, m)
  }

  /** A failing one-shot conditional holds back only the first value of a group write. */
  lemma OneShotSparesRestOfGroup(name: string, ws: Codes, i: nat, c: Cover, m: Ram)
    requires i + 2 < |ws| && i >= c.limit && c.test.relation <= 3
    requires Accepted(ws, i) && Opcode(ws[i]) == 13 && !Holds(NextTest(ws, i), m)
    requires Accepted(ws, i + 2) && IsGroup(ws[i + 2]) && Low16(ws[i + 2]) >= 2
    ensures i + 4 + Low16(ws[i + 2]) <= |ws|
    ensures
      var b, n, k := BlockOf(name, c), i + 2, Low16(ws[i + 2]);
      var all, rest := CompileFrom(name, ws, i, b), CompileFrom(name, ws, n + 2 + k, b);
      && all.Ok? && rest.Ok? && Frame(all.value, m, false) == Frame(rest.value, AllButFirst(ws, n, c, m), false)
  {
    hide Frame, CodeRecord, CompileFrom, Act, Skips, Holds, GroupRecords, WriteValues, Extent, Accepted, CompileCode;
    var b, n, k := BlockOf(name, c), i + 2, Low16(ws[i + 2]);
    AcceptedPair(ws, i);
    OneShotGroupRecords(name, ws, i, b);
    CompiledCode(name, ws, i, b);
    OneShotSkips(name, ws, i, m);
    var x, address := CodeRecord(name, ws, i), Low24(ws[n + 1]);
    var more := GroupRecords(Continued(name), name, ws, n + 3, k - 1, Plus(address, 4), b);
    var rest := CompileFrom(name, ws, n + 2 + k, b).value;
    FrameSwallow(x, Record(name, SetValue, 32, address, ws[n + 2]), more + rest, m);
    FrameAppend(more, rest, m, false);
    assert Guard(b, n + 2) + more == more;
    GroupFrame(Continued(name), name, ws, n + 3, n + 2, k - 1, Plus(address, 4), c, m);
  }

  lemma AcceptedPair(ws: Codes, i: nat)
    requires i + 2 < |ws| && Accepted(ws, i) && Opcode(ws[i]) == 13
    requires Accepted(ws, i + 2) && IsGroup(ws[i + 2])
    ensures Extent(ws, i) == 2 && IsSingle(ws, i) && Extent(ws, i + 2) > 0
    ensures i + 4 + Low16(ws[i + 2]) <= |ws| && Accepted(ws, i + 4 + Low16(ws[i + 2]))
  {
  }

  lemma GroupSplit(name: string, ws: Codes, k: nat, n: nat, address: Word, b: Block)
    requires n >= 2 && k + n <= |ws| && k >= b.limit
    ensures
      GroupRecords(name, name, ws, k, n, address, b)
      == [Record(name, SetValue, 32, address, ws[k])]
         + GroupRecords(Continued(name), name, ws, k + 1, n - 1, Plus(address, 4), b)
  {
  }

  lemma OneShotGroupRecords(name: string, ws: Codes, i: nat, b: Block)
    requires i + 2 < |ws| && i >= b.limit && Accepted(ws, i) && Opcode(ws[i]) == 13
    requires Accepted(ws, i + 2) && IsGroup(ws[i + 2]) && Low16(ws[i + 2]) >= 2
    ensures i + 4 + Low16(ws[i + 2]) <= |ws| && IsSingle(ws, i)
    ensures
      var n, k, address := i + 2, Low16(ws[i + 2]), Low24(ws[i + 3]);
      var first := Record(name, SetValue, 32, address, ws[n + 2]);
      var more := GroupRecords(Continued(name), name, ws, n + 3, k - 1, Plus(address, 4), b);
      var rest := CompileFrom(name, ws, n + 2 + k, b);
      && rest.Ok?
      && CompileFrom(name, ws, i, b) == Ok([CodeRecord(name, ws, i)] + ([first] + (more + rest.value)))
  {
    hide CodeRecord, CompileFrom, GroupRecords, CompileCode, Extent, Accepted;
    AcceptedPair(ws, i);
    var n, k := i + 2, Low16(ws[i + 2]);
    var address := Low24(ws[n + 1]);
    GroupSplit(name, ws, n + 2, k, address, b);
    var first := Record(name, SetValue, 32, address, ws[n + 2]);
    var more := GroupRecords(Continued(name), name, ws, n + 3, k - 1, Plus(address, 4), b);
    AcceptedCompiles(name, ws, n + 2 + k, b);
    SingleStep(name, ws, i, b);
    GroupStep(name, ws, n, b);
    var rest := CompileFrom(name, ws, n + 2 + k, b).value;
    assert CompileFrom(name, ws, n, b) == Ok([first] + (more + rest)) by {
      assert (Guard(b, n) + ([first] + more)) + rest == [first] + (more + rest);
    }
    assert Guard(b, i) + [CodeRecord(name, ws, i)] == [CodeRecord(name, ws, i)];
  }

  // ---------------------------------------------------------------- codes that yield no record

  /** Records in front of a list the compiler accepts. */
  lemma FrameBehind(name: string, ws: Codes, i: nat, cs: seq<Cheat>, n: nat, b: Block, b2: Block, m: Ram, skip: bool)
    requires CompileFrom(name, ws, n, b2).Ok?
    requires CompileFrom(name, ws, i, b) == Prepend(cs, CompileFrom(name, ws, n, b2))
    ensures CompileFrom(name, ws, i, b).Ok?
    ensures
      var s := Frame(cs, m, skip);
      Frame(CompileFrom(name, ws, i, b).value, m, skip) == Frame(CompileFrom(name, ws, n, b2).value, s.ram, s.skip)
  {
    hide Frame, CompileFrom;
    FrameAppend(cs, CompileFrom(name, ws, n, b2).value, m, skip);
  }

  /** A covered single code that a pending skip meets: the skip swallows its guard, and it acts untested. */
  lemma SkipMeetsGuard(name: string, ws: Codes, n: nat, b: Block, m: Ram)
    requires Accepted(ws, n) && IsSingle(ws, n) && Opcode(ws[n]) != 13 && n < b.limit && !b.guard.builtIn
    ensures Accepted(ws, n + Extent(ws, n))
    ensures
      var rest := CompileFrom(name, ws, n + Extent(ws, n), b);
      && rest.Ok? && CompileFrom(name, ws, n, b).Ok?
      && Frame(CompileFrom(name, ws, n, b).value, m, true) == Frame(rest.value, Effect(ws, n, m), false)
  {
    hide Frame, CodeRecord, CompileFrom, Act, Skips, Effect, Extent, Accepted, Opcode, IsSingle;
    AcceptedSingle(ws, n);
    var x := CodeRecord(name, ws, n);
    SingleStep(name, ws, n, b);
    RecordIsOwn(name, ws, n);
    AcceptedCompiles(name, ws, n + Extent(ws, n), b);
    CompiledEffect(name, ws, n, m);
    NeverSkips(name, ws, n, m);
    GuardAndRecord(b, x, n, m);
    FrameBehind(name, ws, n, Guard(b, n) + [x], n + Extent(ws, n), b, b, m, true);
  }

  lemma AcceptedSingle(ws: Codes, n: nat)
    requires Accepted(ws, n) && IsSingle(ws, n)
    ensures n < |ws| && Accepted(ws, n + Extent(ws, n))
  {
    hide Extent, Opcode;
  }

  lemma GuardAndRecord(b: Block, x: Cheat, n: nat, m: Ram)
    requires n < b.limit && !b.guard.builtIn && !x.builtIn
    ensures Frame(Guard(b, n) + [x], m, true) == State(Act(x, m), Skips(x, m))
  {
    hide Frame, Act, Skips;
    FrameAppend([b.guard], [x], m, true);
    FrameOne(b.guard, m, true);
    FrameOne(x, m, false);
  }

  /** An uncovered single code that a pending skip meets is swallowed. */
  lemma SkipSwallowsCode(name: string, ws: Codes, n: nat, b: Block, m: Ram)
    requires Accepted(ws, n) && IsSingle(ws, n) && n >= b.limit
    ensures Accepted(ws, n + Extent(ws, n))
    ensures
      var rest := CompileFrom(name, ws, n + Extent(ws, n), b);
      && rest.Ok? && CompileFrom(name, ws, n, b).Ok?
      && Frame(CompileFrom(name, ws, n, b).value, m, true) == Frame(rest.value, m, false)
  {
    hide Frame, CodeRecord, CompileFrom, Extent, Accepted, Opcode, IsSingle;
    AcceptedSingle(ws, n);
    var x := CodeRecord(name, ws, n);
    SingleStep(name, ws, n, b);
    RecordIsOwn(name, ws, n);
    AcceptedCompiles(name, ws, n + Extent(ws, n), b);
    FrameOne(x, m, true);
    assert Guard(b, n) + [x] == [x];
    FrameBehind(name, ws, n, [x], n + Extent(ws, n), b, b, m, true);
  }

  /** A failing one-shot conditional leaves its skip pending for whatever comes after it. */
  lemma FailingOneShot(name: string, ws: Codes, i: nat, c: Cover, m: Ram)
    requires i < |ws| && i >= c.limit && c.test.relation <= 3 && Accepted(ws, i) && Opcode(ws[i]) == 13
    requires Extent(ws, i) == 2 && !Holds(NextTest(ws, i), m)
    ensures Accepted(ws, i + 2)
    ensures
      var b := BlockOf(name, c);
      && CompileFrom(name, ws, i + 2, b).Ok? && CompileFrom(name, ws, i, b).Ok?
      && Frame(CompileFrom(name, ws, i, b).value, m, false) == Frame(CompileFrom(name, ws, i + 2, b).value, m, true)
  {
    hide Frame, CodeRecord, CompileFrom, Extent, Accepted, Opcode, Act, Skips, Holds, NextTest, Guard;
    OneShotIsSingle(ws, i);
    AcceptedSingle(ws, i);
    var b, x := BlockOf(name, c), CodeRecord(name, ws, i);
    SingleStep(name, ws, i, b);
    RecordIsOwn(name, ws, i);
    AcceptedCompiles(name, ws, i + 2, b);
    OneShotSkips(name, ws, i, m);
    FrameGuarded(name, c, i, x, m);
    FrameBehind(name, ws, i, Guard(b, i) + [x], i + 2, b, b, m, false);
  }

  lemma OneShotIsSingle(ws: Codes, i: nat)
    requires i < |ws| && Opcode(ws[i]) == 13 && Extent(ws, i) == 2
    ensures IsSingle(ws, i)
  {
    hide Opcode, Extent, Subcode;
  }

  /** A failing one-shot conditional in front of a block swallows the guard of the block's first write, which
      then happens untested. */
  lemma OneShotUnguardsBlock(name: string, ws: Codes, i: nat, c: Cover, m: Ram)
    requires i + 4 < |ws| && i >= c.limit && c.test.relation <= 3 && !Holds(NextTest(ws, i), m)
    requires Accepted(ws, i) && Opcode(ws[i]) == 13 && Extent(ws, i) == 2
    requires Accepted(ws, i + 2) && i + 2 >= c.limit && Opcode(ws[i + 2]) == 14 && 1 < Subcode(ws[i + 2])
    requires IsSingle(ws, i + 4) && Opcode(ws[i + 4]) != 13
    ensures BlockTest(ws, i + 2).relation <= 3
    ensures
      var inner := BlockOf(name, Cover(i + 3 + Subcode(ws[i + 2]), BlockTest(ws, i + 2)));
      var rest := CompileFrom(name, ws, i + 4 + Extent(ws, i + 4), inner);
      && rest.Ok? && CompileFrom(name, ws, i, BlockOf(name, c)).Ok?
      && Frame(CompileFrom(name, ws, i, BlockOf(name, c)).value, m, false)
         == Frame(rest.value, Effect(ws, i + 4, m), false)
  {
    hide Frame, CompileFrom, Extent, Accepted, Opcode, Holds, NextTest, BlockTest, Subcode, Effect, IsSingle;
    var b, n := BlockOf(name, c), i + 2;
    BlockExtent(ws, n);
    var inner := BlockOf(name, Cover(n + 1 + Subcode(ws[n]), BlockTest(ws, n)));
    FailingOneShot(name, ws, i, c, m);
    BlockStep(name, ws, n, b);
    SkipMeetsGuard(name, ws, n + 2, inner, m);
    NothingInFront(b, n, CompileFrom(name, ws, n + 2, inner));
  }

  lemma NothingInFront(b: Block, n: nat, r: Result<seq<Cheat>, Error>)
    requires n >= b.limit
    ensures Prepend(Guard(b, n), r) == r
  {
    if r.Ok? {
      assert [] + r.value == r.value;
    }
  }

  lemma EmptyGroup(name: string, ws: Codes, i: nat, b: Block)
    requires i < |ws| && Accepted(ws, i) && IsGroup(ws[i]) && Low16(ws[i]) == 0
    ensures Accepted(ws, i + 2)
    ensures CompileFrom(name, ws, i, b) == Prepend(Guard(b, i), CompileFrom(name, ws, i + 2, b))
  {
    hide CompileFrom, Guard, IsGroup, Low16, Extent, Low24, Prepend;
    AcceptedExtent(ws, i);
    GroupCode(name, ws, i, b);
    GroupStep(name, ws, i, b);
    NoGroupRecords(name, ws, i + 2, Low24(ws[i + 1]), b);
    assert Guard(b, i) + [] == Guard(b, i);
  }

  lemma NoGroupRecords(name: string, ws: Codes, k: nat, address: Word, b: Block)
    requires k <= |ws|
    ensures GroupRecords(name, name, ws, k, 0, address, b) == []
  {
  }

  /** A failing one-shot conditional in front of an empty group write holds back the code after it. */
  lemma OneShotPassesEmptyGroup(name: string, ws: Codes, i: nat, c: Cover, m: Ram)
    requires i + 4 < |ws| && i >= c.limit && c.test.relation <= 3 && !Holds(NextTest(ws, i), m)
    requires Accepted(ws, i) && Opcode(ws[i]) == 13 && Extent(ws, i) == 2
    requires Accepted(ws, i + 2) && IsGroup(ws[i + 2]) && Low16(ws[i + 2]) == 0 && IsSingle(ws, i + 4)
    ensures
      var b := BlockOf(name, c);
      var rest := CompileFrom(name, ws, i + 4 + Extent(ws, i + 4), b);
      && rest.Ok? && CompileFrom(name, ws, i, b).Ok?
      && Frame(CompileFrom(name, ws, i, b).value, m, false) == Frame(rest.value, m, false)
  {
    hide Frame, CompileFrom, Extent, Accepted, Opcode, Holds, NextTest, IsSingle, IsGroup, Low16;
    var b := BlockOf(name, c);
    FailingOneShot(name, ws, i, c, m);
    EmptyGroup(name, ws, i + 2, b);
    SkipSwallowsCode(name, ws, i + 4, b, m);
    NothingInFront(b, i + 2, CompileFrom(name, ws, i + 4, b));
  }

  /** A covered empty group write is a guard of its own: when its test fails, the next code acts untested if
      it is covered too, and is held back if it is not. */
  lemma CoveredEmptyGroupLeaks(name: string, ws: Codes, i: nat, c: Cover, m: Ram)
    requires i + 2 < |ws| && i < c.limit && c.test.relation <= 3 && !Holds(c.test, m)
    requires Accepted(ws, i) && IsGroup(ws[i]) && Low16(ws[i]) == 0 && IsSingle(ws, i + 2) && Opcode(ws[i + 2]) != 13
    ensures
      var b := BlockOf(name, c);
      var rest := CompileFrom(name, ws, i + 2 + Extent(ws, i + 2), b);
      && rest.Ok? && CompileFrom(name, ws, i, b).Ok?
      && Frame(CompileFrom(name, ws, i, b).value, m, false)
         == Frame(rest.value, if i + 2 < c.limit then Effect(ws, i + 2, m) else m, false)
  {
    hide Frame, CompileFrom, Extent, Accepted, Opcode, Holds, IsSingle, IsGroup, Low16, Effect, Act, Skips;
    var b := BlockOf(name, c);
    EmptyGroup(name, ws, i, b);
    TestRecordTests(name, c.test, m);
    FrameOne(b.guard, m, false);
    GuardInside(name, c, i);
    if i + 2 < c.limit {
      SkipMeetsGuard(name, ws, i + 2, b, m);
    } else {
      SkipSwallowsCode(name, ws, i + 2, b, m);
    }
    FrameBehind(name, ws, i, Guard(b, i), i + 2, b, b, m, false);
  }

  // ---------------------------------------------------------------- concrete lists

  const ZEROES: Ram := seq(16, k => 0)

  /** If [0] == 0 then for the four words that follow: if [0] == 1 then 0xFF into byte 8. */
  const NESTED: Codes := [0x0E04_0000, 0, 0x0D00_0000, 1, 8, 0xFF]

  lemma NestedCodes()
    ensures Extent(NESTED, 0) == 2 && Extent(NESTED, 2) == 2 && Extent(NESTED, 4) == 2
    ensures Accepted(NESTED, 6) && Accepted(NESTED, 4) && Accepted(NESTED, 2) && Accepted(NESTED, 0)
    ensures !WellFormed(NESTED, 0, 0) && WellFormed(NESTED, 4, 5)
    ensures Cover(0 + 1 + Subcode(NESTED[0]), BlockTest(NESTED, 0)) == Cover(5, Test(0, 0, 0))
    ensures NextTest(NESTED, 2) == Test(0, 0, 1)
  {
  }

  lemma NestedEffect()
    ensures Effect(NESTED, 4, ZEROES) == ZEROES[8 := 0xFF]
    ensures Read(ZEROES, 0, 16) == 0
  {
    NestedCodes();
    assert PokeBytes(ZEROES, 8, 0xFF, 0) == ZEROES;
  }

  lemma NestedMeaning()
    ensures Accepted(NESTED, 4) && Accepted(NESTED, 0)
    ensures Meaning(NESTED, 4, Cover(5, Test(0, 0, 0)), ZEROES) == ZEROES[8 := 0xFF]
    ensures Meaning(NESTED, 0, NO_COVER, ZEROES) == ZEROES
  {
    NestedCodes();
    NestedEffect();
    hide Read, Effect, WriteValues, Extent;
    var ws, m, inner := NESTED, ZEROES, Cover(5, Test(0, 0, 0));
    assert Meaning(ws, 2, inner, m) == Meaning(ws, 6, inner, m);
  }

  lemma NestedTestFails()
    ensures Accepted(NESTED, 0) && !WellFormed(NESTED, 0, 0)
    ensures Meaning(NESTED, 0, NO_COVER, ZEROES) == ZEROES
    ensures Compile("", NESTED).Ok? && Frame(Compile("", NESTED).value, ZEROES, false).ram == ZEROES[8 := 0xFF]
  {
    hide Meaning, Frame, CompileFrom, Accepted, WellFormed, Extent, Subcode, BlockTest, NextTest, Compile;
    var ws, m, inner := NESTED, ZEROES, Cover(5, Test(0, 0, 0));
    NestedCodes();
    NestedMeaning();
    NestedCompiled("");
    CoveredOneShotIsIgnored("", ws, 2, inner, m);
    FrameIsMeaning("", ws, 4, inner, m);
  }

  lemma NestedCompiled(name: string)
    ensures Compile(name, NESTED) == CompileFrom(name, NESTED, 2, BlockOf(name, Cover(5, Test(0, 0, 0))))
  {
    hide CompileFrom, Extent, Prepend;
    NestedCodes();
    BlockStep(name, NESTED, 0, NO_BLOCK);
    NothingInFront(NO_BLOCK, 0, CompileFrom(name, NESTED, 2, BlockOf(name, Cover(5, Test(0, 0, 0)))));
  }
}
