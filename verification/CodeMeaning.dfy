/** What a list of plain GameShark codes means, read straight off its words, and the proof that
    running the compiled records has exactly that effect on RAM. */
module CodeMeaning {
  import opened Words
  import opened Wrappers
  import opened Memory
  import opened CheatVm
  import opened GameShark

  // ---------------------------------------------------------------- the codes and their extent

  /** The number of words of the code that starts at i; zero when the list holds no such code there. */
  function Extent(ws: Codes, i: nat): (n: nat)
    requires i < |ws|
    ensures i + n <= |ws|
  {
    var w := ws[i];
    var n :=
      match Opcode(w)
      case 0 | 1 | 2 => 2
      case 3 =>
        if Subcode(w) == 0 then 2 + Low16(w) else if Subcode(w) <= 4 then 2 else if Subcode(w) <= 6 then 3 else 0
      case 4 | 5 => 3
      case 13 | 14 => 2
      case _ => 0;
    if i + n > |ws| then 0
    else if Opcode(w) == 13 && ws[i + 1] / 0x1_0000 > 3 then 0
    else if Opcode(w) == 14 && ws[i + 1] / 0x100_0000 > 3 then 0
    else n
  }

  /** From i on, the list is a sequence of complete, plain, supported codes. */
  predicate Accepted(ws: Codes, i: nat)
    decreases |ws| - i
  {
    i == |ws| || (i < |ws| && Extent(ws, i) > 0 && Accepted(ws, i + Extent(ws, i)))
  }

  // ---------------------------------------------------------------- tests

  datatype Test = Test(relation: nat, address: Word, value: Word)

  predicate Holds(t: Test, m: Ram) {
    var v := Read(m, t.address, 16);
    match t.relation
    case 0 => v == t.value
    case 1 => v != t.value
    case 2 => v < t.value
    case _ => v > t.value
  }

  function NextTest(ws: Codes, i: nat): Test
    requires i + 1 < |ws|
  {
    Test(ws[i + 1] / 0x1_0000, Low24(ws[i]), Low16(ws[i + 1]))
  }

  function BlockTest(ws: Codes, i: nat): Test
    requires i + 1 < |ws|
  {
    Test(ws[i + 1] / 0x100_0000, Low24(ws[i + 1]), Low16(ws[i]))
  }

  /** A multi-line conditional in force up to a word index. */
  datatype Cover = Cover(limit: nat, test: Test)

  predicate Allows(c: Cover, k: nat, m: Ram) { k < c.limit ==> Holds(c.test, m) }

  // ---------------------------------------------------------------- effects

  /** Writes the n words from k on to ascending addresses. The first is covered when word `at` is,
      each later one when the word before it is. */
  function WriteValues(ws: Codes, k: nat, at: nat, n: nat, address: Word, c: Cover, m: Ram): (r: Ram)
    requires k + n <= |ws|
    ensures |r| == |m|
    decreases n
  {
    if n == 0 then m
    else
      var m1 := if Allows(c, at, m) then Write(m, address, ws[k], 32) else m;
      WriteValues(ws, k + 1, k, n - 1, Plus(address, 4), c, m1)
  }

  function WriteEvery(address: Word, stride: Word, value: Word, n: nat, m: Ram): (r: Ram)
    ensures |r| == |m|
    decreases n
  {
    if n == 0 then m else WriteEvery(Plus(address, stride), stride, value, n - 1, Write(m, address, value, 32))
  }

  function CopyForward(src: Word, dst: Word, n: nat, m: Ram): (r: Ram)
    ensures |r| == |m|
    decreases n
  {
    if n == 0 then m else CopyForward(Plus(src, 1), Plus(dst, 1), n - 1, Poke(m, dst, Peek(m, src)))
  }

  /** The effect of a code that is neither a conditional nor a group write, once it is allowed. */
  function Effect(ws: Codes, i: nat, m: Ram): (r: Ram)
    requires i < |ws| && Extent(ws, i) > 0
    ensures |r| == |m|
  {
    var w := ws[i];
    match Opcode(w)
    case 0 => Write(m, Low24(w), ws[i + 1], 8)
    case 1 => Write(m, Low24(w), ws[i + 1], 16)
    case 2 => Write(m, Low24(w), ws[i + 1], 32)
    case 3 =>
      var a := Low24(ws[i + 1]);
      (match Subcode(w)
       case 1 => Write(m, a, Plus(Read(m, a, 8), w % 0x100), 8)
       case 2 => Write(m, a, Minus(Read(m, a, 8), w % 0x100), 8)
       case 3 => Write(m, a, Plus(Read(m, a, 16), Low16(w)), 16)
       case 4 => Write(m, a, Minus(Read(m, a, 16), Low16(w)), 16)
       case 5 => Write(m, a, Plus(Read(m, a, 32), ws[i + 2]), 32)
       case 6 => Write(m, a, Minus(Read(m, a, 32), ws[i + 2]), 32)
       case _ => m)
    case 4 => WriteEvery(Low24(w), 4 * Low16(ws[i + 1]), ws[i + 2], ws[i + 1] / 0x1_0000, m)
    case 5 => CopyForward(Low24(w), Low24(ws[i + 1]), ws[i + 2], m)
    case _ => m
  }

  predicate IsGroup(w: Word) { Opcode(w) == 3 && Subcode(w) == 0 }

  /** Running the codes from i on. A covered write is tested at the moment it is reached. */
  function Meaning(ws: Codes, i: nat, c: Cover, m: Ram): (r: Ram)
    requires Accepted(ws, i)
    ensures |r| == |m|
    decreases |ws| - i
  {
    if i == |ws| then m
    else
      var w := ws[i];
      var n := i + Extent(ws, i);
      assert Accepted(ws, n);
      if Opcode(w) == 13 then
        if Allows(c, i, m) && !Holds(NextTest(ws, i), m) && n < |ws| then
          Meaning(ws, n + Extent(ws, n), c, m)
        else
          Meaning(ws, n, c, m)
      else if Opcode(w) == 14 then
        if Allows(c, i, m) then Meaning(ws, n, Cover(i + 1 + Subcode(w), BlockTest(ws, i)), m)
        else Meaning(ws, n, c, m)
      else if IsGroup(w) then
        Meaning(ws, n, c, WriteValues(ws, i + 2, i, Low16(w), Low24(ws[i + 1]), c, m))
      else
        Meaning(ws, n, c, if Allows(c, i, m) then Effect(ws, i, m) else m)
  }

  // ---------------------------------------------------------------- well-formed lists

  /** How many records the code at i yields besides guards. */
  function Yield(ws: Codes, i: nat): nat
    requires i < |ws|
  {
    if Opcode(ws[i]) == 14 then 0 else if IsGroup(ws[i]) then Low16(ws[i]) else 1
  }

  /** - a covered code yields a record for its guard to guard, unless it ends the list;
      - a one-shot conditional is the last code, or the next one is not covered and yields one record. */
  predicate WellFormed(ws: Codes, i: nat, limit: nat)
    requires Accepted(ws, i)
    decreases |ws| - i
  {
    i == |ws|
    || (var n := i + Extent(ws, i);
        && (i < limit && Yield(ws, i) == 0 ==> n == |ws|)
        && (Opcode(ws[i]) == 13 && n < |ws| ==> n >= limit && Yield(ws, n) == 1)
        && WellFormed(ws, n, if Opcode(ws[i]) == 14 then i + 1 + Subcode(ws[i]) else limit))
  }

  // ---------------------------------------------------------------- the compiled records do the same

  function TestRecord(name: string, t: Test): Cheat
    requires t.relation <= 3
  {
    Record(name, ConditionKind(t.relation), 16, t.address, t.value)
  }

  function BlockOf(name: string, c: Cover): Block
    requires c.test.relation <= 3
  {
    Block(c.limit, TestRecord(name, c.test))
  }

  /** One frame over freshly compiled, enabled records, from a given skip flag. */
  function Frame(cs: seq<Cheat>, m: Ram, skip: bool): State { Run(EnableAll(cs), false, State(m, skip)) }

  lemma FrameAppend(a: seq<Cheat>, b: seq<Cheat>, m: Ram, skip: bool)
    ensures Frame(a + b, m, skip) == var s := Frame(a, m, skip); Frame(b, s.ram, s.skip)
  {
    EnableAllAppend(a, b);
    RunAppend(EnableAll(a), EnableAll(b), false, State(m, skip));
  }

  lemma FrameOne(c: Cheat, m: Ram, skip: bool)
    requires !c.builtIn
    ensures Frame([c], m, skip) == if skip then State(m, false) else State(Act(c, m), Skips(c, m))
  {
    var e := c.(enabled := true);
    assert EnableAll([c]) == [e];
    assert Run([e], false, State(m, skip)) == Step(e, false, State(m, skip));
  }

  /** A guard followed by an action performs the action exactly when the test holds. */
  lemma FrameGuarded(name: string, c: Cover, k: nat, a: Cheat, m: Ram)
    requires c.test.relation <= 3 && !a.builtIn
    ensures Frame(Guard(BlockOf(name, c), k) + [a], m, false)
            == if Allows(c, k, m) then State(Act(a, m), Skips(a, m)) else State(m, false)
  {
    hide Read, Act, Skips;
    var g := Guard(BlockOf(name, c), k);
    FrameAppend(g, [a], m, false);
    if k < c.limit {
      var t := TestRecord(name, c.test);
      FrameOne(t, m, false);
      TestRecordTests(name, c.test, m);
      FrameOne(a, m, !Holds(c.test, m));
    } else {
      assert Frame([], m, false) == State(m, false);
      FrameOne(a, m, false);
    }
  }

  lemma TestRecordTests(name: string, t: Test, m: Ram)
    requires t.relation <= 3
    ensures Skips(TestRecord(name, t), m) == !Holds(t, m) && Act(TestRecord(name, t), m) == m
  {
    hide Read;
  }

  lemma StoreOnce(c: Cheat, v: Word, m: Ram)
    requires c.size >= 8 && c.repeatCount == 1
    ensures StoreAll(c, v, m) == Write(m, c.address, v, c.size)
  {
    hide Read, Write, Stride;
    var m1 := Write(m, c.address, v, c.size);
    assert Store(m1, c.size, c.valueMask, Plus(c.address, Stride(c)), Plus(v, c.repeatValueIncrement), Stride(c),
                 c.repeatValueIncrement, 0) == m1;
  }

  lemma {:induction false} RepeatedStoreIsWriteEvery(addr: Word, stride: Word, v: Word, n: nat, m: Ram)
    ensures Store(m, 32, 0, addr, v, stride, 0, n) == WriteEvery(addr, stride, v, n, m)
    decreases n
  {
    hide Read, Write;
    if n > 0 {
      RepeatedStoreIsWriteEvery(Plus(addr, stride), stride, v, n - 1, Write(m, addr, v, 32));
    }
  }

  lemma {:induction false} CopyUpIsCopyForward(src: Word, dst: Word, n: nat, m: Ram)
    ensures CopyUp(m, src, dst, 8, n) == CopyForward(src, dst, n, m)
    decreases n
  {
    if n > 0 {
      assert Write(m, dst, Read(m, src, 8), 8) == Poke(m, dst, Peek(m, src)) by {
        ReadGivesByte(m, src, 8, 0);
        assert PokeBytes(m, dst, Read(m, src, 8), 0) == m;
      }
      hide Read, Write;
      CopyUpIsCopyForward(Plus(src, 1), Plus(dst, 1), n - 1, Poke(m, dst, Peek(m, src)));
    }
  }

  predicate IsSingle(ws: Codes, i: nat) {
    i < |ws| && Extent(ws, i) > 0 && Opcode(ws[i]) != 14 && !IsGroup(ws[i])
  }

  /** The record of a code that is neither a block conditional nor a group write. */
  function CodeRecord(name: string, ws: Codes, i: nat): Cheat
    requires IsSingle(ws, i)
  {
    CompileCode(name, ws, i, NO_BLOCK).value.cheats[0]
  }

  lemma CompiledCode(name: string, ws: Codes, i: nat, b: Block)
    requires IsSingle(ws, i)
    ensures CompileCode(name, ws, i, b)
            == Ok(Piece(Guard(b, i) + [CodeRecord(name, ws, i)], i + Extent(ws, i), b))
    ensures !CodeRecord(name, ws, i).builtIn
  {
  }

  lemma WriteEffect(name: string, ws: Codes, i: nat, m: Ram)
    requires IsSingle(ws, i) && Opcode(ws[i]) <= 2
    ensures Act(CodeRecord(name, ws, i), m) == Effect(ws, i, m)
  {
    var a := CodeRecord(name, ws, i);
    hide Read, Write, StoreAll;
    StoreOnce(a, a.value, m);
  }

  lemma StepRecord(name: string, ws: Codes, i: nat)
    requires IsSingle(ws, i) && Opcode(ws[i]) == 3
    ensures
      var a, w := CodeRecord(name, ws, i), ws[i];
      && 1 <= Subcode(w) <= 6 && a.repeatCount == 1 && a.address == Low24(ws[i + 1])
      && a.kind == (if Subcode(w) % 2 == 1 then Increase else Decrease)
      && a.size == (if Subcode(w) <= 2 then 8 else if Subcode(w) <= 4 then 16 else 32)
      && a.value == (if Subcode(w) <= 2 then w % 0x100 else if Subcode(w) <= 4 then Low16(w) else ws[i + 2])
  {
  }

  lemma StepEffect(name: string, ws: Codes, i: nat, m: Ram)
    requires IsSingle(ws, i) && Opcode(ws[i]) == 3
    ensures Act(CodeRecord(name, ws, i), m) == Effect(ws, i, m)
  {
    hide Read, Write, Plus, Minus, StoreAll, CodeRecord, Low16, Low24, Extent;
    var a := CodeRecord(name, ws, i);
    StepRecord(name, ws, i);
    StoreOnce(a, Plus(Read(m, a.address, a.size), a.value), m);
    StoreOnce(a, Minus(Read(m, a.address, a.size), a.value), m);
  }

  lemma RepeatRecord(name: string, ws: Codes, i: nat)
    requires IsSingle(ws, i) && Opcode(ws[i]) == 4
    ensures
      var a := CodeRecord(name, ws, i);
      && a.kind == SetValue && a.size == 32 && a.valueMask == 0 && a.repeatValueIncrement == 0
      && a.address == Low24(ws[i]) && a.value == ws[i + 2] && a.repeatCount == ws[i + 1] / 0x1_0000
      && Stride(a) == 4 * Low16(ws[i + 1])
  {
  }

  lemma RepeatEffect(name: string, ws: Codes, i: nat, m: Ram)
    requires IsSingle(ws, i) && Opcode(ws[i]) == 4
    ensures Act(CodeRecord(name, ws, i), m) == Effect(ws, i, m)
  {
    hide Read, Write, CodeRecord, Stride;
    var a := CodeRecord(name, ws, i);
    RepeatRecord(name, ws, i);
    RepeatedStoreIsWriteEvery(a.address, Stride(a), a.value, a.repeatCount, m);
  }

  lemma CopyEffect(name: string, ws: Codes, i: nat, m: Ram)
    requires IsSingle(ws, i) && Opcode(ws[i]) == 5
    ensures Act(CodeRecord(name, ws, i), m) == Effect(ws, i, m)
  {
    var a := CodeRecord(name, ws, i);
    CopyUpIsCopyForward(a.address, a.destAddress, a.repeatCount, m);
  }

  lemma CompiledEffect(name: string, ws: Codes, i: nat, m: Ram)
    requires IsSingle(ws, i) && Opcode(ws[i]) != 13
    ensures Act(CodeRecord(name, ws, i), m) == Effect(ws, i, m)
    ensures !Skips(CodeRecord(name, ws, i), m)
  {
    if Opcode(ws[i]) <= 2 {
      WriteEffect(name, ws, i, m);
    } else if Opcode(ws[i]) == 3 {
      StepEffect(name, ws, i, m);
    } else if Opcode(ws[i]) == 4 {
      RepeatEffect(name, ws, i, m);
    } else {
      CopyEffect(name, ws, i, m);
    }
    NeverSkips(name, ws, i, m);
  }

  lemma NeverSkips(name: string, ws: Codes, i: nat, m: Ram)
    requires IsSingle(ws, i) && Opcode(ws[i]) != 13
    ensures !Skips(CodeRecord(name, ws, i), m)
  {
    hide Read;
  }

  /** The records of a group write, with the guard of the first in front. */
  lemma {:induction false} GroupFrame(title: string, name: string, ws: Codes, k: nat, at: nat, n: nat, address: Word,
                                     c: Cover, m: Ram)
    requires 0 < n && k + n <= |ws| && c.test.relation <= 3
    ensures
      var b := BlockOf(name, c);
      Frame(Guard(b, at) + GroupRecords(title, name, ws, k, n, address, b), m, false)
      == State(WriteValues(ws, k, at, n, address, c, m), false)
    decreases n
  {
    hide Read, Write;
    var b := BlockOf(name, c);
    var first := Record(title, SetValue, 32, address, ws[k]);
    var head := Guard(b, at) + [first];
    var m1 := if Allows(c, at, m) then Write(m, address, ws[k], 32) else m;
    StoreOnce(first, ws[k], m);
    FrameGuarded(name, c, at, first, m);
    assert Frame(head, m, false) == State(m1, false);
    if n == 1 {
      assert GroupRecords(Continued(name), name, ws, k + 1, 0, Plus(address, 4), b) == [];
      assert Guard(b, at) + GroupRecords(title, name, ws, k, n, address, b) == head;
    } else {
      var more := Guard(b, k) + GroupRecords(Continued(name), name, ws, k + 1, n - 1, Plus(address, 4), b);
      assert Guard(b, at) + GroupRecords(title, name, ws, k, n, address, b) == head + more;
      FrameAppend(head, more, m, false);
      GroupFrame(Continued(name), name, ws, k + 1, k, n - 1, Plus(address, 4), c, m1);
    }
  }

  // ---------------------------------------------------------------- putting the codes together

  lemma CompileStep(name: string, ws: Codes, i: nat, b: Block)
    requires i < |ws| && Extent(ws, i) > 0
    ensures CompileCode(name, ws, i, b).Ok? && CompileCode(name, ws, i, b).value.next == i + Extent(ws, i)
    ensures
      var p := CompileCode(name, ws, i, b).value;
      CompileFrom(name, ws, i, b) == Prepend(p.cheats, CompileFrom(name, ws, p.next, p.block))
  {
    hide CompileCode, DecipherAt, Extent;
    ExtentIsNext(name, ws, i, b);
    PlainCode(ws, i);
  }

  lemma PlainCode(ws: Codes, i: nat)
    requires i < |ws| && ws[i] < 0x1000_0000
    ensures DecipherAt(ws, i) == ws
  {
    hide DecipherArgs;
  }

  lemma ExtentIsNext(name: string, ws: Codes, i: nat, b: Block)
    requires i < |ws| && Extent(ws, i) > 0
    ensures ws[i] < 0x1000_0000
    ensures CompileCode(name, ws, i, b).Ok? && CompileCode(name, ws, i, b).value.next == i + Extent(ws, i)
  {
    hide GroupRecords, Guard;
  }

  lemma BlockCode(name: string, ws: Codes, i: nat, b: Block)
    requires i < |ws| && Extent(ws, i) > 0 && Opcode(ws[i]) == 14
    ensures Extent(ws, i) == 2
    ensures CompileCode(name, ws, i, b)
            == Ok(Piece(Guard(b, i), i + 2, BlockOf(name, Cover(i + 1 + Subcode(ws[i]), BlockTest(ws, i)))))
  {
    hide Opcode, Subcode, Low16, Low24, GroupRecords, Guard;
  }

  lemma GroupCode(name: string, ws: Codes, i: nat, b: Block)
    requires i < |ws| && Extent(ws, i) > 0 && IsGroup(ws[i])
    ensures Extent(ws, i) == 2 + Low16(ws[i])
    ensures
      var g := GroupRecords(name, name, ws, i + 2, Low16(ws[i]), Low24(ws[i + 1]), b);
      CompileCode(name, ws, i, b) == Ok(Piece(Guard(b, i) + g, i + 2 + Low16(ws[i]), b))
  {
    hide Opcode, Subcode, Low16, Low24, GroupRecords, Guard;
  }

  lemma BlockStep(name: string, ws: Codes, i: nat, b: Block)
    requires i < |ws| && Extent(ws, i) > 0 && Opcode(ws[i]) == 14
    ensures
      var r := CompileFrom(name, ws, i + 2, BlockOf(name, Cover(i + 1 + Subcode(ws[i]), BlockTest(ws, i))));
      CompileFrom(name, ws, i, b) == Prepend(Guard(b, i), r)
  {
    hide Opcode, Subcode, Low16, Low24, Extent, CompileCode, CompileFrom, Guard;
    CompileStep(name, ws, i, b);
    BlockCode(name, ws, i, b);
  }

  lemma GroupStep(name: string, ws: Codes, i: nat, b: Block)
    requires i < |ws| && Extent(ws, i) > 0 && IsGroup(ws[i])
    ensures
      var g := GroupRecords(name, name, ws, i + 2, Low16(ws[i]), Low24(ws[i + 1]), b);
      CompileFrom(name, ws, i, b) == Prepend(Guard(b, i) + g, CompileFrom(name, ws, i + 2 + Low16(ws[i]), b))
  {
    hide Opcode, Subcode, Low16, Low24, Extent, CompileCode, CompileFrom, Guard, GroupRecords;
    GroupCode(name, ws, i, b);
    CompileStep(name, ws, i, b);
  }

  lemma SingleStep(name: string, ws: Codes, i: nat, b: Block)
    requires IsSingle(ws, i)
    ensures CompileFrom(name, ws, i, b)
            == Prepend(Guard(b, i) + [CodeRecord(name, ws, i)], CompileFrom(name, ws, i + Extent(ws, i), b))
  {
    hide CompileCode, CodeRecord, CompileFrom, Guard, Opcode, Subcode, Extent;
    CompileStep(name, ws, i, b);
    CompiledCode(name, ws, i, b);
  }

  lemma OneShotSkips(name: string, ws: Codes, i: nat, m: Ram)
    requires IsSingle(ws, i) && Opcode(ws[i]) == 13
    ensures Act(CodeRecord(name, ws, i), m) == m
    ensures Skips(CodeRecord(name, ws, i), m) == !Holds(NextTest(ws, i), m)
  {
    hide Read;
  }

  lemma OneRecord(name: string, ws: Codes, k: nat, address: Word, b: Block)
    requires k + 1 <= |ws|
    ensures GroupRecords(name, name, ws, k, 1, address, b) == [Record(name, SetValue, 32, address, ws[k])]
  {
    hide Plus;
  }

  /** Whatever a code yields as its only record, a pending skip swallows it. */
  lemma SkippedCode(name: string, ws: Codes, i: nat, c: Cover, m: Ram)
    requires i < |ws| && Extent(ws, i) > 0 && Yield(ws, i) == 1 && i >= c.limit && c.test.relation <= 3
    ensures
      var b := BlockOf(name, c);
      var rest := CompileFrom(name, ws, i + Extent(ws, i), b);
      rest.Ok?
      ==> (CompileFrom(name, ws, i, b).Ok?
           && Frame(CompileFrom(name, ws, i, b).value, m, true) == Frame(rest.value, m, false))
  {
    hide Read, Write, CodeRecord, Act, Skips, Opcode, Subcode, Low16, Low24, Extent, CompileFrom, CompileCode, Frame;
    var b := BlockOf(name, c);
    var rest := CompileFrom(name, ws, i + Extent(ws, i), b);
    if rest.Ok? {
      var x;
      if IsGroup(ws[i]) {
        GroupCode(name, ws, i, b);
        GroupStep(name, ws, i, b);
        x := Record(name, SetValue, 32, Low24(ws[i + 1]), ws[i + 2]);
        OneRecord(name, ws, i + 2, Low24(ws[i + 1]), b);
      } else {
        SingleStep(name, ws, i, b);
        CompiledCode(name, ws, i, b);
        x := CodeRecord(name, ws, i);
      }
      assert Guard(b, i) + [x] == [x];
      assert CompileFrom(name, ws, i, b) == Ok([x] + rest.value);
      FrameAppend([x], rest.value, m, true);
      FrameOne(x, m, true);
    }
  }

  /** Running the compiled records of a well-formed list, from any RAM, is running its codes. */
  lemma {:induction false} FrameIsMeaning(name: string, ws: Codes, i: nat, c: Cover, m: Ram)
    requires Accepted(ws, i) && WellFormed(ws, i, c.limit) && c.test.relation <= 3
    ensures CompileFrom(name, ws, i, BlockOf(name, c)).Ok?
    ensures Frame(CompileFrom(name, ws, i, BlockOf(name, c)).value, m, false).ram == Meaning(ws, i, c, m)
    decreases |ws| - i
  {
    if i < |ws| {
      if Opcode(ws[i]) == 14 {
        BlockCase(name, ws, i, c, m);
      } else if IsGroup(ws[i]) {
        GroupCase(name, ws, i, c, m);
      } else if Opcode(ws[i]) == 13 {
        OneShotCase(name, ws, i, c, m);
      } else {
        SingleCase(name, ws, i, c, m);
      }
    }
  }

  lemma {:induction false} BlockCase(name: string, ws: Codes, i: nat, c: Cover, m: Ram)
    requires Accepted(ws, i) && WellFormed(ws, i, c.limit) && c.test.relation <= 3
    requires i < |ws| && Opcode(ws[i]) == 14
    ensures CompileFrom(name, ws, i, BlockOf(name, c)).Ok?
    ensures Frame(CompileFrom(name, ws, i, BlockOf(name, c)).value, m, false).ram == Meaning(ws, i, c, m)
    decreases |ws| - i, 0
  {
    hide Act, Skips, Holds, Frame, Meaning, CompileFrom, Accepted, WellFormed, Extent, Subcode, Opcode, BlockTest;
    var b, n := BlockOf(name, c), i + 2;
    BlockNext(ws, i, c.limit);
    var inner := Cover(i + 1 + Subcode(ws[i]), BlockTest(ws, i));
    BlockMeans(ws, i, c, m);
    BlockStep(name, ws, i, b);
    FrameIsMeaning(name, ws, n, inner, m);
    var rest := CompileFrom(name, ws, n, BlockOf(name, inner)).value;
    if i < c.limit {
      EmptyTail(name, ws, b, m);
      EmptyTail(name, ws, BlockOf(name, inner), m);
      TestRecordTests(name, c.test, m);
      FrameOne(b.guard, m, false);
      assert CompileFrom(name, ws, i, b).value == [b.guard];
      NothingMeans(ws, inner, m);
      NothingMeans(ws, c, m);
    } else {
      assert Guard(b, i) + rest == rest;
    }
  }

  lemma BlockNext(ws: Codes, i: nat, limit: nat)
    requires Accepted(ws, i) && WellFormed(ws, i, limit) && i < |ws| && Opcode(ws[i]) == 14
    ensures Extent(ws, i) == 2 && i + 2 <= |ws| && Accepted(ws, i + 2)
    ensures WellFormed(ws, i + 2, i + 1 + Subcode(ws[i])) && BlockTest(ws, i).relation <= 3
    ensures i < limit ==> i + 2 == |ws|
  {
    hide Opcode, Subcode, Low16, Low24;
  }

  lemma BlockMeans(ws: Codes, i: nat, c: Cover, m: Ram)
    requires i < |ws| && Opcode(ws[i]) == 14 && Extent(ws, i) == 2 && Accepted(ws, i) && Accepted(ws, i + 2)
    ensures
      Meaning(ws, i, c, m)
      == if Allows(c, i, m) then Meaning(ws, i + 2, Cover(i + 1 + Subcode(ws[i]), BlockTest(ws, i)), m)
         else Meaning(ws, i + 2, c, m)
  {
    hide Extent, Effect, WriteValues, Holds, Accepted, Opcode, Subcode, BlockTest;
  }

  lemma NothingMeans(ws: Codes, c: Cover, m: Ram)
    ensures Accepted(ws, |ws|) && Meaning(ws, |ws|, c, m) == m
  {
  }

  lemma GroupNext(ws: Codes, i: nat, limit: nat)
    requires Accepted(ws, i) && WellFormed(ws, i, limit) && i < |ws| && IsGroup(ws[i])
    ensures
      var n := i + 2 + Low16(ws[i]);
      && Extent(ws, i) == 2 + Low16(ws[i]) && n <= |ws| && Accepted(ws, n) && WellFormed(ws, n, limit)
      && (i < limit && Low16(ws[i]) == 0 ==> n == |ws|)
  {
  }

  lemma GroupMeaning(ws: Codes, i: nat, c: Cover, m: Ram)
    requires i < |ws| && Extent(ws, i) == 2 + Low16(ws[i]) && IsGroup(ws[i])
    requires Accepted(ws, i) && Accepted(ws, i + 2 + Low16(ws[i]))
    ensures
      var m1 := WriteValues(ws, i + 2, i, Low16(ws[i]), Low24(ws[i + 1]), c, m);
      Meaning(ws, i, c, m) == Meaning(ws, i + 2 + Low16(ws[i]), c, m1)
  {
    hide Extent, Effect, WriteValues, Holds, Accepted;
  }

  /** The records of a whole group write, its guard in front; an empty one leaves a guard without effect. */
  lemma GroupRecordsFrame(name: string, ws: Codes, i: nat, c: Cover, m: Ram)
    requires i < |ws| && IsGroup(ws[i]) && i + 2 + Low16(ws[i]) <= |ws| && c.test.relation <= 3
    ensures
      var b, k, a := BlockOf(name, c), Low16(ws[i]), Low24(ws[i + 1]);
      var s := Frame(Guard(b, i) + GroupRecords(name, name, ws, i + 2, k, a, b), m, false);
      && s.ram == WriteValues(ws, i + 2, i, k, a, c, m)
      && (k > 0 || i >= c.limit ==> !s.skip)
  {
    hide Read, Write, Act, Skips, Holds;
    var b, k, a := BlockOf(name, c), Low16(ws[i]), Low24(ws[i + 1]);
    if k > 0 {
      GroupFrame(name, name, ws, i + 2, i, k, a, c, m);
    } else {
      assert Guard(b, i) + GroupRecords(name, name, ws, i + 2, 0, a, b) == Guard(b, i);
      if i < c.limit {
        TestRecordTests(name, c.test, m);
        FrameOne(b.guard, m, false);
      }
    }
  }

  lemma {:induction false} GroupCase(name: string, ws: Codes, i: nat, c: Cover, m: Ram)
    requires Accepted(ws, i) && WellFormed(ws, i, c.limit) && c.test.relation <= 3
    requires i < |ws| && IsGroup(ws[i])
    ensures CompileFrom(name, ws, i, BlockOf(name, c)).Ok?
    ensures Frame(CompileFrom(name, ws, i, BlockOf(name, c)).value, m, false).ram == Meaning(ws, i, c, m)
    decreases |ws| - i, 0
  {
    hide Frame, GroupRecords, Guard, WriteValues, WellFormed, Accepted, Extent, Meaning, CompileFrom;
    var b, n := BlockOf(name, c), i + 2 + Low16(ws[i]);
    GroupNext(ws, i, c.limit);
    GroupStep(name, ws, i, b);
    GroupMeaning(ws, i, c, m);
    GroupRecordsFrame(name, ws, i, c, m);
    var rs := Guard(b, i) + GroupRecords(name, name, ws, i + 2, Low16(ws[i]), Low24(ws[i + 1]), b);
    var s := Frame(rs, m, false);
    FrameIsMeaning(name, ws, n, c, s.ram);
    var rest := CompileFrom(name, ws, n, b).value;
    FrameAppend(rs, rest, m, false);
    if s.skip {
      EmptyTail(name, ws, b, s.ram);
    }
  }

  lemma EmptyTail(name: string, ws: Codes, b: Block, m: Ram)
    ensures CompileFrom(name, ws, |ws|, b) == Ok([])
    ensures Frame([], m, true).ram == Frame([], m, false).ram
  {
  }

  lemma OneShotNext(ws: Codes, i: nat, limit: nat)
    requires Accepted(ws, i) && WellFormed(ws, i, limit) && i < |ws| && Opcode(ws[i]) == 13
    ensures IsSingle(ws, i) && Extent(ws, i) == 2
    ensures i + 2 <= |ws| && Accepted(ws, i + 2) && WellFormed(ws, i + 2, limit)
    ensures i + 2 < |ws| ==> i + 2 >= limit && Yield(ws, i + 2) == 1 && Extent(ws, i + 2) > 0
    ensures i + 2 < |ws| ==> var n := i + 2 + Extent(ws, i + 2); Accepted(ws, n) && WellFormed(ws, n, limit)
  {
    hide Subcode;
  }

  lemma OneShotMeaning(ws: Codes, i: nat, c: Cover, m: Ram)
    requires i < |ws| && Opcode(ws[i]) == 13 && Extent(ws, i) == 2 && Accepted(ws, i) && Accepted(ws, i + 2)
    requires i + 2 < |ws| ==> Accepted(ws, i + 2 + Extent(ws, i + 2))
    ensures
      Meaning(ws, i, c, m)
      == if Allows(c, i, m) && !Holds(NextTest(ws, i), m) && i + 2 < |ws| then
           Meaning(ws, i + 2 + Extent(ws, i + 2), c, m)
         else
           Meaning(ws, i + 2, c, m)
  {
    hide Extent, Effect, WriteValues, Holds, Accepted;
  }

  lemma {:induction false} OneShotCase(name: string, ws: Codes, i: nat, c: Cover, m: Ram)
    requires Accepted(ws, i) && WellFormed(ws, i, c.limit) && c.test.relation <= 3
    requires i < |ws| && Opcode(ws[i]) == 13
    ensures CompileFrom(name, ws, i, BlockOf(name, c)).Ok?
    ensures Frame(CompileFrom(name, ws, i, BlockOf(name, c)).value, m, false).ram == Meaning(ws, i, c, m)
    decreases |ws| - i, 0
  {
    hide Frame, CodeRecord, Guard, Act, Skips, Holds, WellFormed, Accepted, Extent, Meaning, CompileFrom, NextTest;
    var b, n := BlockOf(name, c), i + 2;
    OneShotNext(ws, i, c.limit);
    var x := CodeRecord(name, ws, i);
    OneShotMeaning(ws, i, c, m);
    SingleStep(name, ws, i, b);
    RecordIsOwn(name, ws, i);
    FrameIsMeaning(name, ws, n, c, m);
    var rest := CompileFrom(name, ws, n, b).value;
    FrameAppend(Guard(b, i) + [x], rest, m, false);
    FrameGuarded(name, c, i, x, m);
    OneShotSkips(name, ws, i, m);
    if Allows(c, i, m) && !Holds(NextTest(ws, i), m) {
      if n == |ws| {
        EmptyTail(name, ws, b, m);
      } else {
        FrameIsMeaning(name, ws, n + Extent(ws, n), c, m);
        SkippedCode(name, ws, n, c, m);
      }
    }
  }

  lemma RecordIsOwn(name: string, ws: Codes, i: nat)
    requires IsSingle(ws, i)
    ensures !CodeRecord(name, ws, i).builtIn
  {
    CompiledCode(name, ws, i, NO_BLOCK);
  }

  lemma {:induction false} SingleCase(name: string, ws: Codes, i: nat, c: Cover, m: Ram)
    requires Accepted(ws, i) && WellFormed(ws, i, c.limit) && c.test.relation <= 3
    requires IsSingle(ws, i) && Opcode(ws[i]) != 13
    ensures CompileFrom(name, ws, i, BlockOf(name, c)).Ok?
    ensures Frame(CompileFrom(name, ws, i, BlockOf(name, c)).value, m, false).ram == Meaning(ws, i, c, m)
    decreases |ws| - i, 0
  {
    hide Frame, CodeRecord, Guard, Act, Skips, Holds, Effect, WellFormed, Accepted, Extent, Meaning, CompileFrom;
    SingleNext(ws, i, c.limit);
    var b, n := BlockOf(name, c), i + Extent(ws, i);
    var x := CodeRecord(name, ws, i);
    var m1 := if Allows(c, i, m) then Effect(ws, i, m) else m;
    SingleMeans(ws, i, c, m);
    SingleStep(name, ws, i, b);
    RecordIsOwn(name, ws, i);
    FrameIsMeaning(name, ws, n, c, m1);
    FrameAppend(Guard(b, i) + [x], CompileFrom(name, ws, n, b).value, m, false);
    FrameGuarded(name, c, i, x, m);
    CompiledEffect(name, ws, i, m);
  }

  lemma SingleNext(ws: Codes, i: nat, limit: nat)
    requires Accepted(ws, i) && WellFormed(ws, i, limit) && IsSingle(ws, i) && Opcode(ws[i]) != 13
    ensures var n := i + Extent(ws, i); n <= |ws| && Accepted(ws, n) && WellFormed(ws, n, limit)
  {
    hide Extent, Opcode;
  }

  lemma SingleMeans(ws: Codes, i: nat, c: Cover, m: Ram)
    requires IsSingle(ws, i) && Opcode(ws[i]) != 13 && Accepted(ws, i) && Accepted(ws, i + Extent(ws, i))
    ensures Meaning(ws, i, c, m) == Meaning(ws, i + Extent(ws, i), c, if Allows(c, i, m) then Effect(ws, i, m) else m)
  {
    hide Extent, Opcode, Effect, WriteValues, Holds, Accepted;
  }
}
