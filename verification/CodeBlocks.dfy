/** Multi-line conditionals: when testing before every covered write amounts to testing once, and what
    the machine does with the code lists whose conditionals it cannot represent. */
module CodeBlocks {
  import opened Words
  import opened Memory
  import opened GameShark
  import opened CodeMeaning
  import opened CodeDeciphering

  // ---------------------------------------------------------------- which bytes of RAM a code writes

  function Span(size: nat, addr: int, n: nat): set<nat>
    requires size > 0
  {
    if n == 0 then {} else Span(size, addr, n - 1) + {(addr + n - 1) % size}
  }

  function SpanEvery(size: nat, addr: Word, stride: Word, n: nat): set<nat>
    requires size > 0
    decreases n
  {
    if n == 0 then {} else Span(size, addr, 4) + SpanEvery(size, Plus(addr, stride), stride, n - 1)
  }

  function SpanCopy(size: nat, dst: Word, n: nat): set<nat>
    requires size > 0
    decreases n
  {
    if n == 0 then {} else {dst % size} + SpanCopy(size, Plus(dst, 1), n - 1)
  }

  function Written(ws: Codes, i: nat, size: nat): set<nat>
    requires i < |ws| && Extent(ws, i) > 0 && size > 0
  {
    var w := ws[i];
    match Opcode(w)
    case 0 => Span(size, Low24(w), 1)
    case 1 => Span(size, Low24(w), 2)
    case 2 => Span(size, Low24(w), 4)
    case 3 =>
      if Subcode(w) == 0 then SpanEvery(size, Low24(ws[i + 1]), 4, Low16(w))
      else Span(size, Low24(ws[i + 1]), if Subcode(w) <= 2 then 1 else if Subcode(w) <= 4 then 2 else 4)
    case 4 => SpanEvery(size, Low24(w), 4 * Low16(ws[i + 1]), ws[i + 1] / 0x1_0000)
    case 5 => SpanCopy(size, Low24(ws[i + 1]), ws[i + 2])
    case _ => {}
  }

  predicate SameOutside(m: Ram, r: Ram, s: set<nat>) {
    |m| == |r| && forall x: nat :: x < |m| && x !in s ==> r[x] == m[x]
  }

  lemma {:induction false} PokeSpan(m: Ram, addr: int, v: Word, n: nat)
    requires n <= 4
    ensures SameOutside(m, PokeBytes(m, addr, v, n), Span(|m|, addr, n))
  {
    if n > 0 {
      PokeSpan(m, addr, v, n - 1);
    }
  }

  lemma {:induction false} EverySpan(address: Word, stride: Word, value: Word, n: nat, m: Ram)
    ensures SameOutside(m, WriteEvery(address, stride, value, n, m), SpanEvery(|m|, address, stride, n))
    decreases n
  {
    if n > 0 {
      PokeSpan(m, address, value, 4);
      hide PokeBytes, Span;
      EverySpan(Plus(address, stride), stride, value, n - 1, Write(m, address, value, 32));
    }
  }

  lemma {:induction false} CopySpan(src: Word, dst: Word, n: nat, m: Ram)
    ensures SameOutside(m, CopyForward(src, dst, n, m), SpanCopy(|m|, dst, n))
    decreases n
  {
    if n > 0 {
      CopySpan(Plus(src, 1), Plus(dst, 1), n - 1, Poke(m, dst, Peek(m, src)));
    }
  }

  lemma EffectSpan(ws: Codes, i: nat, m: Ram)
    requires IsSingle(ws, i)
    ensures SameOutside(m, Effect(ws, i, m), Written(ws, i, |m|))
  {
    hide Read, PokeBytes, Span, SpanEvery, SpanCopy, WriteEvery, CopyForward;
    var w := ws[i];
    forall addr: Word, v: Word, n: nat | 1 <= n <= 4
      ensures SameOutside(m, PokeBytes(m, addr, v, n), Span(|m|, addr, n))
    {
      PokeSpan(m, addr, v, n);
    }
    if Opcode(w) == 4 {
      EverySpan(Low24(w), 4 * Low16(ws[i + 1]), ws[i + 2], ws[i + 1] / 0x1_0000, m);
    } else if Opcode(w) == 5 {
      CopySpan(Low24(w), Low24(ws[i + 1]), ws[i + 2], m);
    }
  }

  /** Writes that spare both tested bytes leave the outcome of the test alone. */
  lemma SparedTest(t: Test, m: Ram, r: Ram, s: set<nat>)
    requires SameOutside(m, r, s) && Span(|m|, t.address, 2) !! s
    ensures Holds(t, r) == Holds(t, m)
  {
    assert Span(|m|, t.address, 1) == Span(|m|, t.address, 0) + {t.address % |m|};
    hide FromBytes;
  }

  // ---------------------------------------------------------------- all or nothing

  /** The first code start at or after a limit. */
  function BlockEnd(ws: Codes, i: nat, limit: nat): (j: nat)
    requires Accepted(ws, i)
    ensures i <= j <= |ws| && Accepted(ws, j) && (j == |ws| || j >= limit)
    decreases |ws| - i
  {
    if i == |ws| || i >= limit then i else BlockEnd(ws, i + Extent(ws, i), limit)
  }

  /** The covered codes are writes, and group writes lie wholly inside the block. */
  predicate PlainBlock(ws: Codes, i: nat, limit: nat)
    requires Accepted(ws, i)
    decreases |ws| - i
  {
    i == |ws| || i >= limit
    || (&& Opcode(ws[i]) !in {13, 14}
        && (IsGroup(ws[i]) ==> i + Extent(ws, i) <= limit + 1)
        && PlainBlock(ws, i + Extent(ws, i), limit))
  }

  /** No covered code writes a byte of the tested halfword. */
  predicate Spares(ws: Codes, i: nat, limit: nat, t: Test, size: nat)
    requires Accepted(ws, i) && size > 0
    decreases |ws| - i
  {
    i == |ws| || i >= limit
    || (Span(size, t.address, 2) !! Written(ws, i, size) && Spares(ws, i + Extent(ws, i), limit, t, size))
  }

  /** The covered codes, run with no test at all. */
  function Unguarded(ws: Codes, i: nat, limit: nat, m: Ram): (r: Ram)
    requires Accepted(ws, i)
    ensures |r| == |m|
    decreases |ws| - i
  {
    if i == |ws| || i >= limit then m
    else
      var m1 :=
        if IsGroup(ws[i]) then WriteValues(ws, i + 2, i, Low16(ws[i]), Low24(ws[i + 1]), NO_COVER, m)
        else Effect(ws, i, m);
      Unguarded(ws, i + Extent(ws, i), limit, m1)
  }

  lemma {:induction false} GroupAllOrNothing(ws: Codes, k: nat, at: nat, n: nat, address: Word, c: Cover, m: Ram)
    requires k + n <= |ws| && at < c.limit && k + n <= c.limit + 1
    requires Span(|m|, c.test.address, 2) !! SpanEvery(|m|, address, 4, n)
    ensures WriteValues(ws, k, at, n, address, c, m)
            == if Holds(c.test, m) then WriteValues(ws, k, at, n, address, NO_COVER, m) else m
    ensures Holds(c.test, WriteValues(ws, k, at, n, address, c, m)) == Holds(c.test, m)
    decreases n
  {
    if n > 0 {
      var m1 := Write(m, address, ws[k], 32);
      PokeSpan(m, address, ws[k], 4);
      SparedTest(c.test, m, m1, Span(|m|, address, 4));
      hide PokeBytes, Span, Holds;
      if n > 1 {
        GroupAllOrNothing(ws, k + 1, k, n - 1, Plus(address, 4), c, if Holds(c.test, m) then m1 else m);
      }
    }
  }

  /** Testing before every covered write is testing once: all of them happen or none does. */
  lemma {:induction false} AllOrNothing(ws: Codes, i: nat, c: Cover, m: Ram)
    requires Accepted(ws, i) && PlainBlock(ws, i, c.limit) && Spares(ws, i, c.limit, c.test, |m|)
    ensures Meaning(ws, i, c, m)
            == Meaning(ws, BlockEnd(ws, i, c.limit), c,
                       if Holds(c.test, m) then Unguarded(ws, i, c.limit, m) else m)
    decreases |ws| - i
  {
    if i < |ws| && i < c.limit {
      var n := i + Extent(ws, i);
      hide Effect, Holds, Span, WriteValues;
      if IsGroup(ws[i]) {
        var a := Low24(ws[i + 1]);
        GroupAllOrNothing(ws, i + 2, i, Low16(ws[i]), a, c, m);
        AllOrNothing(ws, n, c, WriteValues(ws, i + 2, i, Low16(ws[i]), a, c, m));
      } else {
        var m1 := if Holds(c.test, m) then Effect(ws, i, m) else m;
        EffectSpan(ws, i, m);
        SparedTest(c.test, m, Effect(ws, i, m), Written(ws, i, |m|));
        AllOrNothing(ws, n, c, m1);
      }
    }
  }

  lemma {:induction false} CoverUnused(ws: Codes, i: nat, a: Cover, b: Cover, m: Ram)
    requires Accepted(ws, i) && a.limit <= i && b.limit <= i
    ensures Meaning(ws, i, a, m) == Meaning(ws, i, b, m)
    decreases |ws| - i
  {
    if i < |ws| {
      var n := i + Extent(ws, i);
      assert Accepted(ws, n);
      if Opcode(ws[i]) == 14 {
      } else if IsGroup(ws[i]) {
        var k, x := Low16(ws[i]), Low24(ws[i + 1]);
        ValuesUncovered(ws, i + 2, i, k, x, a, b, m);
        CoverUnused(ws, n, a, b, WriteValues(ws, i + 2, i, k, x, a, m));
      } else {
        hide Effect, WriteValues;
        if Opcode(ws[i]) == 13 && !Holds(NextTest(ws, i), m) && n < |ws| {
          CoverUnused(ws, n + Extent(ws, n), a, b, m);
        } else {
          CoverUnused(ws, n, a, b, if Opcode(ws[i]) == 13 then m else Effect(ws, i, m));
        }
      }
    }
  }

  lemma {:induction false} ValuesUncovered(ws: Codes, k: nat, at: nat, n: nat, address: Word, a: Cover, b: Cover,
                                           m: Ram)
    requires k + n <= |ws| && a.limit <= at <= k && b.limit <= at
    ensures WriteValues(ws, k, at, n, address, a, m) == WriteValues(ws, k, at, n, address, b, m)
    decreases n
  {
    if n > 0 {
      ValuesUncovered(ws, k + 1, k, n - 1, Plus(address, 4), a, b, Write(m, address, ws[k], 32));
    }
  }

  lemma BlockMeaning(ws: Codes, i: nat, m: Ram)
    requires i < |ws| && Extent(ws, i) == 2 && Accepted(ws, i) && Opcode(ws[i]) == 14
    ensures Accepted(ws, i + 2)
    ensures Meaning(ws, i, NO_COVER, m)
            == Meaning(ws, i + 2, Cover(i + 1 + Subcode(ws[i]), BlockTest(ws, i)), m)
  {
    hide Holds, Effect, WriteValues, Extent;
  }

  /** The frame over a compiled block: the block's writes all together or not at all, then the codes after it. */
  lemma BlockRunsAllOrNothing(name: string, ws: Codes, i: nat, m: Ram)
    requires i < |ws| && Extent(ws, i) == 2 && Accepted(ws, i) && Accepted(ws, i + 2) && WellFormed(ws, i, 0)
    requires Opcode(ws[i]) == 14 && PlainBlock(ws, i + 2, i + 1 + Subcode(ws[i]))
    requires Spares(ws, i + 2, i + 1 + Subcode(ws[i]), BlockTest(ws, i), |m|)
    ensures
      var limit := i + 1 + Subcode(ws[i]);
      var done := if Holds(BlockTest(ws, i), m) then Unguarded(ws, i + 2, limit, m) else m;
      && CompileFrom(name, ws, i, BlockOf(name, NO_COVER)).Ok?
      && Frame(CompileFrom(name, ws, i, BlockOf(name, NO_COVER)).value, m, false).ram
         == Meaning(ws, BlockEnd(ws, i + 2, limit), NO_COVER, done)
  {
    hide Holds, Unguarded, Spares, PlainBlock, Frame, CompileFrom, WellFormed, Extent, Accepted, BlockEnd, Subcode;
    var limit := i + 1 + Subcode(ws[i]);
    var c := Cover(limit, BlockTest(ws, i));
    var j := BlockEnd(ws, i + 2, limit);
    var done := if Holds(c.test, m) then Unguarded(ws, i + 2, limit, m) else m;
    FrameIsMeaning(name, ws, i, NO_COVER, m);
    BlockMeaning(ws, i, m);
    AllOrNothing(ws, i + 2, c, m);
    if j >= limit {
      CoverUnused(ws, j, c, NO_COVER, done);
    } else {
      assert Meaning(ws, j, c, done) == done == Meaning(ws, j, NO_COVER, done);
    }
  }
}
