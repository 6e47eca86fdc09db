/** What a frame does with records that are switched off, withheld online or behind a failing test, without the skip
    flag: a failing test drops the next record that is not withheld, on or off. */
module CheatFrames {
  import opened Words
  import opened Memory
  import opened CheatVm

  /** Online only built-in records are heard. */
  function Heard(cs: seq<Cheat>, online: bool): seq<Cheat> {
    if cs == [] then []
    else (if online && !cs[0].builtIn then [] else [cs[0]]) + Heard(cs[1..], online)
  }

  predicate IsTest(k: Kind) { k in {RunNextIfEq, RunNextIfNeq, RunNextIfGt, RunNextIfLt} }

  /** The relation of a test, by the difference of what is in RAM and the record's value. */
  predicate Passes(k: Kind, difference: int) {
    match k
    case RunNextIfEq => difference == 0
    case RunNextIfNeq => difference != 0
    case RunNextIfGt => difference > 0
    case RunNextIfLt => difference < 0
    case _ => true
  }

  predicate TestPasses(t: Cheat, m: Ram) {
    var found: int := Read(m, t.address, t.size);
    Passes(t.kind, found - t.value)
  }

  /** A frame over records that are heard, looking ahead in place of keeping a flag. */
  function Direct(cs: seq<Cheat>, m: Ram): (r: Ram)
    ensures |r| == |m|
    decreases |cs|
  {
    if cs == [] then m
    else if !cs[0].enabled then Direct(cs[1..], m)
    else if !IsTest(cs[0].kind) then Direct(cs[1..], Act(cs[0], m))
    else if TestPasses(cs[0], m) || |cs| == 1 then Direct(cs[1..], m)
    else Direct(cs[2..], m)
  }

  lemma SkipsWhenFailing(c: Cheat, m: Ram)
    ensures Skips(c, m) <==> IsTest(c.kind) && !TestPasses(c, m)
    ensures IsTest(c.kind) ==> Act(c, m) == m
  {
    hide Read, StoreAll, CopyUp;
  }

  /** A record that is not heard might as well not be there, a pending skip or not. */
  lemma {:induction false} HeardOnly(cs: seq<Cheat>, online: bool, s: State)
    ensures Run(cs, online, s) == Run(Heard(cs, online), false, s)
    decreases |cs|
  {
    hide Act, Skips;
    if cs != [] {
      HeardOnly(cs[1..], online, Step(cs[0], online, s));
      if online && !cs[0].builtIn {
        assert [] + Heard(cs[1..], online) == Heard(cs[1..], online);
      } else {
        assert ([cs[0]] + Heard(cs[1..], online))[1..] == Heard(cs[1..], online);
      }
    }
  }

  lemma {:induction false} RunIsDirect(cs: seq<Cheat>, m: Ram)
    ensures Run(cs, false, State(m, false)).ram == Direct(cs, m)
    ensures Run(cs, false, State(m, true)).ram == if cs == [] then m else Direct(cs[1..], m)
    decreases |cs|
  {
    hide Act, Skips, TestPasses;
    if cs != [] {
      SkipsWhenFailing(cs[0], m);
      RunIsDirect(cs[1..], m);
      RunIsDirect(cs[1..], Act(cs[0], m));
      assert |cs| > 1 ==> cs[1..][1..] == cs[2..];
    }
  }

  /** The frame with its flag is the frame that looks ahead. */
  lemma FrameIsDirect(cs: seq<Cheat>, online: bool, m: Ram)
    ensures Run(cs, online, State(m, false)).ram == Direct(Heard(cs, online), m)
  {
    HeardOnly(cs, online, State(m, false));
    RunIsDirect(Heard(cs, online), m);
  }

  /** A failing test takes the next record that is heard out of the frame, be it on or off. */
  lemma FailedTestDropsNext(t: Cheat, d: Cheat, rest: seq<Cheat>, online: bool, m: Ram)
    requires t.enabled && IsTest(t.kind) && !TestPasses(t, m) && (online ==> t.builtIn && d.builtIn)
    ensures Run([t, d] + rest, online, State(m, false)) == Run(rest, online, State(m, false))
  {
    hide Act, Skips, TestPasses;
    SkipsWhenFailing(t, m);
    var cs := [t, d] + rest;
    assert cs[1..] == [d] + rest && cs[1..][1..] == rest;
  }

  /** A record that is off changes nothing unless a skip is pending. */
  lemma OffChangesNothing(d: Cheat, rest: seq<Cheat>, online: bool, m: Ram)
    requires !d.enabled
    ensures Run([d] + rest, online, State(m, false)) == Run(rest, online, State(m, false))
  {
    assert ([d] + rest)[1..] == rest;
  }

  // ---------------------------------------------------------------- repeats and copies

  /** The k-th of some values or addresses a step apart, in 32 bits. */
  function Nth(first: Word, step: Word, k: nat): Word { (first + k * step) % TWO_32 }

  lemma NthMore(first: Word, step: Word, k: nat)
    ensures Nth(Plus(first, step), step, k) == Nth(first, step, k + 1)
    ensures Nth(first, step, 0) == first
  {
    var a := first + step;
    assert a == TWO_32 * (a / TWO_32) + a % TWO_32;
    assert first + (k + 1) * step == TWO_32 * (a / TWO_32) + (a % TWO_32 + k * step);
    SameRemainder(a % TWO_32 + k * step, a / TWO_32);
  }

  lemma SameRemainder(x: nat, q: nat)
    ensures (TWO_32 * q + x) % TWO_32 == x % TWO_32
  {
  }

  /** Whole-byte stores, the k-th of them with its own address and value. */
  function StoreEach(m: Ram, size: Word, addr: Word, v: Word, stride: Word, increment: Word, n: nat): (r: Ram)
    ensures |r| == |m|
  {
    if n == 0 then m
    else
      Write(StoreEach(m, size, addr, v, stride, increment, n - 1), Nth(addr, stride, n - 1), Nth(v, increment, n - 1),
            size)
  }

  lemma {:induction false} StoreEachMore(m: Ram, size: Word, addr: Word, v: Word, stride: Word, increment: Word, n: nat)
    ensures StoreEach(m, size, addr, v, stride, increment, n + 1)
            == StoreEach(Write(m, addr, v, size), size, Plus(addr, stride), Plus(v, increment), stride, increment, n)
    decreases n
  {
    hide Write, Nth;
    NthMore(addr, stride, 0);
    NthMore(v, increment, 0);
    if n > 0 {
      StoreEachMore(m, size, addr, v, stride, increment, n - 1);
      NthMore(addr, stride, n - 1);
      NthMore(v, increment, n - 1);
    }
  }

  /** A repeated store of whole bytes: the k-th value, k increments on, at the k-th address, k strides on. */
  lemma {:induction false} StoresProgress(m: Ram, size: Word, mask: Byte, addr: Word, v: Word, stride: Word,
                                          increment: Word, n: nat)
    requires size >= 8
    ensures Store(m, size, mask, addr, v, stride, increment, n) == StoreEach(m, size, addr, v, stride, increment, n)
    decreases n
  {
    hide Write, Read, StoreEach, Merge;
    if n == 0 {
      NothingStored(m, size, addr, v, stride, increment);
    } else {
      StoresProgress(Write(m, addr, v, size), size, mask, Plus(addr, stride), Plus(v, increment), stride, increment,
                     n - 1);
      StoreEachMore(m, size, addr, v, stride, increment, n - 1);
    }
  }

  lemma NothingStored(m: Ram, size: Word, addr: Word, v: Word, stride: Word, increment: Word)
    ensures StoreEach(m, size, addr, v, stride, increment, 0) == m
  {
  }

  /** Copies of any width, the k-th of them k bytes on at either end. */
  function CopyEach(m: Ram, src: Word, dst: Word, bits: Word, n: nat): (r: Ram)
    ensures |r| == |m|
  {
    if n == 0 then m
    else
      var r := CopyEach(m, src, dst, bits, n - 1);
      Write(r, Nth(dst, 1, n - 1), Read(r, Nth(src, 1, n - 1), bits), bits)
  }

  lemma {:induction false} CopyEachMore(m: Ram, src: Word, dst: Word, bits: Word, n: nat)
    ensures CopyEach(m, src, dst, bits, n + 1)
            == CopyEach(Write(m, dst, Read(m, src, bits), bits), Plus(src, 1), Plus(dst, 1), bits, n)
    decreases n
  {
    hide Write, Read, Nth;
    NthMore(src, 1, 0);
    NthMore(dst, 1, 0);
    if n > 0 {
      CopyEachMore(m, src, dst, bits, n - 1);
      NthMore(src, 1, n - 1);
      NthMore(dst, 1, n - 1);
    }
  }

  lemma {:induction false} CopiesProgress(m: Ram, src: Word, dst: Word, bits: Word, n: nat)
    ensures CopyUp(m, src, dst, bits, n) == CopyEach(m, src, dst, bits, n)
    decreases n
  {
    hide Write, Read;
    if n > 0 {
      CopiesProgress(Write(m, dst, Read(m, src, bits), bits), Plus(src, 1), Plus(dst, 1), bits, n - 1);
      CopyEachMore(m, src, dst, bits, n - 1);
    }
  }

  /** What one enabled record does by itself, kind by kind. */
  lemma RecordActs(c: Cheat, m: Ram)
    requires c.size >= 8
    ensures
      var stride := c.repeatAddressIncrement * c.size % TWO_32 / 8;
      var first := match c.kind
                   case Increase => (Read(m, c.address, c.size) + c.value) % TWO_32
                   case Decrease => (Read(m, c.address, c.size) + TWO_32 - c.value) % TWO_32
                   case _ => c.value;
      Act(c, m)
      == if c.kind in {SetValue, Increase, Decrease}
         then StoreEach(m, c.size, c.address, first, stride, c.repeatValueIncrement, c.repeatCount)
         else if c.kind == Copy then CopyEach(m, c.address, c.destAddress, c.size, c.repeatCount)
         else m
  {
    hide Write, Read, StoreEach, CopyEach, Store, CopyUp;
    match c.kind
    case SetValue => Stored(c, c.value, m);
    case Increase => Stored(c, Plus(Read(m, c.address, c.size), c.value), m);
    case Decrease =>
      MinusIs(Read(m, c.address, c.size), c.value);
      Stored(c, Minus(Read(m, c.address, c.size), c.value), m);
    case Copy => CopiesProgress(m, c.address, c.destAddress, c.size, c.repeatCount);
    case _ =>
  }

  lemma MinusIs(a: Word, b: Word)
    ensures Minus(a, b) == (a + TWO_32 - b) % TWO_32
  {
  }

  lemma Stored(c: Cheat, v: Word, m: Ram)
    requires c.size >= 8
    ensures
      var stride := c.repeatAddressIncrement * c.size % TWO_32 / 8;
      StoreAll(c, v, m) == StoreEach(m, c.size, c.address, v, stride, c.repeatValueIncrement, c.repeatCount)
  {
    hide StoreEach, Store;
    StoresProgress(m, c.size, c.valueMask, c.address, v, Stride(c), c.repeatValueIncrement, c.repeatCount);
  }
}
