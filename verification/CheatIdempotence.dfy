/** Running a list of value-setting cheats twice in a row is running it once, whatever their repeats, bit masks,
    sizes and overlaps, as long as no cheat disturbs the bits that an incrementing one carries along. Each RAM
    byte sees the list as one masked assignment. */
module CheatIdempotence {
  import opened Words
  import opened Memory
  import opened CheatVm

  // ---------------------------------------------------------------- masked assignments of a byte

  datatype Patch = Patch(mask: bv8, bits: bv8)

  const NO_PATCH := Patch(0, 0)

  predicate Proper(p: Patch) { p.bits & !p.mask == 0 }

  function Patched(p: Patch, b: bv8): bv8 { (b & !p.mask) | p.bits }

  function Then(p: Patch, q: Patch): Patch { Patch(p.mask | q.mask, (p.bits & !q.mask) | q.bits) }

  lemma ThenComposes(p: Patch, q: Patch, b: bv8)
    ensures Patched(Then(p, q), b) == Patched(q, Patched(p, b))
  {
  }

  lemma ThenProper(p: Patch, q: Patch)
    requires Proper(p) && Proper(q)
    ensures Proper(Then(p, q))
  {
  }

  lemma PatchTwice(p: Patch, b: bv8)
    requires Proper(p)
    ensures Patched(p, Patched(p, b)) == Patched(p, b)
  {
  }

  // ---------------------------------------------------------------- stores as patches of the byte at x

  function BitsAt(m: Ram, x: nat): bv8
    requires x < |m|
  {
    ToByteBits(m[x])
  }

  /** The byte at x sees the step from m to r as the patch p. */
  predicate Sees(m: Ram, r: Ram, x: nat, p: Patch) {
    |m| == |r| && x < |m| && Proper(p) && BitsAt(r, x) == Patched(p, BitsAt(m, x))
  }

  lemma SeesThen(m: Ram, r: Ram, s: Ram, x: nat, p: Patch, q: Patch)
    requires Sees(m, r, x, p) && Sees(r, s, x, q)
    ensures Sees(m, s, x, Then(p, q))
  {
    hide Patched, Then, Proper;
    ThenComposes(p, q, BitsAt(m, x));
    ThenProper(p, q);
  }

  lemma SeesNothing(m: Ram, r: Ram, x: nat)
    requires |m| == |r| && x < |m| && r[x] == m[x]
    ensures Sees(m, r, x, NO_PATCH)
  {
    NoPatchKeeps(BitsAt(m, x));
    hide Patched, ToByteBits;
  }

  lemma NoPatchKeeps(b: bv8)
    ensures Proper(NO_PATCH) && Patched(NO_PATCH, b) == b
  {
  }

  function PokePatch(size: nat, addr: int, v: Word, n: nat, x: nat): Patch
    requires size > 0 && n <= 4
  {
    if n == 0 then NO_PATCH
    else
      var last := if (addr + n - 1) % size == x then Patch(0xff, ToByteBits(ByteOf(v, n - 1))) else NO_PATCH;
      Then(PokePatch(size, addr, v, n - 1, x), last)
  }

  lemma FullPatch(b: bv8, c: bv8)
    ensures Proper(Patch(0xff, c)) && Patched(Patch(0xff, c), b) == c
  {
  }

  lemma {:induction false} PokeSeen(m: Ram, addr: int, v: Word, n: nat, x: nat)
    requires n <= 4 && x < |m|
    ensures Sees(m, PokeBytes(m, addr, v, n), x, PokePatch(|m|, addr, v, n, x))
  {
    hide Patched, Then, Proper, ToByteBits, ByteOf;
    if n == 0 {
      SeesNothing(m, m, x);
    } else {
      var r, s := PokeBytes(m, addr, v, n - 1), PokeBytes(m, addr, v, n);
      PokeSeen(m, addr, v, n - 1, x);
      if (addr + n - 1) % |m| == x {
        FullPatch(BitsAt(r, x), ToByteBits(ByteOf(v, n - 1)));
        SeesThen(m, r, s, x, PokePatch(|m|, addr, v, n - 1, x), Patch(0xff, ToByteBits(ByteOf(v, n - 1))));
      } else {
        SeesNothing(r, s, x);
        SeesThen(m, r, s, x, PokePatch(|m|, addr, v, n - 1, x), NO_PATCH);
      }
    }
  }

  /** Repeated stores of whole bytes. */
  function WidePatch(ram: nat, size: Word, addr: Word, v: Word, stride: Word, increment: Word, n: nat, x: nat): Patch
    requires ram > 0
    decreases n
  {
    if n == 0 then NO_PATCH
    else
      Then(PokePatch(ram, addr, v, Width(size), x),
           WidePatch(ram, size, Plus(addr, stride), Plus(v, increment), stride, increment, n - 1, x))
  }

  lemma {:induction false} WideSeen(m: Ram, size: Word, mask: Byte, addr: Word, v: Word, stride: Word, increment: Word,
                                   n: nat, x: nat)
    requires size >= 8 && x < |m|
    ensures Sees(m, Store(m, size, mask, addr, v, stride, increment, n), x,
                 WidePatch(|m|, size, addr, v, stride, increment, n, x))
    decreases n
  {
    hide Patched, Then, Proper, PokeBytes, Read, PokePatch;
    if n == 0 {
      SeesNothing(m, m, x);
    } else {
      var r := Write(m, addr, v, size);
      PokeSeen(m, addr, v, Width(size), x);
      WideSeen(r, size, mask, Plus(addr, stride), Plus(v, increment), stride, increment, n - 1, x);
      SeesThen(m, r, Store(m, size, mask, addr, v, stride, increment, n), x,
               PokePatch(|m|, addr, v, Width(size), x),
               WidePatch(|m|, size, Plus(addr, stride), Plus(v, increment), stride, increment, n - 1, x));
    }
  }

  function And(a: bv8, b: bv8): bv8 { a & b }

  function MaskedLow(v: Word, mask: Byte): bv8 { And(ToByteBits(ByteOf(v, 0)), ToByteBits(mask)) }

  function MergeBytes(mask: bv8, v: bv8, current: bv8): bv8 { (v & mask) | (current & !mask) }

  lemma MergeLowPart(mask: bv8, v: bv32, current: bv32)
    ensures Part(MergeWords(mask, v, current), 0) == MergeBytes(mask, Part(v, 0), Part(current, 0))
  {
  }

  lemma MergedByte(mask: bv8, v: bv8, current: bv8)
    ensures And(MergeBytes(mask, v, current), mask) == And(v, mask)
    ensures MergeBytes(mask, v, current) == Patched(Patch(mask, And(v, mask)), current)
    ensures Proper(Patch(mask, And(v, mask)))
  {
  }

  lemma MergeLow(mask: Byte, v: Word, current: Word)
    ensures MaskedLow(Merge(mask, v, current), mask) == MaskedLow(v, mask)
    ensures ToByteBits(ByteOf(Merge(mask, v, current), 0))
            == Patched(Patch(ToByteBits(mask), MaskedLow(v, mask)), ToByteBits(ByteOf(current, 0)))
    ensures Proper(Patch(ToByteBits(mask), MaskedLow(v, mask)))
  {
    hide And, Patched, Proper, MergeBytes, ToBits, FromBits, MergeWords, Part, ByteOf, ToByteBits, FromByteBits;
    var w := MergeWords(ToByteBits(mask), ToBits(v), ToBits(current));
    MergeLowPart(ToByteBits(mask), ToBits(v), ToBits(current));
    MergedByte(ToByteBits(mask), Part(ToBits(v), 0), Part(ToBits(current), 0));
    ByteOfFromBits(w, 0);
    BitsByte(Part(w, 0));
    PartOfToBits(v, 0);
    PartOfToBits(current, 0);
  }

  lemma NarrowStoreSeen(m: Ram, size: Word, mask: Byte, addr: Word, v: Word, x: nat)
    requires size < 8 && x < |m|
    ensures
      var w := Merge(mask, v, Read(m, addr, size));
      && MaskedLow(w, mask) == MaskedLow(v, mask)
      && Sees(m, Write(m, addr, w, size), x,
              if addr % |m| == x then Patch(ToByteBits(mask), MaskedLow(v, mask)) else NO_PATCH)
  {
    hide Patched, Proper, ToByteBits, MaskedLow, Merge, Read;
    var current := Read(m, addr, size);
    var w := Merge(mask, v, current);
    var r := Write(m, addr, w, size);
    MergeLow(mask, v, current);
    ReadGivesByte(m, addr, size, 0);
    assert PokeBytes(m, addr, w, 0) == m;
    assert r == Poke(m, addr, ByteOf(w, 0));
    hide ByteOf;
    if addr % |m| != x {
      SeesNothing(m, r, x);
    }
  }

  // ---------------------------------------------------------------- what a sub-byte cheat depends on

  function Clear(b: bv8, bits: bv8): bv8 { b & !bits }

  function Both(a: bv8, b: bv8): bv8 { a | b }

  /** At the byte x, two RAMs are the same but for some bits. */
  predicate AgreeBut(m: Ram, r: Ram, x: nat, dirty: bv8) {
    |m| == |r| && x < |m| && Clear(BitsAt(m, x), dirty) == Clear(BitsAt(r, x), dirty)
  }

  /** The bytes a repeated store passes before its last repeat, whose bits it carries along. */
  function Passed(ram: nat, addr: Word, stride: Word, n: nat): set<nat>
    requires ram > 0
    decreases n
  {
    if n <= 1 then {} else {addr % ram} + Passed(ram, Plus(addr, stride), stride, n - 1)
  }

  /** Two RAMs keep the same bits of the given bytes out of a mask's reach. */
  predicate SameKept(m: Ram, r: Ram, mask: bv8, passed: set<nat>) {
    |m| == |r| && forall y :: y in passed && y < |m| ==> AgreeBut(m, r, y, mask)
  }

  /** What the byte x sees of repeated sub-byte stores that find the RAM m: each value takes the bits it keeps
      from m, and carries them into the next one. */
  function StoredPatch(m: Ram, mask: Byte, addr: Word, v: Word, stride: Word, increment: Word, n: nat, x: nat): Patch
    decreases n
  {
    if n == 0 then NO_PATCH
    else
      var w := Merge(mask, v, Peek(m, addr));
      Then(if addr % |m| == x then Patch(ToByteBits(mask), MaskedLow(v, mask)) else NO_PATCH,
           StoredPatch(m, mask, Plus(addr, stride), Plus(w, increment), stride, increment, n - 1, x))
  }

  lemma MergeDependsOnKept(mask: bv8, v: bv32, a: bv32, b: bv32)
    requires Part(a, 0) & !mask == Part(b, 0) & !mask
    ensures MergeWords(mask, v, a) == MergeWords(mask, v, b)
  {
  }

  lemma MergeKept(mask: Byte, v: Word, a: Byte, b: Byte)
    requires Clear(ToByteBits(a), ToByteBits(mask)) == Clear(ToByteBits(b), ToByteBits(mask))
    ensures Merge(mask, v, a) == Merge(mask, v, b)
  {
    PartOfToBits(a, 0);
    PartOfToBits(b, 0);
    LowByteOfByte(a);
    LowByteOfByte(b);
    hide ToBits, ToByteBits, FromBits, MergeWords, Part, ByteOf;
    MergeDependsOnKept(ToByteBits(mask), ToBits(v), ToBits(a), ToBits(b));
  }

  lemma LowByteOfByte(a: Byte)
    ensures ByteOf(a, 0) == a
  {
  }

  lemma PatchAgrees(p: Patch, b: bv8)
    ensures Clear(Patched(p, b), p.mask) == Clear(b, p.mask) || !Proper(p)
  {
  }

  /** A sub-byte store changes no bit out of its mask's reach. */
  lemma StoreKeepsKept(m: Ram, size: Word, mask: Byte, addr: Word, v: Word, y: nat)
    requires size < 8 && y < |m|
    ensures AgreeBut(m, Write(m, addr, Merge(mask, v, Read(m, addr, size)), size), y, ToByteBits(mask))
  {
    hide Patched, Proper, ToByteBits, MaskedLow, Merge, Read, Write, Clear;
    NarrowStoreSeen(m, size, mask, addr, v, y);
    PatchAgrees(Patch(ToByteBits(mask), MaskedLow(v, mask)), BitsAt(m, y));
    NoPatchKeeps(BitsAt(m, y));
  }

  lemma ByteRead(m: Ram, addr: int, size: Word)
    requires size < 8
    ensures Read(m, addr, size) == Peek(m, addr)
  {
  }

  /** As long as the kept bits on the way are those of m0, the stores do to m what they do to m0. */
  lemma {:induction false} StoredSeen(m0: Ram, m: Ram, size: Word, mask: Byte, addr: Word, v: Word, stride: Word,
                                     increment: Word, n: nat, x: nat)
    requires size < 8 && x < |m| && SameKept(m0, m, ToByteBits(mask), Passed(|m|, addr, stride, n))
    ensures Sees(m, Store(m, size, mask, addr, v, stride, increment, n), x,
                 StoredPatch(m0, mask, addr, v, stride, increment, n, x))
    decreases n
  {
    hide Patched, Then, Proper, Read, Write, Merge, ToByteBits, MaskedLow, AgreeBut, StoredPatch, Sees;
    if n == 0 {
      NothingStored(m0, mask, addr, v, stride, increment, x);
      SeesNothing(m, m, x);
    } else {
      var w := Merge(mask, v, Read(m, addr, size));
      var r := Write(m, addr, w, size);
      NarrowStoreSeen(m, size, mask, addr, v, x);
      StillSameKept(m0, m, r, size, mask, addr, v, Passed(|m|, Plus(addr, stride), stride, n - 1));
      StoredSeen(m0, r, size, mask, Plus(addr, stride), Plus(w, increment), stride, increment, n - 1, x);
      SeesThen(m, r, Store(m, size, mask, addr, v, stride, increment, n), x,
               if addr % |m| == x then Patch(ToByteBits(mask), MaskedLow(v, mask)) else NO_PATCH,
               StoredPatch(m0, mask, Plus(addr, stride), Plus(w, increment), stride, increment, n - 1, x));
      if n > 1 {
        KeptMerges(m0, m, size, mask, addr, v);
      }
      StoredPatchStep(m0, mask, addr, v, w, stride, increment, n, x);
    }
  }

  lemma NothingStored(m0: Ram, mask: Byte, addr: Word, v: Word, stride: Word, increment: Word, x: nat)
    ensures StoredPatch(m0, mask, addr, v, stride, increment, 0, x) == NO_PATCH
  {
  }

  /** The last repeat's value is not carried further. */
  lemma StoredPatchStep(m0: Ram, mask: Byte, addr: Word, v: Word, w: Word, stride: Word, increment: Word, n: nat,
                        x: nat)
    requires n > 0 && (n > 1 ==> w == Merge(mask, v, Peek(m0, addr)))
    ensures StoredPatch(m0, mask, addr, v, stride, increment, n, x)
            == Then(if addr % |m0| == x then Patch(ToByteBits(mask), MaskedLow(v, mask)) else NO_PATCH,
                    StoredPatch(m0, mask, Plus(addr, stride), Plus(w, increment), stride, increment, n - 1, x))
  {
    hide Then, Merge, Peek, ToByteBits, MaskedLow;
  }

  lemma StillSameKept(m0: Ram, m: Ram, r: Ram, size: Word, mask: Byte, addr: Word, v: Word, passed: set<nat>)
    requires size < 8 && SameKept(m0, m, ToByteBits(mask), passed)
    requires r == Write(m, addr, Merge(mask, v, Read(m, addr, size)), size)
    ensures SameKept(m0, r, ToByteBits(mask), passed)
  {
    hide Merge, Read, Write, ToByteBits, Clear, BitsAt;
    forall y | y in passed && y < |m|
      ensures AgreeBut(m0, r, y, ToByteBits(mask))
    {
      StoreKeepsKept(m, size, mask, addr, v, y);
    }
  }

  lemma KeptMerges(m0: Ram, m: Ram, size: Word, mask: Byte, addr: Word, v: Word)
    requires |m0| == |m| && size < 8 && AgreeBut(m0, m, addr % |m|, ToByteBits(mask))
    ensures Merge(mask, v, Read(m, addr, size)) == Merge(mask, v, Peek(m0, addr))
  {
    hide Merge, Read, ToByteBits, Clear;
    ByteRead(m, addr, size);
    MergeKept(mask, v, Peek(m, addr), Peek(m0, addr));
  }

  lemma {:induction false} StoredPatchSame(m: Ram, r: Ram, mask: Byte, addr: Word, v: Word, stride: Word,
                                          increment: Word, n: nat, x: nat)
    requires SameKept(m, r, ToByteBits(mask), Passed(|m|, addr, stride, n))
    ensures StoredPatch(m, mask, addr, v, stride, increment, n, x)
            == StoredPatch(r, mask, addr, v, stride, increment, n, x)
    decreases n
  {
    hide Then, Merge, ToByteBits, MaskedLow, Clear, StoredPatch, BitsAt;
    if n == 0 {
      NothingStored(m, mask, addr, v, stride, increment, x);
      NothingStored(r, mask, addr, v, stride, increment, x);
    } else {
      var w := Merge(mask, v, Peek(m, addr));
      if n > 1 {
        SamePeek(m, r, mask, addr, v);
      }
      StoredPatchStep(m, mask, addr, v, w, stride, increment, n, x);
      StoredPatchStep(r, mask, addr, v, w, stride, increment, n, x);
      StoredPatchSame(m, r, mask, Plus(addr, stride), Plus(w, increment), stride, increment, n - 1, x);
    }
  }

  lemma SamePeek(m: Ram, r: Ram, mask: Byte, addr: Word, v: Word)
    requires |m| == |r| && AgreeBut(m, r, addr % |m|, ToByteBits(mask))
    ensures Merge(mask, v, Peek(m, addr)) == Merge(mask, v, Peek(r, addr))
  {
    hide Merge, ToByteBits, Clear;
    MergeKept(mask, v, Peek(m, addr), Peek(r, addr));
  }

  /** Which bits of the byte x repeated sub-byte stores write, whatever they write. */
  function NarrowMask(ram: nat, mask: bv8, addr: Word, stride: Word, n: nat, x: nat): bv8
    requires ram > 0
    decreases n
  {
    if n == 0 then 0
    else Both(if addr % ram == x then mask else 0, NarrowMask(ram, mask, Plus(addr, stride), stride, n - 1, x))
  }

  lemma JoinedMasks(a: bv8, b: bv8, mask: bv8)
    requires Clear(b, mask) == 0 && (a == mask || a == 0)
    ensures Clear(Both(a, b), mask) == 0
  {
  }

  lemma {:induction false} NarrowMaskInside(ram: nat, mask: bv8, addr: Word, stride: Word, n: nat, x: nat)
    requires ram > 0
    ensures Clear(NarrowMask(ram, mask, addr, stride, n, x), mask) == 0
    decreases n
  {
    if n > 0 {
      var rest := NarrowMask(ram, mask, Plus(addr, stride), stride, n - 1, x);
      NarrowMaskInside(ram, mask, Plus(addr, stride), stride, n - 1, x);
      JoinedMasks(if addr % ram == x then mask else 0, rest, mask);
      hide Clear, Both;
    } else {
      JoinedMasks(0, 0, mask);
      hide Both;
    }
  }

  lemma ThenMask(p: Patch, q: Patch)
    ensures Then(p, q).mask == Both(p.mask, q.mask)
  {
  }

  lemma {:induction false} StoredMask(m: Ram, mask: Byte, addr: Word, v: Word, stride: Word, increment: Word, n: nat,
                                      x: nat)
    ensures StoredPatch(m, mask, addr, v, stride, increment, n, x).mask
            == NarrowMask(|m|, ToByteBits(mask), addr, stride, n, x)
    decreases n
  {
    hide Then, Both, Merge, ToByteBits, MaskedLow;
    if n > 0 {
      var v1 := Plus(Merge(mask, v, Peek(m, addr)), increment);
      StoredMask(m, mask, Plus(addr, stride), v1, stride, increment, n - 1, x);
      ThenMask(if addr % |m| == x then Patch(ToByteBits(mask), MaskedLow(v, mask)) else NO_PATCH,
               StoredPatch(m, mask, Plus(addr, stride), v1, stride, increment, n - 1, x));
    }
  }

  lemma MaskedLowMerge(mask: Byte, v: Word, current: Word)
    ensures MaskedLow(Plus(Merge(mask, v, current), 0), mask) == MaskedLow(v, mask)
  {
    hide MaskedLow, Merge;
    MergeLow(mask, v, current);
  }

  /** Without an increment the kept bits are carried, but never show. */
  lemma {:induction false} FlatPatchSame(m: Ram, r: Ram, mask: Byte, addr: Word, v: Word, u: Word, stride: Word, n: nat,
                                         x: nat)
    requires |m| == |r| && MaskedLow(v, mask) == MaskedLow(u, mask)
    ensures StoredPatch(m, mask, addr, v, stride, 0, n, x) == StoredPatch(r, mask, addr, u, stride, 0, n, x)
    decreases n
  {
    hide Then, Merge, ToByteBits, MaskedLow, Plus;
    if n > 0 {
      MaskedLowMerge(mask, v, Peek(m, addr));
      MaskedLowMerge(mask, u, Peek(r, addr));
      FlatPatchSame(m, r, mask, Plus(addr, stride), Plus(Merge(mask, v, Peek(m, addr)), 0),
                    Plus(Merge(mask, u, Peek(r, addr)), 0), stride, n - 1, x);
    }
  }

  lemma SameKeptSelf(m: Ram, mask: bv8, passed: set<nat>)
    ensures SameKept(m, m, mask, passed)
  {
    hide Clear, BitsAt;
  }

  // ---------------------------------------------------------------- one cheat

  /** The record is off, or sets a value. */
  predicate Sets(c: Cheat) { !c.enabled || c.kind.Disabled? || c.kind.Unknown? || c.kind == SetValue }

  predicate Runs(c: Cheat, online: bool) { (c.builtIn || !online) && c.enabled && c.kind == SetValue }

  /** The bytes whose kept bits decide what a record stores. */
  function Sensitive(c: Cheat, online: bool, ram: nat): set<nat>
    requires ram > 0
  {
    if Runs(c, online) && c.size < 8 && c.repeatValueIncrement != 0 then
      Passed(ram, c.address, Stride(c), c.repeatCount)
    else {}
  }

  /** What the byte x sees of a record that finds the RAM m. */
  function CheatPatch(c: Cheat, online: bool, m: Ram, x: nat): Patch {
    if !Runs(c, online) then NO_PATCH
    else if c.size < 8 then
      StoredPatch(m, c.valueMask, c.address, c.value, Stride(c), c.repeatValueIncrement, c.repeatCount, x)
    else
      WidePatch(|m|, c.size, c.address, c.value, Stride(c), c.repeatValueIncrement, c.repeatCount, x)
  }

  /** Which bits of the byte x a record writes, whatever it writes. */
  function WriteMask(c: Cheat, online: bool, ram: nat, x: nat): bv8
    requires ram > 0
  {
    if !Runs(c, online) then 0
    else if c.size < 8 then NarrowMask(ram, ToByteBits(c.valueMask), c.address, Stride(c), c.repeatCount, x)
    else WidePatch(ram, c.size, c.address, c.value, Stride(c), c.repeatValueIncrement, c.repeatCount, x).mask
  }

  lemma CheatMask(c: Cheat, online: bool, m: Ram, x: nat)
    ensures CheatPatch(c, online, m, x).mask == WriteMask(c, online, |m|, x)
  {
    hide StoredPatch, NarrowMask, WidePatch, Stride;
    if c.size < 8 {
      StoredMask(m, c.valueMask, c.address, c.value, Stride(c), c.repeatValueIncrement, c.repeatCount, x);
    }
  }

  lemma CheatSeen(c: Cheat, online: bool, m: Ram, x: nat)
    requires Sets(c) && x < |m|
    ensures !Step(c, online, State(m, false)).skip
    ensures Sees(m, Step(c, online, State(m, false)).ram, x, CheatPatch(c, online, m, x))
  {
    hide Patched, Then, Proper, Read, Stride, ToByteBits, MaskedLow, WidePatch, StoredPatch, Clear;
    if !Runs(c, online) {
      SeesNothing(m, m, x);
    } else if c.size < 8 {
      SameKeptSelf(m, ToByteBits(c.valueMask), Passed(|m|, c.address, Stride(c), c.repeatCount));
      StoredSeen(m, m, c.size, c.valueMask, c.address, c.value, Stride(c), c.repeatValueIncrement, c.repeatCount, x);
    } else {
      WideSeen(m, c.size, c.valueMask, c.address, c.value, Stride(c), c.repeatValueIncrement, c.repeatCount, x);
    }
  }

  /** A record stores the same into two RAMs that keep the same bits where it is sensitive. */
  lemma CheatPatchSame(c: Cheat, online: bool, m: Ram, r: Ram, x: nat)
    requires SameKept(m, r, ToByteBits(c.valueMask), Sensitive(c, online, |m|))
    ensures CheatPatch(c, online, m, x) == CheatPatch(c, online, r, x)
  {
    hide StoredPatch, Passed, WidePatch, Stride, ToByteBits, AgreeBut;
    if Runs(c, online) && c.size < 8 {
      if c.repeatValueIncrement == 0 {
        FlatPatchSame(m, r, c.valueMask, c.address, c.value, c.value, Stride(c), c.repeatCount, x);
      } else {
        StoredPatchSame(m, r, c.valueMask, c.address, c.value, Stride(c), c.repeatValueIncrement, c.repeatCount, x);
      }
    }
  }

  // ---------------------------------------------------------------- lists of cheats

  function ListMask(cs: seq<Cheat>, online: bool, ram: nat, x: nat): bv8
    requires ram > 0
    decreases |cs|
  {
    if cs == [] then 0 else Both(WriteMask(cs[0], online, ram, x), ListMask(cs[1..], online, ram, x))
  }

  predicate Spared(later: bv8, earlier: bv8, mask: bv8) { Clear(Clear(later, earlier), mask) == 0 }

  /** No record writes a bit that one in front of it carries along, unless an earlier one has already set
      that bit in this frame. */
  predicate Undisturbed(before: seq<Cheat>, cs: seq<Cheat>, online: bool, ram: nat)
    requires ram > 0
    decreases |cs|
  {
    cs == []
    || ((forall y :: y in Sensitive(cs[0], online, ram) ==>
           Spared(ListMask(cs[1..], online, ram, y), ListMask(before, online, ram, y), ToByteBits(cs[0].valueMask)))
        && Undisturbed(before + [cs[0]], cs[1..], online, ram))
  }

  /** What the byte x sees of a list that starts on the RAM m. */
  function ListPatch(cs: seq<Cheat>, online: bool, m: Ram, x: nat): Patch
    decreases |cs|
  {
    if cs == [] then NO_PATCH
    else Then(CheatPatch(cs[0], online, m, x), ListPatch(cs[1..], online, Step(cs[0], online, State(m, false)).ram, x))
  }

  lemma {:induction false} ListPatchMask(cs: seq<Cheat>, online: bool, m: Ram, x: nat)
    ensures ListPatch(cs, online, m, x).mask == ListMask(cs, online, |m|, x)
    decreases |cs|
  {
    hide Then, Both, CheatPatch, WriteMask, Step;
    if cs != [] {
      var r := Step(cs[0], online, State(m, false)).ram;
      CheatMask(cs[0], online, m, x);
      ListPatchMask(cs[1..], online, r, x);
      ThenMask(CheatPatch(cs[0], online, m, x), ListPatch(cs[1..], online, r, x));
    }
  }

  lemma {:induction false} ListSeen(cs: seq<Cheat>, online: bool, m: Ram, x: nat)
    requires (forall c :: c in cs ==> Sets(c)) && x < |m|
    ensures !Run(cs, online, State(m, false)).skip
    ensures Sees(m, Run(cs, online, State(m, false)).ram, x, ListPatch(cs, online, m, x))
    decreases |cs|
  {
    hide Patched, Then, Proper, CheatPatch, Step, Sees;
    if cs == [] {
      SeesNothing(m, m, x);
    } else {
      CheatSeen(cs[0], online, m, x);
      var r := Step(cs[0], online, State(m, false)).ram;
      ListSeen(cs[1..], online, r, x);
      SeesThen(m, r, Run(cs, online, State(m, false)).ram, x, CheatPatch(cs[0], online, m, x),
               ListPatch(cs[1..], online, r, x));
    }
  }

  lemma {:induction false} ListMaskAppend(before: seq<Cheat>, c: Cheat, online: bool, ram: nat, x: nat)
    requires ram > 0
    ensures ListMask(before + [c], online, ram, x)
            == Both(ListMask(before, online, ram, x), WriteMask(c, online, ram, x))
    decreases |before|
  {
    hide WriteMask, Both;
    if before == [] {
      assert [c][1..] == [] && before + [c] == [c];
      BothNothing(WriteMask(c, online, ram, x));
    } else {
      assert (before + [c])[1..] == before[1..] + [c];
      ListMaskAppend(before[1..], c, online, ram, x);
      BothAssociates(WriteMask(before[0], online, ram, x), ListMask(before[1..], online, ram, x),
                     WriteMask(c, online, ram, x));
    }
  }

  lemma BothNothing(a: bv8)
    ensures Both(a, 0) == a == Both(0, a)
  {
  }

  lemma BothAssociates(a: bv8, b: bv8, c: bv8)
    ensures Both(Both(a, b), c) == Both(a, Both(b, c))
  {
  }

  /** Where two bytes agree but for bits written by this record or a later one, and not by an earlier one,
      they agree on the bits this one keeps. */
  lemma AgreeOnKept(a: bv8, b: bv8, own: bv8, later: bv8, earlier: bv8, mask: bv8)
    requires Clear(a, Clear(Both(own, later), earlier)) == Clear(b, Clear(Both(own, later), earlier))
    requires Clear(own, mask) == 0 && Spared(later, earlier, mask)
    ensures Clear(a, mask) == Clear(b, mask)
  {
  }

  lemma AgreeAfter(a: bv8, b: bv8, p: Patch, later: bv8, earlier: bv8)
    requires Clear(a, Clear(Both(p.mask, later), earlier)) == Clear(b, Clear(Both(p.mask, later), earlier))
    ensures Clear(Patched(p, a), Clear(later, Both(earlier, p.mask)))
            == Clear(Patched(p, b), Clear(later, Both(earlier, p.mask)))
  {
  }

  lemma OwnMaskInside(c: Cheat, online: bool, ram: nat, x: nat)
    requires ram > 0 && c.size < 8
    ensures Clear(WriteMask(c, online, ram, x), ToByteBits(c.valueMask)) == 0
  {
    hide Stride, NarrowMask, ToByteBits;
    NarrowMaskInside(ram, ToByteBits(c.valueMask), c.address, Stride(c), c.repeatCount, x);
  }

  /** Two frames in step: before each record the RAMs differ only in bits that some record from it on writes
      and none before it has written. */
  ghost predicate InStep(m: Ram, r: Ram, before: seq<Cheat>, cs: seq<Cheat>, online: bool) {
    && |m| == |r|
    && forall y: nat :: y < |m| ==>
         AgreeBut(m, r, y, Clear(ListMask(cs, online, |m|, y), ListMask(before, online, |m|, y)))
  }

  lemma InStepKept(m: Ram, r: Ram, before: seq<Cheat>, cs: seq<Cheat>, online: bool)
    requires cs != [] && InStep(m, r, before, cs, online) && Undisturbed(before, cs, online, |m|)
    ensures SameKept(m, r, ToByteBits(cs[0].valueMask), Sensitive(cs[0], online, |m|))
  {
    hide Clear, Both, Spared, WriteMask, ToByteBits, Passed;
    var c := cs[0];
    forall y | y in Sensitive(c, online, |m|) && y < |m|
      ensures AgreeBut(m, r, y, ToByteBits(c.valueMask))
    {
      OwnMaskInside(c, online, |m|, y);
      AgreeOnKept(BitsAt(m, y), BitsAt(r, y), WriteMask(c, online, |m|, y), ListMask(cs[1..], online, |m|, y),
                  ListMask(before, online, |m|, y), ToByteBits(c.valueMask));
    }
  }

  lemma InStepNext(m: Ram, r: Ram, before: seq<Cheat>, cs: seq<Cheat>, online: bool)
    requires cs != [] && Sets(cs[0]) && InStep(m, r, before, cs, online)
    requires forall x :: CheatPatch(cs[0], online, m, x) == CheatPatch(cs[0], online, r, x)
    ensures InStep(Step(cs[0], online, State(m, false)).ram, Step(cs[0], online, State(r, false)).ram,
                   before + [cs[0]], cs[1..], online)
  {
    hide Clear, Both, WriteMask, CheatPatch, Step, Patched, Proper;
    var c, m1, r1 := cs[0], Step(cs[0], online, State(m, false)).ram, Step(cs[0], online, State(r, false)).ram;
    forall y: nat | y < |m|
      ensures AgreeBut(m1, r1, y, Clear(ListMask(cs[1..], online, |m|, y), ListMask(before + [c], online, |m|, y)))
    {
      var p := CheatPatch(c, online, m, y);
      CheatSeen(c, online, m, y);
      CheatSeen(c, online, r, y);
      CheatMask(c, online, m, y);
      ListMaskAppend(before, c, online, |m|, y);
      AgreeAfter(BitsAt(m, y), BitsAt(r, y), p, ListMask(cs[1..], online, |m|, y), ListMask(before, online, |m|, y));
    }
  }

  lemma {:induction false} InStepSamePatches(m: Ram, r: Ram, before: seq<Cheat>, cs: seq<Cheat>, online: bool, x: nat)
    requires forall c :: c in cs ==> Sets(c)
    requires InStep(m, r, before, cs, online) && Undisturbed(before, cs, online, |m|)
    ensures ListPatch(cs, online, m, x) == ListPatch(cs, online, r, x)
    decreases |cs|
  {
    hide Then, CheatPatch, Step, InStep, SameKept, ListMask, Spared;
    if cs != [] {
      InStepKept(m, r, before, cs, online);
      forall y ensures CheatPatch(cs[0], online, m, y) == CheatPatch(cs[0], online, r, y) {
        CheatPatchSame(cs[0], online, m, r, y);
      }
      InStepNext(m, r, before, cs, online);
      InStepSamePatches(Step(cs[0], online, State(m, false)).ram, Step(cs[0], online, State(r, false)).ram,
                        before + [cs[0]], cs[1..], online, x);
    }
  }

  lemma ClearNothing(a: bv8)
    ensures Clear(a, 0) == a
  {
  }

  lemma FrameInStep(cs: seq<Cheat>, online: bool, m: Ram)
    requires forall c :: c in cs ==> Sets(c)
    ensures InStep(m, Run(cs, online, State(m, false)).ram, [], cs, online)
  {
    hide Run, Patched, Proper, ListPatch, Clear;
    var once := Run(cs, online, State(m, false)).ram;
    forall y: nat | y < |m|
      ensures AgreeBut(m, once, y, Clear(ListMask(cs, online, |m|, y), ListMask([], online, |m|, y)))
    {
      ListSeen(cs, online, m, y);
      ListPatchMask(cs, online, m, y);
      PatchAgrees(ListPatch(cs, online, m, y), BitsAt(m, y));
      ClearNothing(ListMask(cs, online, |m|, y));
    }
  }

  /** A second frame right after the first changes nothing, as long as no cheat disturbs another. */
  lemma SettingTwiceIsSettingOnce(cs: seq<Cheat>, online: bool, m: Ram)
    requires (forall c :: c in cs ==> Sets(c)) && Undisturbed([], cs, online, |m|)
    ensures
      var once := Run(cs, online, State(m, false)).ram;
      Run(cs, online, State(once, false)) == State(once, false)
  {
    hide Run, Sees, ListPatch, Undisturbed, InStep, Patched, Proper, ToByteBits;
    var once := Run(cs, online, State(m, false)).ram;
    var twice := Run(cs, online, State(once, false)).ram;
    FrameInStep(cs, online, m);
    ListSeen(cs, online, once, 0);
    forall x: nat | x < |m|
      ensures twice[x] == once[x]
    {
      ListSeen(cs, online, m, x);
      ListSeen(cs, online, once, x);
      InStepSamePatches(m, once, [], cs, online, x);
      SeenTwice(m, once, twice, x, ListPatch(cs, online, m, x));
    }
  }

  lemma SeenTwice(m: Ram, once: Ram, twice: Ram, x: nat, p: Patch)
    requires Sees(m, once, x, p) && Sees(once, twice, x, p)
    ensures twice[x] == once[x]
  {
    hide Patched, Proper;
    PatchTwice(p, BitsAt(m, x));
    ByteBits(once[x]);
    ByteBits(twice[x]);
  }

  // ---------------------------------------------------------------- when nothing is disturbed

  /** Cheats of which none increments below byte size disturb nothing. */
  lemma {:induction false} PlainIsUndisturbed(before: seq<Cheat>, cs: seq<Cheat>, online: bool, ram: nat)
    requires ram > 0 && forall c :: c in cs ==> (c.size < 8 ==> c.repeatValueIncrement == 0)
    ensures Undisturbed(before, cs, online, ram)
    decreases |cs|
  {
    hide ListMask, Spared;
    if cs != [] {
      assert cs[0] in cs && forall c :: c in cs[1..] ==> c in cs;
      PlainIsUndisturbed(before + [cs[0]], cs[1..], online, ram);
    }
  }

  /** Nor do any in front of the last one, whatever that is. */
  lemma LastIsUndisturbed(cs: seq<Cheat>, c: Cheat, online: bool, ram: nat)
    requires ram > 0 && forall d :: d in cs ==> (d.size < 8 ==> d.repeatValueIncrement == 0)
    ensures Undisturbed([], cs + [c], online, ram)
  {
    LastAfter([], cs, c, online, ram);
  }

  lemma {:induction false} LastAfter(before: seq<Cheat>, cs: seq<Cheat>, c: Cheat, online: bool, ram: nat)
    requires ram > 0 && forall d :: d in cs ==> (d.size < 8 ==> d.repeatValueIncrement == 0)
    ensures Undisturbed(before, cs + [c], online, ram)
    decreases |cs|
  {
    hide Passed;
    if cs == [] {
      assert cs + [c] == [c] && [c][1..] == [];
      forall y ensures Spared(0, ListMask(before, online, ram, y), ToByteBits(c.valueMask)) {
        NothingDisturbs(ListMask(before, online, ram, y), ToByteBits(c.valueMask));
      }
    } else {
      assert (cs + [c])[1..] == cs[1..] + [c];
      assert cs[0] in cs && forall d :: d in cs[1..] ==> d in cs;
      LastAfter(before + [cs[0]], cs[1..], c, online, ram);
    }
  }

  lemma NothingDisturbs(earlier: bv8, mask: bv8)
    ensures Spared(0, earlier, mask)
  {
  }

  /** A lone cheat settles, incrementing or not. */
  lemma LoneCheatSettles(c: Cheat, online: bool, m: Ram)
    requires Sets(c)
    ensures
      var once := Run([c], online, State(m, false)).ram;
      Run([c], online, State(once, false)) == State(once, false)
  {
    hide Run, Undisturbed;
    assert [] + [c] == [c];
    LastIsUndisturbed([], c, online, |m|);
    SettingTwiceIsSettingOnce([c], online, m);
  }
}
