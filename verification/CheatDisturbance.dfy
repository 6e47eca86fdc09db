/** Exactly when value-setting cheats settle after one frame: some may increment below byte size and carry bits along,
    others may disturb those. For a pair, from the RAM alone; for any list, from its two frames. */
module CheatDisturbance {
  import opened Words
  import opened Memory
  import opened CheatVm
  import opened CheatIdempotence

  /** What a record stores at the byte x when it finds a RAM, without the bits another record then replaces. */
  function Surviving(c: Cheat, d: Cheat, online: bool, m: Ram, x: nat): bv8 {
    Clear(CheatPatch(c, online, m, x).bits, WriteMask(d, online, |m|, x))
  }

  function Alone(d: Cheat, online: bool, m: Ram): (r: Ram)
    ensures |r| == |m|
  {
    Step(d, online, State(m, false)).ram
  }

  predicate Settles(cs: seq<Cheat>, online: bool, m: Ram) {
    var once := Run(cs, online, State(m, false)).ram;
    Run(cs, online, State(once, false)) == State(once, false)
  }

  lemma ReplacesOwnBits(p: Patch, p2: Patch, b: bv8)
    requires p.mask == p2.mask && Proper(p)
    ensures Patched(p2, Patched(p, b)) == Patched(p2, b)
  {
  }

  lemma SamePatched(p: Patch, p2: Patch, b: bv8)
    requires p.mask == p2.mask && Proper(p) && Proper(p2)
    ensures Patched(p, b) == Patched(p2, b) <==> p.bits == p2.bits
  {
  }

  lemma ThenBits(p: Patch, q: Patch)
    ensures Then(p, q).mask == Both(p.mask, q.mask) && Then(p, q).bits == Both(Clear(p.bits, q.mask), q.bits)
  {
  }

  lemma BothUndone(a: bv8, c: bv8, mask: bv8)
    requires Clear(c, mask) == 0
    ensures Clear(Both(Clear(a, mask), c), mask) == Clear(a, mask)
  {
  }

  lemma ProperBits(q: Patch)
    ensures Proper(q) <==> Clear(q.bits, q.mask) == 0
  {
  }

  lemma SameBehind(p: Patch, p2: Patch, q: Patch)
    requires p.mask == p2.mask && Proper(q)
    ensures Then(p, q).mask == Then(p2, q).mask
    ensures Then(p, q).bits == Then(p2, q).bits <==> Clear(p.bits, q.mask) == Clear(p2.bits, q.mask)
  {
    hide Then, Both, Clear, Proper;
    ThenBits(p, q);
    ThenBits(p2, q);
    ProperBits(q);
    BothUndone(p.bits, q.bits, q.mask);
    BothUndone(p2.bits, q.bits, q.mask);
  }

  /** One byte through two frames of two patches, of which the first may change in between. */
  lemma TwiceIsOnce(p: Patch, p2: Patch, q: Patch, b: bv8)
    requires p.mask == p2.mask && Proper(p) && Proper(p2) && Proper(q)
    ensures Patched(Then(p2, q), Patched(Then(p, q), b)) == Patched(Then(p, q), b)
            <==> Clear(p.bits, q.mask) == Clear(p2.bits, q.mask)
  {
    hide Patched, Then, Proper, Clear;
    ThenProper(p, q);
    ThenProper(p2, q);
    SameBehind(p, p2, q);
    ReplacesOwnBits(Then(p, q), Then(p2, q), b);
    SamePatched(Then(p, q), Then(p2, q), b);
  }

  lemma AppliedAgree(p: Patch, q: Patch, b: bv8, mask: bv8)
    requires Clear(p.mask, mask) == 0 && Proper(p)
    ensures Clear(Patched(q, Patched(p, b)), mask) == Clear(Patched(q, b), mask)
  {
  }

  lemma PairPatch(c: Cheat, d: Cheat, online: bool, m: Ram, x: nat)
    ensures ListPatch([c, d], online, m, x)
            == Then(CheatPatch(c, online, m, x), CheatPatch(d, online, Alone(c, online, m), x))
  {
    hide CheatPatch, Step;
    var p, q := CheatPatch(c, online, m, x), CheatPatch(d, online, Alone(c, online, m), x);
    assert [c, d][1..] == [d] && [d][1..] == [];
    assert ListPatch([d], online, Alone(c, online, m), x) == Then(q, NO_PATCH);
    ThenNothing(q);
  }

  lemma ThenNothing(p: Patch)
    ensures Then(p, NO_PATCH) == p
  {
  }

  /** The second record stores the same whatever it finds. */
  lemma FixedPatch(d: Cheat, online: bool, m: Ram, r: Ram, x: nat)
    requires |m| == |r| && Sensitive(d, online, |m|) == {}
    ensures CheatPatch(d, online, m, x) == CheatPatch(d, online, r, x)
  {
    hide CheatPatch, Sensitive;
    CheatPatchSame(d, online, m, r, x);
  }

  /** After a whole frame the first record finds the bits it keeps as the second one alone would have left them. */
  lemma KeptAsAlone(c: Cheat, d: Cheat, online: bool, m: Ram, once: Ram)
    requires Sets(c) && Sets(d) && Sensitive(d, online, |m|) == {} && c.size < 8
    requires once == Run([c, d], online, State(m, false)).ram
    ensures SameKept(once, Alone(d, online, m), ToByteBits(c.valueMask), Sensitive(c, online, |m|))
  {
    hide Run, Sees, CheatPatch, ListPatch, Sensitive, Clear, Patched, Then, WriteMask, ToByteBits, Step;
    forall y: nat | y < |m|
      ensures AgreeBut(once, Alone(d, online, m), y, ToByteBits(c.valueMask))
    {
      PairByte(c, d, online, m, once, y);
      CheatSeen(d, online, m, y);
      FixedPatch(d, online, m, Alone(c, online, m), y);
      CheatMask(c, online, m, y);
      OwnMaskInside(c, online, |m|, y);
      AppliedAgree(CheatPatch(c, online, m, y), CheatPatch(d, online, m, y), BitsAt(m, y), ToByteBits(c.valueMask));
      SeenBits(m, Alone(d, online, m), y, CheatPatch(d, online, m, y));
    }
  }

  lemma SeenBits(m: Ram, r: Ram, x: nat, p: Patch)
    requires Sees(m, r, x, p)
    ensures |m| == |r| && x < |m| && Proper(p) && BitsAt(r, x) == Patched(p, BitsAt(m, x))
  {
  }

  lemma PairByte(c: Cheat, d: Cheat, online: bool, m: Ram, once: Ram, x: nat)
    requires Sets(c) && Sets(d) && x < |m| && once == Run([c, d], online, State(m, false)).ram
    ensures |once| == |m|
    ensures
      var p, q := CheatPatch(c, online, m, x), CheatPatch(d, online, Alone(c, online, m), x);
      && Proper(p) && Proper(q) && BitsAt(once, x) == Patched(Then(p, q), BitsAt(m, x))
      && BitsAt(once, x) == Patched(q, Patched(p, BitsAt(m, x)))
  {
    hide Run, CheatPatch, ListPatch, Patched, Then, Step, Sees, Proper;
    var p, q := CheatPatch(c, online, m, x), CheatPatch(d, online, Alone(c, online, m), x);
    ListSeen([c, d], online, m, x);
    PairPatch(c, d, online, m, x);
    SeenBits(m, once, x, Then(p, q));
    CheatSeen(c, online, m, x);
    SeenBits(m, Alone(c, online, m), x, p);
    CheatSeen(d, online, Alone(c, online, m), x);
    SeenBits(Alone(c, online, m), Alone(d, online, Alone(c, online, m)), x, q);
    ThenComposes(p, q, BitsAt(m, x));
  }

  /** A record and one behind it that carries nothing along settle on a RAM exactly if what the first stores
      there, but for what the second replaces, is what it would store after the second alone. */
  lemma PairSettlesExactly(c: Cheat, d: Cheat, online: bool, m: Ram)
    requires Sets(c) && Sets(d) && Sensitive(d, online, |m|) == {}
    ensures Settles([c, d], online, m)
            <==> forall x: nat | x < |m| ::
                   Surviving(c, d, online, m, x) == Surviving(c, d, online, Alone(d, online, m), x)
  {
    hide Run, Surviving, Sensitive;
    var once := Run([c, d], online, State(m, false)).ram;
    var twice := Run([c, d], online, State(once, false)).ram;
    ListSeen([c, d], online, once, 0);
    forall x: nat | x < |m|
      ensures twice[x] == once[x]
              <==> Surviving(c, d, online, m, x) == Surviving(c, d, online, Alone(d, online, m), x)
    {
      ByteSettles(c, d, online, m, once, twice, x);
    }
  }

  lemma ByteSettles(c: Cheat, d: Cheat, online: bool, m: Ram, once: Ram, twice: Ram, x: nat)
    requires Sets(c) && Sets(d) && Sensitive(d, online, |m|) == {} && x < |m|
    requires once == Run([c, d], online, State(m, false)).ram && twice == Run([c, d], online, State(once, false)).ram
    ensures twice[x] == once[x]
            <==> Surviving(c, d, online, m, x) == Surviving(c, d, online, Alone(d, online, m), x)
  {
    hide Run, CheatPatch, Patched, Then, Step, Proper, WriteMask, Clear, Sensitive, ToByteBits;
    var p, p2, q := CheatPatch(c, online, m, x), CheatPatch(c, online, once, x), CheatPatch(d, online, m, x);
    PairByte(c, d, online, m, once, x);
    PairByte(c, d, online, once, twice, x);
    FixedPatch(d, online, m, Alone(c, online, m), x);
    FixedPatch(d, online, m, Alone(c, online, once), x);
    CheatMask(c, online, m, x);
    CheatMask(c, online, once, x);
    CheatMask(d, online, m, x);
    TwiceIsOnce(p, p2, q, BitsAt(m, x));
    SameBitsSameByte(once, twice, x);
    FirstStoresAlike(c, d, online, m, once, x);
  }

  lemma FirstStoresAlike(c: Cheat, d: Cheat, online: bool, m: Ram, once: Ram, x: nat)
    requires Sets(c) && Sets(d) && Sensitive(d, online, |m|) == {} && once == Run([c, d], online, State(m, false)).ram
    ensures |once| == |m| && CheatPatch(c, online, once, x) == CheatPatch(c, online, Alone(d, online, m), x)
  {
    hide Run, CheatPatch, Step, SameKept, Passed;
    if c.size < 8 {
      KeptAsAlone(c, d, online, m, once);
      CheatPatchSame(c, online, once, Alone(d, online, m), x);
    } else {
      FixedPatch(c, online, once, Alone(d, online, m), x);
    }
  }

  lemma SameBitsSameByte(m: Ram, r: Ram, x: nat)
    requires |m| == |r| && x < |m|
    ensures m[x] == r[x] <==> BitsAt(m, x) == BitsAt(r, x)
  {
    ByteBits(m[x]);
    ByteBits(r[x]);
    hide ToByteBits;
  }

  // ---------------------------------------------------------------- lists of any records

  /** Two frames that start on two RAMs: at the byte x, every record that carries bits along stores the same in
      both, but for what the records behind it replace. */
  predicate SurviveAlike(cs: seq<Cheat>, online: bool, m: Ram, r: Ram, x: nat)
    requires |m| == |r|
    decreases |cs|
  {
    cs == []
    || ((Sensitive(cs[0], online, |m|) == {} || SurvivesAlike(cs[0], cs[1..], online, m, r, x))
        && SurviveAlike(cs[1..], online, Alone(cs[0], online, m), Alone(cs[0], online, r), x))
  }

  predicate FramesAlike(cs: seq<Cheat>, online: bool, m: Ram, r: Ram)
    requires |m| == |r|
  {
    forall x: nat | x < |m| :: SurviveAlike(cs, online, m, r, x)
  }

  predicate SurvivesAlike(c: Cheat, later: seq<Cheat>, online: bool, m: Ram, r: Ram, x: nat) {
    var replaced := ListMask(later, online, |m|, x);
    Clear(CheatPatch(c, online, m, x).bits, replaced) == Clear(CheatPatch(c, online, r, x).bits, replaced)
  }

  lemma BothApart(a: bv8, b: bv8, a2: bv8, b2: bv8, mask: bv8)
    requires Clear(b, mask) == 0 && Clear(b2, mask) == 0
    ensures Both(Clear(a, mask), b) == Both(Clear(a2, mask), b2) <==> Clear(a, mask) == Clear(a2, mask) && b == b2
  {
  }

  lemma ThenSame(p: Patch, q: Patch, p2: Patch, q2: Patch)
    requires Proper(q) && Proper(q2) && q.mask == q2.mask
    ensures Then(p, q).bits == Then(p2, q2).bits
            <==> Clear(p.bits, q.mask) == Clear(p2.bits, q.mask) && q.bits == q2.bits
  {
    hide Then, Both, Clear, Proper;
    ThenBits(p, q);
    ThenBits(p2, q2);
    ProperBits(q);
    ProperBits(q2);
    BothApart(p.bits, q.bits, p2.bits, q2.bits, q.mask);
  }

  lemma {:induction false} SameBitsExactly(cs: seq<Cheat>, online: bool, m: Ram, r: Ram, x: nat)
    requires |m| == |r| && x < |m| && forall c :: c in cs ==> Sets(c)
    ensures ListPatch(cs, online, m, x).bits == ListPatch(cs, online, r, x).bits
            <==> SurviveAlike(cs, online, m, r, x)
    decreases |cs|
  {
    hide Then, CheatPatch, Proper, Step, Clear, Sensitive, ListMask, Run, Patched;
    if cs != [] {
      var c, rest := cs[0], cs[1..];
      var m1, r1 := Alone(c, online, m), Alone(c, online, r);
      var q, q2 := ListPatch(rest, online, m1, x), ListPatch(rest, online, r1, x);
      SameBitsExactly(rest, online, m1, r1, x);
      ListSeen(rest, online, m1, x);
      ListSeen(rest, online, r1, x);
      ListPatchMask(rest, online, m1, x);
      ListPatchMask(rest, online, r1, x);
      ThenSame(CheatPatch(c, online, m, x), q, CheatPatch(c, online, r, x), q2);
      if Sensitive(c, online, |m|) == {} {
        FixedPatch(c, online, m, r, x);
      }
    }
  }

  /** Any list settles on a RAM exactly if in the second frame every record that carries bits along stores what it
      stored in the first, but for what the records behind it replace. */
  lemma ListSettlesExactly(cs: seq<Cheat>, online: bool, m: Ram)
    requires forall c :: c in cs ==> Sets(c)
    ensures
      var once := Run(cs, online, State(m, false)).ram;
      && |once| == |m|
      && (Settles(cs, online, m) <==> FramesAlike(cs, online, m, once))
  {
    hide Run, ListPatch, Patched, Proper, SurviveAlike;
    var once := Run(cs, online, State(m, false)).ram;
    var twice := Run(cs, online, State(once, false)).ram;
    ListSeen(cs, online, m, 0);
    ListSeen(cs, online, once, 0);
    forall x: nat | x < |m|
      ensures twice[x] == once[x] <==> SurviveAlike(cs, online, m, once, x)
    {
      ListByteSettles(cs, online, m, once, twice, x);
    }
    if FramesAlike(cs, online, m, once) {
      assert twice == once;
    } else {
      var x: nat :| x < |m| && !SurviveAlike(cs, online, m, once, x);
      assert twice[x] != once[x];
    }
  }

  lemma ListByteSettles(cs: seq<Cheat>, online: bool, m: Ram, once: Ram, twice: Ram, x: nat)
    requires x < |m| && forall c :: c in cs ==> Sets(c)
    requires once == Run(cs, online, State(m, false)).ram && twice == Run(cs, online, State(once, false)).ram
    ensures |m| == |once| == |twice|
    ensures twice[x] == once[x] <==> SurviveAlike(cs, online, m, once, x)
  {
    hide Run, SurviveAlike, ListPatch, Patched, Proper, Sees;
    var p, p2 := ListPatch(cs, online, m, x), ListPatch(cs, online, once, x);
    ListSeen(cs, online, m, x);
    SeenBits(m, once, x, p);
    ListSeen(cs, online, once, x);
    SeenBits(once, twice, x, p2);
    ListPatchMask(cs, online, m, x);
    ListPatchMask(cs, online, once, x);
    ReplacesOwnBits(p, p2, BitsAt(m, x));
    SamePatched(p, p2, BitsAt(m, x));
    SameBitsExactly(cs, online, m, once, x);
    SameBitsSameByte(once, twice, x);
  }

  // ---------------------------------------------------------------- two repeats, on every RAM

  /** What the second repeat of an incrementing record stores, given the byte under the first. */
  function Carried(c: Cheat, b: Byte): bv8 {
    MaskedLow(Plus(Merge(c.valueMask, c.value, b), c.repeatValueIncrement), c.valueMask)
  }

  function Zeroes(size: nat): (m: Ram)
    requires size > 0
    ensures |m| == size
  {
    seq(size, k => 0)
  }

  /** A byte at x as a record that carries nothing along leaves it. */
  function Left(d: Cheat, online: bool, ram: nat, x: nat, b: Byte): Byte
    requires ram > 0
  {
    FromByteBits(Patched(CheatPatch(d, online, Zeroes(ram), x), ToByteBits(b)))
  }

  lemma ClearOwn(mask: bv8, a: bv8, b: bv8)
    requires Clear(a, mask) == 0
    ensures Then(Patch(mask, a), Patch(mask, b)).bits == b && Then(NO_PATCH, Patch(mask, b)).bits == b
    ensures Then(Patch(mask, a), NO_PATCH).bits == a && Then(NO_PATCH, NO_PATCH).bits == 0
  {
  }

  lemma MaskedLowInside(v: Word, mask: Byte)
    ensures Clear(MaskedLow(v, mask), ToByteBits(mask)) == 0
  {
    AndInside(ToByteBits(ByteOf(v, 0)), ToByteBits(mask));
    hide ToByteBits, ByteOf, And, Clear;
  }

  lemma AndInside(a: bv8, mask: bv8)
    ensures Clear(And(a, mask), mask) == 0
  {
  }

  /** The bits two repeats store. */
  lemma TwoRepeats(c: Cheat, online: bool, m: Ram, x: nat)
    requires Runs(c, online) && c.size < 8 && c.repeatCount == 2
    ensures
      CheatPatch(c, online, m, x).bits
      == if Plus(c.address, Stride(c)) % |m| == x then Carried(c, m[c.address % |m|])
         else if c.address % |m| == x then MaskedLow(c.value, c.valueMask)
         else 0
  {
    hide Then, Merge, ToByteBits, MaskedLow, Clear, StoredPatch, Stride, Plus;
    var M, a1, inc := c.valueMask, Plus(c.address, Stride(c)), c.repeatValueIncrement;
    var w := Merge(M, c.value, m[c.address % |m|]);
    var v1 := Plus(w, inc);
    var w1 := Merge(M, v1, Peek(m, a1));
    StoredPatchStep(m, M, c.address, c.value, w, Stride(c), inc, 2, x);
    StoredPatchStep(m, M, a1, v1, w1, Stride(c), inc, 1, x);
    NothingStored(m, M, Plus(a1, Stride(c)), Plus(w1, inc), Stride(c), inc, x);
    var p := if c.address % |m| == x then Patch(ToByteBits(M), MaskedLow(c.value, M)) else NO_PATCH;
    var q := if a1 % |m| == x then Patch(ToByteBits(M), MaskedLow(v1, M)) else NO_PATCH;
    assert CheatPatch(c, online, m, x) == Then(p, Then(q, NO_PATCH));
    ThenNothing(q);
    MaskedLowInside(c.value, M);
    ClearOwn(ToByteBits(M), MaskedLow(c.value, M), MaskedLow(v1, M));
  }

  lemma LeftByte(d: Cheat, online: bool, m: Ram, x: nat)
    requires Sets(d) && Sensitive(d, online, |m|) == {} && x < |m|
    ensures Alone(d, online, m)[x] == Left(d, online, |m|, x, m[x])
  {
    hide CheatPatch, Step, Patched, Proper, ToByteBits, Sensitive;
    CheatSeen(d, online, m, x);
    FixedPatch(d, online, m, Zeroes(|m|), x);
    SeenBits(m, Alone(d, online, m), x, CheatPatch(d, online, m, x));
    ByteBits(Alone(d, online, m)[x]);
  }

  /** The second repeat stores the same, but for what the other record replaces, over a byte and over what
      the other record leaves of it. */
  predicate SameCarried(c: Cheat, d: Cheat, online: bool, ram: nat, b: Byte)
    requires ram > 0
  {
    var first, second := c.address % ram, Plus(c.address, Stride(c)) % ram;
    Clear(Carried(c, b), WriteMask(d, online, ram, second))
    == Clear(Carried(c, Left(d, online, ram, first, b)), WriteMask(d, online, ram, second))
  }

  /** A record of two repeats and one behind it settle on a RAM exactly if its second repeat stores the same. */
  lemma TwoRepeatsSettleExactly(c: Cheat, d: Cheat, online: bool, m: Ram)
    requires Runs(c, online) && c.size < 8 && c.repeatCount == 2 && Sets(d) && Sensitive(d, online, |m|) == {}
    ensures Settles([c, d], online, m) <==> SameCarried(c, d, online, |m|, m[c.address % |m|])
  {
    hide Settles, Surviving, SameCarried, Step, Sensitive, Stride, Alone;
    var second, r := Plus(c.address, Stride(c)) % |m|, Alone(d, online, m);
    PairSettlesExactly(c, d, online, m);
    SecondSurvives(c, d, online, m);
    forall x: nat | x < |m| && x != second
      ensures Surviving(c, d, online, m, x) == Surviving(c, d, online, r, x)
    {
      OthersSurvive(c, d, online, m, x);
    }
  }

  lemma OthersSurvive(c: Cheat, d: Cheat, online: bool, m: Ram, x: nat)
    requires Runs(c, online) && c.size < 8 && c.repeatCount == 2 && x != Plus(c.address, Stride(c)) % |m|
    ensures Surviving(c, d, online, m, x) == Surviving(c, d, online, Alone(d, online, m), x)
  {
    hide CheatPatch, WriteMask, Clear, Stride, MaskedLow, Carried, Step;
    TwoRepeats(c, online, m, x);
    TwoRepeats(c, online, Alone(d, online, m), x);
  }

  lemma SecondSurvives(c: Cheat, d: Cheat, online: bool, m: Ram)
    requires Runs(c, online) && c.size < 8 && c.repeatCount == 2 && Sets(d) && Sensitive(d, online, |m|) == {}
    ensures
      var x := Plus(c.address, Stride(c)) % |m|;
      Surviving(c, d, online, m, x) == Surviving(c, d, online, Alone(d, online, m), x)
      <==> SameCarried(c, d, online, |m|, m[c.address % |m|])
  {
    hide CheatPatch, WriteMask, Clear, Stride, MaskedLow, Carried, Step, Left, Sensitive;
    var x := Plus(c.address, Stride(c)) % |m|;
    TwoRepeats(c, online, m, x);
    TwoRepeats(c, online, Alone(d, online, m), x);
    LeftByte(d, online, m, c.address % |m|);
  }

  /** The same over every RAM of a size: a check of the 256 bytes. */
  lemma PairSettlesOnEveryRam(c: Cheat, d: Cheat, online: bool, ram: nat)
    requires Runs(c, online) && c.size < 8 && c.repeatCount == 2
    requires ram > 0 && Sets(d) && Sensitive(d, online, ram) == {}
    ensures (forall m: Ram | |m| == ram :: Settles([c, d], online, m))
            <==> forall b: Byte :: SameCarried(c, d, online, ram, b)
  {
    hide Settles, SameCarried, Sensitive;
    forall m: Ram | |m| == ram
      ensures Settles([c, d], online, m) <==> SameCarried(c, d, online, ram, m[c.address % ram])
    {
      TwoRepeatsSettleExactly(c, d, online, m);
    }
    if forall m: Ram | |m| == ram :: Settles([c, d], online, m) {
      forall b: Byte
        ensures SameCarried(c, d, online, ram, b)
      {
        var m: Ram := Zeroes(ram)[c.address % ram := b];
        assert Settles([c, d], online, m);
      }
    }
  }

  // ---------------------------------------------------------------- a pair that never settles

  /** The bits of the merges the example makes. */
  lemma MergedBits(v: bv32, current: bv32)
    ensures v <= 1 && current == 0 ==> MergeWords(0xF0, v, current) == 0
    ensures v == 0 && current == 0x0F ==> MergeWords(0xF0, v, current) == 0x0F
    ensures v == 0x10 && current == 0 ==> MergeWords(0xF0, v, current) == 0x10
  {
  }

  lemma LowParts(low: bv8)
    ensures Part(low as bv32, 0) == low
    ensures Part(low as bv32, 1) == 0 && Part(low as bv32, 2) == 0 && Part(low as bv32, 3) == 0
  {
  }

  lemma ByteAsWord(x: Byte)
    ensures FromBytes(x, 0, 0, 0) == x
  {
  }

  lemma KnownBytes(b: bv8)
    ensures b == 0 ==> FromByteBits(b) == 0
    ensures b == 1 ==> FromByteBits(b) == 1
    ensures b == 0x0F ==> FromByteBits(b) == 0x0F
    ensures b == 0x10 ==> FromByteBits(b) == 0x10
    ensures b == 0xF0 ==> FromByteBits(b) == 0xF0
  {
  }

  /** A byte merged as a word, down to its bits. */
  lemma MergedBytes(mask: bv8, v: bv8, current: bv8)
    ensures Merge(FromByteBits(mask), FromByteBits(v), FromByteBits(current))
            == FromBits(MergeWords(mask, v as bv32, current as bv32))
    ensures FromBits(v as bv32) == FromByteBits(v)
  {
    hide Part, FromByteBits, ToByteBits, FromBytes, MergeWords, ToBits;
    KnownBytes(0);
    BitsByte(mask);
    forall b | b in {v, current} ensures FromBits(b as bv32) == FromByteBits(b) {
      LowParts(b);
      ByteAsWord(FromByteBits(b));
    }
    BitsRoundTrip(0, v as bv32);
    BitsRoundTrip(0, current as bv32);
  }

  lemma Merges(mask: bv8, v: bv8, current: bv8, r: bv8)
    requires mask == 0xF0
    requires (v <= 1 && current == 0 && r == 0) || (v == 0 && current == r == 0x0F) || (v == r == 0x10 && current == 0)
    ensures Merge(FromByteBits(mask), FromByteBits(v), FromByteBits(current)) == FromByteBits(r)
  {
    MergedBits(v as bv32, current as bv32);
    hide Merge, MergeWords, FromBits, FromByteBits;
    MergedBytes(mask, v, current);
    MergedBytes(mask, r, r);
  }

  lemma MergeExamples(mask: Byte, v: Byte, current: Byte, r: Byte)
    requires mask == 0xF0
    requires (v <= 1 && current == 0 && r == 0) || (v == 0 && current == r == 0x0F) || (v == r == 0x10 && current == 0)
    ensures Merge(mask, v, current) == r
  {
    hide Merge, FromByteBits, ToByteBits;
    KnownBytes(0xF0);
    KnownBytes(0);
    KnownBytes(1);
    KnownBytes(0x0F);
    KnownBytes(0x10);
    forall b: bv8 ensures ToByteBits(FromByteBits(b)) == b { BitsByte(b); }
    forall x | x in {mask, v, current, r} ensures FromByteBits(ToByteBits(x)) == x { ByteBits(x); }
    Merges(ToByteBits(mask), ToByteBits(v), ToByteBits(current), ToByteBits(r));
  }

  lemma CarriedNibble(c: Cheat)
    requires c.valueMask == 0xF0 && c.value == 0 && c.repeatValueIncrement == 1
    ensures Carried(c, 0) == 0 && Carried(c, 0x0F) == 0x10
  {
    hide Merge, ToByteBits;
    MergeExamples(c.valueMask, 0, 0, 0);
    MergeExamples(c.valueMask, 0, 0x0F, 0x0F);
    NibbleBits();
  }

  lemma NibbleBits()
    ensures ToByteBits(0) == 0 && ToByteBits(1) == 1 && ToByteBits(0x0F) == 0x0F && ToByteBits(0x10) == 0x10
    ensures ToByteBits(0xF0) == 0xF0
  {
  }

  /** High nibbles counted up over two bytes, and a record that fills the low nibble of the first: whenever
      that nibble was empty, the second frame counts further than the first. */
  lemma FilledNibbleDisturbs(c: Cheat, d: Cheat, online: bool, m: Ram)
    requires Runs(c, online) && c.size < 8 && c.repeatCount == 2 && Sets(d) && Sensitive(d, online, |m|) == {}
    requires c.valueMask == 0xF0 && c.value == 0 && c.repeatValueIncrement == 1
    requires m[c.address % |m|] == 0 && Left(d, online, |m|, c.address % |m|, 0) == 0x0F
    requires WriteMask(d, online, |m|, Plus(c.address, Stride(c)) % |m|) == 0
    ensures !Settles([c, d], online, m)
  {
    hide Settles, Left, WriteMask, Stride, Sensitive, Carried;
    TwoRepeatsSettleExactly(c, d, online, m);
    CarriedNibble(c);
    ClearNothing(Carried(c, 0));
    ClearNothing(Carried(c, 0x0F));
    hide Clear;
  }

  /** What a single store of a byte does to the byte x. */
  lemma OneByteStore(d: Cheat, online: bool, m: Ram, x: nat)
    requires Runs(d, online) && d.size == 8 && d.repeatCount == 1
    ensures CheatPatch(d, online, m, x)
            == if d.address % |m| == x then Patch(0xff, ToByteBits(ByteOf(d.value, 0))) else NO_PATCH
  {
    hide ToByteBits, ByteOf, Stride, Then;
    var p := if d.address % |m| == x then Patch(0xff, ToByteBits(ByteOf(d.value, 0))) else NO_PATCH;
    assert PokePatch(|m|, d.address, d.value, 0, x) == NO_PATCH;
    NothingThen(p);
    ThenNothing(p);
  }

  lemma NothingThen(p: Patch)
    ensures Then(NO_PATCH, p) == p
  {
  }

  const COUNTING :=
    BLANK.(kind := SetValue, enabled := true, size := 4, valueMask := 0xF0, repeatCount := 2,
           repeatValueIncrement := 1, repeatAddressIncrement := 2)

  const FILLING := BLANK.(kind := SetValue, enabled := true, size := 8, value := 0x0F)

  /** One such pair, over two empty bytes. */
  lemma CountingDoesNotSettle()
    ensures Sets(COUNTING) && Sets(FILLING) && !Settles([COUNTING, FILLING], false, [0, 0])
  {
    hide Settles, CheatPatch, ToByteBits, FromByteBits, Patched;
    var m: Ram := [0, 0];
    OneByteStore(FILLING, false, m, 1);
    CheatMask(FILLING, false, m, 1);
    OneByteStore(FILLING, false, Zeroes(2), 0);
    NibbleBits();
    KnownBytes(0x0F);
    FullPatch(0, 0x0F);
    hide WriteMask;
    FilledNibbleDisturbs(COUNTING, FILLING, false, m);
  }
}
