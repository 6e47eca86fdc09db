/** Scrambled code lists: compiling one is compiling the plain list it deciphers to, and scrambling a
    plain list under any choice of keys changes nothing, but for one corner the proofs pin down. */
module CodeDeciphering {
  import opened Words
  import opened Wrappers
  import opened Memory
  import opened CheatVm
  import opened CodeCipher
  import opened GameShark
  import opened CodeMeaning

  /** The list with every code from i on deciphered, up to the first that is not supported. */
  function DecipherFrom(ws: Codes, i: nat): (r: Codes)
    ensures |r| == |ws|
    ensures forall k :: 0 <= k < i && k < |ws| ==> r[k] == ws[k]
    decreases |ws| - i
  {
    hide DecipherAt, Extent;
    if i >= |ws| then ws
    else
      DecipheredBehind(ws, i);
      var p := DecipherAt(ws, i);
      if Extent(p, i) == 0 then p else DecipherFrom(p, i + Extent(p, i))
  }

  // ---------------------------------------------------------------- a code depends on its own words only

  predicate SameBelow(a: Codes, b: Codes, n: nat) {
    |a| == |b| && forall k :: 0 <= k < n && k < |a| ==> a[k] == b[k]
  }

  lemma {:induction false} GroupIsLocal(title: string, name: string, a: Codes, b: Codes, k: nat, n: nat, address: Word,
                                       blk: Block)
    requires k + n <= |a| && SameBelow(a, b, k + n)
    ensures GroupRecords(title, name, a, k, n, address, blk) == GroupRecords(title, name, b, k, n, address, blk)
    decreases n
  {
    if n > 0 {
      GroupIsLocal(Continued(name), name, a, b, k + 1, n - 1, Plus(address, 4), blk);
    }
  }

  lemma CodeIsLocal(name: string, a: Codes, b: Codes, i: nat, blk: Block)
    requires i < |a| && Extent(a, i) > 0 && SameBelow(a, b, i + Extent(a, i))
    ensures Extent(b, i) == Extent(a, i)
    ensures CompileCode(name, a, i, blk) == CompileCode(name, b, i, blk)
  {
    if IsGroup(a[i]) {
      GroupIsLocal(name, name, a, b, i + 2, Low16(a[i]), Low24(a[i + 1]), blk);
    }
    hide GroupRecords, Guard;
  }

  lemma RejectedCode(name: string, ws: Codes, i: nat, blk: Block)
    requires i < |ws| && ws[i] < 0x1000_0000
    ensures CompileCode(name, ws, i, blk).Ok? <==> Extent(ws, i) > 0
    ensures Extent(ws, i) > 0 ==> CompileCode(name, ws, i, blk).value.next == i + Extent(ws, i)
  {
    hide GroupRecords, Guard;
  }

  // ---------------------------------------------------------------- compiling deciphers

  lemma {:induction false} CompileDeciphers(name: string, ws: Codes, i: nat, blk: Block)
    ensures CompileFrom(name, ws, i, blk) == CompileFrom(name, DecipherFrom(ws, i), i, blk)
    ensures i <= |ws| ==> (CompileFrom(name, ws, i, blk).Ok? <==> Accepted(DecipherFrom(ws, i), i))
    decreases |ws| - i
  {
    hide CompileCode, Extent, DecipherAt, DecryptCode, DecryptArg, Opcode;
    if i < |ws| {
      var p := DecipherAt(ws, i);
      var n := i + Extent(p, i);
      var d := DecipherFrom(ws, i);
      DecipheredWords(ws, i);
      DecipheredWords(d, i);
      RejectedCode(name, p, i, blk);
      if Extent(p, i) > 0 {
        CodeIsLocal(name, p, d, i, blk);
        assert DecipherAt(d, i) == d;
        var next := CompileCode(name, p, i, blk).value.block;
        CompileDeciphers(name, p, n, next);
        assert d == DecipherFrom(p, n);
      } else {
        assert d == p && DecipherAt(d, i) == d;
      }
    }
  }

  const NO_COVER := Cover(0, Test(0, 0, 0))

  /** A list compiles exactly when it deciphers to complete, supported codes. */
  lemma CompilesWhenAccepted(name: string, ws: Codes)
    ensures Compile(name, ws).Ok? <==> Accepted(DecipherFrom(ws, 0), 0)
  {
    CompileDeciphers(name, ws, 0, NO_BLOCK);
  }

  /** The main theorem: the frame run over the records of a well-formed list, scrambled or not, has
      the effect its deciphered words spell out. */
  lemma CompiledCodesKeepTheirMeaning(name: string, ws: Codes, m: Ram)
    requires Accepted(DecipherFrom(ws, 0), 0) && WellFormed(DecipherFrom(ws, 0), 0, 0)
    ensures Compile(name, ws).Ok?
    ensures Frame(Compile(name, ws).value, m, false).ram == Meaning(DecipherFrom(ws, 0), 0, NO_COVER, m)
  {
    var d := DecipherFrom(ws, 0);
    CompileDeciphers(name, ws, 0, NO_BLOCK);
    FrameIsMeaning(name, d, 0, NO_COVER, m);
    GuardUnused(name, d, 0, NO_BLOCK, BlockOf(name, NO_COVER));
  }

  /** The same behind any cheats that leave no test pending: the codes act on the RAM those leave. */
  lemma AddedCodesKeepTheirMeaning(name: string, ws: Codes, before: seq<Cheat>, m: Ram)
    requires Accepted(DecipherFrom(ws, 0), 0) && WellFormed(DecipherFrom(ws, 0), 0, 0)
    requires !Run(before, false, State(m, false)).skip
    ensures Compile(name, ws).Ok?
    ensures Run(before + EnableAll(Compile(name, ws).value), false, State(m, false)).ram
            == Meaning(DecipherFrom(ws, 0), 0, NO_COVER, Run(before, false, State(m, false)).ram)
  {
    var s := Run(before, false, State(m, false));
    CompiledCodesKeepTheirMeaning(name, ws, s.ram);
    hide Run, Compile, DecipherFrom, WellFormed, Accepted;
    RunAppend(before, EnableAll(Compile(name, ws).value), false, State(m, false));
  }

  /** A guard whose limit has passed plays no part. */
  lemma {:induction false} GuardUnused(name: string, ws: Codes, i: nat, a: Block, b: Block)
    requires a.limit <= i && b.limit <= i
    ensures CompileFrom(name, ws, i, a) == CompileFrom(name, ws, i, b)
    decreases |ws| - i
  {
    if i < |ws| {
      var p := DecipherAt(ws, i);
      CodeUnguarded(name, p, i, a, b);
      hide CompileCode, DecipherAt;
      var ra, rb := CompileCode(name, p, i, a), CompileCode(name, p, i, b);
      if ra.Ok? && ra.value.block != rb.value.block {
        GuardUnused(name, p, ra.value.next, a, b);
      }
    }
  }

  lemma CodeUnguarded(name: string, ws: Codes, i: nat, a: Block, b: Block)
    requires i < |ws| && a.limit <= i && b.limit <= i
    ensures
      var ra, rb := CompileCode(name, ws, i, a), CompileCode(name, ws, i, b);
      if ra.Ok? then
        && rb.Ok? && ra.value.cheats == rb.value.cheats && ra.value.next == rb.value.next
        && (ra.value.block == rb.value.block || (ra.value.block == a && rb.value.block == b))
      else
        ra == rb
  {
    if IsGroup(ws[i]) && i + Low16(ws[i]) + 1 < |ws| {
      GroupUnguarded(name, name, ws, i + 2, Low16(ws[i]), Low24(ws[i + 1]), a, b);
    }
    hide GroupRecords;
  }

  lemma {:induction false} GroupUnguarded(title: string, name: string, ws: Codes, k: nat, n: nat, address: Word,
                                         a: Block, b: Block)
    requires k + n <= |ws| && a.limit <= k && b.limit <= k
    ensures GroupRecords(title, name, ws, k, n, address, a) == GroupRecords(title, name, ws, k, n, address, b)
    decreases n
  {
    if n > 0 {
      GroupUnguarded(Continued(name), name, ws, k + 1, n - 1, Plus(address, 4), a, b);
    }
  }

  // ---------------------------------------------------------------- scrambling

  /** One key nibble a word; zero leaves the code that starts there plain. */
  predicate AreKeys(keys: seq<int>, n: nat) { |keys| == n && forall k :: 0 <= k < n ==> 0 <= keys[k] <= 15 }

  lemma PlainFirstWord(ws: Codes, i: nat)
    requires i < |ws| && Extent(ws, i) > 0
    ensures ws[i] < 0x1000_0000 && i + Extent(ws, i) <= |ws|
  {
  }

  lemma ScrambledExtent(ws: Codes, i: nat)
    requires i < |ws| && Extent(ws, i) > 0
    ensures Opcode(ws[i]) == 4 ==> Extent(ws, i) == 3
    ensures Opcode(ws[i]) == 13 ==> Extent(ws, i) == 2
  {
  }

  /** The arguments published codes scramble along with the code at i. */
  function EncipherArgs(ws: Codes, i: nat, a: Codes): (r: Codes)
    requires i < |ws| && Extent(ws, i) > 0 && |a| == |ws|
    ensures |r| == |ws|
  {
    hide Extent, Opcode, EncryptArg;
    ScrambledExtent(ws, i);
    if Opcode(ws[i]) == 4 then With(With(a, i + 1, EncryptArg(ws[i + 1])), i + 2, EncryptArg(ws[i + 2]))
    else if Opcode(ws[i]) == 13 then With(a, i + 1, EncryptArg(ws[i + 1]))
    else a
  }

  /** The code at i under a key. */
  function EncipherAt(ws: Codes, i: nat, key: int): (r: Codes)
    requires i < |ws| && Extent(ws, i) > 0 && 0 <= key <= 15
    ensures |r| == |ws|
  {
    if key == 0 then ws else EncipherArgs(ws, i, ws[i := EncryptCode(ws[i], key)])
  }

  lemma EncipheredOutside(ws: Codes, i: nat, key: int, k: nat)
    requires i < |ws| && Extent(ws, i) > 0 && 0 <= key <= 15 && k < |ws| && (k < i || k >= i + Extent(ws, i))
    ensures EncipherAt(ws, i, key)[k] == ws[k]
  {
    hide EncryptCode, EncryptArg, Extent, Opcode;
    ScrambledExtent(ws, i);
  }

  function EncipherFrom(ws: Codes, i: nat, keys: seq<int>): (r: Codes)
    requires Accepted(ws, i) && AreKeys(keys, |ws|)
    ensures |r| == |ws|
    ensures forall k :: 0 <= k < i && k < |ws| ==> r[k] == ws[k]
    decreases |ws| - i
  {
    hide EncipherAt, Extent;
    if i == |ws| then ws
    else
      var n := i + Extent(ws, i);
      var rest := EncipherFrom(ws, n, keys);
      CodeIsLocal("", ws, rest, i, NO_BLOCK);
      assert forall k: nat :: k < i ==> EncipherAt(rest, i, keys[i])[k] == rest[k] by {
        forall k: nat | k < i ensures EncipherAt(rest, i, keys[i])[k] == rest[k] {
          EncipheredOutside(rest, i, keys[i], k);
        }
      }
      EncipherAt(rest, i, keys[i])
  }

  /** The last code is a scrambled one-shot conditional: the one code whose argument stays scrambled. */
  predicate EndsInScrambledTest(ws: Codes, i: nat, keys: seq<int>)
    requires Accepted(ws, i) && AreKeys(keys, |ws|)
    decreases |ws| - i
  {
    i < |ws|
    && (var n := i + Extent(ws, i);
        if n == |ws| then Opcode(ws[i]) == 13 && keys[i] != 0 else EndsInScrambledTest(ws, n, keys))
  }

  function LastScrambled(ws: Codes): Codes
    requires ws != []
  {
    ws[|ws| - 1 := EncryptArg(ws[|ws| - 1])]
  }

  lemma DecipherEnciphered(ws: Codes, i: nat, key: int)
    requires i < |ws| && Extent(ws, i) > 0 && 0 <= key <= 15
    ensures
      DecipherAt(EncipherAt(ws, i, key), i)
      == if key != 0 && Opcode(ws[i]) == 13 && i + 2 == |ws| then LastScrambled(ws) else ws
  {
    hide DecryptCode, EncryptCode, DecryptArg, EncryptArg, Extent, Opcode;
    var w := ws[i];
    PlainFirstWord(ws, i);
    ScrambledExtent(ws, i);
    if key != 0 {
      CodeRoundTrip(w, key);
      forall k | i < k < |ws| ensures DecryptArg(EncryptArg(ws[k])) == ws[k] { ArgRoundTrip(ws[k]); }
      var e := EncipherAt(ws, i, key);
      assert e[i] == EncryptCode(w, key);
    }
  }

  lemma {:induction false} DecipherInverts(ws: Codes, i: nat, keys: seq<int>)
    requires Accepted(ws, i) && AreKeys(keys, |ws|)
    ensures DecipherFrom(EncipherFrom(ws, i, keys), i)
            == if EndsInScrambledTest(ws, i, keys) then LastScrambled(ws) else ws
    decreases |ws| - i
  {
    hide DecipherAt, EncipherAt, EncryptArg;
    if i < |ws| {
      var n := i + Extent(ws, i);
      var rest := EncipherFrom(ws, n, keys);
      CodeIsLocal("", ws, rest, i, NO_BLOCK);
      DecipherEnciphered(rest, i, keys[i]);
      if n < |ws| {
        assert DecipherAt(EncipherAt(rest, i, keys[i]), i) == rest;
        DecipherInverts(ws, n, keys);
      } else if EndsInScrambledTest(ws, i, keys) {
        assert DecipherFrom(LastScrambled(ws), |ws|) == LastScrambled(ws);
      }
    }
  }

  lemma PrependDiffers(cs: seq<Cheat>, a: Result<seq<Cheat>, Error>, b: Result<seq<Cheat>, Error>)
    requires a.Ok? && a != b
    ensures Prepend(cs, a) != Prepend(cs, b)
  {
    if b.Ok? {
      assert (cs + a.value)[|cs|..] == a.value && (cs + b.value)[|cs|..] == b.value;
    }
  }

  lemma ClosingIsLater(a: Codes, i: nat, keys: seq<int>)
    requires Accepted(a, i) && AreKeys(keys, |a|) && EndsInScrambledTest(a, i, keys)
    ensures i < |a| && Extent(a, i) > 0 && Accepted(a, i + Extent(a, i))
    ensures i + Extent(a, i) < |a| ==> EndsInScrambledTest(a, i + Extent(a, i), keys)
    ensures i + Extent(a, i) == |a| ==> Opcode(a[i]) == 13 && i + 2 == |a|
  {
    ScrambledExtent(a, i);
    hide Extent, Opcode;
  }

  /** A different last argument of a closing conditional gives different records, or none. */
  lemma {:induction false} LastArgumentMatters(name: string, a: Codes, b: Codes, i: nat, keys: seq<int>, blk: Block)
    requires Accepted(a, i) && AreKeys(keys, |a|) && EndsInScrambledTest(a, i, keys)
    requires SameBelow(a, b, |a| - 1) && a[|a| - 1] != b[|a| - 1]
    ensures CompileFrom(name, a, i, blk) != CompileFrom(name, b, i, blk)
    decreases |a| - i
  {
    hide Extent, Opcode, CompileFrom, CompileCode, Accepted, EndsInScrambledTest;
    ClosingIsLater(a, i, keys);
    var n := i + Extent(a, i);
    if n < |a| {
      CodeIsLocal(name, a, b, i, blk);
      CompileStep(name, a, i, blk);
      CompileStep(name, b, i, blk);
      var p := CompileCode(name, a, i, blk).value;
      LastArgumentMatters(name, a, b, n, keys, p.block);
      AcceptedCompiles(name, a, n, p.block);
      PrependDiffers(p.cheats, CompileFrom(name, a, n, p.block), CompileFrom(name, b, n, p.block));
    } else {
      LastTestDiffers(name, a, b, i, blk);
    }
  }

  lemma {:induction false} AcceptedCompiles(name: string, ws: Codes, i: nat, blk: Block)
    requires Accepted(ws, i)
    ensures CompileFrom(name, ws, i, blk).Ok?
    decreases |ws| - i
  {
    hide CompileCode, Extent, DecipherAt;
    if i < |ws| {
      CompileStep(name, ws, i, blk);
      AcceptedCompiles(name, ws, i + Extent(ws, i), CompileCode(name, ws, i, blk).value.block);
    }
  }

  lemma LastTestDiffers(name: string, a: Codes, b: Codes, i: nat, blk: Block)
    requires i + 2 == |a| == |b| && Opcode(a[i]) == 13 && Extent(a, i) > 0 && a[i] == b[i] && a[i + 1] != b[i + 1]
    ensures CompileFrom(name, a, i, blk) != CompileFrom(name, b, i, blk)
  {
    CompileStep(name, a, i, blk);
    var ra := CompileFrom(name, a, i, blk);
    var rb := CompileFrom(name, b, i, blk);
    var k := |Guard(blk, i)|;
    if rb.Ok? {
      assert DecipherAt(b, i) == b;
      assert ra.value[k].value == Low16(a[i + 1]) && ra.value[k].kind == ConditionKind(a[i + 1] / 0x1_0000);
      assert rb.value[k].value == Low16(b[i + 1]) && rb.value[k].kind == ConditionKind(b[i + 1] / 0x1_0000);
    }
  }

  /** Scrambling is transparent, for every choice of keys, unless the list ends in a scrambled one-shot
      conditional whose argument the scrambling changes. */
  lemma ScramblingIsTransparent(name: string, ws: Codes, keys: seq<int>)
    requires Accepted(ws, 0) && AreKeys(keys, |ws|)
    ensures Compile(name, EncipherFrom(ws, 0, keys)) == Compile(name, ws)
            <==> !(EndsInScrambledTest(ws, 0, keys) && EncryptArg(ws[|ws| - 1]) != ws[|ws| - 1])
  {
    hide EncryptArg, CompileFrom, DecipherFrom, EncipherFrom, Accepted;
    var es := EncipherFrom(ws, 0, keys);
    CompileDeciphers(name, es, 0, NO_BLOCK);
    DecipherInverts(ws, 0, keys);
    if EndsInScrambledTest(ws, 0, keys) {
      if EncryptArg(ws[|ws| - 1]) != ws[|ws| - 1] {
        LastArgumentMatters(name, ws, LastScrambled(ws), 0, keys, NO_BLOCK);
      } else {
        assert LastScrambled(ws) == ws;
      }
    }
  }
}
