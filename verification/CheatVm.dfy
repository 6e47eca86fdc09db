/** The cheat record and the machine that runs a list of them against RAM once per frame. */
module CheatVm {
  import opened Memory
  import opened Words

  datatype Kind =
    | Disabled
    | SetValue
    | Increase
    | Decrease
    | RunNextIfEq
    | RunNextIfNeq
    | RunNextIfGt
    | RunNextIfLt
    | Copy
    | Unknown(code: int)  // a number read from a file that names no kind

  datatype Cheat = Cheat(
    kind: Kind, description: string, enabled: bool, size: Word, address: Word, value: Word,
    valueMask: Byte, repeatCount: Word, repeatValueIncrement: Word, repeatAddressIncrement: Word,
    destAddress: Word, builtIn: bool)

  /** The record with every field at its default. */
  const BLANK := Cheat(Disabled, "", false, 0, 0, 0, 0, 1, 0, 0, 0, false)

  // ---------------------------------------------------------------- specification of one frame

  /** A sub-byte write keeps the bits of RAM that its mask leaves out. */
  function Merge(mask: Byte, v: Word, current: Word): Word {
    FromBits(MergeWords(ToByteBits(mask), ToBits(v), ToBits(current)))
  }

  function MergeWords(mask: bv8, v: bv32, current: bv32): bv32 {
    var kept := !(mask as bv32) & 0xff;
    (v & !kept) | (current & kept)
  }

  function Masked(size: Word, mask: Byte, v: Word, current: Word): Word {
    if size < 8 then Merge(mask, v, current) else v
  }

  function Stride(c: Cheat): Word { Times(c.repeatAddressIncrement, c.size) / 8 }

  /** Stores n values, each the one before plus an increment, at addresses a stride apart. The bits
      a sub-byte write kept from RAM stay in the value that is incremented. */
  function Store(m: Ram, size: Word, mask: Byte, addr: Word, v: Word, stride: Word, increment: Word, n: nat): (r: Ram)
    ensures |r| == |m|
    decreases n
  {
    if n == 0 then m
    else
      var w := Masked(size, mask, v, Read(m, addr, size));
      Store(Write(m, addr, w, size), size, mask, Plus(addr, stride), Plus(w, increment), stride, increment, n - 1)
  }

  function StoreAll(c: Cheat, v: Word, m: Ram): (r: Ram)
    ensures |r| == |m|
  {
    Store(m, c.size, c.valueMask, c.address, v, Stride(c), c.repeatValueIncrement, c.repeatCount)
  }

  function CopyUp(m: Ram, src: Word, dst: Word, bits: Word, n: nat): (r: Ram)
    ensures |r| == |m|
    decreases n
  {
    if n == 0 then m
    else CopyUp(Write(m, dst, Read(m, src, bits), bits), Plus(src, 1), Plus(dst, 1), bits, n - 1)
  }

  function Act(c: Cheat, m: Ram): (r: Ram)
    ensures |r| == |m|
  {
    match c.kind
    case SetValue => StoreAll(c, c.value, m)
    case Increase => StoreAll(c, Plus(Read(m, c.address, c.size), c.value), m)
    case Decrease => StoreAll(c, Minus(Read(m, c.address, c.size), c.value), m)
    case Copy => CopyUp(m, c.address, c.destAddress, c.size, c.repeatCount)
    case _ => m
  }

  /** Whether the record tells the machine to skip the next one. */
  function Skips(c: Cheat, m: Ram): bool {
    var v := Read(m, c.address, c.size);
    match c.kind
    case RunNextIfEq => v != c.value
    case RunNextIfNeq => v == c.value
    case RunNextIfGt => v <= c.value
    case RunNextIfLt => v >= c.value
    case _ => false
  }

  datatype State = State(ram: Ram, skip: bool)

  function Step(c: Cheat, online: bool, s: State): (r: State)
    ensures |r.ram| == |s.ram|
  {
    if !c.builtIn && online then s
    else if s.skip then State(s.ram, false)
    else if !c.enabled then s
    else State(Act(c, s.ram), Skips(c, s.ram))
  }

  function Run(cs: seq<Cheat>, online: bool, s: State): (r: State)
    ensures |r.ram| == |s.ram|
    decreases |cs|
  {
    if cs == [] then s else Run(cs[1..], online, Step(cs[0], online, s))
  }

  lemma {:induction false} RunAppend(a: seq<Cheat>, b: seq<Cheat>, online: bool, s: State)
    ensures Run(a + b, online, s) == Run(b, online, Run(a, online, s))
    decreases |a|
  {
    if a == [] {
      assert a + b == b;
    } else {
      assert (a + b)[1..] == a[1..] + b;
      RunAppend(a[1..], b, online, Step(a[0], online, s));
    }
  }

  lemma RunSnoc(a: seq<Cheat>, c: Cheat, online: bool, s: State)
    ensures Run(a + [c], online, s) == Step(c, online, Run(a, online, s))
  {
    RunAppend(a, [c], online, s);
    assert Run([c], online, Run(a, online, s)) == Step(c, online, Run(a, online, s));
  }

  function EnableAll(cs: seq<Cheat>): (r: seq<Cheat>)
    ensures |r| == |cs|
    ensures forall k :: 0 <= k < |cs| ==> r[k] == cs[k].(enabled := true)
  {
    seq(|cs|, k requires 0 <= k < |cs| => cs[k].(enabled := true))
  }

  lemma EnableAllAppend(a: seq<Cheat>, b: seq<Cheat>)
    ensures EnableAll(a + b) == EnableAll(a) + EnableAll(b)
  {
  }

  // ---------------------------------------------------------------- the loops of the machine

  /** The merge of two values, done for the bit positions below the given one. */
  function MergedBelow(mask: bv8, v: bv32, current: bv32, bit: bv32): bv32 {
    var done := !(mask as bv32) & 0xff & (bit - 1);
    (v & !done) | (current & done)
  }

  predicate IsBit(i: int, bit: bv32) {
    match i
    case 0 => bit == 1
    case 1 => bit == 2
    case 2 => bit == 4
    case 3 => bit == 8
    case 4 => bit == 16
    case 5 => bit == 32
    case 6 => bit == 64
    case 7 => bit == 128
    case 8 => bit == 256
    case _ => false
  }

  lemma MergeStep(mask: bv8, v: bv32, current: bv32, i: int, bit: bv32)
    requires IsBit(i, bit) && i < 8
    ensures IsBit(i + 1, bit << 1)
    ensures
      var w := MergedBelow(mask, v, current, bit);
      MergedBelow(mask, v, current, bit << 1)
      == if mask as bv32 & bit == 0 then (w & !bit) | (current & bit) else w
  {
  }

  lemma MergeEnds(mask: bv8, v: bv32, current: bv32)
    ensures MergedBelow(mask, v, current, 1) == v
    ensures MergedBelow(mask, v, current, 256) == MergeWords(mask, v, current)
  {
  }

  /** The eight-bit merge loop of a sub-byte write. */
  method MergeBits(mask: bv8, v: bv32, current: bv32) returns (w: bv32)
    ensures w == MergeWords(mask, v, current)
  {
    hide MergedBelow, MergeWords;
    MergeEnds(mask, v, current);
    w := v;
    var bit: bv32 := 1;
    for i := 0 to 8
      invariant IsBit(i, bit)
      invariant w == MergedBelow(mask, v, current, bit)
    {
      MergeStep(mask, v, current, i, bit);
      if mask as bv32 & bit == 0 {
        w := (w & !bit) | (current & bit);
      }
      bit := bit << 1;
    }
  }

  method MergeInto(mask: Byte, v: Word, current: Word) returns (w: Word)
    ensures w == Merge(mask, v, current)
  {
    var bits := MergeBits(ToByteBits(mask), ToBits(v), ToBits(current));
    w := FromBits(bits);
  }

  method StoreRepeated(c: Cheat, ram: array<Byte>, value: Word)
    requires ram.Length > 0
    modifies ram
    ensures ram[..] == StoreAll(c, value, old(ram[..]))
  {
    hide Merge, Read, Write, Stride;
    var address: Word, valueToSet: Word := c.address, value;
    var repeat := 0;
    ghost var goal := StoreAll(c, value, ram[..]);
    while repeat < c.repeatCount
      invariant 0 <= repeat <= c.repeatCount
      invariant Store(ram[..], c.size, c.valueMask, address, valueToSet, Stride(c), c.repeatValueIncrement,
                      c.repeatCount - repeat) == goal
    {
      ghost var m, v: Word := ram[..], valueToSet;
      var curVal := ReadRam(ram, address, c.size);
      if c.size < 8 {
        valueToSet := MergeInto(c.valueMask, valueToSet, curVal);
      }
      if curVal != valueToSet {
        WriteRam(ram, address, valueToSet, c.size);
      } else {
        WriteBackIsIdentity(m, address, c.size);
      }
      assert ram[..] == Write(m, address, Masked(c.size, c.valueMask, v, curVal), c.size);
      address := Plus(address, Stride(c));
      valueToSet := Plus(valueToSet, c.repeatValueIncrement);
      repeat := repeat + 1;
    }
  }

  method CopyBytes(c: Cheat, ram: array<Byte>)
    requires ram.Length > 0
    modifies ram
    ensures ram[..] == CopyUp(old(ram[..]), c.address, c.destAddress, c.size, c.repeatCount)
  {
    ghost var goal := CopyUp(ram[..], c.address, c.destAddress, c.size, c.repeatCount);
    var src, dst := c.address, c.destAddress;
    var i := 0;
    while i < c.repeatCount
      invariant 0 <= i <= c.repeatCount
      invariant CopyUp(ram[..], src, dst, c.size, c.repeatCount - i) == goal
    {
      var v := ReadRam(ram, src, c.size);
      WriteRam(ram, dst, v, c.size);
      src, dst := Plus(src, 1), Plus(dst, 1);
      i := i + 1;
    }
  }

  /** The loop over all cheats: one frame. */
  method Apply(cs: seq<Cheat>, online: bool, ram: array<Byte>)
    requires ram.Length > 0
    modifies ram
    ensures ram[..] == Run(cs, online, State(old(ram[..]), false)).ram
  {
    ghost var start := State(ram[..], false);
    var skipCheat := false;
    for k := 0 to |cs|
      invariant State(ram[..], skipCheat) == Run(cs[..k], online, start)
    {
      var cheat := cs[k];
      ghost var before := State(ram[..], skipCheat);
      if !cheat.builtIn && online {
      } else if skipCheat {
        skipCheat := false;
      } else if cheat.enabled {
        var cur := ReadRam(ram, cheat.address, cheat.size);
        match cheat.kind {
          case SetValue => StoreRepeated(cheat, ram, cheat.value);
          case Increase => StoreRepeated(cheat, ram, Plus(cur, cheat.value));
          case Decrease => StoreRepeated(cheat, ram, Minus(cur, cheat.value));
          case RunNextIfEq => skipCheat := cur != cheat.value;
          case RunNextIfNeq => skipCheat := cur == cheat.value;
          case RunNextIfGt => skipCheat := cur <= cheat.value;
          case RunNextIfLt => skipCheat := cur >= cheat.value;
          case Copy => CopyBytes(cheat, ram);
          case _ =>
        }
      }
      assert State(ram[..], skipCheat) == Step(cheat, online, before);
      assert cs[..k + 1] == cs[..k] + [cheat];
      RunSnoc(cs[..k], cheat, online, start);
    }
    assert cs[..|cs|] == cs;
  }
}
