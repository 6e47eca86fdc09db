/** Cheat files: an INI text with fourteen numbered entries a cheat, and what reading one back yields. */
module CheatFile {
  import opened Sequences
  import opened Words
  import opened Text
  import opened Ini
  import opened IniFiles
  import opened CheatVm

  datatype Field =
    | Address
    | AddressBitPosition
    | BigEndian
    | CheatType
    | Code
    | Desc
    | DestAddress
    | Enable
    | Handler
    | MemorySearchSize
    | Value
    | RepeatCount
    | RepeatAddToValue
    | RepeatAddToAddress

  function FieldName(f: Field): string {
    match f
    case Address => "address"
    case AddressBitPosition => "address_bit_position"
    case BigEndian => "big_endian"
    case CheatType => "cheat_type"
    case Code => "code"
    case Desc => "desc"
    case DestAddress => "dest_address"
    case Enable => "enable"
    case Handler => "handler"
    case MemorySearchSize => "memory_search_size"
    case Value => "value"
    case RepeatCount => "repeat_count"
    case RepeatAddToValue => "repeat_add_to_value"
    case RepeatAddToAddress => "repeat_add_to_address"
  }

  /** In the order they are set. */
  const FIELDS := [Address, AddressBitPosition, BigEndian, CheatType, Code, Desc, DestAddress, Enable, Handler,
                   MemorySearchSize, Value, RepeatCount, RepeatAddToValue, RepeatAddToAddress]

  function Prefix(i: nat): string { "cheat" + Decimal(i) + "_" }

  function Key(i: nat, f: Field): string { Prefix(i) + FieldName(f) }

  // ---------------------------------------------------------------- numbers of kinds and sizes

  function KindNumber(k: Kind): int {
    match k
    case Disabled => 0
    case SetValue => 1
    case Increase => 2
    case Decrease => 3
    case RunNextIfEq => 4
    case RunNextIfNeq => 5
    case RunNextIfGt => 6
    case RunNextIfLt => 7
    case Copy => 8
    case Unknown(code) => code
  }

  function KindFrom(w: Word): Kind {
    match w
    case 0 => Disabled
    case 1 => SetValue
    case 2 => Increase
    case 3 => Decrease
    case 4 => RunNextIfEq
    case 5 => RunNextIfNeq
    case 6 => RunNextIfGt
    case 7 => RunNextIfLt
    case 8 => Copy
    case _ => Unknown(Signed(w))
  }

  /** A kind that an `int` can hold and that no named kind stands for already. */
  predicate IsKind(k: Kind) { k.Unknown? ==> -0x8000_0000 <= k.code < 0x8000_0000 && !(0 <= k.code <= 8) }

  function IntText(n: int): string { if n < 0 then "-" + Decimal(-n) else Decimal(n) }

  function SizeNumber(size: Word): nat {
    match size
    case 1 => 0
    case 2 => 1
    case 4 => 2
    case 8 => 3
    case 16 => 4
    case _ => 5
  }

  /** One shifted left, by the low five bits of a count. */
  function ShiftedOne(count: Word): Word {
    match count % 32
    case 0 => 1
    case 1 => 2
    case 2 => 4
    case 3 => 8
    case 4 => 16
    case 5 => 32
    case 6 => 64
    case 7 => 128
    case n => if n < 16 then 0x100 * SmallPower(n - 8) else if n < 24 then 0x1_0000 * SmallPower(n - 16)
              else 0x100_0000 * SmallPower(n - 24)
  }

  function SmallPower(n: nat): (p: nat)
    requires n < 8
    ensures p <= 128
  {
    if n == 0 then 1 else if n == 1 then 2 else if n == 2 then 4 else if n == 3 then 8
    else if n == 4 then 16 else if n == 5 then 32 else if n == 6 then 64 else 128
  }

  // ---------------------------------------------------------------- writing

  function FieldText(c: Cheat, f: Field): string {
    match f
    case Address => Decimal(c.address)
    case AddressBitPosition => Decimal(c.valueMask)
    case BigEndian => BoolText(false)
    case CheatType => IntText(KindNumber(c.kind))
    case Code => ""
    case Desc => c.description
    case DestAddress => Decimal(c.destAddress)
    case Enable => BoolText(false)
    case Handler => Decimal(1)
    case MemorySearchSize => Decimal(SizeNumber(c.size))
    case Value => Decimal(c.value)
    case RepeatCount => Decimal(c.repeatCount)
    case RepeatAddToValue => Decimal(c.repeatValueIncrement)
    case RepeatAddToAddress => Decimal(c.repeatAddressIncrement)
  }

  function PutFields(s: Sections, i: nat, c: Cheat, fs: seq<Field>): Sections
    decreases |fs|
  {
    if fs == [] then s else PutFields(SetEntry(s, "", Key(i, fs[0]), FieldText(c, fs[0]), false), i, c, fs[1..])
  }

  function OwnCheats(cs: seq<Cheat>): (r: seq<Cheat>)
    ensures |r| <= |cs|
    ensures forall c :: c in r <==> c in cs && !c.builtIn
  {
    if cs == [] then [] else (if cs[0].builtIn then [] else [cs[0]]) + OwnCheats(cs[1..])
  }

  /** The entries of the cheats from number i on. */
  function PutCheats(s: Sections, i: nat, cs: seq<Cheat>): Sections
    decreases |cs|
  {
    if cs == [] then s else PutCheats(PutFields(s, i, cs[0], FIELDS), i + 1, cs[1..])
  }

  function FileOf(cs: seq<Cheat>): Sections {
    var own := OwnCheats(cs);
    SetEntry(PutCheats(map[], 0, own), "", "cheats", Decimal(|own|), false)
  }

  // ---------------------------------------------------------------- reading

  function TextOf(f: Sections, name: string, default: string): string {
    match Lookup(f, "", name)
    case None => default
    case Some(s) => s
  }

  function FlagOf(f: Sections, name: string, default: bool): bool {
    match Lookup(f, "", name)
    case None => default
    case Some(s) => ParseBool(s)
  }

  const NO_ADDRESS: Word := TWO_32 - 1

  function CheatAt(f: Sections, i: nat): Cheat {
    Cheat(KindFrom(IntOf(f, "", Key(i, CheatType), 0)),
          TextOf(f, Key(i, Desc), "Cheat " + Decimal(i + 1)),
          FlagOf(f, Key(i, Enable), false),
          ShiftedOne(IntOf(f, "", Key(i, MemorySearchSize), 0)),
          IntOf(f, "", Key(i, Address), NO_ADDRESS),
          IntOf(f, "", Key(i, Value), 0),
          IntOf(f, "", Key(i, AddressBitPosition), 0) % 0x100,
          IntOf(f, "", Key(i, RepeatCount), 1),
          IntOf(f, "", Key(i, RepeatAddToValue), 0),
          IntOf(f, "", Key(i, RepeatAddToAddress), 0),
          IntOf(f, "", Key(i, DestAddress), 0),
          false)
  }

  /** Address entries numbered i or more: what an uncounted load can still come across. */
  ghost function Ahead(f: Sections, i: nat): set<string> {
    if "" in f then set n | n in f[""] && exists j: nat :: j >= i && n == Key(j, Address) else {}
  }

  predicate Fits(c: Cheat, ram: Word) { c.kind != Disabled && c.address < ram && c.destAddress < ram }

  function ReadCheats(f: Sections, ram: Word, count: int, i: nat): seq<Cheat>
    decreases if count > 0 then count - i else |Ahead(f, i)|
  {
    hide CheatAt, Ahead, Fits;
    if count != 0 && i >= count then []
    else
      var c := CheatAt(f, i);
      if count == 0 && c.address == NO_ADDRESS then []
      else
        AheadShrinks(f, i);
        (if Fits(c, ram) then [c] else []) + ReadCheats(f, ram, count, i + 1)
  }

  function CheatCount(f: Sections): int { Signed(IntOf(f, "", "cheats", 0)) }

  function LoadedCheats(f: Sections, ram: Word): seq<Cheat> { ReadCheats(f, ram, CheatCount(f), 0) }

  // ---------------------------------------------------------------- the numbered keys

  lemma NameNotEmpty(f: Field)
    ensures FieldName(f) != ""
  {
  }

  lemma KeyParts(i: nat, f: Field)
    ensures
      var k, d := Key(i, f), Decimal(i);
      && |k| > 6 && Find(k, '_', 5) == 5 + |d| && k[5..5 + |d|] == d && k[6 + |d|..] == FieldName(f)
  {
    hide FieldName;
    NameNotEmpty(f);
    var k, d := Key(i, f), Decimal(i);
    assert k[5..5 + |d|] == d && k[5 + |d|] == '_' && k[6 + |d|..] == FieldName(f);
    assert forall n :: 0 <= n < |d| ==> k[5 + n] == d[n];
    FindIs(k, '_', 5, 5 + |d|);
  }

  lemma KeyInjective(i: nat, f: Field, j: nat, g: Field)
    requires Key(i, f) == Key(j, g)
    ensures i == j && f == g
  {
    hide Key;
    KeyParts(i, f);
    KeyParts(j, g);
    DecimalInjective(i, j);
    FieldNameInjective(f, g);
  }

  lemma FieldNameInjective(f: Field, g: Field)
    requires FieldName(f) == FieldName(g)
    ensures f == g
  {
    assert |FieldName(f)| == |FieldName(g)|;
  }

  lemma KeyIsNotCount(i: nat, f: Field)
    ensures Key(i, f) != "cheats"
  {
    KeyParts(i, f);
  }

  lemma AheadShrinks(f: Sections, i: nat)
    ensures CheatAt(f, i).address != NO_ADDRESS ==> |Ahead(f, i + 1)| < |Ahead(f, i)|
  {
    hide Key;
    var k := Key(i, Address);
    if CheatAt(f, i).address != NO_ADDRESS {
      assert "" in f && k in f[""];
      assert k in Ahead(f, i);
      forall j: nat | j >= i + 1 ensures Key(j, Address) != k {
        if Key(j, Address) == k {
          KeyInjective(j, Address, i, Address);
        }
      }
      SetShrinks(Ahead(f, i + 1), Ahead(f, i), k);
    }
  }

  lemma SetShrinks(a: set<string>, b: set<string>, x: string)
    requires a <= b && x in b && x !in a
    ensures |a| < |b|
  {
    assert a <= b - {x};
    SubsetSmaller(a, b - {x});
  }

  lemma {:induction false} SubsetSmaller(a: set<string>, b: set<string>)
    requires a <= b
    ensures |a| <= |b|
    decreases |a|
  {
    if a != {} {
      var x :| x in a;
      SubsetSmaller(a - {x}, b - {x});
    }
  }
}
