/** Cheat files as they are written out: the names and texts of the entries, what stands for an entry that is not there,
    and which of the numbered cheats are taken. */
module CheatTexts {
  import Sequences
  import opened Wrappers
  import opened Words
  import opened Text
  import opened Ini
  import opened IniFiles
  import opened CheatVm
  import opened CheatFile
  import opened CheatFileRoundTrip

  // ---------------------------------------------------------------- what is written

  /** What stands in the file for an entry of a cheat. */
  predicate Writes(f: Sections, i: nat, name: string, text: string) {
    Lookup(f, "", "cheat" + Decimal(i) + "_" + name) == Some(text)
  }

  lemma WritesField(cs: seq<Cheat>, i: nat, f: Field)
    requires i < |OwnCheats(cs)|
    ensures Writes(FileOf(cs), i, FieldName(f), FieldText(OwnCheats(cs)[i], f))
  {
    hide FieldName, FieldText;
    var own := OwnCheats(cs);
    FlatHas(own, i, f);
    FileIsFlat(cs);
    PlainLookup(FlatOf(own), Key(i, f));
  }

  lemma WritesUnder(cs: seq<Cheat>, i: nat, f: Field, name: string, text: string)
    requires i < |OwnCheats(cs)| && FieldName(f) == name && FieldText(OwnCheats(cs)[i], f) == text
    ensures Writes(FileOf(cs), i, name, text)
  {
    WritesField(cs, i, f);
  }

  /** The numbers of a cheat, each under its name, and its description. */
  lemma NumbersSpelled(cs: seq<Cheat>, i: nat)
    requires i < |OwnCheats(cs)|
    ensures
      var f, c := FileOf(cs), OwnCheats(cs)[i];
      && Writes(f, i, "address", Decimal(c.address))
      && Writes(f, i, "address_bit_position", Decimal(c.valueMask))
      && Writes(f, i, "desc", c.description)
      && Writes(f, i, "dest_address", Decimal(c.destAddress))
      && Writes(f, i, "value", Decimal(c.value))
      && Writes(f, i, "repeat_count", Decimal(c.repeatCount))
      && Writes(f, i, "repeat_add_to_value", Decimal(c.repeatValueIncrement))
      && Writes(f, i, "repeat_add_to_address", Decimal(c.repeatAddressIncrement))
  {
    hide Writes, FileOf, OwnCheats, Decimal;
    var c := OwnCheats(cs)[i];
    WritesUnder(cs, i, Address, "address", Decimal(c.address));
    WritesUnder(cs, i, AddressBitPosition, "address_bit_position", Decimal(c.valueMask));
    WritesUnder(cs, i, Desc, "desc", c.description);
    WritesUnder(cs, i, DestAddress, "dest_address", Decimal(c.destAddress));
    WritesUnder(cs, i, Value, "value", Decimal(c.value));
    WritesUnder(cs, i, RepeatCount, "repeat_count", Decimal(c.repeatCount));
    WritesUnder(cs, i, RepeatAddToValue, "repeat_add_to_value", Decimal(c.repeatValueIncrement));
    WritesUnder(cs, i, RepeatAddToAddress, "repeat_add_to_address", Decimal(c.repeatAddressIncrement));
  }

  /** The entries that are the same for all cheats: each is switched off. */
  lemma ConstantsSpelled(cs: seq<Cheat>, i: nat)
    requires i < |OwnCheats(cs)|
    ensures
      var f := FileOf(cs);
      && Writes(f, i, "big_endian", "no") && Writes(f, i, "code", "") && Writes(f, i, "enable", "no")
      && Writes(f, i, "handler", "1")
  {
    hide Writes, FileOf, OwnCheats, Decimal;
    var c := OwnCheats(cs)[i];
    DecimalSpelled(1);
    WritesUnder(cs, i, BigEndian, "big_endian", "no");
    WritesUnder(cs, i, Code, "code", "");
    WritesUnder(cs, i, Enable, "enable", "no");
    WritesUnder(cs, i, Handler, "handler", "1");
  }

  function KindText(k: Kind): string {
    match k
    case Disabled => "0"
    case SetValue => "1"
    case Increase => "2"
    case Decrease => "3"
    case RunNextIfEq => "4"
    case RunNextIfNeq => "5"
    case RunNextIfGt => "6"
    case RunNextIfLt => "7"
    case Copy => "8"
    case Unknown(n) => if n >= 0 then Decimal(n) else "-" + Decimal(-n)
  }

  function SizeText(size: Word): string {
    if size == 1 then "0" else if size == 2 then "1" else if size == 4 then "2" else if size == 8 then "3"
    else if size == 16 then "4" else "5"
  }

  /** The kind of a cheat, with a sign if it is below zero, and its size as a power of two. */
  lemma KindAndSizeSpelled(cs: seq<Cheat>, i: nat)
    requires i < |OwnCheats(cs)|
    ensures Writes(FileOf(cs), i, "cheat_type", KindText(OwnCheats(cs)[i].kind))
    ensures Writes(FileOf(cs), i, "memory_search_size", SizeText(OwnCheats(cs)[i].size))
  {
    hide Writes, FileOf, OwnCheats, Decimal;
    var c := OwnCheats(cs)[i];
    KindSpelled(c.kind);
    SizeSpelled(c.size);
    hide KindText, SizeText, KindNumber, SizeNumber, IntText;
    WritesUnder(cs, i, CheatType, "cheat_type", KindText(c.kind));
    WritesUnder(cs, i, MemorySearchSize, "memory_search_size", SizeText(c.size));
  }

  lemma KindSpelled(k: Kind)
    ensures IntText(KindNumber(k)) == KindText(k)
  {
    hide Decimal;
    if !k.Unknown? {
      DecimalSpelled(KindNumber(k));
    }
  }

  lemma SizeSpelled(size: Word)
    ensures Decimal(SizeNumber(size)) == SizeText(size)
  {
    hide Decimal;
    DecimalSpelled(SizeNumber(size));
  }

  /** Numbers have no leading zeros, and one digit stands for itself. */
  lemma DecimalSpelled(n: nat)
    ensures n < 10 ==> Decimal(n) == ["0123456789"[n]]
    ensures n >= 10 ==> Decimal(n) == Decimal(n / 10) + ["0123456789"[n % 10]]
  {
  }

  /** The cheats that are not built in, in order, and their number. */
  lemma CheatsSpelled(cs: seq<Cheat>, c: Cheat)
    ensures OwnCheats([]) == []
    ensures OwnCheats(cs + [c]) == if c.builtIn then OwnCheats(cs) else OwnCheats(cs) + [c]
    ensures Lookup(FileOf(cs), "", "cheats") == Some(Decimal(|OwnCheats(cs)|))
  {
    OwnOneMore(cs, c);
    var own := OwnCheats(cs);
    CountText(own);
    FileIsFlat(cs);
    hide OwnCheats, FileOf, FlatOf, Decimal;
    PlainLookup(FlatOf(own), "cheats");
    hide Lookup, Plain;
  }

  lemma OwnStep(cs: seq<Cheat>)
    requires cs != []
    ensures OwnCheats(cs) == (if cs[0].builtIn then [] else [cs[0]]) + OwnCheats(cs[1..])
    ensures OwnCheats([]) == []
  {
  }

  lemma {:induction false} OwnOneMore(cs: seq<Cheat>, c: Cheat)
    ensures OwnCheats(cs + [c]) == if c.builtIn then OwnCheats(cs) else OwnCheats(cs) + [c]
  {
    hide OwnCheats;
    var all := cs + [c];
    OwnStep(all);
    if cs == [] {
      assert all[1..] == [];
    } else {
      OwnStep(cs);
      assert all[1..] == cs[1..] + [c];
      OwnOneMore(cs[1..], c);
      var first := if cs[0].builtIn then [] else [cs[0]];
      Sequences.Associates(first, OwnCheats(cs[1..]), [c]);
    }
  }

  /** There are no other entries. */
  lemma NothingElseIsWritten(cs: seq<Cheat>, section: string, name: string)
    requires Lookup(FileOf(cs), section, name).Some? && name != "cheats"
    ensures section == ""
    ensures exists i: nat, f :: i < |OwnCheats(cs)| && name == Key(i, f)
  {
    hide OwnCheats, FlatOf, FieldText, Key;
    var own := OwnCheats(cs);
    FileIsFlat(cs);
    hide FileOf;
    FlatOnly(own, name);
    var i: nat, f :| i < |own| && name == Key(i, f) && FlatOf(own)[name] == FieldText(own[i], f);
  }

  // ---------------------------------------------------------------- what is read

  /** What an entry holds, if it is there. */
  function Holds(f: Sections, i: nat, name: string): Option<string> {
    Lookup(f, "", "cheat" + Decimal(i) + "_" + name)
  }

  function Num(text: Option<string>, default: Word): Word {
    if text.None? then default else ParseInt(text.value, default)
  }

  /** Each field is read from the entry of its name; without one it has the default. */
  lemma FieldsAreRead(f: Sections, i: nat)
    ensures
      var c := CheatAt(f, i);
      && c.address == Num(Holds(f, i, "address"), 0xFFFF_FFFF)
      && c.destAddress == Num(Holds(f, i, "dest_address"), 0)
      && c.value == Num(Holds(f, i, "value"), 0)
      && c.valueMask == Num(Holds(f, i, "address_bit_position"), 0) % 0x100
      && c.repeatCount == Num(Holds(f, i, "repeat_count"), 1)
      && c.repeatValueIncrement == Num(Holds(f, i, "repeat_add_to_value"), 0)
      && c.repeatAddressIncrement == Num(Holds(f, i, "repeat_add_to_address"), 0)
      && c.description == (var t := Holds(f, i, "desc"); if t.None? then "Cheat " + Decimal(i + 1) else t.value)
      && c.enabled == (var t := Holds(f, i, "enable"); t.Some? && ParseBool(t.value))
      && !c.builtIn
  {
    hide ParseInt, ParseBool, Lookup, ShiftedOne, KindFrom;
  }

  /** The kind is read as a number, any but nine of which stand for no kind; the size is a power of two. */
  lemma KindAndSizeAreRead(f: Sections, i: nat)
    ensures KindReads(CheatAt(f, i).kind, Num(Holds(f, i, "cheat_type"), 0))
    ensures CheatAt(f, i).size == PowerOfTwo(Num(Holds(f, i, "memory_search_size"), 0) % 32)
  {
    hide ParseInt, ParseBool, Lookup;
    PowersShift(IntOf(f, "", Key(i, MemorySearchSize), 0));
    KindsRead(IntOf(f, "", Key(i, CheatType), 0));
    hide PowerOfTwo, ShiftedOne, KindFrom, KindReads;
  }

  predicate KindReads(k: Kind, n: Word) {
    match k
    case Disabled => n == 0
    case SetValue => n == 1
    case Increase => n == 2
    case Decrease => n == 3
    case RunNextIfEq => n == 4
    case RunNextIfNeq => n == 5
    case RunNextIfGt => n == 6
    case RunNextIfLt => n == 7
    case Copy => n == 8
    case Unknown(code) => n > 8 && code == if n < 0x8000_0000 then n else n - 0x1_0000_0000
  }

  lemma KindsRead(n: Word)
    ensures KindReads(KindFrom(n), n)
  {
  }

  function PowerOfTwo(n: nat): nat { if n == 0 then 1 else 2 * PowerOfTwo(n - 1) }

  lemma EightMore(n: nat)
    ensures PowerOfTwo(n + 8) == 0x100 * PowerOfTwo(n)
  {
    assert PowerOfTwo(n + 4) == 16 * PowerOfTwo(n) by {
      assert PowerOfTwo(n + 2) == 4 * PowerOfTwo(n);
    }
    assert PowerOfTwo(n + 6) == 4 * PowerOfTwo(n + 4);
  }

  lemma SmallPowers(n: nat)
    requires n < 8
    ensures PowerOfTwo(n) == SmallPower(n)
  {
    if n > 0 {
      SmallPowers(n - 1);
    }
  }

  lemma PowersShift(count: Word)
    ensures ShiftedOne(count) == PowerOfTwo(count % 32)
  {
    var n := count % 32;
    if n < 8 {
      SmallPowers(n);
    } else {
      EightMore(n - 8);
      if n < 16 {
        SmallPowers(n - 8);
      } else {
        EightMore(n - 16);
        if n < 24 {
          SmallPowers(n - 16);
        } else {
          EightMore(n - 24);
          SmallPowers(n - 24);
        }
      }
    }
    hide PowerOfTwo;
  }

  /** A cheat that is of some kind and has both addresses in RAM. */
  function OneTaken(c: Cheat, ram: Word): seq<Cheat> {
    if c.kind == Disabled || c.address >= ram || c.destAddress >= ram then [] else [c]
  }

  /** Those of a list, in order. */
  function Taken(cs: seq<Cheat>, ram: Word): seq<Cheat> {
    if cs == [] then []
    else Taken(cs[..|cs| - 1], ram) + OneTaken(cs[|cs| - 1], ram)
  }

  function Numbered(f: Sections, n: nat): seq<Cheat> { seq(n, i requires 0 <= i < n => CheatAt(f, i)) }

  /** A file is read up to its number of cheats; if that is zero, up to the first one without an address, and if it is
      below zero, not at all. */
  lemma LoadedAreTaken(f: Sections, ram: Word, n: nat)
    ensures CheatCount(f) < 0 ==> LoadedCheats(f, ram) == []
    ensures CheatCount(f) == n > 0 ==> LoadedCheats(f, ram) == Taken(Numbered(f, n), ram)
    ensures CheatCount(f) == 0 && CheatAt(f, n).address == 0xFFFF_FFFF
            && (forall i :: 0 <= i < n ==> CheatAt(f, i).address != 0xFFFF_FFFF) ==>
              LoadedCheats(f, ram) == Taken(Numbered(f, n), ram)
  {
    hide CheatAt;
    assert Numbered(f, 0) == [];
    if CheatCount(f) == n > 0 || (CheatCount(f) == 0 && CheatAt(f, n).address == 0xFFFF_FFFF
                                  && forall i :: 0 <= i < n ==> CheatAt(f, i).address != 0xFFFF_FFFF) {
      ReadIsTaken(f, ram, CheatCount(f), 0, n);
    }
  }

  lemma {:induction false} ReadIsTaken(f: Sections, ram: Word, count: int, i: nat, n: nat)
    requires i <= n
    requires count == n > 0 || (count == 0 && CheatAt(f, n).address == 0xFFFF_FFFF
                                && forall k :: 0 <= k < n ==> CheatAt(f, k).address != 0xFFFF_FFFF)
    ensures Taken(Numbered(f, i), ram) + ReadCheats(f, ram, count, i) == Taken(Numbered(f, n), ram)
    decreases n - i
  {
    hide CheatAt, ReadCheats, Taken, Numbered;
    ReadStep(f, ram, count, i);
    if i < n {
      TakenStep(f, ram, i);
      ReadIsTaken(f, ram, count, i + 1, n);
      Sequences.Associates(Taken(Numbered(f, i), ram), OneTaken(CheatAt(f, i), ram), ReadCheats(f, ram, count, i + 1));
    }
  }

  lemma ReadStep(f: Sections, ram: Word, count: int, i: nat)
    ensures ReadCheats(f, ram, count, i)
            == if (count != 0 && i >= count) || (count == 0 && CheatAt(f, i).address == 0xFFFF_FFFF) then []
               else OneTaken(CheatAt(f, i), ram) + ReadCheats(f, ram, count, i + 1)
  {
    hide CheatAt;
  }

  lemma TakenStep(f: Sections, ram: Word, i: nat)
    ensures Taken(Numbered(f, i + 1), ram) == Taken(Numbered(f, i), ram) + OneTaken(CheatAt(f, i), ram)
  {
    hide CheatAt;
    var cs := Numbered(f, i + 1);
    assert cs[..i] == Numbered(f, i) && cs[i] == CheatAt(f, i);
  }

  lemma CountIsSigned(f: Sections)
    ensures
      var t := Lookup(f, "", "cheats");
      var n := if t.None? then 0 else ParseInt(t.value, 0);
      CheatCount(f) == if n < 0x8000_0000 then n else n - 0x1_0000_0000
  {
    hide ParseInt;
  }
}
