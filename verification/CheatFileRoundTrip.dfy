/** Saving cheats and loading the file back: what comes back in general, and exactly when all of it does. */
module CheatFileRoundTrip {
  import opened Wrappers
  import opened Words
  import opened Text
  import opened Ini
  import opened IniRoundTrip
  import opened IniFiles
  import opened CheatVm
  import opened CheatFile

  // ---------------------------------------------------------------- the file as one flat map

  type Flat = map<string, string>

  /** A file with one unnamed section and no transient values. */
  function Plain(m: Flat): Sections { if m == map[] then map[] else map["" := AsSection(m)] }

  function PutFlat(m: Flat, i: nat, c: Cheat, fs: seq<Field>): Flat
    decreases |fs|
  {
    if fs == [] then m else PutFlat(m[Key(i, fs[0]) := FieldText(c, fs[0])], i, c, fs[1..])
  }

  function PutAllFlat(m: Flat, i: nat, cs: seq<Cheat>): Flat
    decreases |cs|
  {
    if cs == [] then m else PutAllFlat(PutFlat(m, i, cs[0], FIELDS), i + 1, cs[1..])
  }

  function FlatOf(own: seq<Cheat>): Flat { PutAllFlat(map[], 0, own)["cheats" := Decimal(|own|)] }

  lemma SetPlain(m: Flat, k: string, v: string)
    ensures SetEntry(Plain(m), "", k, v, false) == Plain(m[k := v])
  {
    assert k in m[k := v];
    assert AsSection(m)[k := Stored(v)] == AsSection(m[k := v]);
  }

  lemma {:induction false} PutFieldsFlat(m: Flat, i: nat, c: Cheat, fs: seq<Field>)
    ensures PutFields(Plain(m), i, c, fs) == Plain(PutFlat(m, i, c, fs))
    decreases |fs|
  {
    hide Key, FieldText, Plain, SetEntry;
    if fs != [] {
      SetPlain(m, Key(i, fs[0]), FieldText(c, fs[0]));
      PutFieldsFlat(m[Key(i, fs[0]) := FieldText(c, fs[0])], i, c, fs[1..]);
    }
  }

  lemma {:induction false} PutCheatsFlat(m: Flat, i: nat, cs: seq<Cheat>)
    ensures PutCheats(Plain(m), i, cs) == Plain(PutAllFlat(m, i, cs))
    decreases |cs|
  {
    hide PutFields, PutFlat, Plain;
    if cs != [] {
      PutFieldsFlat(m, i, cs[0], FIELDS);
      PutCheatsFlat(PutFlat(m, i, cs[0], FIELDS), i + 1, cs[1..]);
    }
  }

  lemma FileIsFlat(cs: seq<Cheat>)
    ensures FileOf(cs) == Plain(FlatOf(OwnCheats(cs)))
  {
    hide PutCheats, PutAllFlat, SetEntry;
    var own := OwnCheats(cs);
    assert Plain(map[]) == map[];
    PutCheatsFlat(map[], 0, own);
    hide Plain;
    SetPlain(PutAllFlat(map[], 0, own), "cheats", Decimal(|own|));
  }

  lemma PlainPersistent(m: Flat)
    requires m != map[]
    ensures Persistent(Plain(m)) == map["" := m]
    ensures AsFile(UnquoteAll(map["" := m])) == Plain(UnquoteSection(m))
  {
    KeptOfSection(m);
    UnquotedNotEmpty(m);
    hide Kept, AsSection, UnquoteSection;
  }

  lemma KeptOfSection(m: Flat)
    ensures Kept(AsSection(m)) == m
  {
  }

  lemma UnquotedNotEmpty(m: Flat)
    requires m != map[]
    ensures UnquoteSection(m) != map[]
  {
    hide Unquoted;
    var k :| k in m;
    assert k in UnquoteSection(m);
  }

  // ---------------------------------------------------------------- what is under which key

  lemma {:induction false} PutFlatAt(m: Flat, i: nat, c: Cheat, fs: seq<Field>, f: Field)
    ensures
      var k, r := Key(i, f), PutFlat(m, i, c, fs);
      if f in fs then k in r && r[k] == FieldText(c, f) else (k in r <==> k in m) && (k in m ==> r[k] == m[k])
    decreases |fs|
  {
    hide Key, FieldText;
    if fs != [] {
      var m1 := m[Key(i, fs[0]) := FieldText(c, fs[0])];
      PutFlatAt(m1, i, c, fs[1..], f);
      if Key(i, f) == Key(i, fs[0]) {
        KeyInjective(i, f, i, fs[0]);
      }
    }
  }

  lemma {:induction false} PutFlatElsewhere(m: Flat, i: nat, c: Cheat, fs: seq<Field>, k: string)
    requires forall f :: k != Key(i, f)
    ensures var r := PutFlat(m, i, c, fs); (k in r <==> k in m) && (k in m ==> r[k] == m[k])
    decreases |fs|
  {
    hide Key, FieldText;
    if fs != [] {
      PutFlatElsewhere(m[Key(i, fs[0]) := FieldText(c, fs[0])], i, c, fs[1..], k);
    }
  }

  lemma AllFields(f: Field)
    ensures f in FIELDS
  {
    var n := match f
      case Address => 0 case AddressBitPosition => 1 case BigEndian => 2 case CheatType => 3 case Code => 4
      case Desc => 5 case DestAddress => 6 case Enable => 7 case Handler => 8 case MemorySearchSize => 9
      case Value => 10 case RepeatCount => 11 case RepeatAddToValue => 12 case RepeatAddToAddress => 13;
    assert FIELDS[n] == f;
  }

  /** Numbers below the first one put are left alone. */
  lemma {:induction false} PutAllKeeps(m: Flat, i: nat, cs: seq<Cheat>, j: nat, f: Field)
    requires j < i
    ensures
      var k, r := Key(j, f), PutAllFlat(m, i, cs);
      (k in r <==> k in m) && (k in m ==> r[k] == m[k])
    decreases |cs|
  {
    hide Key, PutFlat;
    if cs != [] {
      forall g ensures Key(j, f) != Key(i, g) {
        if Key(j, f) == Key(i, g) {
          KeyInjective(j, f, i, g);
        }
      }
      PutFlatElsewhere(m, i, cs[0], FIELDS, Key(j, f));
      PutAllKeeps(PutFlat(m, i, cs[0], FIELDS), i + 1, cs[1..], j, f);
    }
  }

  lemma {:induction false} PutAllHas(m: Flat, i: nat, cs: seq<Cheat>, j: nat, f: Field)
    requires j < |cs|
    ensures
      var k, r := Key(i + j, f), PutAllFlat(m, i, cs);
      k in r && r[k] == FieldText(cs[j], f)
    decreases |cs|
  {
    hide Key, PutFlat, FieldText;
    var m1 := PutFlat(m, i, cs[0], FIELDS);
    if j == 0 {
      AllFields(f);
      PutFlatAt(m, i, cs[0], FIELDS, f);
      PutAllKeeps(m1, i + 1, cs[1..], i, f);
    } else {
      PutAllHas(m1, i + 1, cs[1..], j - 1, f);
    }
  }

  /** Every key is one of the numbered ones, and holds its field's text. */
  lemma {:induction false} PutAllOnly(m: Flat, i: nat, cs: seq<Cheat>, k: string)
    requires k in PutAllFlat(m, i, cs) && k !in m
    ensures exists j: nat, f :: j < |cs| && k == Key(i + j, f) && PutAllFlat(m, i, cs)[k] == FieldText(cs[j], f)
    decreases |cs|
  {
    hide Key, PutFlat, FieldText;
    var m1 := PutFlat(m, i, cs[0], FIELDS);
    if k in m1 {
      if forall f :: k != Key(i, f) {
        PutFlatElsewhere(m, i, cs[0], FIELDS, k);
        assert false;
      }
      var f :| k == Key(i, f);
      PutAllHas(m, i, cs, 0, f);
      assert k == Key(i + 0, f);
    } else {
      PutAllOnly(m1, i + 1, cs[1..], k);
      var j: nat, f :| j < |cs[1..]| && k == Key(i + 1 + j, f)
                       && PutAllFlat(m1, i + 1, cs[1..])[k] == FieldText(cs[1..][j], f);
      assert cs[1..][j] == cs[j + 1] && k == Key(i + (j + 1), f);
    }
  }

  lemma FlatHas(own: seq<Cheat>, j: nat, f: Field)
    requires j < |own|
    ensures Key(j, f) in FlatOf(own) && FlatOf(own)[Key(j, f)] == FieldText(own[j], f)
  {
    hide Key, FieldText, PutAllFlat;
    PutAllHas(map[], 0, own, j, f);
    KeyIsNotCount(j, f);
    assert Key(0 + j, f) == Key(j, f);
  }

  lemma FlatOnly(own: seq<Cheat>, k: string)
    requires k in FlatOf(own) && k != "cheats"
    ensures exists j: nat, f :: j < |own| && k == Key(j, f) && FlatOf(own)[k] == FieldText(own[j], f)
  {
    hide Key, FieldText, PutAllFlat;
    PutAllOnly(map[], 0, own, k);
    var j: nat, f :| j < |own| && k == Key(0 + j, f) && PutAllFlat(map[], 0, own)[k] == FieldText(own[j], f);
    assert k == Key(j, f);
  }

  // ---------------------------------------------------------------- through the text

  lemma NumberReadable(n: nat)
    ensures GoodValue(Decimal(n)) && Unquoted(Decimal(n)) == Decimal(n)
  {
    assert IsDigit(Decimal(n)[0]);
    assert forall c :: c in Decimal(n) ==> IsDigit(c);
  }

  lemma FieldReadable(c: Cheat, f: Field)
    requires '\n' !in c.description
    ensures '\n' !in FieldText(c, f)
    ensures f != Desc ==> Unquoted(FieldText(c, f)) == FieldText(c, f)
  {
    hide Unquoted, Decimal;
    forall n: nat ensures GoodValue(Decimal(n)) && Unquoted(Decimal(n)) == Decimal(n) { NumberReadable(n); }
    UnquotedChanges(FieldText(c, f));
    if f == CheatType && KindNumber(c.kind) < 0 {
      assert FieldText(c, f)[0] == '-';
    }
  }

  lemma SkipSpaceAtOnce(n: string)
    requires n != "" && !IsSpace(n[0])
    ensures SkipSpace(n, 0) == 0
  {
  }

  lemma KeyIsGoodName(i: nat, f: Field)
    ensures GoodName(Key(i, f))
  {
    var k := Key(i, f);
    assert forall c :: c in Decimal(i) ==> IsDigit(c);
    FieldNameGood(f);
    assert k[0] == 'c' && k[|k| - 1] == FieldName(f)[|FieldName(f)| - 1];
    SkipSpaceAtOnce(k);
    assert forall c :: c in k ==> c in "cheat" || c in Decimal(i) || c == '_' || c in FieldName(f);
  }

  predicate IsKeyWord(s: string) { forall k :: 0 <= k < |s| ==> 'a' <= s[k] <= 'z' || s[k] == '_' }

  lemma FieldNameIsKeyWord(f: Field)
    ensures FieldName(f) != "" && IsKeyWord(FieldName(f))
  {
    hide FieldName, IsKeyWord;
    if f in {Address, AddressBitPosition, BigEndian, CheatType, Code, Desc} {
      FirstFieldNames(f);
    } else if f in {DestAddress, Enable, Handler, MemorySearchSize, Value} {
      SecondFieldNames(f);
    } else {
      LastFieldNames(f);
    }
  }

  lemma FirstFieldNames(f: Field)
    requires f in {Address, AddressBitPosition, BigEndian, CheatType, Code, Desc}
    ensures FieldName(f) != "" && IsKeyWord(FieldName(f))
  {
  }

  lemma SecondFieldNames(f: Field)
    requires f in {DestAddress, Enable, Handler, MemorySearchSize, Value}
    ensures FieldName(f) != "" && IsKeyWord(FieldName(f))
  {
  }

  lemma LastFieldNames(f: Field)
    requires f in {RepeatCount, RepeatAddToValue, RepeatAddToAddress}
    ensures FieldName(f) != "" && IsKeyWord(FieldName(f))
  {
  }

  lemma FieldNameGood(f: Field)
    ensures FieldName(f) != "" && '=' !in FieldName(f) && '\n' !in FieldName(f)
    ensures !IsBlank(FieldName(f)[|FieldName(f)| - 1])
  {
    hide FieldName;
    FieldNameIsKeyWord(f);
  }

  lemma CountIsGoodName()
    ensures GoodName("cheats")
  {
    SkipSpaceAtOnce("cheats");
  }

  lemma FlatReadable(own: seq<Cheat>)
    requires forall c :: c in own ==> '\n' !in c.description
    ensures Readable(map["" := FlatOf(own)])
  {
    hide Key, FieldText, FlatOf, GoodName;
    var m := FlatOf(own);
    forall k | k in m ensures GoodName(k) && '\n' !in m[k] {
      if k == "cheats" {
        CountIsGoodName();
        CountText(own);
        NumberReadable(|own|);
      } else {
        FlatOnly(own, k);
        var j: nat, f :| j < |own| && k == Key(j, f) && m[k] == FieldText(own[j], f);
        KeyIsGoodName(j, f);
        FieldReadable(own[j], f);
      }
    }
  }

  lemma CountText(own: seq<Cheat>)
    ensures "cheats" in FlatOf(own) && FlatOf(own)["cheats"] == Decimal(|own|)
  {
  }

  /** The file that loading the saved text gives. */
  lemma SavedFileLoads(cs: seq<Cheat>)
    requires forall c :: c in OwnCheats(cs) ==> '\n' !in c.description
    ensures LoadText(map[], SaveText(FileOf(cs))) == Plain(UnquoteSection(FlatOf(OwnCheats(cs))))
  {
    var own := OwnCheats(cs);
    FileIsFlat(cs);
    CountText(own);
    PlainPersistent(FlatOf(own));
    FlatReadable(own);
    hide FlatOf, Readable, FileOf, SaveText;
    IniRoundTrip.LoadOfSave(FileOf(cs));
  }

  // ---------------------------------------------------------------- reading the entries back

  lemma PlainLookup(m: Flat, k: string)
    ensures Lookup(Plain(m), "", k) == if k in m then Some(m[k]) else None
  {
  }

  lemma FieldLookup(own: seq<Cheat>, j: nat, f: Field)
    requires j < |own| && '\n' !in own[j].description
    ensures Lookup(Plain(UnquoteSection(FlatOf(own))), "", Key(j, f))
            == Some(if f == Desc then Unquoted(own[j].description) else FieldText(own[j], f))
  {
    hide Key, FlatOf, Plain, Unquoted;
    FlatHas(own, j, f);
    FieldReadable(own[j], f);
    PlainLookup(UnquoteSection(FlatOf(own)), Key(j, f));
  }

  lemma SignedText(n: int, default: Word)
    requires -0x8000_0000 <= n < 0x8000_0000
    ensures Signed(ParseInt(IntText(n), default)) == n
  {
    if n >= 0 {
      ParseIntOfDecimal(n, default);
    } else {
      NegativeText(-n, default);
    }
  }

  lemma NegativeText(n: nat, default: Word)
    requires 0 < n <= 0x8000_0000
    ensures ParseInt("-" + Decimal(n), default) == TWO_32 - n
  {
    var s := "-" + Decimal(n);
    DecimalValue(n);
    assert s[1..] == Decimal(n);
    SkipSpaceAtOnce(s);
    SkipSpaceIs(s[..|s| - 1], 0, 0);
    DigitsAfterSign(Decimal(n), 0);
    assert Decimal(n)[..0] == "";
  }

  lemma {:induction false} DigitsAfterSign(d: string, from: nat)
    requires AllDigits(d) && from <= |d|
    ensures Digits("-" + d, from + 1, false, DigitsValue(d[..from])) == DigitsValue(d)
    decreases |d| - from
  {
    if from == |d| {
      assert d[..from] == d;
    } else {
      assert d[..from + 1][..from] == d[..from];
      DigitsAfterSign(d, from + 1);
    }
  }

  lemma KindRead(k: Kind, default: Word)
    requires IsKind(k)
    ensures KindFrom(ParseInt(IntText(KindNumber(k)), default)) == k
  {
    hide ParseInt, IntText;
    SignedText(KindNumber(k), default);
  }

  function KnownSize(size: Word): Word { if size in {1, 2, 4, 8, 16} then size else 32 }

  lemma SizeRead(size: Word)
    ensures SizeNumber(size) < 6 && ShiftedOne(SizeNumber(size)) == KnownSize(size)
  {
  }

  /** A cheat as it comes back: off, not built in, of a known size, its description unquoted. */
  function Returned(c: Cheat): Cheat {
    c.(enabled := false, builtIn := false, size := KnownSize(c.size), description := Unquoted(c.description))
  }

  lemma CheatReadBack(own: seq<Cheat>, j: nat)
    requires j < |own| && '\n' !in own[j].description && IsKind(own[j].kind)
    ensures CheatAt(Plain(UnquoteSection(FlatOf(own))), j) == Returned(own[j])
  {
    hide Key, FlatOf, Plain, UnquoteSection, Unquoted, ParseInt, Decimal, IntText, KindFrom, KindNumber, ShiftedOne;
    hide Lower;
    var c := own[j];
    forall f ensures Lookup(Plain(UnquoteSection(FlatOf(own))), "", Key(j, f))
                     == Some(if f == Desc then Unquoted(c.description) else FieldText(c, f)) {
      FieldLookup(own, j, f);
    }
    forall n: Word, d: Word ensures ParseInt(Decimal(n), d) == n { ParseIntOfDecimal(n, d); }
    KindRead(c.kind, 0);
    SizeRead(c.size);
    ParseBoolOfText(false);
  }

  /** The cheats of a list that fit the RAM, as they come back. */
  function ComingBack(own: seq<Cheat>, ram: Word): seq<Cheat> {
    if own == [] then []
    else (if Fits(own[0], ram) then [Returned(own[0])] else []) + ComingBack(own[1..], ram)
  }

  predicate AreReadable(own: seq<Cheat>) { forall c :: c in own ==> '\n' !in c.description && IsKind(c.kind) }

  lemma CountRead(own: seq<Cheat>)
    requires |own| < 0x8000_0000
    ensures CheatCount(Plain(UnquoteSection(FlatOf(own)))) == |own|
  {
    hide FlatOf, Plain, Unquoted, ParseInt, Decimal;
    CountText(own);
    NumberReadable(|own|);
    PlainLookup(UnquoteSection(FlatOf(own)), "cheats");
    ParseIntOfDecimal(|own|, 0);
  }

  lemma {:induction false} ReadCounted(own: seq<Cheat>, ram: Word, i: nat)
    requires AreReadable(own) && 0 < |own| && i <= |own|
    ensures ReadCheats(Plain(UnquoteSection(FlatOf(own))), ram, |own|, i) == ComingBack(own[i..], ram)
    decreases |own| - i
  {
    hide FlatOf, Plain, UnquoteSection, CheatAt, Returned;
    if i < |own| {
      assert own[i] in own && own[i..][0] == own[i] && own[i..][1..] == own[i + 1..];
      CheatReadBack(own, i);
      ReadCounted(own, ram, i + 1);
      SameFit(own[i], ram);
    }
  }

  lemma SameFit(c: Cheat, ram: Word)
    ensures Fits(Returned(c), ram) == Fits(c, ram)
  {
  }

  lemma NothingRead(ram: Word)
    ensures ReadCheats(Plain(UnquoteSection(FlatOf([]))), ram, 0, 0) == []
  {
    hide Key, ParseInt;
    KeyIsNotCount(0, Address);
    assert FlatOf([]) == map["cheats" := Decimal(0)];
    PlainLookup(UnquoteSection(FlatOf([])), Key(0, Address));
  }

  /** Whatever the list: its own cheats come back in order, those left out that do not fit the RAM. */
  lemma LoadOfSave(cs: seq<Cheat>, ram: Word)
    requires AreReadable(OwnCheats(cs)) && |cs| < 0x8000_0000
    ensures LoadedCheats(LoadText(map[], SaveText(FileOf(cs))), ram) == ComingBack(OwnCheats(cs), ram)
  {
    hide FlatOf, FileOf, SaveText, Plain, ReadCheats, CheatCount;
    var own := OwnCheats(cs);
    SavedFileLoads(cs);
    CountRead(own);
    if own == [] {
      NothingRead(ram);
    } else {
      ReadCounted(own, ram, 0);
      assert own[0..] == own;
    }
  }

  // ---------------------------------------------------------------- exactly when all of it comes back

  /** What the user would expect to find: every cheat that is not built in, switched off. */
  function SwitchedOff(own: seq<Cheat>): (r: seq<Cheat>)
    ensures |r| == |own| && forall k :: 0 <= k < |own| ==> r[k] == own[k].(enabled := false)
  {
    seq(|own|, k requires 0 <= k < |own| => own[k].(enabled := false))
  }

  predicate Faithful(c: Cheat, ram: Word) {
    Fits(c, ram) && c.size in {1, 2, 4, 8, 16, 32} && GoodValue(c.description)
  }

  lemma {:induction false} ReadDescriptions(f: Sections, ram: Word, count: int, i: nat)
    requires Loadable(f)
    ensures forall c :: c in ReadCheats(f, ram, count, i) ==> '\n' !in c.description
    decreases if count > 0 then count - i else |Ahead(f, i)|
  {
    hide CheatAt, Ahead, Fits, Loadable;
    if count == 0 || i < count {
      var c := CheatAt(f, i);
      if !(count == 0 && c.address == NO_ADDRESS) {
        AheadShrinks(f, i);
        ReadDescriptions(f, ram, count, i + 1);
        DescriptionRead(f, i);
      }
    }
  }

  lemma DescriptionRead(f: Sections, i: nat)
    requires Loadable(f)
    ensures '\n' !in CheatAt(f, i).description
  {
    hide GoodName, GoodSection, Key;
    assert forall c :: c in Decimal(i + 1) ==> IsDigit(c);
    assert '\n' !in "Cheat " + Decimal(i + 1);
  }

  lemma {:induction false} ComingBackShort(own: seq<Cheat>, ram: Word)
    ensures |ComingBack(own, ram)| <= |own|
    ensures |ComingBack(own, ram)| == |own| <==> forall c :: c in own ==> Fits(c, ram)
    ensures |ComingBack(own, ram)| == |own|
            ==> forall k :: 0 <= k < |own| ==> ComingBack(own, ram)[k] == Returned(own[k])
  {
    hide Returned, Fits;
    if own != [] {
      ComingBackShort(own[1..], ram);
      assert forall c :: c in own <==> c == own[0] || c in own[1..];
    }
  }

  lemma ReturnedSame(c: Cheat)
    requires !c.builtIn && '\n' !in c.description
    ensures Returned(c) == c.(enabled := false) <==> c.size in {1, 2, 4, 8, 16, 32} && GoodValue(c.description)
  {
    hide Unquoted;
    UnquotedChanges(c.description);
  }

  lemma ComingBackWhole(own: seq<Cheat>, ram: Word)
    requires AreReadable(own) && forall c :: c in own ==> !c.builtIn
    ensures ComingBack(own, ram) == SwitchedOff(own) <==> forall c :: c in own ==> Faithful(c, ram)
  {
    hide Returned, Fits, ComingBack, IsKind, GoodValue;
    ComingBackShort(own, ram);
    forall k | 0 <= k < |own|
      ensures Returned(own[k]) == own[k].(enabled := false)
              <==> own[k].size in {1, 2, 4, 8, 16, 32} && GoodValue(own[k].description)
    {
      assert own[k] in own;
      ReturnedSame(own[k]);
    }
    var back := ComingBack(own, ram);
    if back == SwitchedOff(own) {
      forall c | c in own ensures Faithful(c, ram) {
        var k :| 0 <= k < |own| && own[k] == c;
        assert back[k] == Returned(own[k]) == SwitchedOff(own)[k];
      }
    }
    if forall c :: c in own ==> Faithful(c, ram) {
      forall k | 0 <= k < |own| ensures back[k] == SwitchedOff(own)[k] { assert own[k] in own; }
    }
  }

  /** Descriptions with a line break do not come back. */
  lemma BrokenIsLost(own: seq<Cheat>, back: seq<Cheat>, ram: Word)
    requires forall c :: c in back ==> '\n' !in c.description
    requires !(forall c :: c in own ==> '\n' !in c.description)
    ensures back != SwitchedOff(own) && !(forall c :: c in own ==> Faithful(c, ram))
  {
    hide Fits, GoodValue;
    var c :| c in own && '\n' in c.description;
    var k :| 0 <= k < |own| && own[k] == c;
    assert SwitchedOff(own)[k].description == c.description;
    assert |back| == |own| ==> back[k] in back;
    assert !Faithful(c, ram) by { BrokenValue(c.description); }
  }

  /** A saved list comes back whole, in order and switched off, if and only if every cheat of its own has a
      type, a known size, addresses inside RAM, and a description on one line that no quote starts. */
  lemma {:induction false} RoundTripExactly(cs: seq<Cheat>, ram: Word)
    requires |cs| < 0x8000_0000 && forall c :: c in OwnCheats(cs) ==> IsKind(c.kind)
    ensures LoadedCheats(LoadText(map[], SaveText(FileOf(cs))), ram) == SwitchedOff(OwnCheats(cs))
            <==> forall c :: c in OwnCheats(cs) ==> Faithful(c, ram)
  {
    hide FileOf, SaveText, LoadText, LoadedCheats, ComingBack, GoodValue;
    var own := OwnCheats(cs);
    var back := LoadedCheats(LoadText(map[], SaveText(FileOf(cs))), ram);
    LoadedDescriptions(SaveText(FileOf(cs)), ram);
    if AreReadable(own) {
      LoadOfSave(cs, ram);
      ComingBackWhole(own, ram);
    } else {
      BrokenIsLost(own, back, ram);
    }
  }

  lemma BrokenValue(v: string)
    ensures '\n' in v ==> !GoodValue(v)
  {
  }

  lemma LoadedDescriptions(text: string, ram: Word)
    ensures forall c :: c in LoadedCheats(LoadText(map[], text), ram) ==> '\n' !in c.description
  {
    hide ReadCheats, ReadLines, Loadable;
    var f := LoadText(map[], text);
    NothingLoadable();
    ReadingYieldsLoadable(Reader(map[], ""), Lines(text));
    ReadDescriptions(f, ram, CheatCount(f), 0);
  }
}
