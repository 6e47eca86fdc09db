/** The cheat manager object: its calls, with the loops and in-place updates of the original, proved
    against the state machine and the specification of compiling, running, saving and loading. */
module CheatManagers {
  import opened Wrappers
  import opened Words
  import opened Memory
  import opened Text
  import opened Ini
  import opened IniFiles
  import opened CheatVm
  import opened CodeCipher
  import opened GameShark
  import opened CodeText
  import opened CheatFile
  import opened Events
  import opened CheatLifecycle

  /** One frame of a widescreen hack: up to its first zero address, each word that still has its original
      value, or any value if it names none, is set. */
  function Widen(table: WideTable, m: Ram): (r: Ram)
    ensures |r| == |m|
    decreases |table|
  {
    if table == [] || table[0].address == 0 then m
    else
      var w := table[0];
      var cur := Read(m, w.address, 32);
      var changed := cur != w.value && (w.original == 0 || w.original == cur);
      var m1 := if changed then Write(m, w.address, w.value, 32) else m;
      Widen(table[1..], m1)
  }

  function WriteSize(code: nat): Word { if code == 0 then 8 else if code == 1 then 16 else 32 }

  class CheatManager {
    var active: bool
    var cheats: seq<Cheat>
    var widescreen: Option<WideTable>
    var gameId: string
    const events: EventManager
    const ram: array<Byte>
    const me: Listener

    /** The manager as a state of the machine. */
    function View(): Manager
      reads this, events
    {
      Manager(active, cheats, widescreen, gameId, events.Listeners(VBlank))
    }

    predicate Valid()
      reads this, events
    {
      0 < ram.Length < TWO_32 && Settled(View(), me)
    }

    constructor (events: EventManager, ram: array<Byte>, me: Listener)
      requires 0 < ram.Length < TWO_32 && Count(events.Listeners(VBlank), me) == 0
      ensures this.events == events && this.ram == ram && this.me == me && Valid()
      ensures View() == Manager(false, [], None, "", events.Listeners(VBlank))
    {
      active, cheats, widescreen, gameId := false, [], None, "";
      this.events, this.ram, this.me := events, ram, me;
    }

    method SetActive(active: bool)
      modifies this`active, events
      ensures View() == CheatLifecycle.SetActive(old(View()), me, active)
    {
      this.active := active;
      if active || widescreen.Some? {
        events.RegisterEvent(VBlank, me);
      } else {
        events.UnregisterEvent(VBlank, me);
      }
    }

    // -------------------------------------------------------------- running

    method ApplyWidescreen(table: WideTable)
      requires ram.Length > 0
      modifies ram
      ensures ram[..] == Widen(table, old(ram[..]))
    {
      hide Read, Write;
      var i := 0;
      ghost var goal := Widen(table, ram[..]);
      assert table[0..] == table;
      while i < |table| && table[i].address != 0
        invariant 0 <= i <= |table|
        invariant Widen(table[i..], ram[..]) == goal
      {
        var w := table[i];
        assert table[i..][0] == w && table[i..][1..] == table[i + 1..];
        var curVal := ReadRam(ram, w.address, 32);
        if curVal != w.value && (w.original == 0 || w.original == curVal) {
          WriteRam(ram, w.address, w.value, 32);
        }
        i := i + 1;
      }
    }

    method Apply(online: bool)
      requires ram.Length > 0
      modifies ram
      ensures ram[..] == var m := if widescreen.Some? then Widen(widescreen.value, old(ram[..])) else old(ram[..]);
                         if active then Run(cheats, online, State(m, false)).ram else m
    {
      hide Widen, Run;
      if widescreen.Some? {
        ApplyWidescreen(widescreen.value);
      }
      if active {
        CheatVm.Apply(cheats, online, ram);
      }
    }

    // -------------------------------------------------------------- adding codes

    /** The values of a group write, from the word after its address on. */
    method AddGroup(name: string, codes: Codes, first: nat, count: nat, limit: nat, guard: Cheat)
      requires 1 <= first && first + count <= |codes|
      modifies this`cheats
      ensures cheats == old(cheats)
                        + GroupRecords(name, name, codes, first, count, Low24(codes[first - 1]), Block(limit, guard))
    {
      hide GroupRecords, Continued, Guard, Plus;
      var cheat := Record(name, SetValue, 32, Low24(codes[first - 1]), 0);
      var i, j := first, 0;
      ghost var b, title := Block(limit, guard), name;
      ghost var goal := cheats + GroupRecords(name, name, codes, first, count, cheat.address, b);
      while j < count
        invariant 0 <= j <= count && i == first + j
        invariant title == if j == 0 then name else Continued(name)
        invariant cheat == Record(if j == 1 then name else title, SetValue, 32, cheat.address, cheat.value)
        invariant cheats + GroupRecords(title, name, codes, i, count - j, cheat.address, b) == goal
      {
        if j == 1 {
          cheat := cheat.(description := Continued(cheat.description));
        }
        cheat := cheat.(value := codes[i]);
        ghost var before, extra := cheats, if j < count - 1 then Guard(b, i) else [];
        ghost var step := [cheat] + extra;
        GuardIs(b, i);
        GroupUnfold(title, name, codes, i, count - j, cheat.address, b);
        cheats := cheats + [cheat];
        cheat := cheat.(address := Plus(cheat.address, 4));
        if j < count - 1 && i < limit {
          cheats := cheats + [guard];
        }
        title := Continued(name);
        assert cheats == before + step;
        assert before + (step + GroupRecords(title, name, codes, i + 1, count - j - 1, cheat.address, b))
               == cheats + GroupRecords(title, name, codes, i + 1, count - j - 1, cheat.address, b);
        i := i + 1;
        j := j + 1;
      }
      NoRecords(title, name, codes, i, cheat.address, b);
    }

    /** The code that starts at i, already deciphered: its records, and where the next one starts. */
    method AddCode(name: string, codes: Codes, start: nat, limit: nat, guard: Cheat)
      returns (error: Option<Error>, next: nat, newLimit: nat, newGuard: Cheat)
      requires start < |codes|
      modifies this`cheats
      ensures old(cheats) <= cheats
      ensures match CompileCode(name, codes, start, Block(limit, guard))
              case Err(e) => error == Some(e)
              case Ok(p) => error == None && cheats == old(cheats) + p.cheats && next == p.next
                            && Block(newLimit, newGuard) == p.block
    {
      hide GroupRecords, Opcode, Subcode, Low16, Low24, ConditionKind;
      error, next, newLimit, newGuard := None, start + 1, limit, guard;
      if start < limit {
        cheats := cheats + [guard];
      }
      ghost var b := Block(limit, guard);
      assert cheats == old(cheats) + Guard(b, start);
      var i := start;
      var cheat := BLANK.(description := name);
      var code := Opcode(codes[i]);
      match code {
        case 0 | 1 | 2 =>
          if i + 1 >= |codes| {
            error := Some(MissingValue);
            return;
          }
          cheat := cheat.(kind := SetValue, size := WriteSize(code), address := Low24(codes[i]), value := codes[i + 1]);
          cheats := cheats + [cheat];
          next := i + 2;
        case 3 =>
          error, next := AddSubcode(name, codes, start, limit, guard);
        case 4 | 5 =>
          error, next := AddLong(name, codes, start, limit, guard);
        case 7 =>
          error := Some(MasterCode);
        case 13 | 14 =>
          error, next, newLimit, newGuard := AddTest(name, codes, start, limit, guard);
        case _ =>
          error := Some(UnsupportedType);
      }
    }

    /** The codes of three words: a repeated store and a copy, their guard already added. */
    method AddLong(name: string, codes: Codes, start: nat, limit: nat, guard: Cheat)
      returns (error: Option<Error>, next: nat)
      requires start < |codes| && (Opcode(codes[start]) == 4 || Opcode(codes[start]) == 5)
      modifies this`cheats
      ensures old(cheats) <= cheats
      ensures match CompileCode(name, codes, start, Block(limit, guard))
              case Err(e) => error == Some(e)
              case Ok(p) =>
                var before := Guard(Block(limit, guard), start);
                && error == None && next == p.next && p.block == Block(limit, guard)
                && before <= p.cheats && cheats == old(cheats) + p.cheats[|before|..]
    {
      hide Opcode, Low16, Low24, Guard;
      error, next := None, start + 1;
      var i := start;
      var cheat := BLANK.(description := name);
      if Opcode(codes[i]) == 4 {
        if i + 2 >= |codes| {
          error := Some(MissingCountOrValue);
          return;
        }
        cheat := cheat.(kind := SetValue, size := 32, address := Low24(codes[i]));
        i := i + 1;
        cheat := cheat.(repeatCount := codes[i] / 0x1_0000, repeatAddressIncrement := Low16(codes[i]));
        i := i + 1;
        cheat := cheat.(value := codes[i]);
      } else {
        if i + 2 >= |codes| {
          error := Some(MissingCountOrDestination);
          return;
        }
        cheat := cheat.(kind := Copy, size := 8, address := Low24(codes[i]));
        i := i + 1;
        cheat := cheat.(destAddress := Low24(codes[i]));
        i := i + 1;
        cheat := cheat.(repeatCount := codes[i]);
      }
      cheats := cheats + [cheat];
      next := i + 1;
    }

    /** The two conditionals: a one-shot record, or the guard of a block and its end. */
    method AddTest(name: string, codes: Codes, start: nat, limit: nat, guard: Cheat)
      returns (error: Option<Error>, next: nat, newLimit: nat, newGuard: Cheat)
      requires start < |codes| && (Opcode(codes[start]) == 13 || Opcode(codes[start]) == 14)
      modifies this`cheats
      ensures old(cheats) <= cheats
      ensures match CompileCode(name, codes, start, Block(limit, guard))
              case Err(e) => error == Some(e)
              case Ok(p) =>
                var before := Guard(Block(limit, guard), start);
                && error == None && next == p.next && p.block == Block(newLimit, newGuard)
                && before <= p.cheats && cheats == old(cheats) + p.cheats[|before|..]
    {
      hide Opcode, Subcode, Low16, Low24, ConditionKind, Guard;
      error, next, newLimit, newGuard := None, start + 1, limit, guard;
      var i := start;
      var cheat := BLANK.(description := name);
      if Opcode(codes[i]) == 13 {
        if i + 1 >= |codes| {
          error := Some(MissingCountOrDestination);
          return;
        }
        cheat := cheat.(size := 16, address := Low24(codes[i]));
        i := i + 1;
        if codes[i] / 0x1_0000 > 3 {
          error := Some(UnsupportedCondition);
          return;
        }
        cheat := cheat.(kind := ConditionKind(codes[i] / 0x1_0000), value := Low16(codes[i]));
        cheats := cheats + [cheat];
        next := i + 1;
      } else {
        if i + 1 >= |codes| {
          error := Some(MissingTestAddress);
          return;
        }
        cheat := cheat.(size := 16, value := Low16(codes[i]));
        newLimit := i + 1 + Subcode(codes[i]);
        i := i + 1;
        if codes[i] / 0x100_0000 > 3 {
          error := Some(UnsupportedCondition);
          return;
        }
        newGuard := cheat.(kind := ConditionKind(codes[i] / 0x100_0000), address := Low24(codes[i]));
        next := i + 1;
      }
    }

    /** The codes under opcode 3, their guard already added. */
    method AddSubcode(name: string, codes: Codes, start: nat, limit: nat, guard: Cheat)
      returns (error: Option<Error>, next: nat)
      requires start < |codes| && Opcode(codes[start]) == 3
      modifies this`cheats
      ensures old(cheats) <= cheats
      ensures match CompileCode(name, codes, start, Block(limit, guard))
              case Err(e) => error == Some(e)
              case Ok(p) => error == None && next == p.next && p.block == Block(limit, guard)
                            && p.cheats == Guard(p.block, start) + p.cheats[|Guard(p.block, start)|..]
                            && cheats == old(cheats) + p.cheats[|Guard(p.block, start)|..]
    {
      hide GroupRecords, Guard;
      error, next := None, start + 1;
      var i := start;
      var cheat := BLANK.(description := name);
      var subcode := Subcode(codes[i]);
      match subcode {
        case 0 =>
          var count := Low16(codes[i]);
          if i + count + 1 >= |codes| {
            error := Some(MissingValues);
            return;
          }
          AddGroup(name, codes, i + 2, count, limit, guard);
          next := i + 2 + count;
        case 1 | 2 =>
          if i + 1 >= |codes| {
            error := Some(MissingValue);
            return;
          }
          cheat := cheat.(kind := if subcode == 1 then Increase else Decrease, size := 8, value := codes[i] % 0x100);
          i := i + 1;
          cheat := cheat.(address := Low24(codes[i]));
          cheats := cheats + [cheat];
          next := i + 1;
        case 3 | 4 =>
          if i + 1 >= |codes| {
            error := Some(MissingValue);
            return;
          }
          cheat := cheat.(kind := if subcode == 3 then Increase else Decrease, size := 16, value := Low16(codes[i]));
          i := i + 1;
          cheat := cheat.(address := Low24(codes[i]));
          cheats := cheats + [cheat];
          next := i + 1;
        case 5 | 6 =>
          if i + 2 >= |codes| {
            error := Some(MissingAddressOrValue);
            return;
          }
          cheat := cheat.(kind := if subcode == 5 then Increase else Decrease, size := 32);
          i := i + 1;
          cheat := cheat.(address := Low24(codes[i]));
          i := i + 1;
          cheat := cheat.(value := codes[i]);
          cheats := cheats + [cheat];
          next := i + 1;
        case _ =>
          error := Some(UnsupportedType);
      }
    }

    /** Rewrites the words of the code at i when it is scrambled. */
    method Decipher(codes: Codes, i: nat) returns (r: Codes)
      requires i < |codes|
      ensures r == DecipherAt(codes, i)
    {
      hide DecryptCode, DecryptArg;
      r := codes;
      DecryptedFits(codes[i]);
      if Opcode(codes[i]) >= 0x10 {
        r := r[i := DecryptCode(r[i])];
        var code := Opcode(r[i]);
        if code == 4 && i + 2 < |r| {
          r := r[i + 1 := DecryptArg(r[i + 1])];
          r := r[i + 2 := DecryptArg(r[i + 2])];
        } else if code == 13 && i + 2 < |r| {
          r := r[i + 1 := DecryptArg(r[i + 1])];
        }
      }
    }

    /** The loop over the codes. What was added before an error is still there. */
    method AddCodes(name: string, words: Codes) returns (error: Option<Error>)
      modifies this`cheats
      ensures old(cheats) <= cheats
      ensures match Compile(name, words)
              case Err(e) => error == Some(e)
              case Ok(cs) => error == None && cheats == old(cheats) + cs
    {
      hide CompileCode, DecipherAt;
      var codes, limit, guard, i := words, 0, BLANK, 0;
      ghost var done: seq<Cheat> := [];
      error := None;
      PrependNothing(CompileFrom(name, words, 0, NO_BLOCK));
      while i < |codes|
        invariant 0 <= i <= |codes| && cheats == old(cheats) + done && error == None
        invariant Compile(name, words) == Prepend(done, CompileFrom(name, codes, i, Block(limit, guard)))
        decreases |codes| - i
      {
        codes := Decipher(codes, i);
        ghost var before := cheats;
        ghost var r := CompileCode(name, codes, i, Block(limit, guard));
        error, i, limit, guard := AddCode(name, codes, i, limit, guard);
        if error.Some? {
          return;
        }
        PrependTwice(done, r.value.cheats, CompileFrom(name, codes, i, Block(limit, guard)));
        done := done + r.value.cheats;
        assert cheats == old(cheats) + done;
      }
      assert CompileFrom(name, codes, i, Block(limit, guard)) == Ok([]) && done + [] == done;
    }

    method AddGameSharkCheat(name: string, s: string, canSave: bool) returns (r: Result<(), Error>)
      requires Valid()
      modifies this`cheats, this`active, events
      ensures Valid() && View() == Perform(old(View()), me, ram.Length, Call.AddGameSharkCheat(name, s, canSave))
      ensures r == match Added(old(View()), name, s, canSave) case Ok(_) => Ok(()) case Err(e) => Err(e)
    {
      hide ParseCodes, Compile, Settled;
      PerformSettles(View(), me, ram.Length, Call.AddGameSharkCheat(name, s, canSave));
      var parsed := CodeText.Parse(s);
      if parsed.Err? {
        return Err(parsed.error);
      }
      var prevSize := |cheats|;
      var error := AddCodes(name, parsed.value);
      if error.None? && !canSave {
        error := Some(CannotSave);
      }
      if error.Some? {
        cheats := cheats[..prevSize];
        assert cheats == old(cheats);
        return Err(error.value);
      }
      SetActive(cheats != []);
      r := Ok(());
    }

    // -------------------------------------------------------------- files

    /** One call of `set` on the file being written. */
    method SetField(cfg: IniFile, prefix: string, name: string, text: string,
                    ghost i: nat, ghost c: Cheat, ghost k: nat)
      requires k < |FIELDS| && prefix == Prefix(i)
      requires name == FieldName(FIELDS[k]) && text == FieldText(c, FIELDS[k])
      modifies cfg
      ensures PutFields(cfg.sections, i, c, FIELDS[k + 1..]) == PutFields(old(cfg.sections), i, c, FIELDS[k..])
    {
      hide FieldText, FieldName, SetEntry;
      cfg.SetRaw("", prefix + name, text, false);
      assert FIELDS[k..][0] == FIELDS[k] && FIELDS[k..][1..] == FIELDS[k + 1..];
    }

    method SetCheat(cfg: IniFile, i: nat, cheat: Cheat)
      modifies cfg
      ensures cfg.sections == PutFields(old(cfg.sections), i, cheat, FIELDS)
    {
      hide PutFields, Decimal, IntText, KindNumber, BoolText;
      assert FIELDS[0..] == FIELDS;
      SetAddressFields(cfg, i, cheat);
      SetCodeFields(cfg, i, cheat);
      SetValueFields(cfg, i, cheat);
      SetRepeatFields(cfg, i, cheat);
    }

    method SetAddressFields(cfg: IniFile, i: nat, cheat: Cheat)
      modifies cfg
      ensures PutFields(cfg.sections, i, cheat, FIELDS[4..]) == PutFields(old(cfg.sections), i, cheat, FIELDS[0..])
    {
      hide PutFields, Decimal, IntText, KindNumber, BoolText, Prefix, FIELDS;
      FieldOrder();
      var prefix := Prefix(i);
      SetField(cfg, prefix, "address", Decimal(cheat.address), i, cheat, 0);
      SetField(cfg, prefix, "address_bit_position", Decimal(cheat.valueMask), i, cheat, 1);
      SetField(cfg, prefix, "big_endian", BoolText(false), i, cheat, 2);
      SetField(cfg, prefix, "cheat_type", IntText(KindNumber(cheat.kind)), i, cheat, 3);
    }

    method SetCodeFields(cfg: IniFile, i: nat, cheat: Cheat)
      modifies cfg
      ensures PutFields(cfg.sections, i, cheat, FIELDS[8..]) == PutFields(old(cfg.sections), i, cheat, FIELDS[4..])
    {
      hide PutFields, Decimal, BoolText, Prefix, FIELDS;
      FieldOrder();
      var prefix := Prefix(i);
      SetField(cfg, prefix, "code", "", i, cheat, 4);
      SetField(cfg, prefix, "desc", cheat.description, i, cheat, 5);
      SetField(cfg, prefix, "dest_address", Decimal(cheat.destAddress), i, cheat, 6);
      SetField(cfg, prefix, "enable", BoolText(false), i, cheat, 7);
    }

    method SetValueFields(cfg: IniFile, i: nat, cheat: Cheat)
      modifies cfg
      ensures PutFields(cfg.sections, i, cheat, FIELDS[11..]) == PutFields(old(cfg.sections), i, cheat, FIELDS[8..])
    {
      hide PutFields, Decimal, Prefix, FIELDS;
      FieldOrder();
      var prefix := Prefix(i);
      var memSize := 5;
      match cheat.size {
        case 1 => memSize := 0;
        case 2 => memSize := 1;
        case 4 => memSize := 2;
        case 8 => memSize := 3;
        case 16 => memSize := 4;
        case _ =>
      }
      assert memSize == SizeNumber(cheat.size);
      hide SizeNumber;
      SetField(cfg, prefix, "handler", Decimal(1), i, cheat, 8);
      SetField(cfg, prefix, "memory_search_size", Decimal(memSize), i, cheat, 9);
      SetField(cfg, prefix, "value", Decimal(cheat.value), i, cheat, 10);
    }

    method SetRepeatFields(cfg: IniFile, i: nat, cheat: Cheat)
      modifies cfg
      ensures cfg.sections == PutFields(old(cfg.sections), i, cheat, FIELDS[11..])
    {
      hide PutFields, Decimal, Prefix, FIELDS;
      FieldOrder();
      var prefix := Prefix(i);
      SetField(cfg, prefix, "repeat_count", Decimal(cheat.repeatCount), i, cheat, 11);
      SetField(cfg, prefix, "repeat_add_to_value", Decimal(cheat.repeatValueIncrement), i, cheat, 12);
      SetField(cfg, prefix, "repeat_add_to_address", Decimal(cheat.repeatAddressIncrement), i, cheat, 13);
      NoFields(cfg.sections, i, cheat);
    }

    method SaveCheatFile() returns (text: string)
      ensures text == SaveText(FileOf(cheats))
    {
      hide PutFields, SaveText, SetEntry, OwnCheats, PutCheats;
      var cfg := new IniFile();
      var i := 0;
      ghost var own := OwnCheats(cheats);
      assert cheats[0..] == cheats;
      for k := 0 to |cheats|
        invariant fresh(cfg) && i + |OwnCheats(cheats[k..])| == |own|
        invariant PutCheats(cfg.sections, i, OwnCheats(cheats[k..])) == PutCheats(map[], 0, own)
      {
        var cheat := cheats[k];
        assert cheats[k..][0] == cheat && cheats[k..][1..] == cheats[k + 1..];
        OwnCheatsStep(cheats[k..]);
        if !cheat.builtIn {
          PutCheatsStep(cfg.sections, i, cheat, OwnCheats(cheats[k + 1..]));
          SetCheat(cfg, i, cheat);
          i := i + 1;
        }
      }
      assert cheats[|cheats|..] == [];
      NoCheats(cfg.sections, i);
      cfg.SetRaw("", "cheats", Decimal(i), false);
      text := cfg.Save();
    }

    /** A cheat file's contents, or None when there is no such file. */
    method LoadCheatFile(text: Option<string>)
      requires Valid()
      modifies this`cheats, this`active, events
      ensures Valid() && View() == Load(old(View()), me, ram.Length, text)
    {
      hide Settled, LoadText, ReadCheats, CheatLifecycle.SetActive;
      LoadSettles(View(), me, ram.Length, text);
      if text.None? || |text.value| >= MAX_FILE {
        return;
      }
      var cfg := new IniFile();
      cfg.Load(text.value);
      var n := cfg.GetInt("", "cheats", 0);
      var count := Signed(n);
      var found := ReadAll(cfg, count);
      cheats := found;
      SetActive(cheats != []);
    }

    method ReadAll(cfg: IniFile, count: int) returns (found: seq<Cheat>)
      requires 0 < ram.Length < TWO_32
      ensures found == ReadCheats(cfg.sections, ram.Length, count, 0)
    {
      hide ReadCheats, CheatAt, Ahead, Fits;
      found := [];
      var i := 0;
      ghost var f, size: Word := cfg.sections, ram.Length;
      assert [] + ReadCheats(f, size, count, 0) == ReadCheats(f, size, count, 0);
      while count == 0 || i < count
        invariant found + ReadCheats(f, size, count, i) == ReadCheats(f, size, count, 0)
        decreases if count > 0 then count - i else |Ahead(f, i)|
      {
        AheadShrinks(f, i);
        ReadStep(f, size, count, i, found);
        var cheat := ReadOne(cfg, i);
        if count == 0 && cheat.address == NO_ADDRESS {
          break;
        }
        FitsMeans(cheat, size);
        if cheat.address < ram.Length && cheat.destAddress < ram.Length && cheat.kind != Disabled {
          found := found + [cheat];
        }
        i := i + 1;
      }
      ReadEnds(f, size, count, i);
      assert found + [] == found;
    }

    method ReadOne(cfg: IniFile, i: nat) returns (cheat: Cheat)
      ensures cheat == CheatAt(cfg.sections, i)
    {
      hide ParseInt, Key, KindFrom, ShiftedOne, Lookup;
      cheat := BLANK;
      var desc := cfg.GetString("", Key(i, Desc), "Cheat " + Decimal(i + 1));
      var address := cfg.GetInt("", Key(i, Address), NO_ADDRESS);
      var kind := cfg.GetInt("", Key(i, CheatType), 0);
      var size := cfg.GetInt("", Key(i, MemorySearchSize), 0);
      var value := cfg.GetInt("", Key(i, Value), cheat.value);
      var count := cfg.GetInt("", Key(i, RepeatCount), cheat.repeatCount);
      var addValue := cfg.GetInt("", Key(i, RepeatAddToValue), cheat.repeatValueIncrement);
      var addAddress := cfg.GetInt("", Key(i, RepeatAddToAddress), cheat.repeatAddressIncrement);
      var enabled := cfg.GetBool("", Key(i, Enable), false);
      var dest := cfg.GetInt("", Key(i, DestAddress), 0);
      var mask := cfg.GetInt("", Key(i, AddressBitPosition), 0);
      cheat := Cheat(KindFrom(kind), desc, enabled, ShiftedOne(size), address, value, mask % 0x100, count, addValue,
                     addAddress, dest, false);
    }

    // -------------------------------------------------------------- the other public calls

    method EnableCheat(index: nat, enabled: bool)
      requires Valid() && index < |cheats|
      modifies this`cheats
      ensures Valid() && View() == Perform(old(View()), me, ram.Length, Call.EnableCheat(index, enabled))
    {
      cheats := cheats[index := cheats[index].(enabled := enabled)];
    }

    /** The cheats of another game: those of the file found for it, and those built in. */
    method ChangeGame(gameId: string, file: Option<string>, builtIn: seq<Cheat>)
      requires 0 < ram.Length < TWO_32 && Count(events.Listeners(VBlank), me) <= 1
      modifies this`cheats, this`active, this`gameId, events
      ensures View() == NewGame(old(View()), me, ram.Length, gameId, file, builtIn)
    {
      hide Settled, Load, CheatLifecycle.SetActive, Count, Others;
      cheats := [];
      ghost var m0 := View();
      SetActive(false);
      SetActiveSettles(m0, me, false);
      SettledIgnoresGame(CheatLifecycle.SetActive(m0, me, false), gameId, me);
      this.gameId := gameId;
      LoadCheatFile(file);
      var cheatCount := |cheats|;
      cheats := cheats + builtIn;
      if |cheats| > cheatCount {
        SetActive(true);
      } else {
        assert cheats == cheats[..cheatCount];
      }
    }

    /** The file found for the game, the cheats built in for it, and its widescreen hack if it has one. */
    method Reset(gameId: string, file: Option<string>, builtIn: seq<Cheat>, wide: Option<WideTable>)
      requires Valid()
      modifies this, events
      ensures Valid() && View() == Perform(old(View()), me, ram.Length, Call.Reset(gameId, file, builtIn, wide))
    {
      hide NewGame, CheatLifecycle.SetActive, Count, Others;
      ghost var call := Call.Reset(gameId, file, builtIn, wide);
      PerformSettles(View(), me, ram.Length, call);
      widescreen := None;
      if this.gameId != gameId {
        ChangeGame(gameId, file, builtIn);
      }
      widescreen := wide;
      SetActive(active);
    }
  }

  lemma FitsMeans(c: Cheat, ram: Word)
    ensures Fits(c, ram) <==> c.address < ram && c.destAddress < ram && c.kind != Disabled
  {
  }

  lemma ReadStep(f: Sections, ram: Word, count: int, i: nat, found: seq<Cheat>)
    requires count == 0 || i < count
    ensures
      var c := CheatAt(f, i);
      found + ReadCheats(f, ram, count, i)
      == if count == 0 && c.address == NO_ADDRESS then found
         else (if Fits(c, ram) then found + [c] else found) + ReadCheats(f, ram, count, i + 1)
  {
    hide CheatAt, Ahead, Fits;
    var c, rest := CheatAt(f, i), ReadCheats(f, ram, count, i + 1);
    assert found + ([c] + rest) == (found + [c]) + rest;
    assert [] + rest == rest && found + [] == found;
  }

  lemma ReadEnds(f: Sections, ram: Word, count: int, i: nat)
    ensures (count != 0 && i >= count) || (count == 0 && CheatAt(f, i).address == NO_ADDRESS)
            ==> ReadCheats(f, ram, count, i) == []
  {
    hide CheatAt, Ahead, Fits;
  }

  lemma OwnCheatsStep(cs: seq<Cheat>)
    requires cs != []
    ensures OwnCheats(cs) == (if cs[0].builtIn then [] else [cs[0]]) + OwnCheats(cs[1..])
    ensures cs[0].builtIn ==> OwnCheats(cs) == OwnCheats(cs[1..])
    ensures !cs[0].builtIn ==> |OwnCheats(cs)| == 1 + |OwnCheats(cs[1..])|
  {
  }

  lemma PutCheatsStep(s: Sections, i: nat, c: Cheat, rest: seq<Cheat>)
    ensures PutCheats(s, i, [c] + rest) == PutCheats(PutFields(s, i, c, FIELDS), i + 1, rest)
  {
    hide PutFields;
    assert ([c] + rest)[1..] == rest;
  }

  lemma NoCheats(s: Sections, i: nat)
    ensures OwnCheats([]) == [] && PutCheats(s, i, []) == s
  {
  }

  lemma SettledIgnoresGame(m: Manager, gameId: string, me: Listener)
    requires Settled(m, me)
    ensures Settled(m.(gameId := gameId), me)
  {
  }

  lemma NoFields(s: Sections, i: nat, c: Cheat)
    ensures PutFields(s, i, c, FIELDS[14..]) == s
  {
    assert FIELDS[14..] == [];
  }

  lemma FieldOrder()
    ensures |FIELDS| == 14
    ensures FIELDS[0] == Address && FIELDS[1] == AddressBitPosition && FIELDS[2] == BigEndian
    ensures FIELDS[3] == CheatType && FIELDS[4] == Code && FIELDS[5] == Desc && FIELDS[6] == DestAddress
    ensures FIELDS[7] == Enable && FIELDS[8] == Handler && FIELDS[9] == MemorySearchSize && FIELDS[10] == Value
    ensures FIELDS[11] == RepeatCount && FIELDS[12] == RepeatAddToValue && FIELDS[13] == RepeatAddToAddress
  {
  }

  lemma PrependNothing(r: Result<seq<Cheat>, Error>)
    ensures Prepend([], r) == r
  {
    if r.Ok? {
      assert [] + r.value == r.value;
    }
  }

  lemma PrependTwice(a: seq<Cheat>, b: seq<Cheat>, r: Result<seq<Cheat>, Error>)
    ensures Prepend(a, Prepend(b, r)) == Prepend(a + b, r)
  {
    if r.Ok? {
      assert a + (b + r.value) == (a + b) + r.value;
    }
  }

  lemma GuardIs(b: Block, k: nat)
    ensures Guard(b, k) == if k < b.limit then [b.guard] else []
  {
  }

  lemma GroupUnfold(title: string, name: string, ws: Codes, k: nat, n: nat, address: Word, b: Block)
    requires 0 < n && k + n <= |ws|
    ensures
      GroupRecords(title, name, ws, k, n, address, b)
      == [Record(title, SetValue, 32, address, ws[k])] + (if n > 1 then Guard(b, k) else [])
         + GroupRecords(Continued(name), name, ws, k + 1, n - 1, Plus(address, 4), b)
  {
  }

  lemma NoRecords(title: string, name: string, ws: Codes, k: nat, address: Word, b: Block)
    requires k <= |ws|
    ensures GroupRecords(title, name, ws, k, 0, address, b) == []
  {
  }
}
