/** What a code list is refused for, and how its records are titled. */
module CodeRecords {
  import opened Words
  import opened Wrappers
  import opened CheatVm
  import opened GameShark
  import opened CodeMeaning
  import opened CodeDeciphering

  // ---------------------------------------------------------------- refused lists

  /** Where a deciphered list stops being one of complete, supported codes. */
  function RefusedAt(ws: Codes, i: nat): nat
    decreases |ws| - i
  {
    if i >= |ws| || Extent(ws, i) == 0 then i else RefusedAt(ws, i + Extent(ws, i))
  }

  /** Why a code is refused, by its first word and whether that is the last one. */
  function Complaint(w: Word, last: bool): Error {
    var op, sub := w / 0x100_0000, w / 0x1_0000 % 0x100;
    if op <= 2 || (op == 3 && 1 <= sub <= 4) then MissingValue
    else if op == 3 && sub == 0 then MissingValues
    else if op == 3 && 5 <= sub <= 6 then MissingAddressOrValue
    else if op == 4 then MissingCountOrValue
    else if op == 5 || (op == 13 && last) then MissingCountOrDestination
    else if op == 14 && last then MissingTestAddress
    else if op == 13 || op == 14 then UnsupportedCondition
    else if op == 7 then MasterCode
    else UnsupportedType
  }

  lemma CodeIsRefused(name: string, ws: Codes, i: nat, b: Block)
    requires i < |ws| && Extent(ws, i) == 0
    ensures CompileCode(name, ws, i, b) == Err(Complaint(ws[i], i + 1 == |ws|))
  {
    hide GroupRecords, Guard;
  }

  lemma {:induction false} RefusedFrom(name: string, ws: Codes, i: nat, b: Block)
    requires i <= |ws| && CompileFrom(name, ws, i, b).Err?
    ensures
      var d := DecipherFrom(ws, i);
      var k := RefusedAt(d, i);
      k < |d| && CompileFrom(name, ws, i, b) == Err(Complaint(d[k], k + 1 == |d|))
    decreases |ws| - i
  {
    hide CompileCode, Extent, DecipherAt, Complaint;
    var p := DecipherAt(ws, i);
    var n := i + Extent(p, i);
    var d := DecipherFrom(ws, i);
    if Extent(p, i) > 0 {
      PlainFirst(ws, i);
      RejectedCode(name, p, i, b);
      CodeIsLocal(name, p, d, i, b);
      RefusedFrom(name, p, n, CompileCode(name, p, i, b).value.block);
    } else {
      CodeIsRefused(name, p, i, b);
    }
  }

  lemma PlainFirst(ws: Codes, i: nat)
    requires i < |ws|
    ensures DecipherAt(ws, i)[i] < 0x1000_0000
  {
    DecipheredWords(ws, i);
  }

  /** A list is refused for the first of its deciphered codes that is not complete and supported. */
  lemma RefusedForFirst(name: string, ws: Codes)
    requires Compile(name, ws).Err?
    ensures
      var d := DecipherFrom(ws, 0);
      var k := RefusedAt(d, 0);
      k < |d| && Compile(name, ws) == Err(Complaint(d[k], k + 1 == |d|))
  {
    hide CompileFrom, DecipherFrom, RefusedAt;
    RefusedFrom(name, ws, 0, NO_BLOCK);
  }

  // ---------------------------------------------------------------- titles

  /** A record as one is added: switched off, not built in, and titled for its list. */
  predicate IsNew(c: Cheat, name: string) {
    !c.enabled && !c.builtIn && (c.description == name || c.description == name + " (cont'd)")
  }

  ghost predicate AllNew(cs: seq<Cheat>, name: string) { forall c :: c in cs ==> IsNew(c, name) }

  lemma {:induction false} GroupIsNew(title: string, name: string, ws: Codes, k: nat, n: nat, address: Word, b: Block)
    requires k + n <= |ws| && title in [name, name + " (cont'd)"] && IsNew(b.guard, name)
    ensures AllNew(GroupRecords(title, name, ws, k, n, address, b), name)
    decreases n
  {
    if n > 0 {
      GroupIsNew(name + " (cont'd)", name, ws, k + 1, n - 1, Plus(address, 4), b);
    }
  }

  lemma CodeIsNew(name: string, ws: Codes, i: nat, b: Block)
    requires i < |ws| && IsNew(b.guard, name) && CompileCode(name, ws, i, b).Ok?
    ensures
      var p := CompileCode(name, ws, i, b).value;
      AllNew(p.cheats, name) && IsNew(p.block.guard, name)
  {
    hide GroupRecords;
    if Opcode(ws[i]) == 3 && Subcode(ws[i]) == 0 {
      GroupIsNew(name, name, ws, i + 2, Low16(ws[i]), Low24(ws[i + 1]), b);
    }
  }

  lemma {:induction false} ListIsNew(name: string, ws: Codes, i: nat, b: Block)
    requires IsNew(b.guard, name) && CompileFrom(name, ws, i, b).Ok?
    ensures AllNew(CompileFrom(name, ws, i, b).value, name)
    decreases |ws| - i
  {
    hide CompileCode, DecipherAt, IsNew;
    if i < |ws| {
      var d := DecipherAt(ws, i);
      CodeIsNew(name, d, i, b);
      var p := CompileCode(name, d, i, b).value;
      ListIsNew(name, d, p.next, p.block);
    }
  }

  /** Every record of a list is switched off and titled for it. */
  lemma RecordsAreNew(name: string, ws: Codes)
    requires Compile(name, ws).Ok?
    ensures AllNew(Compile(name, ws).value, name)
  {
    var b := Block(0, Record(name, Disabled, 0, 0, 0));
    GuardUnused(name, ws, 0, NO_BLOCK, b);
    ListIsNew(name, ws, 0, b);
  }

  /** A record of a code: kind, size, address and value, and how it repeats. */
  function Plain(name: string, kind: Kind, size: Word, address: Word, value: Word, count: Word, stride: Word): Cheat {
    Cheat(kind, name, false, size, address, value, 0, count, 0, stride, 0, false)
  }

  /** The record of a code that has one, from its words as numbers. */
  function OneRecord(name: string, w: Word, next: Word, third: Word): Cheat {
    var op, sub, low, half := w / 0x100_0000, w / 0x1_0000 % 0x100, w % 0x100_0000, w % 0x1_0000;
    if op == 0 then Plain(name, SetValue, 8, low, next, 1, 0)
    else if op == 1 then Plain(name, SetValue, 16, low, next, 1, 0)
    else if op == 2 then Plain(name, SetValue, 32, low, next, 1, 0)
    else if op == 3 && sub == 1 then Plain(name, Increase, 8, next % 0x100_0000, w % 0x100, 1, 0)
    else if op == 3 && sub == 2 then Plain(name, Decrease, 8, next % 0x100_0000, w % 0x100, 1, 0)
    else if op == 3 && sub == 3 then Plain(name, Increase, 16, next % 0x100_0000, half, 1, 0)
    else if op == 3 && sub == 4 then Plain(name, Decrease, 16, next % 0x100_0000, half, 1, 0)
    else if op == 3 && sub == 5 then Plain(name, Increase, 32, next % 0x100_0000, third, 1, 0)
    else if op == 3 then Plain(name, Decrease, 32, next % 0x100_0000, third, 1, 0)
    else if op == 4 then Plain(name, SetValue, 32, low, third, next / 0x1_0000, next % 0x1_0000)
    else if op == 5 then Plain(name, Copy, 8, low, 0, third, 0).(destAddress := next % 0x100_0000)
    else Tested(name, next / 0x1_0000, low, next % 0x1_0000)
  }

  /** The record of a test. */
  function Tested(name: string, relation: nat, address: Word, value: Word): Cheat {
    var kind := if relation == 0 then RunNextIfEq else if relation == 1 then RunNextIfNeq
                else if relation == 2 then RunNextIfLt else RunNextIfGt;
    Plain(name, kind, 16, address, value, 1, 0)
  }

  /** The record of a code outside of a block, field by field; a block has none of its own, but a guard for the codes
      that start among as many words as its first one says. */
  lemma RecordSpelled(name: string, ws: Codes, i: nat, b: Block)
    requires i < |ws| && Extent(ws, i) > 0 && b.limit <= i && !IsGroup(ws[i])
    ensures
      var p, w := CompileCode(name, ws, i, b).value, ws[i];
      if w / 0x100_0000 == 14 then
        && p.cheats == []
        && p.block == Block(i + 1 + w / 0x1_0000 % 0x100,
                            Tested(name, ws[i + 1] / 0x100_0000, ws[i + 1] % 0x100_0000, w % 0x1_0000))
      else
        p.block == b && p.cheats == [OneRecord(name, w, ws[i + 1], if i + 2 < |ws| then ws[i + 2] else 0)]
  {
    hide GroupRecords;
    assert Guard(b, i) == [];
  }

  /** The record of a value of a group write. */
  function ValueRecord(title: string, address: int, value: Word): Cheat {
    Cheat(SetValue, title, false, 32, address % 0x1_0000_0000, value, 0, 1, 0, 0, 0, false)
  }

  lemma FirstOfGroup(title: string, name: string, ws: Codes, k: nat, n: nat, address: Word)
    requires k + n <= |ws| && n > 0
    ensures GroupRecords(title, name, ws, k, n, address, NO_BLOCK)
            == [ValueRecord(title, address, ws[k])]
               + GroupRecords(name + " (cont'd)", name, ws, k + 1, n - 1, Plus(address, 4), NO_BLOCK)
  {
  }

  lemma NextAddress(address: Word, j: nat)
    requires j > 0
    ensures (Plus(address, 4) + 4 * (j - 1)) % 0x1_0000_0000 == (address + 4 * j) % 0x1_0000_0000
  {
  }

  /** The records of a group write: its values at every fourth byte, all but the first marked as continued. */
  lemma {:induction false} GroupSpelled(title: string, name: string, ws: Codes, k: nat, n: nat, address: Word)
    requires k + n <= |ws|
    ensures
      var r := GroupRecords(title, name, ws, k, n, address, NO_BLOCK);
      |r| == n && forall j :: 0 <= j < n ==>
        r[j] == ValueRecord(if j == 0 then title else name + " (cont'd)", address + 4 * j, ws[k + j])
    decreases n
  {
    if n > 0 {
      FirstOfGroup(title, name, ws, k, n, address);
      hide GroupRecords, Plus;
      var rest := GroupRecords(name + " (cont'd)", name, ws, k + 1, n - 1, Plus(address, 4), NO_BLOCK);
      GroupSpelled(name + " (cont'd)", name, ws, k + 1, n - 1, Plus(address, 4));
      forall j | 1 <= j < n
        ensures rest[j - 1] == ValueRecord(name + " (cont'd)", address + 4 * j, ws[k + j])
      {
        NextAddress(address, j);
      }
    }
  }
}
