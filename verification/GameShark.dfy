/** The translation of GameShark / Action Replay code words into cheat records. */
module GameShark {
  import opened Words
  import opened Wrappers
  import opened CheatVm
  import opened CodeCipher

  datatype Error =
    | InvalidCode
    | MissingValue
    | MissingValues
    | MissingAddressOrValue
    | MissingCountOrValue
    | MissingCountOrDestination
    | MissingTestAddress
    | UnsupportedCondition
    | MasterCode
    | UnsupportedType
    | CannotSave

  type Codes = seq<Word>

  function Opcode(w: Word): nat { w / 0x100_0000 }

  function Low24(w: Word): Word { w % 0x100_0000 }

  function Subcode(w: Word): nat { w / 0x1_0000 % 0x100 }

  // ---------------------------------------------------------------- deciphering in place

  function With(ws: Codes, k: nat, w: Word): (r: Codes)
    requires k < |ws|
    ensures |r| == |ws|
  {
    ws[k := w]
  }

  /** The words of a scrambled code, its first already deciphered: some codes have arguments to decipher. */
  function DecipherArgs(a: Codes, i: nat): (r: Codes)
    requires i < |a|
    ensures |r| == |a|
  {
    if Opcode(a[i]) == 4 && i + 2 < |a| then With(With(a, i + 1, DecryptArg(a[i + 1])), i + 2, DecryptArg(a[i + 2]))
    else if Opcode(a[i]) == 0xd && i + 2 < |a| then With(a, i + 1, DecryptArg(a[i + 1]))
    else a
  }

  /** The codes with the one that starts at i deciphered; only a first word with a key nibble is. */
  function DecipherAt(ws: Codes, i: nat): (r: Codes)
    requires i < |ws|
    ensures |r| == |ws|
  {
    if ws[i] < 0x1000_0000 then ws else DecipherArgs(ws[i := DecryptCode(ws[i])], i)
  }

  lemma ArgsDeciphered(a: Codes, i: nat)
    requires i < |a|
    ensures
      var r, args := DecipherArgs(a, i), i + 2 < |a| && (Opcode(a[i]) == 4 || Opcode(a[i]) == 0xd);
      forall k :: 0 <= k < |a| ==>
        r[k] == if args && (k == i + 1 || (k == i + 2 && Opcode(a[i]) == 4)) then DecryptArg(a[k]) else a[k]
  {
    hide Opcode, DecryptArg;
  }

  /** Exactly which words deciphering a code changes, and to what: a scrambled first word, and behind it the
      arguments of two of the codes, as long as two more words follow. */
  lemma DecipheredWords(ws: Codes, i: nat)
    requires i < |ws|
    ensures DecipherAt(ws, i)[i] == DecryptCode(ws[i]) < 0x1000_0000
    ensures ws[i] < 0x1000_0000 ==> DecipherAt(ws, i) == ws
    ensures
      var r, code := DecipherAt(ws, i), Opcode(DecryptCode(ws[i]));
      var args := ws[i] >= 0x1000_0000 && i + 2 < |ws| && (code == 4 || code == 0xd);
      forall k :: 0 <= k < |ws| && k != i ==>
        r[k] == if args && (k == i + 1 || (k == i + 2 && code == 4)) then DecryptArg(ws[k]) else ws[k]
  {
    hide Opcode, DecryptArg, DecryptCode, DecipherArgs;
    DecryptedFits(ws[i]);
    if ws[i] >= 0x1000_0000 {
      ArgsDeciphered(ws[i := DecryptCode(ws[i])], i);
    }
  }

  lemma DecipheredBehind(ws: Codes, i: nat)
    requires i < |ws|
    ensures forall k :: 0 <= k < i ==> DecipherAt(ws, i)[k] == ws[k]
  {
    hide DecipherAt, Opcode, DecryptArg, DecryptCode;
    DecipheredWords(ws, i);
  }

  // ---------------------------------------------------------------- one code to records

  /** The guard of a multi-line conditional, copied before every record of a code that starts below the limit. */
  datatype Block = Block(limit: nat, guard: Cheat)

  const NO_BLOCK := Block(0, BLANK)

  function Guard(b: Block, k: nat): seq<Cheat> { if k < b.limit then [b.guard] else [] }

  function ConditionKind(relation: nat): Kind
    requires relation <= 3
  {
    match relation
    case 0 => RunNextIfEq
    case 1 => RunNextIfNeq
    case 2 => RunNextIfLt
    case _ => RunNextIfGt
  }

  function Record(name: string, kind: Kind, size: Word, address: Word, value: Word): Cheat {
    BLANK.(kind := kind, description := name, size := size, address := address, value := value)
  }

  function Continued(name: string): string { name + " (cont'd)" }

  /** The records of the values at k and after, of which n are left. */
  function GroupRecords(title: string, name: string, ws: Codes, k: nat, n: nat, address: Word, b: Block): seq<Cheat>
    requires k + n <= |ws|
    decreases n
  {
    if n == 0 then []
    else
      [Record(title, SetValue, 32, address, ws[k])]
      + (if n > 1 then Guard(b, k) else [])
      + GroupRecords(Continued(name), name, ws, k + 1, n - 1, Plus(address, 4), b)
  }

  datatype Piece = Piece(cheats: seq<Cheat>, next: nat, block: Block)

  function WritePiece(name: string, ws: Codes, i: nat, size: Word, b: Block): Piece
    requires i + 1 < |ws|
  {
    Piece(Guard(b, i) + [Record(name, SetValue, size, Low24(ws[i]), ws[i + 1])], i + 2, b)
  }

  function CompileCode(name: string, ws: Codes, i: nat, b: Block): (r: Result<Piece, Error>)
    requires i < |ws|
    ensures r.Ok? ==> i < r.value.next <= |ws|
  {
    var w := ws[i];
    var g := Guard(b, i);
    match Opcode(w)
    case 0 => if i + 1 >= |ws| then Err(MissingValue) else Ok(WritePiece(name, ws, i, 8, b))
    case 1 => if i + 1 >= |ws| then Err(MissingValue) else Ok(WritePiece(name, ws, i, 16, b))
    case 2 => if i + 1 >= |ws| then Err(MissingValue) else Ok(WritePiece(name, ws, i, 32, b))
    case 3 =>
      if Subcode(w) == 0 then
        if i + Low16(w) + 1 >= |ws| then Err(MissingValues)
        else
          Ok(Piece(g + GroupRecords(name, name, ws, i + 2, Low16(w), Low24(ws[i + 1]), b), i + 2 + Low16(w), b))
      else if Subcode(w) <= 4 then
        if i + 1 >= |ws| then Err(MissingValue)
        else
          var kind := if Subcode(w) % 2 == 1 then Increase else Decrease;
          var size := if Subcode(w) <= 2 then 8 else 16;
          var value := if Subcode(w) <= 2 then w % 0x100 else Low16(w);
          Ok(Piece(g + [Record(name, kind, size, Low24(ws[i + 1]), value)], i + 2, b))
      else if Subcode(w) <= 6 then
        if i + 2 >= |ws| then Err(MissingAddressOrValue)
        else
          var kind := if Subcode(w) == 5 then Increase else Decrease;
          Ok(Piece(g + [Record(name, kind, 32, Low24(ws[i + 1]), ws[i + 2])], i + 3, b))
      else
        Err(UnsupportedType)
    case 4 =>
      if i + 2 >= |ws| then Err(MissingCountOrValue)
      else
        var c := Record(name, SetValue, 32, Low24(w), ws[i + 2]);
        Ok(Piece(g + [c.(repeatCount := ws[i + 1] / 0x1_0000, repeatAddressIncrement := Low16(ws[i + 1]))], i + 3, b))
    case 5 =>
      if i + 2 >= |ws| then Err(MissingCountOrDestination)
      else
        var c := Record(name, Copy, 8, Low24(w), 0);
        Ok(Piece(g + [c.(destAddress := Low24(ws[i + 1]), repeatCount := ws[i + 2])], i + 3, b))
    case 7 => Err(MasterCode)
    case 13 =>
      if i + 1 >= |ws| then Err(MissingCountOrDestination)
      else if ws[i + 1] / 0x1_0000 > 3 then Err(UnsupportedCondition)
      else
        Ok(Piece(g + [Record(name, ConditionKind(ws[i + 1] / 0x1_0000), 16, Low24(w), Low16(ws[i + 1]))], i + 2, b))
    case 14 =>
      if i + 1 >= |ws| then Err(MissingTestAddress)
      else if ws[i + 1] / 0x100_0000 > 3 then Err(UnsupportedCondition)
      else
        var c := Record(name, ConditionKind(ws[i + 1] / 0x100_0000), 16, Low24(ws[i + 1]), Low16(w));
        Ok(Piece(g, i + 2, Block(i + 1 + Subcode(w), c)))
    case _ => Err(UnsupportedType)
  }

  // ---------------------------------------------------------------- a whole list

  function CompileFrom(name: string, ws: Codes, i: nat, b: Block): Result<seq<Cheat>, Error>
    decreases |ws| - i
  {
    if i >= |ws| then Ok([])
    else
      var plain := DecipherAt(ws, i);
      match CompileCode(name, plain, i, b)
      case Err(e) => Err(e)
      case Ok(p) =>
        match CompileFrom(name, plain, p.next, p.block)
        case Err(e) => Err(e)
        case Ok(rest) => Ok(p.cheats + rest)
  }

  function Prepend(cs: seq<Cheat>, r: Result<seq<Cheat>, Error>): Result<seq<Cheat>, Error> {
    match r
    case Ok(rest) => Ok(cs + rest)
    case Err(_) => r
  }

  function Compile(name: string, ws: Codes): Result<seq<Cheat>, Error> { CompileFrom(name, ws, 0, NO_BLOCK) }
}
