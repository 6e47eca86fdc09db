/** The cheat manager as a state machine over its public calls, and what every run of it keeps. */
module CheatLifecycle {
  import opened Wrappers
  import opened Words
  import opened CheatVm
  import opened GameShark
  import opened CodeText
  import opened Ini
  import opened CheatFile
  import R = CheatFileRoundTrip
  import opened Events

  /** A word of a widescreen hack; an original value of zero matches anything. */
  datatype WideWord = WideWord(address: Word, value: Word, original: Word)

  type WideTable = seq<WideWord>

  datatype Manager = Manager(
    active: bool, cheats: seq<Cheat>, widescreen: Option<WideTable>, gameId: string, listeners: seq<Listener>)

  /** A public call, with what the file system and the game tables answer to it. */
  datatype Call =
    | LoadCheatFile(text: Option<string>)
    | Reset(gameId: string, file: Option<string>, builtIn: seq<Cheat>, wide: Option<WideTable>)
    | AddGameSharkCheat(name: string, s: string, canSave: bool)
    | EnableCheat(index: nat, enabled: bool)

  const MAX_FILE := 0x10_0000

  function SetActive(m: Manager, me: Listener, active: bool): Manager {
    m.(active := active,
       listeners := if active || m.widescreen.Some? then Registered(m.listeners, me) else Without(m.listeners, me))
  }

  function Load(m: Manager, me: Listener, ram: Word, text: Option<string>): Manager {
    if text.None? || |text.value| >= MAX_FILE then m
    else
      var cs := LoadedCheats(LoadText(map[], text.value), ram);
      SetActive(m.(cheats := cs), me, cs != [])
  }

  function NewGame(m: Manager, me: Listener, ram: Word, gameId: string, file: Option<string>, builtIn: seq<Cheat>)
    : Manager
  {
    var cleared := SetActive(m.(cheats := []), me, false).(gameId := gameId);
    var loaded := Load(cleared, me, ram, file);
    if builtIn == [] then loaded else SetActive(loaded.(cheats := loaded.cheats + builtIn), me, true)
  }

  function ResetTo(m: Manager, me: Listener, ram: Word, gameId: string, file: Option<string>, builtIn: seq<Cheat>,
                   wide: Option<WideTable>): Manager
  {
    var m0 := m.(widescreen := None);
    var m1 := if m.gameId != gameId then NewGame(m0, me, ram, gameId, file, builtIn) else m0;
    var m2 := m1.(widescreen := wide);
    SetActive(m2, me, m2.active)
  }

  /** What adding a code list does to the cheats: all of its records at the end, or an error and nothing. */
  function Added(m: Manager, name: string, s: string, canSave: bool): Result<seq<Cheat>, Error> {
    match ParseCodes(s)
    case Err(e) => Err(e)
    case Ok(ws) =>
      match Compile(name, ws)
      case Err(e) => Err(e)
      case Ok(cs) => if canSave then Ok(m.cheats + cs) else Err(CannotSave)
  }

  function Add(m: Manager, me: Listener, name: string, s: string, canSave: bool): Manager {
    match Added(m, name, s, canSave)
    case Err(_) => m
    case Ok(cs) => SetActive(m.(cheats := cs), me, cs != [])
  }

  function Perform(m: Manager, me: Listener, ram: Word, call: Call): Manager {
    match call
    case LoadCheatFile(text) => Load(m, me, ram, text)
    case Reset(id, file, builtIn, wide) => ResetTo(m, me, ram, id, file, builtIn, wide)
    case AddGameSharkCheat(name, s, canSave) => Add(m, me, name, s, canSave)
    case EnableCheat(k, on) =>
      if k < |m.cheats| then m.(cheats := m.cheats[k := m.cheats[k].(enabled := on)]) else m
  }

  function PerformAll(m: Manager, me: Listener, ram: Word, calls: seq<Call>): Manager
    decreases |calls|
  {
    if calls == [] then m else PerformAll(Perform(m, me, ram, calls[0]), me, ram, calls[1..])
  }

  /** Active exactly with cheats to run, and heard on the vertical blank exactly once when there is
      anything to do there, not at all otherwise. */
  predicate Settled(m: Manager, me: Listener) {
    && (m.active <==> m.cheats != [])
    && Count(m.listeners, me) == if m.active || m.widescreen.Some? then 1 else 0
  }

  lemma SetActiveSettles(m: Manager, me: Listener, active: bool)
    requires Count(m.listeners, me) <= 1 && (active <==> m.cheats != [])
    ensures Settled(SetActive(m, me, active), me)
    ensures Others(SetActive(m, me, active).listeners, me) == Others(m.listeners, me)
  {
    RegisteredOnce(m.listeners, me);
  }

  lemma LoadSettles(m: Manager, me: Listener, ram: Word, text: Option<string>)
    requires Settled(m, me)
    ensures Settled(Load(m, me, ram, text), me)
    ensures Others(Load(m, me, ram, text).listeners, me) == Others(m.listeners, me)
  {
    hide LoadText, LoadedCheats, Count, Others, Without, Registered, SetActive;
    if text.Some? && |text.value| < MAX_FILE {
      var cs := LoadedCheats(LoadText(map[], text.value), ram);
      SetActiveSettles(m.(cheats := cs), me, cs != []);
    }
  }

  lemma NewGameSettles(m: Manager, me: Listener, ram: Word, gameId: string, file: Option<string>, builtIn: seq<Cheat>)
    requires Count(m.listeners, me) <= 1
    ensures Settled(NewGame(m, me, ram, gameId, file, builtIn), me)
    ensures Others(NewGame(m, me, ram, gameId, file, builtIn).listeners, me) == Others(m.listeners, me)
  {
    hide Count, Others, Without, Registered, SetActive, Load;
    SetActiveSettles(m.(cheats := []), me, false);
    var cleared := SetActive(m.(cheats := []), me, false).(gameId := gameId);
    LoadSettles(cleared, me, ram, file);
    var loaded := Load(cleared, me, ram, file);
    if builtIn != [] {
      SetActiveSettles(loaded.(cheats := loaded.cheats + builtIn), me, true);
    }
  }

  lemma PerformSettles(m: Manager, me: Listener, ram: Word, call: Call)
    requires Settled(m, me)
    ensures Settled(Perform(m, me, ram, call), me)
    ensures Others(Perform(m, me, ram, call).listeners, me) == Others(m.listeners, me)
  {
    hide Count, Others, Without, Registered, SetActive, Load, NewGame, ParseCodes, Compile;
    match call {
      case LoadCheatFile(text) => LoadSettles(m, me, ram, text);
      case Reset(id, file, builtIn, wide) =>
        var m0 := m.(widescreen := None);
        if m.gameId != id {
          NewGameSettles(m0, me, ram, id, file, builtIn);
        }
        var m1 := if m.gameId != id then NewGame(m0, me, ram, id, file, builtIn) else m0;
        SetActiveSettles(m1.(widescreen := wide), me, m1.active);
      case AddGameSharkCheat(name, s, canSave) =>
        var r := Added(m, name, s, canSave);
        if r.Ok? {
          SetActiveSettles(m.(cheats := r.value), me, r.value != []);
        }
      case EnableCheat(_, _) =>
    }
  }

  /** Over every run of public calls: settled after each, and no one else's listener lost, added or moved. */
  lemma {:induction false} RunsStaySettled(m: Manager, me: Listener, ram: Word, calls: seq<Call>)
    requires Settled(m, me)
    ensures Settled(PerformAll(m, me, ram, calls), me)
    ensures Others(PerformAll(m, me, ram, calls).listeners, me) == Others(m.listeners, me)
    decreases |calls|
  {
    hide Perform, Settled, Others;
    if calls != [] {
      PerformSettles(m, me, ram, calls[0]);
      RunsStaySettled(Perform(m, me, ram, calls[0]), me, ram, calls[1..]);
    }
  }

  /** Loading the file just saved gives the saved cheats that fit, switched off, unless the file has grown to
      the size at which loading it is refused: then everything stays as it is. */
  lemma SavingThenLoading(m: Manager, me: Listener, ram: Word)
    requires R.AreReadable(OwnCheats(m.cheats)) && |m.cheats| < 0x8000_0000
    ensures
      var text := SaveText(FileOf(m.cheats));
      var after := Perform(m, me, ram, LoadCheatFile(Some(text)));
      if |text| < MAX_FILE then after.cheats == R.ComingBack(OwnCheats(m.cheats), ram) else after == m
  {
    hide SaveText, FileOf, LoadText, LoadedCheats, R.ComingBack, R.AreReadable, Registered, Without;
    R.LoadOfSave(m.cheats, ram);
  }

  // ---------------------------------------------------------------- what the calls do to the cheats

  /** Adding codes leaves the cheats already there in front, and puts behind them exactly the records of the list, or
      none if the text, a code or the saving fails. */
  lemma AddingAppends(m: Manager, me: Listener, ram: Word, name: string, s: string, canSave: bool)
    ensures
      var after := Perform(m, me, ram, Call.AddGameSharkCheat(name, s, canSave));
      var good := ParseCodes(s).Ok? && Compile(name, ParseCodes(s).value).Ok? && canSave;
      && m.cheats <= after.cheats
      && after.cheats[|m.cheats|..] == (if good then Compile(name, ParseCodes(s).value).value else [])
      && after.widescreen == m.widescreen && after.gameId == m.gameId && (!good ==> after == m)
  {
    hide ParseCodes, Compile, Registered, Without;
    assert m.cheats[|m.cheats|..] == [];
  }

  /** Enabling a cheat changes its flag and nothing else; there is nothing to enable beyond the last one. */
  lemma EnablingTouchesOne(m: Manager, me: Listener, ram: Word, k: nat, on: bool)
    ensures
      var after := Perform(m, me, ram, EnableCheat(k, on));
      && |after.cheats| == |m.cheats| && after == m.(cheats := after.cheats)
      && (forall j :: 0 <= j < |m.cheats| && j != k ==> after.cheats[j] == m.cheats[j])
      && (k < |m.cheats| ==> after.cheats[k].enabled == on && after.cheats[k] == m.cheats[k].(enabled := on))
  {
  }

  /** A file below a megabyte replaces the cheats, built-in ones too; any other, or none, changes nothing. */
  lemma LoadingReplaces(m: Manager, me: Listener, ram: Word, text: Option<string>)
    ensures
      var after := Perform(m, me, ram, LoadCheatFile(text));
      if text.Some? && |text.value| < 1048576 then
        && after.cheats == LoadedCheats(LoadText(map[], text.value), ram)
        && after.widescreen == m.widescreen && after.gameId == m.gameId
      else
        after == m
  {
    hide LoadText, LoadedCheats, Registered, Without;
  }

  /** A reset for the same game keeps the cheats; one for another starts from its file and its built-in ones. Either
      way the widescreen hack is the one chosen now. */
  lemma ResettingStartsOver(m: Manager, me: Listener, ram: Word, id: string, file: Option<string>,
                            builtIn: seq<Cheat>, wide: Option<WideTable>)
    ensures
      var after := Perform(m, me, ram, Reset(id, file, builtIn, wide));
      var loaded := if file.Some? && |file.value| < 1048576 then LoadedCheats(LoadText(map[], file.value), ram) else [];
      && after.widescreen == wide && after.gameId == id
      && after.cheats == (if m.gameId == id then m.cheats else loaded + builtIn)
  {
    hide LoadText, LoadedCheats, Registered, Without;
    var loaded := if file.Some? && |file.value| < 1048576 then LoadedCheats(LoadText(map[], file.value), ram) else [];
    assert loaded + [] == loaded;
  }
}
