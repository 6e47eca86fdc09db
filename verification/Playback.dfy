/** Playback of a converted log: the handlers of the game's start and key messages, and whole runs of them. */
module Playbacks {
  import opened Wrappers
  import opened ReplayLog
  import opened ReplayMessages
  import opened ReplayRounds

  // ---------------------------------------------------------------- answering a key message

  /** The frame that is played at a count; none is left after the last. */
  function FrameAt(log: Log, count: nat): bv64 { if count < |log.inputs| then log.inputs[count] else 0 }

  /** A user's input for a frame: the player's own one in a take-over, the recorded one otherwise. */
  function InputOf(frame: bv64, own: Option<Input>, pov: nat, p: nat): Input {
    if own.Some? && p == pov then own.value else Unpacked(frame, p)
  }

  /** The messages of the first users for a frame, one after another. */
  function Answer(frame: bv64, own: Option<Input>, pov: nat, users: nat): seq<Message>
    requires users <= 4
  {
    if users == 0 then []
    else
      Answer(frame, own, pov, users - 1)
      + [KeyMessage(UserByte(users - 1), InputOf(frame, own, pov, users - 1))]
  }

  function UserByte(p: nat): (b: bv8)
    requires p < 4
    ensures b <= 3
  {
    if p == 0 then 0 else if p == 1 then 1 else if p == 2 then 2 else 3
  }

  function Bodies(msgs: seq<Message>): seq<bv8> {
    if msgs == [] then [] else Bodies(msgs[..|msgs| - 1]) + msgs[|msgs| - 1].body
  }

  /** The player's own inputs wait for the delay to pass. */
  function Delayed(waiting: seq<Input>, pad: Input, delay: nat): (seq<Input>, Input) {
    var all := waiting + [pad];
    if |all| > delay then (all[1..], all[0]) else (all, 0)
  }

  // ---------------------------------------------------------------- the state

  datatype Command = RetryTakeover | SaveFirstFrame | SendStartMsg | SeekToBriefing

  datatype Settings = Settings(users: nat, pov: nat, saveConverted: bool)

  datatype Play = Play(
    log: Log, randoms: seq<bv32>, keyMsgCount: nat, startMsgCount: nat,
    takeover: bool, waiting: seq<Input>, commands: seq<Command>)

  function Fresh(log: Log, randoms: seq<bv32>): Play { Play(log, randoms, 0, 0, false, [], []) }

  function LowHalf(r: bv32): bv16 { (r & 0xffff) as bv16 }

  /** The game starts a round, with some random number; None when that is not the recorded one. */
  function OnStart(s: Play, cfg: Settings, random: bv16): Option<Play> {
    if s.takeover then Some(s.(commands := s.commands + [RetryTakeover]))
    else
      var k := s.startMsgCount;
      var count := if k < |s.log.starts| then s.log.starts[k] else s.keyMsgCount;
      var starts := if k >= |s.log.starts| && cfg.saveConverted then s.log.starts + [s.keyMsgCount] else s.log.starts;
      if k < |s.randoms| && random != LowHalf(s.randoms[k]) then None
      else
        var randoms := if k >= |s.randoms| && cfg.saveConverted then s.randoms + [random as bv32] else s.randoms;
        Some(s.(log := s.log.(starts := starts), randoms := randoms, keyMsgCount := count, startMsgCount := k + 1,
                commands := s.commands + [SaveFirstFrame, SendStartMsg, SeekToBriefing]))
  }

  /** The player's input in a take-over, and what still waits. */
  function OwnInput(s: Play, cfg: Settings, pad: Input, delay: nat): (seq<Input>, Option<Input>) {
    if s.takeover && cfg.pov < cfg.users then
      var (waiting, input) := Delayed(s.waiting, pad, delay);
      (waiting, Some(input))
    else
      (s.waiting, None)
  }

  /** The game sends its input: what is answered, and whether that was the last frame of the replay. */
  function OnKey(s: Play, cfg: Settings, pad: Input, delay: nat): (Play, seq<Message>, bool)
    requires cfg.users <= 4
  {
    var (waiting, own) := OwnInput(s, cfg, pad, delay);
    var count := if s.keyMsgCount < |s.log.inputs| then s.keyMsgCount + 1 else s.keyMsgCount;
    (s.(keyMsgCount := count, waiting := waiting),
     Answer(FrameAt(s.log, s.keyMsgCount), own, cfg.pov, cfg.users),
     s.keyMsgCount + 1 == |s.log.inputs| && !s.takeover)
  }

  class Playback {
    const cfg: Settings
    var log: Log
    var randoms: seq<bv32>
    var keyMsgCount: nat
    var startMsgCount: nat
    var roundStartFrame: int
    var takeover: bool
    var takeoverInputs: seq<Input>
    var commands: seq<Command>
    var recvBuf: seq<bv8>

    function View(): Play
      reads this
    {
      Play(log, randoms, keyMsgCount, startMsgCount, takeover, takeoverInputs, commands)
    }

    constructor (cfg: Settings, log: Log, randoms: seq<bv32>)
      ensures this.cfg == cfg && View() == Fresh(log, randoms) && roundStartFrame == 0 && recvBuf == []
    {
      this.cfg, this.log, this.randoms := cfg, log, randoms;
      keyMsgCount, startMsgCount, roundStartFrame, takeover, takeoverInputs := 0, 0, 0, false, [];
      commands, recvBuf := [], [];
    }

    /** False when the round's random number is not the recorded one, which ends the program. */
    method ReceiveStart(random: bv16) returns (ok: bool)
      modifies this`log, this`randoms, this`startMsgCount, this`keyMsgCount, this`commands
      ensures match OnStart(old(View()), cfg, random)
              case None => !ok
              case Some(s) => ok && View() == s
    {
      hide LowHalf;
      if takeover {
        commands := commands + [RetryTakeover];
        return true;
      }
      startMsgCount := startMsgCount + 1;
      if startMsgCount - 1 < |log.starts| {
        keyMsgCount := log.starts[startMsgCount - 1];
      } else if cfg.saveConverted {
        log := log.(starts := log.starts + [keyMsgCount]);
      }
      if startMsgCount - 1 < |randoms| {
        if random != LowHalf(randoms[startMsgCount - 1]) {
          return false;
        }
      } else if cfg.saveConverted {
        randoms := randoms + [random as bv32];
      }
      commands := commands + [SaveFirstFrame] + [SendStartMsg] + [SeekToBriefing];
      assert old(commands) + [SaveFirstFrame] + [SendStartMsg] + [SeekToBriefing]
             == old(commands) + [SaveFirstFrame, SendStartMsg, SeekToBriefing];
      ok := true;
    }

    method ReceiveKey(pad: Input, delay: nat) returns (ended: bool)
      requires cfg.users <= 4 && recvBuf == []
      modifies this`keyMsgCount, this`takeoverInputs, this`recvBuf
      ensures var (s, answer, last) := OnKey(old(View()), cfg, pad, delay);
              View() == s && recvBuf == Bodies(answer) && ended == last
    {
      hide Unpacked, KeyMessage, UserByte, InputOf, Delayed, Answer;
      ghost var own := OwnInput(View(), cfg, pad, delay);
      ghost var frame := FrameAt(log, keyMsgCount);
      AnswerStart(frame, own.1, cfg.pov);
      for i := 0 to cfg.users
        invariant recvBuf == Bodies(Answer(frame, own.1, cfg.pov, i))
        invariant takeoverInputs == if takeover && i > cfg.pov then own.0 else old(takeoverInputs)
        invariant keyMsgCount == old(keyMsgCount)
      {
        var input := UserInput(i, pad, delay);
        recvBuf := recvBuf + KeyMessage(UserByte(i), input).body;
        AnswerStep(frame, own.1, cfg.pov, i);
      }
      ended := false;
      if keyMsgCount < |log.inputs| {
        keyMsgCount := keyMsgCount + 1;
        if keyMsgCount == |log.inputs| && !takeover {
          ended := true;
        }
      }
    }

    /** The input answered for one user; in a take-over the player's own goes through the delay. */
    method UserInput(i: nat, pad: Input, delay: nat) returns (input: Input)
      modifies this`takeoverInputs
      ensures takeover && i == cfg.pov ==> (takeoverInputs, input) == Delayed(old(takeoverInputs), pad, delay)
      ensures !(takeover && i == cfg.pov)
              ==> takeoverInputs == old(takeoverInputs) && input == Unpacked(FrameAt(log, keyMsgCount), i)
    {
      hide Unpacked;
      input := 0;
      NothingUnpacks(i);
      if takeover && i == cfg.pov {
        takeoverInputs := takeoverInputs + [pad];
        if |takeoverInputs| > delay {
          input := takeoverInputs[0];
          takeoverInputs := takeoverInputs[1..];
        }
      } else if keyMsgCount < |log.inputs| {
        input := Unpacked(log.inputs[keyMsgCount], i);
      }
    }

    method GetRoundBounds() returns (roundStart: int, roundEnd: int, totalRounds: nat)
      ensures Bounds(roundStart, roundEnd, totalRounds) == RoundBounds(log, startMsgCount, roundStartFrame)
    {
      if |log.starts| == 0 {
        return 0, |log.inputs|, 0;
      }
      totalRounds := |log.starts|;
      var round: int := startMsgCount;
      if round < 1 {
        round := 1;
      }
      if round > totalRounds {
        round := totalRounds;
      }
      if roundStartFrame > 0 {
        roundStart := roundStartFrame;
      } else {
        roundStart := log.starts[round - 1];
      }
      if round < totalRounds {
        roundEnd := log.starts[round];
      } else {
        roundEnd := |log.inputs|;
      }
    }
  }

  lemma AnswerStart(frame: bv64, own: Option<Input>, pov: nat)
    ensures Bodies(Answer(frame, own, pov, 0)) == []
  {
  }

  lemma AnswerStep(frame: bv64, own: Option<Input>, pov: nat, i: nat)
    requires i < 4
    ensures Bodies(Answer(frame, own, pov, i + 1))
            == Bodies(Answer(frame, own, pov, i)) + KeyMessage(UserByte(i), InputOf(frame, own, pov, i)).body
    ensures own.Some? && i == pov ==> InputOf(frame, own, pov, i) == own.value
    ensures !(own.Some? && i == pov) ==> InputOf(frame, own, pov, i) == Unpacked(frame, i)
  {
    hide Unpacked, KeyMessage, UserByte;
    BodiesOneMore(Answer(frame, own, pov, i), KeyMessage(UserByte(i), InputOf(frame, own, pov, i)));
  }

  lemma BodiesOneMore(msgs: seq<Message>, m: Message)
    ensures Bodies(msgs + [m]) == Bodies(msgs) + m.body
  {
    assert (msgs + [m])[..|msgs|] == msgs;
  }

  lemma {:induction false} AnswerAt(frame: bv64, own: Option<Input>, pov: nat, users: nat, p: nat)
    requires p < users <= 4
    ensures |Answer(frame, own, pov, users)| == users
    ensures Answer(frame, own, pov, users)[p] == KeyMessage(UserByte(p), InputOf(frame, own, pov, p))
  {
    hide InputOf, KeyMessage, UserByte;
    AnswerLength(frame, own, pov, users - 1);
    if p < users - 1 {
      AnswerAt(frame, own, pov, users - 1, p);
    }
  }

  lemma AnswerLength(frame: bv64, own: Option<Input>, pov: nat, users: nat)
    requires users <= 4
    ensures |Answer(frame, own, pov, users)| == users
  {
    hide InputOf, KeyMessage, UserByte;
  }

  lemma UserByteIs(p: nat)
    requires p < 4
    ensures UserByte(p) as nat == p
  {
  }

  /** What a user's message of an answer carries. */
  lemma AnswerCarries(frame: bv64, own: Option<Input>, pov: nat, users: nat, p: nat)
    requires p < users <= 4
    ensures |Answer(frame, own, pov, users)| == users
    ensures var m := Answer(frame, own, pov, users)[p];
            IsCut(m) && Type(m) == Key1 && Sender(m) == p && Inputs(m) == [InputOf(frame, own, pov, p)]
  {
    hide InputOf, KeyMessage, UserByte, Type, Sender, Inputs, Answer;
    AnswerAt(frame, own, pov, users, p);
    KeyMessageCarries(UserByte(p), InputOf(frame, own, pov, p));
    UserByteIs(p);
  }

  // ---------------------------------------------------------------- a take-over

  /** What the player's own inputs come out as, one by one. */
  function DelayLine(waiting: seq<Input>, pads: seq<Input>, delay: nat): seq<Input>
    decreases |pads|
  {
    if pads == [] then []
    else
      var (w, input) := Delayed(waiting, pads[0], delay);
      [input] + DelayLine(w, pads[1..], delay)
  }

  /** In a take-over the player's inputs come out in order, each as many frames later as the delay says. */
  lemma {:induction false} InputsComeDelayed(waiting: seq<Input>, pads: seq<Input>, delay: nat, n: nat)
    requires n < |pads| && |waiting| <= delay
    ensures |DelayLine(waiting, pads, delay)| == |pads|
    ensures DelayLine(waiting, pads, delay)[n]
            == if |waiting| + n < delay then 0 else (waiting + pads)[|waiting| + n - delay]
    decreases |pads|
  {
    var (w, input) := Delayed(waiting, pads[0], delay);
    DelayLineLength(w, pads[1..], delay);
    if n > 0 {
      InputsComeDelayed(w, pads[1..], delay, n - 1);
      assert waiting + pads == waiting + [pads[0]] + pads[1..];
      if |waiting| == delay {
        assert w == (waiting + [pads[0]])[1..];
        assert w + pads[1..] == (waiting + pads)[1..];
      }
    }
  }

  lemma DelayLineLength(waiting: seq<Input>, pads: seq<Input>, delay: nat)
    ensures |DelayLine(waiting, pads, delay)| == |pads|
    decreases |pads|
  {
    hide Delayed;
    if pads != [] {
      DelayLineLength(Delayed(waiting, pads[0], delay).0, pads[1..], delay);
    }
  }
}
