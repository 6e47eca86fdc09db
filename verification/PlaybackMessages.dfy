/** What start and key messages do to a playback beside its answers: which random numbers end it, what it records and
    queues, and when it is over. */
module PlaybackMessages {
  import Sequences
  import opened Wrappers
  import opened ReplayLog
  import opened ReplayMessages
  import opened ReplayRounds
  import opened Playbacks
  import opened PlaybackRuns

  /** The random numbers of the rounds started. */
  function Randoms(events: seq<Event>): seq<bv16> {
    if events == [] then []
    else if events[0].Started? then [events[0].random] + Randoms(events[1..])
    else Randoms(events[1..])
  }

  /** How many inputs came before each start. */
  function KeysBefore(events: seq<Event>, sofar: nat): seq<nat> {
    if events == [] then []
    else if events[0].Started? then [sofar] + KeysBefore(events[1..], sofar)
    else KeysBefore(events[1..], sofar + 1)
  }

  /** The low 16 bits of a recorded number. */
  function Expected(recorded: bv32): bv16 { (recorded % 0x1_0000) as bv16 }

  lemma LowHalfIsExpected(recorded: bv32)
    ensures LowHalf(recorded) == Expected(recorded)
  {
    assert recorded & 0xffff == recorded % 0x1_0000;
  }

  /** A random number is not the one recorded for its round. */
  predicate Differs(randoms: seq<bv32>, k: nat, given: seq<bv16>, j: nat) {
    j < |given| && k + j < |randoms| && given[j] != Expected(randoms[k + j])
  }

  ghost predicate AnyDiffers(randoms: seq<bv32>, k: nat, given: seq<bv16>) {
    exists j: nat :: Differs(randoms, k, given, j)
  }

  lemma DiffersLater(randoms: seq<bv32>, k: nat, r: bv16, given: seq<bv16>, more: seq<bv32>, next: nat)
    requires randoms <= more && (|more| > |randoms| ==> |more| <= k + 1 && |randoms| <= k) && next == k + 1
    ensures AnyDiffers(randoms, k, [r] + given) <==> Differs(randoms, k, [r], 0) || AnyDiffers(more, next, given)
  {
    hide Expected;
    var all := [r] + given;
    if AnyDiffers(randoms, k, all) {
      var j: nat :| Differs(randoms, k, all, j);
      if j == 0 {
        assert Differs(randoms, k, [r], 0);
      } else {
        assert all[j] == given[j - 1];
        assert Differs(more, next, given, j - 1);
      }
    }
    if Differs(randoms, k, [r], 0) {
      assert Differs(randoms, k, all, 0);
    }
    if AnyDiffers(more, next, given) {
      var j: nat :| Differs(more, next, given, j);
      assert all[j + 1] == given[j];
      assert Differs(randoms, k, all, j + 1);
    }
  }

  /** A run ends for a random number exactly if one of those given differs from the one recorded for its round. */
  lemma {:induction false} RefusedExactly(s: Play, cfg: Settings, events: seq<Event>)
    requires cfg.users <= 4 && !s.takeover
    ensures Run(s, cfg, events).None? <==> AnyDiffers(s.randoms, s.startMsgCount, Randoms(events))
    decreases |events|
  {
    hide Differs, AnyDiffers, LowHalf, Answer;
    if events == [] {
      NoneDiffers(s.randoms, s.startMsgCount);
    } else {
      match events[0]
      case Key =>
        RefusedExactly(OnKey(s, cfg, 0, 0).0, cfg, events[1..]);
      case Started(r) =>
        var k := s.startMsgCount;
        FirstDiffers(s.randoms, k, r);
        match OnStart(s, cfg, r)
        case None => DiffersLater(s.randoms, k, r, Randoms(events[1..]), s.randoms, k + 1);
        case Some(t) =>
          RefusedExactly(t, cfg, events[1..]);
          DiffersLater(s.randoms, k, r, Randoms(events[1..]), t.randoms, k + 1);
    }
  }

  lemma NoneDiffers(randoms: seq<bv32>, k: nat)
    ensures !AnyDiffers(randoms, k, [])
  {
  }

  lemma FirstDiffers(randoms: seq<bv32>, k: nat, r: bv16)
    ensures Differs(randoms, k, [r], 0) <==> k < |randoms| && r != LowHalf(randoms[k])
  {
    hide LowHalf, Expected;
    if k < |randoms| {
      LowHalfIsExpected(randoms[k]);
    }
  }

  // ---------------------------------------------------------------- what is recorded

  function Capped(n: nat, most: nat): nat { if n < most then n else most }

  function CappedAll(ns: seq<nat>, most: nat): seq<nat> {
    if ns == [] then [] else [Capped(ns[0], most)] + CappedAll(ns[1..], most)
  }

  function Widened(rs: seq<bv16>): seq<bv32> { if rs == [] then [] else [rs[0] as bv32] + Widened(rs[1..]) }

  /** While a log is played beyond its starts and kept, each start is recorded where it happens, with its number. */
  lemma {:induction false} StartsAreRecorded(s: Play, cfg: Settings, events: seq<Event>, keys: nat)
    requires cfg.users <= 4 && !s.takeover && cfg.saveConverted
    requires |s.log.starts| == |s.randoms| == s.startMsgCount && s.keyMsgCount == Capped(keys, |s.log.inputs|)
    ensures
      var r := Run(s, cfg, events);
      && r.Some?
      && r.value.0.log.starts == s.log.starts + CappedAll(KeysBefore(events, keys), |s.log.inputs|)
      && r.value.0.randoms == s.randoms + Widened(Randoms(events))
    decreases |events|
  {
    hide LowHalf, Answer;
    if events != [] {
      var rest := events[1..];
      match events[0]
      case Key =>
        StartsAreRecorded(OnKey(s, cfg, 0, 0).0, cfg, rest, keys + 1);
      case Started(r) =>
        var t := OnStart(s, cfg, r).value;
        StartsAreRecorded(t, cfg, rest, keys);
        RecordedFirst(r, rest, keys, |s.log.inputs|);
        Sequences.Associates(s.log.starts, [s.keyMsgCount], CappedAll(KeysBefore(rest, keys), |s.log.inputs|));
        Sequences.Associates(s.randoms, [r as bv32], Widened(Randoms(rest)));
    }
  }

  lemma RecordedFirst(r: bv16, rest: seq<Event>, keys: nat, most: nat)
    ensures
      var all := [Started(r)] + rest;
      && CappedAll(KeysBefore(all, keys), most) == [Capped(keys, most)] + CappedAll(KeysBefore(rest, keys), most)
      && Widened(Randoms(all)) == [r as bv32] + Widened(Randoms(rest))
  {
    var all := [Started(r)] + rest;
    assert all[1..] == rest;
    assert KeysBefore(all, keys)[1..] == KeysBefore(rest, keys) && Randoms(all)[1..] == Randoms(rest);
  }

  /** Nothing is recorded when the log is not kept, and where it has starts and numbers already; the inputs never
      change. */
  lemma {:induction false} NothingIsRecorded(s: Play, cfg: Settings, events: seq<Event>)
    requires cfg.users <= 4 && Run(s, cfg, events).Some?
    ensures
      var r := Run(s, cfg, events).value.0;
      && r.log.inputs == s.log.inputs
      && (!cfg.saveConverted || s.startMsgCount + |Randoms(events)| <= |s.log.starts| ==> r.log.starts == s.log.starts)
      && (!cfg.saveConverted || s.startMsgCount + |Randoms(events)| <= |s.randoms| ==> r.randoms == s.randoms)
    decreases |events|
  {
    hide LowHalf, Answer;
    if events != [] {
      match events[0]
      case Key => NothingIsRecorded(OnKey(s, cfg, 0, 0).0, cfg, events[1..]);
      case Started(r) => NothingIsRecorded(OnStart(s, cfg, r).value, cfg, events[1..]);
    }
  }

  // ---------------------------------------------------------------- what is queued

  /** What a number of starts queues. */
  function Queued(starts: nat, takeover: bool): seq<Command> {
    if starts == 0 then []
    else (if takeover then [RetryTakeover] else [SaveFirstFrame, SendStartMsg, SeekToBriefing])
         + Queued(starts - 1, takeover)
  }

  /** Each start queues its commands: to save the first frame of the round, to send its message and to skip to its
      briefing; in a take-over only another try, and nothing else changes but the inputs sent. */
  lemma {:induction false} StartsAreQueued(s: Play, cfg: Settings, events: seq<Event>)
    requires cfg.users <= 4 && Run(s, cfg, events).Some?
    ensures
      var r := Run(s, cfg, events).value.0;
      && r.commands == s.commands + Queued(|Randoms(events)|, s.takeover)
      && r.takeover == s.takeover
      && (s.takeover ==> r.log == s.log && r.randoms == s.randoms && r.startMsgCount == s.startMsgCount)
    decreases |events|
  {
    if events != [] {
      var rest := events[1..];
      match events[0]
      case Key =>
        KeyQueuesNothing(s, cfg);
        hide OnKey, OnStart, Queued;
        StartsAreQueued(OnKey(s, cfg, 0, 0).0, cfg, rest);
      case Started(r) =>
        StartQueues(s, cfg, r);
        QueuedStep(|Randoms(rest)|, s.takeover);
        hide OnKey, OnStart, Queued;
        StartsAreQueued(OnStart(s, cfg, r).value, cfg, rest);
        Sequences.Associates(s.commands, Queued(1, s.takeover), Queued(|Randoms(rest)|, s.takeover));
    }
  }

  lemma QueuedStep(n: nat, takeover: bool)
    ensures Queued(n + 1, takeover) == Queued(1, takeover) + Queued(n, takeover) && Queued(0, takeover) == []
  {
  }

  lemma KeyQueuesNothing(s: Play, cfg: Settings)
    requires cfg.users <= 4
    ensures
      var t := OnKey(s, cfg, 0, 0).0;
      && t.commands == s.commands && t.takeover == s.takeover && t.log == s.log && t.randoms == s.randoms
      && t.startMsgCount == s.startMsgCount
  {
    hide Answer;
  }

  lemma StartQueues(s: Play, cfg: Settings, r: bv16)
    requires OnStart(s, cfg, r).Some?
    ensures
      var t := OnStart(s, cfg, r).value;
      && t.commands == s.commands + Queued(1, s.takeover) && t.takeover == s.takeover
      && (s.takeover ==> t.log == s.log && t.randoms == s.randoms && t.startMsgCount == s.startMsgCount)
  {
    hide LowHalf;
    assert Queued(0, s.takeover) == [];
  }

  // ---------------------------------------------------------------- the end

  /** Inputs in a row, each with the delay of the moment: whether each of them was the last frame of the replay. */
  function Endings(s: Play, cfg: Settings, sent: seq<(Input, nat)>): seq<bool>
    requires cfg.users <= 4
    decreases |sent|
  {
    if sent == [] then []
    else
      var (t, _, last) := OnKey(s, cfg, sent[0].0, sent[0].1);
      [last] + Endings(t, cfg, sent[1..])
  }

  /** A replay is over with the input that plays its last frame, and only then; a take-over never ends by itself. */
  lemma {:induction false} EndsWithLastFrame(s: Play, cfg: Settings, sent: seq<(Input, nat)>, i: nat)
    requires cfg.users <= 4 && i < |sent|
    ensures |Endings(s, cfg, sent)| == |sent|
    ensures Endings(s, cfg, sent)[i] <==> !s.takeover && s.keyMsgCount + i + 1 == |s.log.inputs|
    decreases |sent|
  {
    hide Answer;
    var t := OnKey(s, cfg, sent[0].0, sent[0].1).0;
    if i > 0 {
      EndsWithLastFrame(t, cfg, sent[1..], i - 1);
    } else if |sent| > 1 {
      EndsWithLastFrame(t, cfg, sent[1..], 0);
    }
  }

  /** Behind the last frame every user's recorded input is zero. */
  lemma NothingAfterLast(s: Play, cfg: Settings, pad: Input, delay: nat, p: nat)
    requires p < cfg.users <= 4 && !s.takeover && s.keyMsgCount >= |s.log.inputs|
    ensures
      var answer := OnKey(s, cfg, pad, delay).1;
      |answer| == cfg.users && IsCut(answer[p]) && Sender(answer[p]) == p && Inputs(answer[p]) == [0]
  {
    hide Answer, Sender, Inputs, Unpacked;
    AnswerCarries(0, None, cfg.pov, cfg.users, p);
    NothingUnpacks(p);
  }

  /** The answers to inputs in a row, under one delay. */
  function Answers(s: Play, cfg: Settings, pads: seq<Input>, delay: nat): seq<seq<Message>>
    requires cfg.users <= 4
    decreases |pads|
  {
    if pads == [] then []
    else
      var (t, answer, _) := OnKey(s, cfg, pads[0], delay);
      [answer] + Answers(t, cfg, pads[1..], delay)
  }

  /** The recorded input of a user for a frame; zero behind the last. */
  function Recorded(log: Log, count: nat, p: nat): Input {
    if count < |log.inputs| then Unpacked(log.inputs[count], p) else 0
  }

  /** An answer has a message of a user that carries an input. */
  predicate Carries(answer: seq<Message>, users: nat, p: nat, input: Input) {
    p < |answer| == users && IsCut(answer[p]) && Sender(answer[p]) == p && Inputs(answer[p]) == [input]
  }

  /** The player's input that comes out of the delay: of so many inputs before it, or none yet. */
  function Late(all: seq<Input>, n: nat, delay: nat): Input
    requires n < |all|
  {
    if n < delay then 0 else all[n - delay]
  }

  lemma OneAnswer(s: Play, cfg: Settings, pad: Input, delay: nat, p: nat)
    requires p < cfg.users <= 4 && cfg.pov < cfg.users && s.takeover && |s.waiting| <= delay
    ensures
      var (t, answer, _) := OnKey(s, cfg, pad, delay);
      && t.takeover && t.log == s.log && t.waiting == Delayed(s.waiting, pad, delay).0
      && (t.keyMsgCount == s.keyMsgCount + 1 || t.keyMsgCount == s.keyMsgCount >= |s.log.inputs|)
      && Carries(answer, cfg.users, p, if p != cfg.pov then Recorded(s.log, s.keyMsgCount, p)
                                       else Late(s.waiting + [pad], |s.waiting|, delay))
  {
    var input := Delayed(s.waiting, pad, delay).1;
    AnswerCarries(FrameAt(s.log, s.keyMsgCount), Some(input), cfg.pov, cfg.users, p);
    NothingUnpacks(p);
    hide Answer, Sender, Inputs, Unpacked;
  }

  lemma WaitingShifts(waiting: seq<Input>, pads: seq<Input>, delay: nat, i: nat)
    requires |waiting| <= delay && 0 < i < |pads|
    ensures
      var w := Delayed(waiting, pads[0], delay).0;
      && |w| <= delay && |w| + (i - 1) < |w + pads[1..]|
      && Late(w + pads[1..], |w| + (i - 1), delay) == Late(waiting + pads, |waiting| + i, delay)
  {
    var w := Delayed(waiting, pads[0], delay).0;
    assert waiting + pads == waiting + [pads[0]] + pads[1..];
    if |waiting| == delay {
      assert w + pads[1..] == (waiting + pads)[1..];
    }
  }

  /** In a take-over the player's message carries the player's own input of as many frames before as the delay says, and
      the others carry the recorded ones. */
  lemma {:induction false} TakeoverAnswers(s: Play, cfg: Settings, pads: seq<Input>, delay: nat, i: nat, p: nat)
    requires p < cfg.users <= 4 && cfg.pov < cfg.users && s.takeover && |s.waiting| <= delay && i < |pads|
    ensures
      var r := Answers(s, cfg, pads, delay);
      i < |r| && Carries(r[i], cfg.users, p, if p != cfg.pov then Recorded(s.log, s.keyMsgCount + i, p)
                                             else Late(s.waiting + pads, |s.waiting| + i, delay))
    decreases |pads|
  {
    hide OnKey, Carries, Delayed;
    OneAnswer(s, cfg, pads[0], delay, p);
    var t := OnKey(s, cfg, pads[0], delay).0;
    if i > 0 {
      WaitingShifts(s.waiting, pads, delay, i);
      TakeoverAnswers(t, cfg, pads[1..], delay, i - 1, p);
    } else {
      assert (s.waiting + pads)[..|s.waiting| + 1] == s.waiting + [pads[0]];
    }
  }

  /** A round that was sought to starts at its frame; only its start differs from that of a round played through. */
  lemma SoughtStart(log: Log, count: int, frame: int)
    ensures log.starts == [] ==> RoundBounds(log, count, frame) == Bounds(0, |log.inputs|, 0)
    ensures log.starts != [] && frame > 0 ==> RoundBounds(log, count, frame)
                                              == RoundBounds(log, count, 0).(start := frame)
    ensures frame <= 0 ==> RoundBounds(log, count, frame) == RoundBounds(log, count, 0)
    ensures log.starts != [] ==> RoundBounds(log, count, frame).total == |log.starts|
  {
  }
}
