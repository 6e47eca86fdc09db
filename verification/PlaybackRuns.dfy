/** Whole runs of a playback without take-over: where it stands after any start and key messages, and what its
    answers add up to. */
module PlaybackRuns {
  import opened Wrappers
  import opened ReplayLog
  import opened ReplayMessages
  import opened ReplayRounds
  import opened Playbacks

  /** What the game sends: the start of a round, with its random number, or an input. */
  datatype Event = Started(random: bv16) | Key

  /** The state after some events and the answers given, or None when a random number was wrong. */
  function Run(s: Play, cfg: Settings, events: seq<Event>): Option<(Play, seq<seq<Message>>)>
    requires cfg.users <= 4
    decreases |events|
  {
    if events == [] then Some((s, []))
    else
      match events[0]
      case Started(random) =>
        (match OnStart(s, cfg, random)
         case None => None
         case Some(t) => Run(t, cfg, events[1..]))
      case Key =>
        var (t, answer, _) := OnKey(s, cfg, 0, 0);
        match Run(t, cfg, events[1..])
        case None => None
        case Some((u, answers)) => Some((u, [answer] + answers))
  }

  /** Rounds started and inputs sent since the last start. */
  function Progress(events: seq<Event>, k: nat, t: nat): (nat, nat)
    decreases |events|
  {
    if events == [] then (k, t)
    else if events[0].Started? then Progress(events[1..], k + 1, 0)
    else Progress(events[1..], k, t + 1)
  }

  /** The frame that is next, t inputs after the start of round k; before any start, from the first frame on. */
  function Position(log: Log, k: nat, t: nat): nat
    requires k <= |log.starts|
  {
    var count := (if k == 0 then 0 else log.starts[k - 1]) + t;
    if count < |log.inputs| then count else |log.inputs|
  }

  /** A playback that stands where its rounds and inputs so far put it. */
  predicate Standing(s: Play, log: Log, k: nat, t: nat) {
    && s.log == log && !s.takeover && s.startMsgCount == k <= |log.starts| && s.keyMsgCount == Position(log, k, t)
  }

  predicate StartsInside(log: Log) { forall k :: 0 <= k < |log.starts| ==> log.starts[k] <= |log.inputs| }

  lemma ProgressGrows(events: seq<Event>, k: nat, t: nat)
    ensures Progress(events, k, t).0 >= k
    decreases |events|
  {
  }

  /** After any run that starts no more rounds than there are, the next frame is the one as many behind the
      start of the round last started as inputs have been sent since, or the end. */
  lemma {:induction false} RunStands(s: Play, cfg: Settings, log: Log, events: seq<Event>, k: nat, t: nat)
    requires cfg.users <= 4 && StartsInside(log) && Standing(s, log, k, t) && Progress(events, k, t).0 <= |log.starts|
    ensures
      var (n, m) := Progress(events, k, t);
      var r := Run(s, cfg, events);
      r.Some? ==> Standing(r.value.0, log, n, m)
    decreases |events|
  {
    hide Answer;
    if events != [] {
      if events[0].Started? {
        ProgressGrows(events[1..], k + 1, 0);
        var next := OnStart(s, cfg, events[0].random);
        if next.Some? {
          assert Standing(next.value, log, k + 1, 0);
          RunStands(next.value, cfg, log, events[1..], k + 1, 0);
        }
      } else {
        RunStands(OnKey(s, cfg, 0, 0).0, cfg, log, events[1..], k, t + 1);
      }
    }
  }

  /** The t-th answer of a round, in any run: each player's t-th input of the round, under that player's name. */
  lemma RunAnswersRound(msgs: seq<Cut>, cfg: Settings, log: Log, randoms: seq<bv32>, events: seq<Event>, p: nat)
    requires LogOk(msgs, cfg.users) && Enough(AllRounds(msgs, cfg.users)) && cfg.users <= 4
    requires Converted(log, AllRounds(msgs, cfg.users)) && p < cfg.users
    requires
      var (k, t) := Progress(events, 0, 0);
      && 1 <= k <= |log.starts| && log.starts[k - 1] + t < RoundEnd(log, k - 1)
      && Run(Fresh(log, randoms), cfg, events).Some?
    ensures
      var (k, t) := Progress(events, 0, 0);
      var s := Run(Fresh(log, randoms), cfg, events).value.0;
      var (_, answer, _) := OnKey(s, cfg, 0, 0);
      && s.keyMsgCount == log.starts[k - 1] + t && |answer| == cfg.users
      && (var m := answer[p];
          && IsCut(m) && Type(m) == Key1 && Sender(m) == p
          && k - 1 < |Rounds(msgs, p)| && t < |Rounds(msgs, p)[k - 1]|
          && Inputs(m) == [Rounds(msgs, p)[k - 1][t]])
  {
    hide Unpacked, Type, Sender, Inputs, Rounds, LogOk, Packed, FramesBefore, Answer, Run, Enough, Converted;
    var players := AllRounds(msgs, cfg.users);
    ExposeEnough(players);
    var (k, t) := Progress(events, 0, 0);
    StartsAreInside(players, log);
    hide StartsInside;
    RunStands(Fresh(log, randoms), cfg, log, events, 0, 0);
    RoundsArePreserved(players, log, k - 1, p);
    var s := Run(Fresh(log, randoms), cfg, events).value.0;
    assert s.keyMsgCount == log.starts[k - 1] + t;
    AnswerCarries(FrameAt(log, s.keyMsgCount), None, cfg.pov, cfg.users, p);
    assert players[p] == Rounds(msgs, p);
  }

  lemma StartsAreInside(players: Players, log: Log)
    requires Enough(players) && Converted(log, players)
    ensures StartsInside(log)
  {
    hide Enough, FramesBefore, Round;
    forall k | 0 <= k < |log.starts| ensures log.starts[k] <= |log.inputs| { RoundIsSlice(players, log, k); }
  }

  // ---------------------------------------------------------------- the whole log, played from end to end

  function Keys(n: nat): seq<Event> { if n == 0 then [] else [Key] + Keys(n - 1) }

  /** Every round from the k-th on: its start, then an input for each of its frames. */
  function AllEvents(log: Log, randoms: seq<bv16>, k: nat): seq<Event>
    requires |randoms| == |log.starts| && k <= |randoms|
    requires forall j :: 0 <= j < |log.starts| ==> log.starts[j] <= RoundEnd(log, j)
    decreases |randoms| - k
  {
    if k == |randoms| then []
    else [Started(randoms[k])] + Keys(RoundEnd(log, k) - log.starts[k]) + AllEvents(log, randoms, k + 1)
  }

  /** Answers that carry a message for a player. */
  ghost predicate For(answers: seq<seq<Message>>, p: nat) {
    forall i :: 0 <= i < |answers| ==> p < |answers[i]| && IsCut(answers[i][p])
  }

  /** One player's inputs in some answers. */
  ghost function Stream(answers: seq<seq<Message>>, p: nat): seq<Input>
    requires For(answers, p)
  {
    if answers == [] then [] else Inputs(answers[0][p]) + Stream(answers[1..], p)
  }

  lemma {:induction false} StreamAppend(a: seq<seq<Message>>, b: seq<seq<Message>>, p: nat)
    requires For(a, p) && For(b, p)
    ensures For(a + b, p) && Stream(a + b, p) == Stream(a, p) + Stream(b, p)
    decreases |a|
  {
    hide Inputs, IsCut;
    if a == [] {
      assert a + b == b;
    } else {
      assert (a + b)[1..] == a[1..] + b;
      StreamAppend(a[1..], b, p);
    }
  }

  function Joined(r: Option<(Play, seq<seq<Message>>)>, cfg: Settings, events: seq<Event>)
    : Option<(Play, seq<seq<Message>>)>
    requires cfg.users <= 4
  {
    match r
    case None => None
    case Some((t, answers)) =>
      match Run(t, cfg, events)
      case None => None
      case Some((u, more)) => Some((u, answers + more))
  }

  lemma {:induction false} RunAppend(s: Play, cfg: Settings, a: seq<Event>, b: seq<Event>)
    requires cfg.users <= 4
    ensures Run(s, cfg, a + b) == Joined(Run(s, cfg, a), cfg, b)
    decreases |a|
  {
    hide OnStart, OnKey;
    if a == [] {
      assert a + b == b;
      NothingAnswered(Run(s, cfg, b));
    } else {
      assert (a + b)[1..] == a[1..] + b;
      if a[0].Started? {
        var next := OnStart(s, cfg, a[0].random);
        if next.Some? {
          RunAppend(next.value, cfg, a[1..], b);
        }
      } else {
        var (t, answer, _) := OnKey(s, cfg, 0, 0);
        RunAppend(t, cfg, a[1..], b);
        var r := Run(t, cfg, a[1..]);
        if r.Some? && Run(r.value.0, cfg, b).Some? {
          var more := Run(r.value.0, cfg, b).value.1;
          assert [answer] + (r.value.1 + more) == [answer] + r.value.1 + more;
        }
      }
    }
  }

  lemma NothingAnswered(r: Option<(Play, seq<seq<Message>>)>)
    ensures r.Some? ==> [] + r.value.1 == r.value.1
  {
  }

  /** The answers for some frames from a count on. */
  function AnswersFor(log: Log, cfg: Settings, count: nat, n: nat): seq<seq<Message>>
    requires cfg.users <= 4
    decreases n
  {
    if n == 0 then []
    else [Answer(FrameAt(log, count), None, cfg.pov, cfg.users)] + AnswersFor(log, cfg, count + 1, n - 1)
  }

  lemma {:induction false} KeysRun(s: Play, cfg: Settings, n: nat)
    requires cfg.users <= 4 && !s.takeover && s.keyMsgCount + n <= |s.log.inputs|
    ensures Run(s, cfg, Keys(n))
            == Some((s.(keyMsgCount := s.keyMsgCount + n), AnswersFor(s.log, cfg, s.keyMsgCount, n)))
    decreases n
  {
    hide Answer, FrameAt;
    if n > 0 {
      assert Keys(n)[1..] == Keys(n - 1);
      KeysRun(OnKey(s, cfg, 0, 0).0, cfg, n - 1);
    }
  }

  /** One player's inputs in some frames. */
  lemma {:induction false} KeysStream(log: Log, cfg: Settings, p: nat, count: nat, inputs: seq<Input>)
    requires p < cfg.users <= 4 && count + |inputs| <= |log.inputs|
    requires forall t :: 0 <= t < |inputs| ==> Unpacked(log.inputs[count + t], p) == inputs[t]
    ensures For(AnswersFor(log, cfg, count, |inputs|), p)
    ensures Stream(AnswersFor(log, cfg, count, |inputs|), p) == inputs
    decreases |inputs|
  {
    hide Answer, Unpacked, Inputs, IsCut;
    if inputs != [] {
      AnswerCarries(FrameAt(log, count), None, cfg.pov, cfg.users, p);
      assert Unpacked(log.inputs[count + 0], p) == inputs[0];
      forall t | 0 <= t < |inputs| - 1 ensures Unpacked(log.inputs[count + 1 + t], p) == inputs[1..][t] {
        assert Unpacked(log.inputs[count + (t + 1)], p) == inputs[t + 1];
      }
      KeysStream(log, cfg, p, count + 1, inputs[1..]);
      assert [inputs[0]] + inputs[1..] == inputs;
    }
  }

  /** Before round k, with the random numbers to come as recorded. */
  predicate Ready(s: Play, log: Log, randoms: seq<bv16>, k: nat) {
    && s.log == log && !s.takeover && s.startMsgCount == k <= |log.starts| == |randoms|
    && forall j :: k <= j < |randoms| && j < |s.randoms| ==> randoms[j] == LowHalf(s.randoms[j])
  }

  lemma RoundRun(s: Play, cfg: Settings, log: Log, randoms: seq<bv16>, k: nat)
    requires cfg.users <= 4 && Ready(s, log, randoms, k) && k < |log.starts|
    requires log.starts[k] <= RoundEnd(log, k) <= |log.inputs|
    ensures
      var r := Run(s, cfg, [Started(randoms[k])] + Keys(RoundEnd(log, k) - log.starts[k]));
      && r.Some? && Ready(r.value.0, log, randoms, k + 1)
      && r.value.1 == AnswersFor(log, cfg, log.starts[k], RoundEnd(log, k) - log.starts[k])
  {
    hide Keys, AnswersFor, LowHalf;
    var n := RoundEnd(log, k) - log.starts[k];
    var started := OnStart(s, cfg, randoms[k]).value;
    assert ([Started(randoms[k])] + Keys(n))[1..] == Keys(n);
    KeysRun(started, cfg, n);
  }

  /** No round of the log is longer than the player's. */
  predicate Within(log: Log, rounds: seq<seq<Input>>) {
    && |log.starts| <= |rounds|
    && forall j :: 0 <= j < |log.starts| ==> 0 <= RoundEnd(log, j) - log.starts[j] <= |rounds[j]|
  }

  /** What of a player's rounds the log holds, from the k-th round on. */
  function Played(rounds: seq<seq<Input>>, log: Log, k: nat): seq<Input>
    requires Within(log, rounds) && k <= |log.starts|
    decreases |log.starts| - k
  {
    if k == |log.starts| then [] else rounds[k][..RoundEnd(log, k) - log.starts[k]] + Played(rounds, log, k + 1)
  }

  lemma LengthsFit(players: Players, log: Log, p: nat)
    requires Enough(players) && Converted(log, players) && p < |players|
    ensures |log.starts| == |players[0]| && Within(log, players[p])
    ensures forall j :: 0 <= j < |log.starts| ==> RoundEnd(log, j) <= |log.inputs|
  {
    hide Unpacked, RoundEnd, FramesBefore;
    forall j | 0 <= j < |log.starts|
      ensures j < |players[p]| && 0 <= RoundEnd(log, j) - log.starts[j] <= |players[p][j]|
      ensures RoundEnd(log, j) <= |log.inputs|
    {
      RoundsArePreserved(players, log, j, p);
    }
  }

  lemma RoundStream(players: Players, cfg: Settings, log: Log, p: nat, k: nat)
    requires Enough(players) && Converted(log, players) && p < |players| == cfg.users <= 4 && k < |log.starts|
    ensures k < |players[p]| && 0 <= RoundEnd(log, k) - log.starts[k] <= |players[p][k]|
    ensures
      var n := RoundEnd(log, k) - log.starts[k];
      && For(AnswersFor(log, cfg, log.starts[k], n), p)
      && Stream(AnswersFor(log, cfg, log.starts[k], n), p) == players[p][k][..n]
  {
    hide Unpacked, RoundEnd, FramesBefore, AnswersFor, Enough, Converted;
    RoundsArePreserved(players, log, k, p);
    var n := RoundEnd(log, k) - log.starts[k];
    LengthsFit(players, log, p);
    KeysStream(log, cfg, p, log.starts[k], players[p][k][..n]);
  }

  /** Played from end to end, a converted log gives every player's rounds back, each as far as the log holds it. */
  lemma {:induction false} WholeRunPlaysRounds(players: Players, cfg: Settings, log: Log, s: Play, randoms: seq<bv16>,
                                              p: nat, k: nat)
    requires Enough(players) && Converted(log, players) && p < |players| == cfg.users <= 4
    requires Ready(s, log, randoms, k) && Within(log, players[p])
    ensures
      var r := Run(s, cfg, AllEvents(log, randoms, k));
      && r.Some? && r.value.0.startMsgCount == |log.starts|
      && For(r.value.1, p) && Stream(r.value.1, p) == Played(players[p], log, k)
    decreases |log.starts| - k
  {
    hide Unpacked, RoundEnd, FramesBefore, AnswersFor, Keys, Run, Enough, Converted, IsCut, Inputs, LowHalf;
    if k < |log.starts| {
      var n := RoundEnd(log, k) - log.starts[k];
      var first := [Started(randoms[k])] + Keys(n);
      LengthsFit(players, log, p);
      RoundRun(s, cfg, log, randoms, k);
      RoundStream(players, cfg, log, p, k);
      var (t, answers) := Run(s, cfg, first).value;
      WholeRunPlaysRounds(players, cfg, log, t, randoms, p, k + 1);
      RunAppend(s, cfg, first, AllEvents(log, randoms, k + 1));
      StreamAppend(answers, Run(t, cfg, AllEvents(log, randoms, k + 1)).value.1, p);
    } else {
      NoEvents(s, cfg, log, randoms, p);
    }
  }

  lemma NoEvents(s: Play, cfg: Settings, log: Log, randoms: seq<bv16>, p: nat)
    requires cfg.users <= 4
    ensures Run(s, cfg, []) == Some((s, [])) && For([], p) && Stream([], p) == []
  {
  }

  /** The same from the log of messages: recorded, converted and played through, every player's inputs of every
      round come back in order, each round as far as its shortest player got. */
  lemma WholeLogComesBack(msgs: seq<Cut>, cfg: Settings, log: Log, recorded: seq<bv32>, randoms: seq<bv16>, p: nat)
    requires LogOk(msgs, cfg.users) && Enough(AllRounds(msgs, cfg.users)) && p < cfg.users <= 4
    requires Converted(log, AllRounds(msgs, cfg.users)) && Ready(Fresh(log, recorded), log, randoms, 0)
    ensures
      var players := AllRounds(msgs, cfg.users);
      var r := Run(Fresh(log, recorded), cfg, AllEvents(log, randoms, 0));
      && |log.starts| == |players[0]| && Within(log, players[p])
      && r.Some? && For(r.value.1, p) && Stream(r.value.1, p) == Played(players[p], log, 0)
  {
    hide Run, AllEvents, Played, Stream, For, FramesBefore, RoundEnd, LogOk, Rounds, Enough, Converted, Ready;
    LengthsFit(AllRounds(msgs, cfg.users), log, p);
    WholeRunPlaysRounds(AllRounds(msgs, cfg.users), cfg, log, Fresh(log, recorded), randoms, p, 0);
  }
}
