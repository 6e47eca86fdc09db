/** What a converted log says about the rounds, and the bounds of a round. */
module ReplayRounds {
  import opened ReplayLog

  /** Where a round ends: where the next one starts, or at the end of the log. */
  function RoundEnd(log: Log, k: nat): nat
    requires k < |log.starts|
  {
    if k + 1 < |log.starts| then log.starts[k + 1] else |log.inputs|
  }

  lemma {:induction false} FramesAreAPrefix(players: Players, k: nat, n: nat)
    requires Enough(players) && k <= n <= |players[0]|
    ensures FramesBefore(players, k) <= FramesBefore(players, n)
    decreases n - k
  {
    hide Enough, Round;
    if k < n {
      FramesAreAPrefix(players, k, n - 1);
      FramesStep(players, n - 1);
    }
  }

  lemma RoundIsSlice(players: Players, log: Log, k: nat)
    requires Enough(players) && Converted(log, players) && k < |log.starts|
    ensures log.starts[k] <= RoundEnd(log, k) <= |log.inputs|
    ensures log.inputs[log.starts[k]..RoundEnd(log, k)] == Round(players, k)
  {
    hide Enough, Round, FramesBefore, Length;
    ExposeEnough(players);
    var n := |players[0]|;
    FramesAreAPrefix(players, k, n);
    FramesAreAPrefix(players, k + 1, n);
    FramesStep(players, k);
    var before := FramesBefore(players, k);
    assert RoundEnd(log, k) == |FramesBefore(players, k + 1)|;
    assert log.inputs[..RoundEnd(log, k)] == before + Round(players, k);
    assert log.inputs[..RoundEnd(log, k)][|before|..] == log.inputs[|before|..RoundEnd(log, k)];
  }

  /** A round of a converted log is as long as the shortest of the players' rounds, and holds for every
      player that many of the player's inputs, from the first on. */
  lemma RoundsArePreserved(players: Players, log: Log, k: nat, p: nat)
    requires Enough(players) && Converted(log, players) && k < |log.starts| && p < |players|
    ensures k < |players[p]| && log.starts[k] <= RoundEnd(log, k) <= |log.inputs|
    ensures
      var n := RoundEnd(log, k) - log.starts[k];
      && (forall q :: 0 <= q < |players| ==> n <= |players[q][k]|)
      && (exists q :: 0 <= q < |players| && n == |players[q][k]|)
      && (forall t :: 0 <= t < n ==> Unpacked(log.inputs[log.starts[k] + t], p) == players[p][k][t])
  {
    hide Packed, Unpacked, FramesBefore;
    RoundIsSlice(players, log, k);
    var lo, n := log.starts[k], RoundEnd(log, k) - log.starts[k];
    forall t | 0 <= t < n
      ensures Unpacked(log.inputs[lo + t], p) == players[p][k][t]
    {
      assert log.inputs[lo..RoundEnd(log, k)][t] == log.inputs[lo + t];
      UnpackInverts(Column(players, k, t));
    }
  }

  // ---------------------------------------------------------------- bounds

  datatype Bounds = Bounds(start: int, end: int, total: nat)

  /** The bounds of the round a start message count is in. */
  function RoundBounds(log: Log, count: int, startFrame: int): Bounds {
    var n := |log.starts|;
    if n == 0 then Bounds(0, |log.inputs|, 0)
    else
      var round := if count < 1 then 1 else if count > n then n else count;
      Bounds(if startFrame > 0 then startFrame else log.starts[round - 1],
             if round < n then log.starts[round] else |log.inputs|, n)
  }

  /** The rounds of a converted log follow each other without a gap, from its first frame to its last. */
  lemma RoundsTile(players: Players, log: Log, count: int)
    requires Enough(players) && Converted(log, players) && log.starts != []
    ensures RoundBounds(log, 1, 0).start == 0
    ensures RoundBounds(log, |log.starts|, 0).end == |log.inputs|
    ensures RoundBounds(log, count, 0).start <= RoundBounds(log, count, 0).end <= |log.inputs|
    ensures 1 <= count < |log.starts| ==> RoundBounds(log, count, 0).end == RoundBounds(log, count + 1, 0).start
    ensures count < 1 ==> RoundBounds(log, count, 0) == RoundBounds(log, 1, 0)
    ensures count > |log.starts| ==> RoundBounds(log, count, 0) == RoundBounds(log, |log.starts|, 0)
  {
    hide FramesBefore, Round, Enough, Converted, RoundEnd;
    var n := |log.starts|;
    FirstStart(players, log);
    InnerBounds(log, 1);
    InnerBounds(log, n);
    var round := if count < 1 then 1 else if count > n then n else count;
    InnerBounds(log, round);
    RoundIsSlice(players, log, round - 1);
    EndIsStart(log, round);
    if 1 <= count < n {
      InnerBounds(log, count + 1);
    }
  }

  lemma FirstStart(players: Players, log: Log)
    requires Enough(players) && Converted(log, players) && log.starts != []
    ensures log.starts[0] == 0
  {
    FramesStart(players);
    hide FramesBefore, Enough;
  }

  lemma InnerBounds(log: Log, k: int)
    requires 1 <= k <= |log.starts|
    ensures RoundBounds(log, k, 0) == Bounds(log.starts[k - 1], RoundEnd(log, k - 1), |log.starts|)
    ensures k == 1 ==> forall c: int :: c < 1 ==> RoundBounds(log, c, 0) == RoundBounds(log, k, 0)
    ensures k == |log.starts| ==> forall c: int :: c > k ==> RoundBounds(log, c, 0) == RoundBounds(log, k, 0)
  {
  }

  lemma EndIsStart(log: Log, k: int)
    requires 1 <= k <= |log.starts|
    ensures RoundEnd(log, k - 1) == if k < |log.starts| then log.starts[k] else |log.inputs|
  {
  }
}
