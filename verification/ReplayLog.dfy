/** Conversion of the players' ragged message logs to packed inputs, one word a frame, and their playback. */
module ReplayLog {
  import opened ReplayMessages

  type Players = seq<seq<seq<Input>>>

  // ---------------------------------------------------------------- packing

  /** An input in its player's sixteen bits. */
  function Lane(i: Input, p: nat): bv64 {
    if p == 0 then i as bv64
    else if p == 1 then i as bv64 << 16
    else if p == 2 then i as bv64 << 32
    else i as bv64 << 48
  }

  /** A player's sixteen bits. */
  function Unpacked(w: bv64, p: nat): Input {
    if p == 0 then (w & 0xffff) as bv16
    else if p == 1 then ((w >> 16) & 0xffff) as bv16
    else if p == 2 then ((w >> 32) & 0xffff) as bv16
    else ((w >> 48) & 0xffff) as bv16
  }

  function Or(a: bv64, b: bv64): bv64 { a | b }

  /** The inputs of one frame as a word. */
  function Packed(column: seq<Input>): bv64 {
    var n := |column|;
    if n == 0 then 0 else Or(Packed(column[..n - 1]), Lane(column[n - 1], n - 1))
  }

  lemma OtherLane(w: bv64, i: Input, q: nat, p: nat)
    requires p < q < 4
    ensures Unpacked(Or(w, Lane(i, q)), p) == Unpacked(w, p)
  {
  }

  lemma FirstLane(i: Input)
    ensures Unpacked(Lane(i, 0), 0) == i
  {
  }

  lemma SecondLane(i: Input)
    ensures Unpacked(Lane(i, 1), 1) == i
  {
  }

  lemma ThirdLane(i: Input)
    ensures Unpacked(Lane(i, 2), 2) == i
  {
  }

  lemma FourthLane(i: Input)
    ensures Unpacked(Lane(i, 3), 3) == i
  {
  }

  lemma LaneIsOwn(i: Input, q: nat)
    requires q < 4
    ensures Unpacked(Lane(i, q), q) == i
  {
    hide Lane, Unpacked;
    if q == 0 {
      FirstLane(i);
    } else if q == 1 {
      SecondLane(i);
    } else if q == 2 {
      ThirdLane(i);
    } else {
      FourthLane(i);
    }
  }

  lemma LaneIsNoOther(i: Input, q: nat, p: nat)
    requires q < p < 4
    ensures Unpacked(Lane(i, q), p) == 0
  {
  }

  lemma UnpackedOr(a: bv64, b: bv64, p: nat)
    requires p < 4
    ensures Unpacked(a, p) == 0 ==> Unpacked(Or(a, b), p) == Unpacked(b, p)
  {
  }

  lemma OwnLane(w: bv64, i: Input, q: nat)
    requires q < 4 && forall p :: q <= p < 4 ==> Unpacked(w, p) == 0
    ensures Unpacked(Or(w, Lane(i, q)), q) == i
    ensures forall p :: q < p < 4 ==> Unpacked(Or(w, Lane(i, q)), p) == 0
  {
    hide Unpacked, Or, Lane;
    forall p | q <= p < 4
      ensures Unpacked(Or(w, Lane(i, q)), p) == if p == q then i else 0
    {
      UnpackedOr(w, Lane(i, q), p);
      if p == q {
        LaneIsOwn(i, q);
      } else {
        LaneIsNoOther(i, q, p);
      }
    }
  }

  lemma NothingUnpacks(p: nat)
    ensures Unpacked(0, p) == 0
  {
  }

  /** Packing at most four inputs loses nothing. */
  lemma {:induction false} UnpackInverts(column: seq<Input>)
    requires |column| <= 4
    ensures forall p :: 0 <= p < |column| ==> Unpacked(Packed(column), p) == column[p]
    ensures forall p :: |column| <= p < 4 ==> Unpacked(Packed(column), p) == 0
    decreases |column|
  {
    hide Unpacked, Or, Lane;
    var n := |column|;
    if n == 0 {
      forall p: nat
        ensures Unpacked(0, p) == 0
      {
        NothingUnpacks(p);
      }
    } else {
      var before := column[..n - 1];
      UnpackInverts(before);
      OwnLane(Packed(before), column[n - 1], n - 1);
      forall p | 0 <= p < n - 1
        ensures Unpacked(Packed(column), p) == column[p]
      {
        OtherLane(Packed(before), column[n - 1], n - 1, p);
      }
    }
  }

  // ---------------------------------------------------------------- rounds

  /** Every player has as many rounds as the first one, or more. */
  predicate Enough(players: Players) {
    0 < |players| <= 4 && forall p :: 0 <= p < |players| ==> |players[0]| <= |players[p]|
  }

  /** The least length of a round over the players before the n-th, the first player included. */
  function Shortest(players: Players, k: nat, n: nat): (t: nat)
    requires Enough(players) && k < |players[0]| && n <= |players|
    ensures t <= |players[0][k]| && forall p :: 0 <= p < n ==> t <= |players[p][k]|
    ensures exists p :: 0 <= p < |players| && t == |players[p][k]|
  {
    if n == 0 then |players[0][k]|
    else
      var t := Shortest(players, k, n - 1);
      if |players[n - 1][k]| < t then |players[n - 1][k]| else t
  }

  function Length(players: Players, k: nat): nat
    requires Enough(players) && k < |players[0]|
  {
    Shortest(players, k, |players|)
  }

  /** The inputs of all players in one frame of a round. */
  function Column(players: Players, k: nat, t: nat): (c: seq<Input>)
    requires Enough(players) && k < |players[0]| && t < Length(players, k)
    ensures |c| == |players| && forall p :: 0 <= p < |players| ==> c[p] == players[p][k][t]
  {
    seq(|players|, p requires 0 <= p < |players| => players[p][k][t])
  }

  /** The frames of a round. */
  function Round(players: Players, k: nat): (r: seq<bv64>)
    requires Enough(players) && k < |players[0]|
    ensures |r| == Length(players, k)
    ensures forall t :: 0 <= t < |r| ==> r[t] == Packed(Column(players, k, t))
  {
    seq(Length(players, k), t requires 0 <= t < Length(players, k) => Packed(Column(players, k, t)))
  }

  /** The frames of the rounds before the n-th. */
  function FramesBefore(players: Players, n: nat): seq<bv64>
    requires Enough(players) && n <= |players[0]|
  {
    if n == 0 then [] else FramesBefore(players, n - 1) + Round(players, n - 1)
  }

  /** What the conversion makes of a log: the frames, and where each round starts among them. */
  datatype Log = Log(inputs: seq<bv64>, starts: seq<nat>)

  ghost predicate Converted(log: Log, players: Players)
    requires Enough(players)
  {
    && |log.starts| == |players[0]| && log.inputs == FramesBefore(players, |players[0]|)
    && forall k :: 0 <= k < |log.starts| ==> log.starts[k] == |FramesBefore(players, k)|
  }

  // ---------------------------------------------------------------- the conversion

  method Chunk(msgs: seq<Cut>, users: nat) returns (players: Players)
    requires LogOk(msgs, users)
    ensures players == AllRounds(msgs, users)
  {
    hide Type, Inputs, Rounds;
    players := seq(users, _ => []);
    assert msgs[..0] == [];
    NoRounds(users);
    for i := 0 to |msgs|
      invariant players == AllRounds(msgs[..i], users)
    {
      var m := msgs[i];
      var p := Sender(m);
      assert msgs[..i + 1] == msgs[..i] + [m];
      forall q | 0 <= q < users
        ensures Rounds(msgs[..i + 1], q)
                == if Sender(m) == q then Noted(Rounds(msgs[..i], q), m) else Rounds(msgs[..i], q)
      {
        RoundsOneMore(msgs[..i], m, q);
      }
      match Type(m) {
        case Start =>
          players := players[p := players[p] + [[]]];
        case Other =>
          OtherChangesNothing(m);
        case _ =>
          StartedMeansRounds(msgs[..i], p);
          var n := |players[p]| - 1;
          players := players[p := players[p][n := players[p][n] + Inputs(m)]];
      }
    }
    assert msgs[..|msgs|] == msgs;
  }

  lemma NoRounds(users: nat)
    ensures AllRounds([], users) == seq(users, _ => [])
  {
  }

  lemma OtherChangesNothing(m: Cut)
    requires Type(m) == Other
    ensures forall rounds: seq<seq<Input>> :: Noted(rounds, m) == rounds
  {
  }

  method PackRounds(players: Players) returns (log: Log)
    requires Enough(players)
    ensures Converted(log, players)
  {
    hide Enough, Length, Column, Round, FramesBefore;
    ExposeEnough(players);
    var inputs: seq<bv64>, starts: seq<nat> := [], [];
    FramesStart(players);
    for chunk := 0 to |players[0]|
      invariant |starts| == chunk && inputs == FramesBefore(players, chunk)
      invariant forall k :: 0 <= k < chunk ==> starts[k] == |FramesBefore(players, k)|
    {
      starts := starts + [|inputs|];
      FramesStep(players, chunk);
      var frames := PackRound(players, chunk);
      inputs := inputs + frames;
    }
    log := Log(inputs, starts);
  }

  lemma FramesStart(players: Players)
    requires Enough(players)
    ensures FramesBefore(players, 0) == []
  {
  }

  lemma FramesStep(players: Players, k: nat)
    requires Enough(players) && k < |players[0]|
    ensures FramesBefore(players, k + 1) == FramesBefore(players, k) + Round(players, k)
  {
    hide Enough, Round;
  }

  method PackRound(players: Players, chunk: nat) returns (frames: seq<bv64>)
    requires Enough(players) && chunk < |players[0]|
    ensures frames == Round(players, chunk)
  {
    hide Packed, Enough, Column;
    ExposeEnough(players);
    var minT := |players[0][chunk]|;
    for p := 0 to |players|
      invariant minT == Shortest(players, chunk, p)
    {
      minT := if |players[p][chunk]| < minT then |players[p][chunk]| else minT;
    }
    hide Shortest;
    frames := [];
    for t := 0 to minT
      invariant frames == Round(players, chunk)[..t]
    {
      var input := PackFrame(players, chunk, t);
      frames := frames + [input];
    }
  }

  method PackFrame(players: Players, chunk: nat, t: nat) returns (input: bv64)
    requires Enough(players) && chunk < |players[0]| && t < Length(players, chunk)
    ensures input == Packed(Column(players, chunk, t))
  {
    hide Or, Lane, Shortest, Enough;
    ExposeEnough(players);
    input := 0;
    ghost var c := Column(players, chunk, t);
    for p := 0 to |players|
      invariant input == Packed(c[..p])
    {
      assert c[..p + 1][..p] == c[..p];
      input := Or(input, Lane(players[p][chunk][t], p));
    }
    assert c[..|players|] == c;
  }

  lemma ExposeEnough(players: Players)
    requires Enough(players)
    ensures 0 < |players| <= 4 && forall p :: 0 <= p < |players| ==> |players[0]| <= |players[p]|
  {
  }

  method Convert(msgs: seq<Cut>, users: nat) returns (log: Log)
    requires LogOk(msgs, users) && Enough(AllRounds(msgs, users))
    ensures Converted(log, AllRounds(msgs, users))
  {
    var players := Chunk(msgs, users);
    log := PackRounds(players);
  }
}
