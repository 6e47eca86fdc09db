/** Battle messages of a replay, and the inputs one player sent in each round. */
module ReplayMessages {
  type Input = bv16

  datatype Kind = Start | Key1 | Key2 | Other

  datatype Message = Message(body: seq<bv8>)

  predicate IsConnectionId(b: seq<bv8>) { |b| >= 4 && b[0] == 0x82 && b[1] == 0x02 }

  /** As it is cut from the log, the first byte of a message is its length, but for the twenty bytes of a
      connection id. */
  predicate IsCut(m: Message) {
    |m.body| >= 2 && |m.body| == if IsConnectionId(m.body) then 20 else m.body[0] as int
  }

  type Cut = m: Message | IsCut(m) witness Message([4, 0x40, 0, 0])

  function SenderOf(b: bv8): nat { (b & 0x0f) as nat }

  function Sender(m: Cut): nat { SenderOf(m.body[1]) }

  function KindOf(n: bv8, k: bv8): Kind {
    if n == 0x0a && k == 2 then Key1
    else if n == 0x12 && k == 2 then Key2
    else if k == 4 then Start
    else Other
  }

  function Type(m: Cut): Kind {
    if |m.body| < 4 then Other
    else if IsConnectionId(m.body) then Other
    else KindOf(m.body[0], (m.body[1] & 0xf0) >> 4)
  }

  function Joined(high: bv8, low: bv8): Input { (high as bv16 << 8) | low as bv16 }

  function HighByte(i: Input): bv8 { (i >> 8) as bv8 }

  function LowByte(i: Input): bv8 { (i & 0xff) as bv8 }

  lemma InputLengths(m: Cut)
    ensures Type(m).Key1? ==> |m.body| == 10
    ensures Type(m).Key2? ==> |m.body| == 18
  {
  }

  /** The inputs a message carries. */
  function Inputs(m: Cut): seq<Input> {
    InputLengths(m);
    match Type(m)
    case Key1 => [Joined(m.body[2], m.body[3])]
    case Key2 => [Joined(m.body[2], m.body[3]), Joined(m.body[10], m.body[11])]
    case _ => []
  }

  function Tagged(p: bv8): bv8 { 0x20 | p }

  /** The message that replays a player's input. */
  function KeyMessage(p: bv8, i: Input): Message {
    Message([0x0a, Tagged(p), HighByte(i), LowByte(i), 0, 0, 0, 0, 0, 0])
  }

  lemma JoinedHalves(i: Input)
    ensures Joined(HighByte(i), LowByte(i)) == i
  {
  }

  lemma TaggedIsKey(p: bv8)
    requires p <= 0x0f
    ensures Tagged(p) & 0x0f == p && (Tagged(p) & 0xf0) >> 4 == 2
  {
  }

  /** A replayed message carries its player and the input again. */
  lemma KeyMessageCarries(p: bv8, i: Input)
    requires p <= 0x0f
    ensures var m := KeyMessage(p, i);
            && IsCut(m) && Type(m) == Key1 && Sender(m) == p as nat && Inputs(m) == [i]
  {
    hide Joined, HighByte, LowByte, Tagged;
    JoinedHalves(i);
    TaggedIsKey(p);
    assert KeyMessage(p, i).body[0] as int == 10;
  }

  // ---------------------------------------------------------------- rounds

  /** A player's inputs up to that player's next start message. */
  function UntilStart(msgs: seq<Cut>, p: nat): seq<Input> {
    if msgs == [] then []
    else if Sender(msgs[0]) != p then UntilStart(msgs[1..], p)
    else if Type(msgs[0]) == Start then []
    else Inputs(msgs[0]) + UntilStart(msgs[1..], p)
  }

  /** A player's rounds: for each of the player's start messages, the inputs up to the next one. */
  function Rounds(msgs: seq<Cut>, p: nat): seq<seq<Input>> {
    if msgs == [] then []
    else if Sender(msgs[0]) == p && Type(msgs[0]) == Start then [UntilStart(msgs[1..], p)] + Rounds(msgs[1..], p)
    else Rounds(msgs[1..], p)
  }

  function AllRounds(msgs: seq<Cut>, users: nat): (r: seq<seq<seq<Input>>>)
    ensures |r| == users && forall p :: 0 <= p < users ==> r[p] == Rounds(msgs, p)
  {
    seq(users, p requires 0 <= p < users => Rounds(msgs, p))
  }

  /** Every start and key message is from a user, and no key message comes before its sender's first start. */
  ghost predicate LogOk(msgs: seq<Cut>, users: nat) {
    forall i :: 0 <= i < |msgs| && Type(msgs[i]) != Other ==>
      && Sender(msgs[i]) < users
      && (Type(msgs[i]) != Start ==> StartedBefore(msgs[..i], Sender(msgs[i])))
  }

  ghost predicate StartedBefore(msgs: seq<Cut>, p: nat) {
    exists m :: m in msgs && Type(m) == Start && Sender(m) == p
  }

  lemma {:induction false} StartedMeansRounds(msgs: seq<Cut>, p: nat)
    requires StartedBefore(msgs, p)
    ensures Rounds(msgs, p) != []
  {
    hide Type, Sender;
    var m :| m in msgs && Type(m) == Start && Sender(m) == p;
    if !(Sender(msgs[0]) == p && Type(msgs[0]) == Start) {
      assert msgs == [msgs[0]] + msgs[1..];
      assert m in msgs[1..];
      StartedMeansRounds(msgs[1..], p);
    }
  }

  /** What one more message of a player makes of the player's rounds. */
  function Noted(rounds: seq<seq<Input>>, m: Cut): seq<seq<Input>> {
    if Type(m) == Start then rounds + [[]]
    else if Type(m) == Other || rounds == [] then rounds
    else
      var n := |rounds| - 1;
      rounds[n := rounds[n] + Inputs(m)]
  }

  lemma {:induction false} UntilStartOneMore(msgs: seq<Cut>, m: Cut, p: nat)
    ensures UntilStart(msgs + [m], p)
            == UntilStart(msgs, p)
               + if Sender(m) == p && Type(m) != Start && Rounds(msgs, p) == [] then Inputs(m) else []
    decreases |msgs|
  {
    hide Type, Sender, Inputs;
    if msgs == [] {
      assert (msgs + [m])[1..] == [];
    } else {
      assert (msgs + [m])[1..] == msgs[1..] + [m];
      UntilStartOneMore(msgs[1..], m, p);
    }
  }

  lemma OtherHasNoInputs(m: Cut)
    ensures Type(m) == Other || Type(m) == Start ==> Inputs(m) == []
  {
  }

  lemma {:induction false} RoundsOneMore(msgs: seq<Cut>, m: Cut, p: nat)
    ensures Rounds(msgs + [m], p) == if Sender(m) == p then Noted(Rounds(msgs, p), m) else Rounds(msgs, p)
    decreases |msgs|
  {
    hide Type, Sender, Inputs, UntilStart;
    OtherHasNoInputs(m);
    if msgs == [] {
      assert (msgs + [m])[1..] == [];
      UntilStartNothing(p);
    } else {
      var rest := msgs[1..];
      assert (msgs + [m])[1..] == rest + [m];
      RoundsOneMore(rest, m, p);
      UntilStartOneMore(rest, m, p);
      assert UntilStart(rest, p) + [] == UntilStart(rest, p);
    }
  }

  lemma UntilStartNothing(p: nat)
    ensures UntilStart([], p) == []
  {
  }

  // ---------------------------------------------------------------- messages of two inputs

  /** The kind of a message, by its length and the high half of its second byte. */
  lemma KindsExactly(m: Cut)
    ensures Type(m) == Key1 <==> |m.body| == 10 && m.body[1] / 0x10 == 2
    ensures Type(m) == Key2 <==> |m.body| == 18 && m.body[1] / 0x10 == 2
    ensures Type(m) == Start <==> |m.body| >= 4 && m.body[1] / 0x10 == 4
  {
    HighHalf(m.body[1]);
  }

  lemma HighHalf(b: bv8)
    ensures (b & 0xf0) >> 4 == b / 0x10
  {
  }

  /** The ten bytes of a replayed message. */
  lemma KeyMessageSpelled(p: bv8, i: Input)
    requires p <= 0x0f
    ensures KeyMessage(p, i).body
            == [0x0a, 0x20 + p, (i / 0x100) as bv8, (i % 0x100) as bv8, 0x00, 0x00, 0x00, 0x00, 0x00, 0x00]
  {
    BytesOfInput(i);
    TagIsSum(p);
    hide HighByte, LowByte, Tagged;
  }

  lemma BytesOfInput(i: Input)
    ensures HighByte(i) == (i / 0x100) as bv8 && LowByte(i) == (i % 0x100) as bv8
  {
    assert i >> 8 == i / 0x100 && i & 0xff == i % 0x100;
  }

  lemma TagIsSum(p: bv8)
    requires p <= 0x0f
    ensures Tagged(p) == 0x20 + p
  {
  }

  /** A message of two inputs, each with six bytes behind it. */
  function KeyMessage2(p: bv8, first: Input, more: seq<bv8>, second: Input, last: seq<bv8>): Message {
    Message([0x12, Tagged(p), HighByte(first), LowByte(first)] + more + [HighByte(second), LowByte(second)] + last)
  }

  /** It carries the first input, then the second. */
  lemma KeyMessage2Carries(p: bv8, first: Input, more: seq<bv8>, second: Input, last: seq<bv8>)
    requires p <= 0x0f && |more| == |last| == 6
    ensures var m := KeyMessage2(p, first, more, second, last);
            && IsCut(m) && Type(m) == Key2 && Sender(m) == p as nat && Inputs(m) == [first, second]
  {
    hide Joined, HighByte, LowByte, Tagged;
    JoinedHalves(first);
    JoinedHalves(second);
    TaggedIsKey(p);
    var b := KeyMessage2(p, first, more, second, last).body;
    assert b[0] as int == 18 && |b| == 18;
    assert b[1] == Tagged(p) && b[2] == HighByte(first) && b[3] == LowByte(first);
    assert b[10] == HighByte(second) && b[11] == LowByte(second);
  }

  /** The message of one input made of the eight bytes of another message from a place on. */
  function HalfAt(m: Cut, at: nat): Message
    requires at + 8 <= |m.body|
  {
    Message([0x0a, Tagged(m.body[1] & 0x0f)] + m.body[at..at + 8])
  }

  function FirstKeyMsg(m: Cut): Message
    requires Type(m) == Key2
  {
    InputLengths(m);
    HalfAt(m, 2)
  }

  function SecondKeyMsg(m: Cut): Message
    requires Type(m) == Key2
  {
    InputLengths(m);
    HalfAt(m, 10)
  }

  lemma SenderBits(b: bv8)
    ensures b & 0x0f <= 0x0f && SenderOf(Tagged(b & 0x0f)) == SenderOf(b)
  {
  }

  lemma HalfCarries(m: Cut, at: nat)
    requires at + 8 <= |m.body|
    ensures var h := HalfAt(m, at);
            && IsCut(h) && Type(h) == Key1 && Sender(h) == Sender(m)
            && Inputs(h) == [Joined(m.body[at], m.body[at + 1])]
  {
    hide Joined, Tagged, SenderOf;
    SenderBits(m.body[1]);
    TaggedIsKey(m.body[1] & 0x0f);
    var b := HalfAt(m, at).body;
    assert b[0] as int == 10 && |b| == 10;
    assert b[1] == Tagged(m.body[1] & 0x0f) && b[2] == m.body[at] && b[3] == m.body[at + 1];
  }

  /** The halves of a message of two inputs are its sender's, and carry its inputs in order. */
  lemma HalvesCarry(m: Cut)
    requires Type(m) == Key2
    ensures
      var f, g := FirstKeyMsg(m), SecondKeyMsg(m);
      && IsCut(f) && IsCut(g) && Type(f) == Type(g) == Key1 && Sender(f) == Sender(g) == Sender(m)
      && Inputs(f) + Inputs(g) == Inputs(m)
  {
    InputLengths(m);
    hide Joined, HalfAt;
    HalfCarries(m, 2);
    HalfCarries(m, 10);
  }

  lemma {:induction false} UntilStartHalved(a: seq<Cut>, m: Cut, f: Cut, g: Cut, b: seq<Cut>, p: nat)
    requires Type(m) != Start && Type(f) != Start && Type(g) != Start
    requires Sender(f) == Sender(g) == Sender(m) && Inputs(f) + Inputs(g) == Inputs(m)
    ensures UntilStart(a + [f, g] + b, p) == UntilStart(a + [m] + b, p)
    decreases |a|
  {
    hide Type, Sender, Inputs;
    var l, r := a + [f, g] + b, a + [m] + b;
    if a == [] {
      assert l[1..] == [g] + b && l[1..][1..] == b && r[1..] == b;
      assert Inputs(f) + (Inputs(g) + UntilStart(b, p)) == Inputs(f) + Inputs(g) + UntilStart(b, p);
    } else {
      assert l[1..] == a[1..] + [f, g] + b && r[1..] == a[1..] + [m] + b;
      UntilStartHalved(a[1..], m, f, g, b, p);
    }
  }

  lemma {:induction false} RoundsHalved(a: seq<Cut>, m: Cut, f: Cut, g: Cut, b: seq<Cut>, p: nat)
    requires Type(m) != Start && Type(f) != Start && Type(g) != Start
    requires Sender(f) == Sender(g) == Sender(m) && Inputs(f) + Inputs(g) == Inputs(m)
    ensures Rounds(a + [f, g] + b, p) == Rounds(a + [m] + b, p)
    decreases |a|
  {
    hide Type, Sender, Inputs, UntilStart;
    var l, r := a + [f, g] + b, a + [m] + b;
    if a == [] {
      assert l[1..] == [g] + b && l[1..][1..] == b && r[1..] == b;
    } else {
      assert l[1..] == a[1..] + [f, g] + b && r[1..] == a[1..] + [m] + b;
      UntilStartHalved(a[1..], m, f, g, b, p);
      RoundsHalved(a[1..], m, f, g, b, p);
    }
  }

  /** In place of a message of two inputs its halves may stand, in order, and every player's rounds stay the same. */
  lemma HalvesReplace(a: seq<Cut>, m: Cut, b: seq<Cut>, p: nat)
    requires Type(m) == Key2
    ensures IsCut(FirstKeyMsg(m)) && IsCut(SecondKeyMsg(m))
    ensures Rounds(a + [FirstKeyMsg(m), SecondKeyMsg(m)] + b, p) == Rounds(a + [m] + b, p)
  {
    HalvesCarry(m);
    hide Type, Sender, Inputs, FirstKeyMsg, SecondKeyMsg;
    RoundsHalved(a, m, FirstKeyMsg(m), SecondKeyMsg(m), b, p);
  }

  // ---------------------------------------------------------------- the kinds of messages that are created

  function Created(first: bv8, second: bv8, p: bv8, rest: seq<bv8>): Message { Message([first, second | p] + rest) }

  lemma TopBits(second: bv8, p: bv8)
    requires p <= 0x0f && second & 0x0f == 0
    ensures ((second | p) & 0xf0) >> 4 == second >> 4 && (second | p) & 0x0f == p
  {
  }

  /** A start message starts a round; those that only keep the connection going are neither starts nor inputs. */
  lemma CreatedKinds(p: bv8, fill: seq<bv8>)
    requires p <= 0x0f && |fill| == 16
    ensures var start := Created(0x04, 0x40, p, [0, 0]);
            IsCut(start) && Type(start) == Start && Sender(start) == p as nat
    ensures forall second, third: bv8 :: second in {0x10, 0x50, 0x70, 0x90}
              ==> var m := Created(0x04, second, p, [third, 0]); IsCut(m) && Type(m) == Other
    ensures var ping := Created(0x14, 0x30, p, [0, 0] + fill); IsCut(ping) && Type(ping) == Other
    ensures var pong := Created(0x06, 0x30, p, [1, 0, 2, 0]); IsCut(pong) && Type(pong) == Other
    ensures var id := Message([0x82, 0x02, 0, 0] + fill); IsCut(id) && Type(id) == Other
  {
    TopBits(0x40, p);
    TopBits(0x30, p);
    forall second, third: bv8 | second in {0x10, 0x50, 0x70, 0x90}
      ensures var m := Created(0x04, second, p, [third, 0]); IsCut(m) && Type(m) == Other
    {
      TopBits(second, p);
      assert Created(0x04, second, p, [third, 0]).body[0] as int == 4;
    }
    assert Created(0x04, 0x40, p, [0, 0]).body[0] as int == 4;
    assert Created(0x14, 0x30, p, [0, 0] + fill).body[0] as int == 20;
    assert Created(0x06, 0x30, p, [1, 0, 2, 0]).body[0] as int == 6;
  }
}
