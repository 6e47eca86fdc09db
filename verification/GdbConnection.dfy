/** A connection of the debugger stub: packets are read within the limit of the buffer and answered in turn, one
    write at a time. The debugger behind it is any function from the commands so far to the replies to the last. */
module GdbConnections {
  import opened Sequences
  import opened Wrappers
  import opened Words
  import opened GdbFraming
  import opened GdbHex

  const MAX_PACKET_LEN: nat := 4096
  const PLUS := '+' as int
  const MINUS := '-' as int

  /** The replies to the last of some commands; None when it ends the connection. */
  type Server = seq<Bytes> -> Option<seq<Bytes>>

  // ---------------------------------------------------------------- packets of limited length

  /** The packets a stream is cut into, and what waits for more; None when the buffer is full without a packet. */
  function Limited(b: Bytes): (seq<Bytes>, Option<Bytes>)
    decreases |b|
  {
    match MatchEnd(b)
    case None => ([], if |b| < MAX_PACKET_LEN then Some(b) else None)
    case Some(n) =>
      if n > MAX_PACKET_LEN then ([], None)
      else
        var (ps, left) := Limited(b[n..]);
        ([b[..n]] + ps, left)
  }

  lemma LimitedStep(b: Bytes)
    ensures match MatchEnd(b)
            case None => Limited(b) == ([], if |b| < MAX_PACKET_LEN then Some(b) else None)
            case Some(n) =>
              Limited(b) == if n > MAX_PACKET_LEN then ([], None)
                            else ([b[..n]] + Limited(b[n..]).0, Limited(b[n..]).1)
  {
    hide MatchEnd;
  }

  /** A packet is not found in a stream before its last byte is there. */
  lemma NotBefore(a: Bytes, b: Bytes)
    requires MatchEnd(a) == None
    ensures MatchEnd(a + b).Some? ==> MatchEnd(a + b).value > |a|
  {
    hide MatchEnd;
    if MatchEnd(a + b).Some? && MatchEnd(a + b).value <= |a| {
      var n := MatchEnd(a + b).value;
      PrefixMatches(a + b);
      assert (a + b)[..n] == a[..n] && a[..n] + a[n..] == a;
      MatchIsStable(a[..n], a[n..]);
    }
  }

  /** What more bytes make of a cut. */
  function Continued(cut: (seq<Bytes>, Option<Bytes>), b: Bytes): (seq<Bytes>, Option<Bytes>) {
    match cut.1
    case None => cut
    case Some(left) => (cut.0 + Limited(left + b).0, Limited(left + b).1)
  }

  lemma {:induction false} LimitedOfTwo(a: Bytes, b: Bytes)
    ensures Limited(a + b) == Continued(Limited(a), b)
    decreases |a|
  {
    hide MatchEnd, Limited;
    LimitedStep(a);
    LimitedStep(a + b);
    match MatchEnd(a)
    case None =>
      NotBefore(a, b);
      if |a| < MAX_PACKET_LEN {
        assert [] + Limited(a + b).0 == Limited(a + b).0;
      }
    case Some(n) =>
      MatchIsStable(a, b);
      assert (a + b)[..n] == a[..n] && (a + b)[n..] == a[n..] + b;
      if n <= MAX_PACKET_LEN {
        LimitedOfTwo(a[n..], b);
        AppendFirst(a[..n], Limited(a[n..]), b);
      }
  }

  lemma AppendFirst(p: Bytes, cut: (seq<Bytes>, Option<Bytes>), b: Bytes)
    ensures Continued(([p] + cut.0, cut.1), b) == ([p] + Continued(cut, b).0, Continued(cut, b).1)
  {
    hide Limited;
    if cut.1.Some? {
      var more := Limited(cut.1.value + b).0;
      assert [p] + cut.0 + more == [p] + (cut.0 + more);
    }
  }

  /** The limit does not matter to a stream if and only if every packet fits it and what waits is below it. */
  lemma {:induction false} StaysOpenExactly(b: Bytes)
    ensures
      var (ps, left) := Packets(b);
      Limited(b) == (ps, Some(left)) <==> (forall p :: p in ps ==> |p| <= MAX_PACKET_LEN) && |left| < MAX_PACKET_LEN
    decreases |b|
  {
    hide MatchEnd, Limited, Packets;
    LimitedStep(b);
    PacketsStep(b);
    if MatchEnd(b).Some? {
      var n := MatchEnd(b).value;
      StaysOpenExactly(b[n..]);
      assert |b[..n]| == n && b[..n] in Packets(b).0;
      assert [b[..n]] + Packets(b[n..]).0 == Packets(b).0;
      assert Packets(b).0[1..] == Packets(b[n..]).0;
      if n <= MAX_PACKET_LEN {
        assert Limited(b).0[1..] == Limited(b[n..]).0;
      }
    }
  }

  // ---------------------------------------------------------------- answering

  /** The command a packet hands to the debugger, if any. */
  function Asked(msg: Bytes): seq<Bytes>
    requires MatchEnd(msg) == Some(|msg|)
  {
    match Judge(msg)
    case Interrupt => [[BREAK]]
    case Command(body) => [body]
    case _ => []
  }

  /** What is sent for a packet: the framed replies to a break, nothing for a stray byte, a minus for a corrupt packet,
      and a plus with the framed replies for a command, with none for an empty one. */
  function Answer(server: Server, commands: seq<Bytes>, msg: Bytes): Option<Bytes>
    requires MatchEnd(msg) == Some(|msg|)
  {
    match Judge(msg)
    case Stray => Some([])
    case Corrupt => Some([MINUS])
    case Interrupt =>
      (match server(commands + [[BREAK]])
       case None => None
       case Some(replies) => Some(Concat(FrameAll(replies))))
    case Command(body) =>
      match server(commands + [body])
      case None => None
      case Some(replies) => Some([PLUS] + if body == [] then [] else Concat(FrameAll(replies)))
  }

  /** How a packet is judged by its first byte and its checksum. */
  lemma JudgedBy(msg: Bytes)
    requires MatchEnd(msg) == Some(|msg|)
    ensures msg != []
    ensures msg[0] == BREAK ==> msg == [BREAK] && Judge(msg) == Interrupt
    ensures msg[0] != BREAK && msg[0] != DOLLAR ==> Judge(msg) == Stray
    ensures msg[0] == DOLLAR ==>
              var n := |msg|;
              && n >= 4
              && Judge(msg)
                 == if ToByteBits(Sum(msg[1..n - 3])) as bv32 != UnpackByte(msg[n - 2], msg[n - 1]) then Corrupt
                    else Command(msg[1..n - 3])
  {
    hide ToByteBits, Sum, UnpackByte, Find;
  }

  // ---------------------------------------------------------------- the connection as a state machine

  datatype Status = Open | Overlong | Failed

  /** What has arrived and is not handled yet, the packets and commands handled, the message being written, and all
      that have been given to the socket. */
  datatype State = State(unread: Bytes, status: Status, packets: seq<Bytes>, commands: seq<Bytes>,
                         out: Bytes, wire: seq<Bytes>)

  const START := State([], Open, [], [], [], [])

  datatype Event = Arrives(bytes: Bytes) | Handles | WriteDone | Reports(report: Bytes)

  /** A message to be sent is dropped while another is being written. */
  function Offer(s: State, msg: Bytes): State {
    if msg == [] || s.out != [] then s else s.(out := msg, wire := s.wire + [msg])
  }

  /** The next packet is handled, or the connection ends. */
  function Handle(server: Server, s: State): State {
    if s.status != Open then s
    else
      match MatchEnd(s.unread)
      case None => if |s.unread| < MAX_PACKET_LEN then s else s.(status := Overlong)
      case Some(n) =>
        if n > MAX_PACKET_LEN then s.(status := Overlong)
        else
          PrefixMatches(s.unread);
          var msg := s.unread[..n];
          var t := s.(unread := s.unread[n..], packets := s.packets + [msg], commands := s.commands + Asked(msg));
          match Answer(server, s.commands, msg)
          case None => t.(status := Failed)
          case Some(answer) => Offer(t, answer)
  }

  function Next(server: Server, s: State, e: Event): State {
    match e
    case Arrives(bytes) => s.(unread := s.unread + bytes)
    case Handles => Handle(server, s)
    case WriteDone => s.(out := [])
    case Reports(report) => Offer(s, Frame(report))
  }

  function Run(server: Server, s: State, events: seq<Event>): State
    decreases |events|
  {
    if events == [] then s else Run(server, Next(server, s, events[0]), events[1..])
  }

  function Arrived(events: seq<Event>): Bytes {
    if events == [] then [] else (if events[0].Arrives? then events[0].bytes else []) + Arrived(events[1..])
  }

  // ---------------------------------------------------------------- the object

  class Connection {
    const server: Server
    var socket: Bytes                // what has arrived and has not been read yet
    var message: Bytes
    var status: Status
    var commands: seq<Bytes>
    var outMessage: Bytes
    var wire: seq<Bytes>
    ghost var packets: seq<Bytes>

    /** The state this object is in; the limit is that of its buffer. */
    ghost function Link(): State
      reads this
    {
      State(message + socket, status, packets, commands, outMessage, wire)
    }

    constructor (server: Server)
      ensures this.server == server && Link() == START && |message| <= MAX_PACKET_LEN
    {
      this.server := server;
      socket, message, status, commands, outMessage, wire, packets := [], [], Open, [], [], [], [];
    }

    method Arrive(bytes: Bytes)
      modifies this`socket
      ensures Link() == Next(server, old(Link()), Arrives(bytes))
    {
      socket := socket + bytes;
      assert message + socket == message + old(socket) + bytes;
    }

    method Send(msg: Bytes)
      modifies this`outMessage, this`wire
      ensures Link() == Offer(old(Link()), msg)
    {
      if msg != [] {
        if outMessage != [] {
          return;
        }
        outMessage := msg;
        wire := wire + [msg];
      }
    }

    method WriteDone()
      modifies this`outMessage
      ensures Link() == Next(server, old(Link()), Event.WriteDone)
    {
      outMessage := [];
    }

    /** The debugger reports that the program has stopped, whatever the client is doing. */
    method Report(report: Bytes)
      modifies this`outMessage, this`wire
      ensures Link() == Next(server, old(Link()), Reports(report))
    {
      hide Frame;
      var frame := FrameReply(report);
      Send(frame);
    }

    /** The replies to a command as they are sent; None ends the connection. */
    method HandleCommand(packet: Bytes) returns (data: Option<Bytes>)
      modifies this`commands
      ensures commands == old(commands) + [packet]
      ensures match server(commands)
              case None => data == None
              case Some(replies) => data == Some(if packet == [] then [] else Concat(FrameAll(replies)))
    {
      commands := commands + [packet];
      var replies := server(commands);
      match replies
      case None => return None;
      case Some(rs) =>
        if packet == [] {
          return Some([]);
        }
        var framed := FrameReplies(rs);
        return Some(framed);
    }

    /** What is to be sent for a packet; None ends the connection. */
    method AnswerPacket(msg: Bytes) returns (answer: Option<Bytes>)
      requires MatchEnd(msg) == Some(|msg|)
      modifies this`commands
      ensures answer == Answer(server, old(commands), msg) && commands == old(commands) + Asked(msg)
    {
      hide Judge, MatchEnd, Frame, ToByteBits, UnpackByte, Sum;
      JudgedBy(msg);
      var len := |msg|;
      if msg[0] == BREAK {
        answer := HandleCommand(msg);
        return;
      }
      if msg[0] != DOLLAR {
        return Some([]);
      }
      var cksum := Checksum(msg[1..len - 3]);
      if ToByteBits(cksum) as bv32 != UnpackByte(msg[len - 2], msg[len - 1]) {
        return Some([MINUS]);
      }
      answer := HandleCommand(msg[1..len - 3]);
      if answer.Some? {
        answer := Some([PLUS] + answer.value);
      }
    }

    method HandlePacket(len: nat)
      requires status == Open && len <= MAX_PACKET_LEN && len <= |message| && MatchEnd(message + socket) == Some(len)
      modifies this
      ensures socket == old(socket) && message == old(message)[len..]
      ensures Link() == Handle(server, old(Link()))
    {
      hide MatchEnd, Answer, Asked;
      PrefixMatches(message + socket);
      var msg := message[..len];
      assert (message + socket)[..len] == msg && (message + socket)[len..] == message[len..] + socket;
      message := message[len..];
      packets := packets + [msg];
      var answer := AnswerPacket(msg);
      match answer
      case None => status := Failed;
      case Some(text) => Send(text);
    }

    /** One completion of the read: bytes are taken from the socket, as many at a time as happen to come, until they
        hold a packet or fill the buffer; without either it is still waiting. */
    method Complete()
      requires |message| <= MAX_PACKET_LEN
      modifies this
      ensures |message| <= MAX_PACKET_LEN && Link() == Next(server, old(Link()), Handles)
    {
      hide MatchEnd, Answer, Asked, Offer;
      if status != Open {
        return;
      }
      ghost var before := Link();
      var len, found := PacketMatcher(message);
      while !found && |message| < MAX_PACKET_LEN && socket != []
        invariant Link() == before && |message| <= MAX_PACKET_LEN
        invariant MatchEnd(message) == if found then Some(len) else None
        decreases |socket|
      {
        var some: nat :| 0 < some <= |socket| && |message| + some <= MAX_PACKET_LEN;
        assert message + socket[..some] + socket[some..] == message + socket;
        message, socket := message + socket[..some], socket[some..];
        len, found := PacketMatcher(message);
      }
      if found {
        MatchIsStable(message, socket);
        HandlePacket(len);
      } else if |message| == MAX_PACKET_LEN {
        NotBefore(message, socket);
        status := Overlong;
      } else {
        assert message + socket == message;
      }
    }
  }

  // ---------------------------------------------------------------- every run cuts the stream alike

  /** How the packets handled stand to all that has arrived. */
  predicate Cuts(s: State, all: Bytes) {
    match s.status
    case Open => Limited(all) == (s.packets + Limited(s.unread).0, Limited(s.unread).1)
    case Overlong => Limited(all) == (s.packets, None)
    case Failed => s.packets <= Limited(all).0
  }

  lemma ArrivalCuts(s: State, all: Bytes, bytes: Bytes)
    requires Cuts(s, all)
    ensures Cuts(s.(unread := s.unread + bytes), all + bytes)
  {
    hide Limited;
    LimitedOfTwo(all, bytes);
    LimitedOfTwo(s.unread, bytes);
    var (ps, left) := Limited(s.unread);
    if s.status == Open && left.Some? {
      var more := Limited(left.value + bytes).0;
      assert s.packets + ps + more == s.packets + (ps + more);
    }
  }

  lemma HandleCuts(server: Server, s: State, all: Bytes)
    requires Cuts(s, all)
    ensures Cuts(Handle(server, s), all)
  {
    LimitedStep(s.unread);
    hide MatchEnd, Limited, Answer, Asked;
    if s.status == Open && MatchEnd(s.unread).Some? {
      var n := MatchEnd(s.unread).value;
      if n <= MAX_PACKET_LEN {
        var more := Limited(s.unread[n..]).0;
        assert s.packets + ([s.unread[..n]] + more) == s.packets + [s.unread[..n]] + more;
      } else {
        assert s.packets + [] == s.packets;
      }
    } else {
      assert s.packets + [] == s.packets;
    }
  }

  lemma {:induction false} RunCuts(server: Server, s: State, all: Bytes, events: seq<Event>)
    requires Cuts(s, all)
    ensures Cuts(Run(server, s, events), all + Arrived(events))
    decreases |events|
  {
    hide Cuts, Handle, Frame;
    if events == [] {
      assert all + [] == all;
    } else {
      var e, t := events[0], Next(server, s, events[0]);
      var bytes := if e.Arrives? then e.bytes else [];
      assert all + bytes + Arrived(events[1..]) == all + (bytes + Arrived(events[1..]));
      match e {
        case Arrives(_) => ArrivalCuts(s, all, bytes);
        case Handles => HandleCuts(server, s, all);
        case _ => SameCuts(s, t, all);
      }
      assert !e.Arrives? ==> all + bytes == all;
      RunCuts(server, t, all + bytes, events[1..]);
    }
  }

  lemma SameCuts(s: State, t: State, all: Bytes)
    requires Cuts(s, all) && t.unread == s.unread && t.status == s.status && t.packets == s.packets
    ensures Cuts(t, all)
  {
    hide Limited;
  }

  /** However the bytes arrive, the packets are handled and the writes end, the packets handled are the first of the
      whole stream; all of them once nothing more happens, and also when the buffer has run full. */
  lemma EveryRunCutsAlike(server: Server, events: seq<Event>)
    ensures
      var s, cut := Run(server, START, events), Limited(Arrived(events));
      && s.packets <= cut.0
      && (s.status == Overlong ==> cut == (s.packets, None))
      && (s.status == Open && Handle(server, s) == s ==> cut == (s.packets, Some(s.unread)))
  {
    hide MatchEnd, Limited, Answer, Asked, Frame;
    StartCuts();
    RunCuts(server, START, [], events);
    assert [] + Arrived(events) == Arrived(events);
    var s := Run(server, START, events);
    LimitedStep(s.unread);
    if s.status == Open && Handle(server, s) == s {
      NothingToHandle(server, s);
      assert s.packets + [] == s.packets;
    }
  }

  lemma StartCuts()
    ensures Cuts(START, [])
  {
    assert [] + Limited([]).0 == Limited([]).0;
    hide Limited;
  }

  /** A packet within the limit waits to be handled. */
  predicate Waiting(s: State) {
    s.status == Open && MatchEnd(s.unread).Some? && MatchEnd(s.unread).value <= MAX_PACKET_LEN
  }

  /** The packet that waits. */
  function First(s: State): (p: Bytes)
    requires Waiting(s)
    ensures MatchEnd(p) == Some(|p|)
  {
    PrefixMatches(s.unread);
    s.unread[..MatchEnd(s.unread).value]
  }

  lemma HandlesFirst(server: Server, s: State)
    requires Waiting(s)
    ensures
      var t := Handle(server, s);
      && t.packets == s.packets + [First(s)] && t.commands == s.commands + Asked(First(s))
      && (t.status == Open <==> Answer(server, s.commands, First(s)).Some?) && t != s
  {
    hide MatchEnd, Answer, Asked;
  }

  lemma HandlesNone(server: Server, s: State)
    requires !Waiting(s)
    ensures
      var t := Handle(server, s);
      && t.packets == s.packets && t.commands == s.commands && (s.status != Open ==> t.status != Open)
      && (t == s && s.status == Open ==> MatchEnd(s.unread) == None && |s.unread| < MAX_PACKET_LEN)
  {
    hide MatchEnd;
  }

  lemma NothingToHandle(server: Server, s: State)
    requires s.status == Open && Handle(server, s) == s
    ensures MatchEnd(s.unread) == None && |s.unread| < MAX_PACKET_LEN
  {
    if Waiting(s) {
      HandlesFirst(server, s);
      assert false;
    } else {
      HandlesNone(server, s);
    }
  }

  // ---------------------------------------------------------------- what is sent

  function Messages(answer: Bytes): seq<Bytes> { if answer == [] then [] else [answer] }

  /** What an event gives to be sent. */
  function Offered(server: Server, s: State, e: Event): seq<Bytes> {
    match e
    case Reports(report) => [Frame(report)]
    case Handles =>
      if !Waiting(s) then []
      else
        (match Answer(server, s.commands, First(s))
         case None => []
         case Some(answer) => Messages(answer))
    case _ => []
  }

  function AllOffered(server: Server, s: State, events: seq<Event>): seq<Bytes>
    decreases |events|
  {
    if events == [] then []
    else Offered(server, s, events[0]) + AllOffered(server, Next(server, s, events[0]), events[1..])
  }

  /** Nothing is given to be sent while something is being written. */
  predicate Prompt(server: Server, s: State, events: seq<Event>)
    decreases |events|
  {
    events == []
    || ((s.out == [] || Offered(server, s, events[0]) == []) && Prompt(server, Next(server, s, events[0]), events[1..]))
  }

  lemma StepSends(server: Server, s: State, e: Event)
    ensures Next(server, s, e).wire == s.wire + if s.out == [] then Offered(server, s, e) else []
  {
    hide MatchEnd, Answer, Asked;
    assert s.wire + [] == s.wire;
  }

  lemma {:induction false} SendsNoMore(server: Server, s: State, events: seq<Event>)
    ensures |Run(server, s, events).wire| <= |s.wire| + |AllOffered(server, s, events)|
    decreases |events|
  {
    hide Next, Offered;
    if events != [] {
      StepSends(server, s, events[0]);
      SendsNoMore(server, Next(server, s, events[0]), events[1..]);
    }
  }

  /** Everything to be sent is sent, and in order, if and only if no message comes up while another is written. */
  lemma {:induction false} AllIsSentExactly(server: Server, s: State, events: seq<Event>)
    ensures Run(server, s, events).wire == s.wire + AllOffered(server, s, events) <==> Prompt(server, s, events)
    decreases |events|
  {
    hide Next, Offered;
    if events == [] {
      assert s.wire + [] == s.wire;
    } else {
      var t, offered := Next(server, s, events[0]), Offered(server, s, events[0]);
      var rest := AllOffered(server, t, events[1..]);
      StepSends(server, s, events[0]);
      AllIsSentExactly(server, t, events[1..]);
      SendsNoMore(server, t, events[1..]);
      assert s.wire + (offered + rest) == s.wire + offered + rest;
    }
  }

  // ---------------------------------------------------------------- a whole conversation

  predicate ArePackets(ps: seq<Bytes>) { forall p :: p in ps ==> MatchEnd(p) == Some(|p|) }

  /** The answers to some packets in turn, after some commands. */
  function Answers(server: Server, commands: seq<Bytes>, ps: seq<Bytes>): seq<Bytes>
    requires ArePackets(ps)
    decreases |ps|
  {
    if ps == [] then []
    else
      match Answer(server, commands, ps[0])
      case None => []
      case Some(answer) => Messages(answer) + Answers(server, commands + Asked(ps[0]), ps[1..])
  }

  function AskedAll(ps: seq<Bytes>): seq<Bytes>
    requires ArePackets(ps)
    decreases |ps|
  {
    if ps == [] then [] else Asked(ps[0]) + AskedAll(ps[1..])
  }

  /** Without reports of its own, a connection sends the answers to its packets. */
  lemma {:induction false} OffersAnswers(server: Server, s: State, events: seq<Event>)
    requires forall e :: e in events ==> !e.Reports?
    ensures
      var t := Run(server, s, events);
      && s.packets <= t.packets
      && var ps := t.packets[|s.packets|..];
         && ArePackets(ps) && AllOffered(server, s, events) == Answers(server, s.commands, ps)
         && t.commands == s.commands + AskedAll(ps) && (s.status != Open ==> ps == [])
    decreases |events|
  {
    hide Next, Offered, Answer, Asked, Waiting, MatchEnd, Messages, First;
    if events != [] {
      var e, t := events[0], Next(server, s, events[0]);
      OffersAnswers(server, t, events[1..]);
      var ps := Run(server, t, events[1..]).packets[|t.packets|..];
      if e.Handles? && Waiting(s) {
        BusyStep(server, s);
        PacketInFront(server, s.commands, First(s), ps);
        assert Run(server, s, events).packets[|s.packets|..] == [First(s)] + ps;
      } else {
        QuietStep(server, s, e);
        assert [] + AllOffered(server, t, events[1..]) == AllOffered(server, t, events[1..]);
      }
    } else {
      assert s.commands + [] == s.commands;
    }
  }

  lemma PacketInFront(server: Server, commands: seq<Bytes>, p: Bytes, ps: seq<Bytes>)
    requires MatchEnd(p) == Some(|p|) && ArePackets(ps)
    ensures ArePackets([p] + ps)
    ensures commands + AskedAll([p] + ps) == commands + Asked(p) + AskedAll(ps)
    ensures Answers(server, commands, [p] + ps)
            == match Answer(server, commands, p)
               case None => []
               case Some(answer) => Messages(answer) + Answers(server, commands + Asked(p), ps)
  {
    hide MatchEnd, Answer, Asked, Messages;
    assert ([p] + ps)[1..] == ps;
    assert commands + (Asked(p) + AskedAll(ps)) == commands + Asked(p) + AskedAll(ps);
  }

  lemma QuietStep(server: Server, s: State, e: Event)
    requires !e.Reports? && !(e.Handles? && Waiting(s))
    ensures
      var t := Next(server, s, e);
      && Offered(server, s, e) == [] && t.commands == s.commands && t.packets == s.packets
      && (s.status != Open ==> t.status != Open)
  {
    if e.Handles? {
      HandlesNone(server, s);
    }
    hide Handle, Waiting;
  }

  lemma BusyStep(server: Server, s: State)
    requires Waiting(s)
    ensures
      var t, p := Next(server, s, Handles), First(s);
      && s.status == Open && t.packets == s.packets + [p] && t.commands == s.commands + Asked(p)
      && match Answer(server, s.commands, p)
         case None => Offered(server, s, Handles) == [] && t.status != Open
         case Some(answer) => Offered(server, s, Handles) == Messages(answer)
  {
    HandlesFirst(server, s);
    hide Handle, Waiting, Answer, Asked;
  }

  /** What a client is to get for its commands: for each an acknowledgement, then the framed replies to it. */
  function Exchange(server: Server, commands: seq<Bytes>, cs: seq<Bytes>): seq<Bytes>
    decreases |cs|
  {
    if cs == [] then []
    else
      var said := commands + [Escape(cs[0])];
      match server(said)
      case None => []
      case Some(replies) =>
        [[PLUS]] + (if cs[0] == [] then [] else FrameAll(replies)) + Exchange(server, said, cs[1..])
  }

  lemma FrameAsks(server: Server, commands: seq<Bytes>, c: Bytes)
    ensures MatchEnd(Frame(c)) == Some(|Frame(c)|) && Asked(Frame(c)) == [Escape(c)]
    ensures match server(commands + [Escape(c)])
            case None => Answer(server, commands, Frame(c)) == None
            case Some(replies) =>
              Answer(server, commands, Frame(c)) == Some([PLUS] + if c == [] then [] else Concat(FrameAll(replies)))
  {
    FrameIsCommand(c);
    assert Escape(c) == [] <==> c == [];
    hide Judge, MatchEnd, Escape, Frame;
  }

  /** An acknowledgement and frames in front of a stream are cut off it. */
  lemma AnswerSplits(replies: seq<Bytes>, tail: Bytes)
    ensures Packets([PLUS] + Concat(FrameAll(replies)) + tail)
            == ([[PLUS]] + FrameAll(replies) + Packets(tail).0, Packets(tail).1)
  {
    hide Packets, Concat, Frame;
    var frames := Concat(FrameAll(replies));
    FramesSplit(replies);
    PacketsOfTwo(frames, tail);
    assert [] + tail == tail;
    PlusSplits(frames + tail);
    assert [PLUS] + frames + tail == [PLUS] + (frames + tail);
    assert [[PLUS]] + (FrameAll(replies) + Packets(tail).0) == [[PLUS]] + FrameAll(replies) + Packets(tail).0;
  }

  lemma PlusSplits(b: Bytes)
    ensures Packets([PLUS] + b) == ([[PLUS]] + Packets(b).0, Packets(b).1)
  {
    assert ([PLUS] + b)[..1] == [PLUS] && ([PLUS] + b)[1..] == b;
  }

  /** The answers to framed commands, read as a stream, are acknowledgements and frames of replies. */
  lemma {:induction false} AnswersRead(server: Server, commands: seq<Bytes>, cs: seq<Bytes>)
    requires ArePackets(FrameAll(cs))
    ensures Packets(Concat(Answers(server, commands, FrameAll(cs)))) == (Exchange(server, commands, cs), [])
    decreases |cs|
  {
    hide MatchEnd, Packets, Answer, Asked, Frame, Escape;
    NoPackets();
    if cs != [] {
      FrameAsks(server, commands, cs[0]);
      assert FrameAll(cs)[1..] == FrameAll(cs[1..]);
      var said := commands + [Escape(cs[0])];
      if server(said).Some? {
        AnswersRead(server, said, cs[1..]);
        var replies := if cs[0] == [] then [] else server(said).value;
        var answer, rest := [PLUS] + Concat(FrameAll(replies)), Answers(server, said, FrameAll(cs[1..]));
        assert ([answer] + rest)[1..] == rest;
        AnswerSplits(replies, Concat(rest));
      }
    }
  }

  lemma NoPackets()
    ensures Packets([]) == ([], []) && Concat([]) == [] && FrameAll([]) == []
  {
  }

  lemma {:induction false} FramesAsk(cs: seq<Bytes>)
    requires ArePackets(FrameAll(cs))
    ensures AskedAll(FrameAll(cs)) == seq(|cs|, k requires 0 <= k < |cs| => Escape(cs[k]))
    decreases |cs|
  {
    hide MatchEnd, Asked, Frame, Escape;
    if cs != [] {
      FrameAsks(_ => None, [], cs[0]);
      assert FrameAll(cs)[1..] == FrameAll(cs[1..]);
      FramesAsk(cs[1..]);
    }
  }

  lemma FramedWhole(cs: seq<Bytes>)
    requires forall c :: c in cs ==> |Frame(c)| <= MAX_PACKET_LEN
    ensures Limited(Concat(FrameAll(cs))) == (FrameAll(cs), Some([]))
  {
    hide Frame, MatchEnd, Limited, Packets;
    FramesSplit(cs);
    StaysOpenExactly(Concat(FrameAll(cs)));
  }

  /** A client that sends framed commands within the limit, cut up in any way, to a connection whose writes end before
      the next packet is handled, reads back for each command in turn an acknowledgement and the replies to it. */
  lemma Conversation(server: Server, cs: seq<Bytes>, events: seq<Event>)
    requires forall c :: c in cs ==> |Frame(c)| <= MAX_PACKET_LEN
    requires Arrived(events) == Concat(FrameAll(cs)) && forall e :: e in events ==> !e.Reports?
    requires Prompt(server, START, events)
    ensures
      var s := Run(server, START, events);
      s.status == Open && Handle(server, s) == s
      ==> && s.commands == seq(|cs|, k requires 0 <= k < |cs| => Escape(cs[k]))
          && Packets(Concat(s.wire)) == (Exchange(server, [], cs), [])
  {
    hide MatchEnd, Packets, Limited, Frame, Escape, Handle, Prompt, Run, AllOffered, Exchange, Answers, Arrived;
    var s := Run(server, START, events);
    if s.status == Open && Handle(server, s) == s {
      EveryRunCutsAlike(server, events);
      FramedWhole(cs);
      AllIsSentExactly(server, START, events);
      OffersAnswers(server, START, events);
      assert s.packets[0..] == FrameAll(cs);
      assert [] + AskedAll(FrameAll(cs)) == AskedAll(FrameAll(cs));
      FramesAsk(cs);
      AnswersRead(server, [], cs);
      var sent := AllOffered(server, START, events);
      assert [] + sent == sent;
    }
  }
}
