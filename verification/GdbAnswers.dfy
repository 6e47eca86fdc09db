/** What a client gets for single packets, byte by byte: acknowledgements, refusals and framed replies, in the
    characters of the protocol. */
module GdbAnswers {
  import opened Wrappers
  import opened Words
  import opened GdbHex
  import opened GdbFraming
  import opened GdbConnections

  function Ascii(s: string): (b: Bytes)
    requires forall k :: 0 <= k < |s| ==> s[k] < 128 as char
    ensures |b| == |s| && forall k :: 0 <= k < |s| ==> b[k] == s[k] as int
  {
    seq(|s|, k requires 0 <= k < |s| => s[k] as int)
  }

  /** Open, with nothing waiting to be handled or written. */
  predicate Idle(s: State) { s.status == Open && s.unread == [] && s.out == [] }

  /** A packet arrives, is handled, and what is sent for it is written. */
  function Exchanged(server: Server, s: State, msg: Bytes): State {
    Run(server, s, [Arrives(msg), Handles, WriteDone])
  }

  lemma OnePacket(server: Server, s: State, msg: Bytes)
    requires Idle(s) && MatchEnd(msg) == Some(|msg|) && |msg| <= MAX_PACKET_LEN
    requires Answer(server, s.commands, msg).Some?
    ensures
      var answer := Answer(server, s.commands, msg).value;
      Exchanged(server, s, msg)
      == s.(packets := s.packets + [msg], commands := s.commands + Asked(msg), wire := s.wire + Messages(answer))
  {
    hide MatchEnd, Answer, Asked;
    var events := [Arrives(msg), Handles, WriteDone];
    assert events[1..] == [Handles, WriteDone] && events[1..][1..] == [WriteDone] && [WriteDone][1..] == [];
    var t := Next(server, s, Arrives(msg));
    assert [] + msg == msg && t.unread == msg;
    var u := Next(server, t, Handles);
    assert msg[..|msg|] == msg && msg[|msg|..] == [];
    assert s.wire + [] == s.wire;
    assert Run(server, u, [WriteDone]) == Next(server, u, WriteDone);
    assert Run(server, t, [Handles, WriteDone]) == Run(server, u, [WriteDone]);
  }

  /** A frame in which a body byte has become another, but not a hash, is refused with a minus, and no command
      reaches the debugger. */
  lemma DamagedIsRefused(server: Server, s: State, r: Bytes, i: nat, c: Byte)
    requires Idle(s) && |Frame(r)| <= MAX_PACKET_LEN
    requires 1 <= i < |Frame(r)| - 3 && c != Frame(r)[i] && c != '#' as int
    ensures
      var t := Exchanged(server, s, Frame(r)[i := c]);
      Idle(t) && t.wire == s.wire + [['-' as int]] && t.commands == s.commands
  {
    hide Frame, MatchEnd, Judge, Exchanged;
    var msg := Frame(r)[i := c];
    ChangedByteIsNoticed(r, i, c);
    assert Asked(msg) == [] && Answer(server, s.commands, msg) == Some(['-' as int]);
    assert s.commands + [] == s.commands;
    OnePacket(server, s, msg);
  }

  /** A whole frame is acknowledged with a plus, its command handed over, and the replies follow in the same message. */
  lemma CommandIsAnswered(server: Server, s: State, r: Bytes)
    requires Idle(s) && |Frame(r)| <= MAX_PACKET_LEN && server(s.commands + [Escape(r)]).Some?
    ensures
      var t := Exchanged(server, s, Frame(r));
      var replies := server(s.commands + [Escape(r)]).value;
      && Idle(t) && t.commands == s.commands + [Escape(r)]
      && t.wire == s.wire + [['+' as int] + if r == [] then [] else Concat(FrameAll(replies))]
  {
    hide Frame, MatchEnd, Answer, Asked, Escape, Exchanged;
    FrameAsks(server, s.commands, r);
    OnePacket(server, s, Frame(r));
  }

  /** Refused and sent again in full, a command is handed over once and answered. */
  lemma ResentIsAnswered(server: Server, s: State, r: Bytes, i: nat, c: Byte)
    requires Idle(s) && |Frame(r)| <= MAX_PACKET_LEN && server(s.commands + [Escape(r)]).Some?
    requires 1 <= i < |Frame(r)| - 3 && c != Frame(r)[i] && c != '#' as int
    ensures
      var t := Exchanged(server, Exchanged(server, s, Frame(r)[i := c]), Frame(r));
      var replies := server(s.commands + [Escape(r)]).value;
      && Idle(t) && t.commands == s.commands + [Escape(r)]
      && t.wire == s.wire + [['-' as int]]
                   + [['+' as int] + if r == [] then [] else Concat(FrameAll(replies))]
  {
    hide Frame, Escape, Exchanged, FrameAll;
    DamagedIsRefused(server, s, r, i, c);
    CommandIsAnswered(server, Exchanged(server, s, Frame(r)[i := c]), r);
  }

  /** A break is a command of one byte, answered with the replies alone; any other byte outside a frame is ignored. */
  lemma LooseByteIsHandled(server: Server, s: State, c: Byte)
    requires Idle(s) && c != '$' as int && server(s.commands + [[3]]).Some?
    ensures
      var t := Exchanged(server, s, [c]);
      var replies := server(s.commands + [[3]]).value;
      && Idle(t)
      && t.commands == (if c == 3 then s.commands + [[3]] else s.commands)
      && (if c == 3 && Concat(FrameAll(replies)) != [] then t.wire == s.wire + [Concat(FrameAll(replies))]
          else t.wire == s.wire)
  {
    hide Frame, FrameAll, Exchanged;
    assert Judge([c]) == if c == 3 then Interrupt else Stray;
    assert s.commands + [] == s.commands && s.wire + [] == s.wire;
    OnePacket(server, s, [c]);
  }

  /** A command that fails ends the connection without an answer. */
  lemma FailureEndsConnection(server: Server, s: State, r: Bytes)
    requires Idle(s) && |Frame(r)| <= MAX_PACKET_LEN && server(s.commands + [Escape(r)]).None?
    ensures
      var t := Exchanged(server, s, Frame(r));
      t.status == Failed && t.wire == s.wire
  {
    hide Frame, MatchEnd, Answer, Asked, Escape;
    FrameAsks(server, s.commands, r);
    var msg := Frame(r);
    var events := [Arrives(msg), Handles, WriteDone];
    assert events[1..] == [Handles, WriteDone] && events[1..][1..] == [WriteDone] && [WriteDone][1..] == [];
    var t := Next(server, s, Arrives(msg));
    assert [] + msg == msg && t.unread == msg;
    var u := Next(server, t, Handles);
    assert msg[..|msg|] == msg;
    assert Run(server, t, [Handles, WriteDone]) == Run(server, u, [WriteDone]);
    assert Run(server, u, [WriteDone]) == Next(server, u, WriteDone);
  }

  // ---------------------------------------------------------------- in the characters of the protocol

  /** Frames start with a dollar, end with a hash and two lower-case digits, and escape four characters. */
  lemma FramesSpelled()
    ensures Frame([]) == Ascii("$#00")
    ensures Frame(Ascii("OK")) == Ascii("$OK#9a")
    ensures Escape(Ascii("$#*}")) == ['}' as int, 4, '}' as int, 3, '}' as int, 10, '}' as int, ']' as int]
  {
    EscapePlainPair('O' as int, 'K' as int);
    SumOfTwo('O' as int, 'K' as int);
    DigitsSpelled();
    EscapesSpelled();
    assert Ascii("OK") == ['O' as int, 'K' as int];
    assert Ascii("$OK#9a") == ['$' as int, 'O' as int, 'K' as int, '#' as int, '9' as int, 'a' as int];
    assert Ascii("$#00") == ['$' as int, '#' as int, '0' as int, '0' as int];
    assert Frame([]) == ['$' as int] + [] + (['#' as int] + PackByte(ToByteBits(0)));
    hide PackByte, ToByteBits;
  }

  lemma EscapePlainPair(a: Byte, b: Byte)
    requires !Special(a) && !Special(b)
    ensures Escape([a, b]) == [a, b]
  {
    hide Special, Flip;
    assert [a, b][1..] == [b] && [b][1..] == [];
    assert Escape([b]) == [b] + Escape([]) == [b];
  }

  lemma SumOfTwo(a: Byte, b: Byte)
    ensures Sum([a, b]) == (a + b) % 0x100 && Sum([]) == 0
  {
    assert [a, b][1..] == [b] && [b][1..] == [];
    assert Sum([b]) == Add(b, 0) == b;
  }

  lemma DigitsSpelled()
    ensures PackByte(ToByteBits(0)) == ['0' as int, '0' as int]
    ensures PackByte(ToByteBits(0x9a)) == ['9' as int, 'a' as int]
  {
  }

  lemma EscapesSpelled()
    ensures Escape(Ascii("$#*}")) == ['}' as int, 4, '}' as int, 3, '}' as int, 10, '}' as int, ']' as int]
  {
    var t := ['$' as int, '#' as int, '*' as int, '}' as int];
    assert Ascii("$#*}") == t;
    assert t[1..] == ['#' as int, '*' as int, '}' as int] && t[1..][1..] == ['*' as int, '}' as int];
    assert t[1..][1..][1..] == ['}' as int] && t[1..][1..][1..][1..] == [];
    assert Escape(['}' as int]) == ['}' as int, ']' as int];
    assert Escape(t[1..][1..]) == ['}' as int, 10] + ['}' as int, ']' as int];
    assert Escape(t[1..]) == ['}' as int, 3] + (['}' as int, 10] + ['}' as int, ']' as int]);
  }

  const DIGITS := "0123456789abcdef"

  /** A byte is two lower-case digits, the high nibble first. */
  lemma BytesSpelled(n: Byte)
    ensures PackByte(ToByteBits(n)) == [DIGITS[n / 16] as int, DIGITS[n % 16] as int]
  {
    hide Digit, FromByteBits;
    NibblesOf(n);
    DigitSpelled(n / 16);
    DigitSpelled(n % 16);
  }

  lemma NibblesOf(n: Byte)
    ensures FromByteBits((ToByteBits(n) >> 4) & 0xf) == n / 16
    ensures FromByteBits(ToByteBits(n) & 0xf) == n % 16
  {
    HighNibble(n as bv8);
    LowNibble(n as bv8);
    assert n as bv8 as int == n;
  }

  lemma HighNibble(b: bv8)
    ensures ((b >> 4) & 0xf) as int == b as int / 16
  {
    assert (b >> 4) & 0xf == b / 16;
  }

  lemma LowNibble(b: bv8)
    ensures (b & 0xf) as int == b as int % 16
  {
    assert b & 0xf == b % 16;
  }

  lemma DigitSpelled(d: nat)
    requires d < 16
    ensures DIGITS[d] < 128 as char && Digit(d) == DIGITS[d] as int
  {
  }

  /** A word is its four bytes, the least significant first. */
  lemma WordsSpelled(v: Word)
    ensures Pack(v) == PackByte(ToByteBits(v % 0x100)) + PackByte(ToByteBits(v / 0x100 % 0x100))
                       + PackByte(ToByteBits(v / 0x1_0000 % 0x100)) + PackByte(ToByteBits(v / 0x100_0000))
  {
    hide PackByte, ToByteBits, Part, ToBits;
    PartOfToBits(v, 0);
    PartOfToBits(v, 1);
    PartOfToBits(v, 2);
    PartOfToBits(v, 3);
    BytesOfWord(v);
    hide ByteOf;
  }

  /** What any character counts as, digit or not: below the letters, and above 127, its distance from '0', else its
      distance from 'W', where capital letters are taken as small ones. */
  lemma CharactersCount(c: Byte)
    ensures DigitValue(c)
            == if c <= 57 || c >= 128 then (c + 208) % 256 else if 65 <= c <= 90 then c - 55 else (c + 169) % 256
  {
  }

  /** Eight digits are read as the word they print, and two as the byte; of no digits nothing is read. */
  lemma DigitsAreRead(v: Word, b: bv8, l: int, s: Bytes)
    ensures FromBits(UnpackFrom(Pack(v), 0, Pairs(8))) == v
    ensures UnpackFrom(PackByte(b), 0, Pairs(2)) == b as bv32
    ensures l <= 0 ==> UnpackFrom(s, 0, Pairs(l)) == 0
    ensures 0 <= l <= 8 ==> Pairs(l) == l / 2 + l % 2
  {
    WordRoundTrip(v);
    DigitsAreNotZero(b);
    ByteRoundTrip(b);
    hide Pack, FromBits, UnpackByte, Or, PackByte;
    ShiftedByNone(UnpackByte(PackByte(b)[0], PackByte(b)[1]));
  }

  lemma ShiftedByNone(r: bv32)
    ensures Or(Shifted(r, 0), 0) == r
  {
  }

  function Cased(c: Byte, upper: bool): Byte { if upper && 'a' as int <= c <= 'f' as int then c - 32 else c }

  /** Digits are read in either case. */
  lemma EitherCaseIsRead(b: bv8, high: bool, low: bool)
    ensures UnpackByte(Cased(PackByte(b)[0], high), Cased(PackByte(b)[1], low)) == b as bv32
  {
    hide PackNibble, UnpackNibble;
    ByteRoundTrip(b);
    CaseDoesNotMatter(PackByte(b)[0], high);
    CaseDoesNotMatter(PackByte(b)[1], low);
  }

  lemma CaseDoesNotMatter(c: Byte, upper: bool)
    ensures UnpackNibble(Cased(c, upper)) == UnpackNibble(c)
  {
    hide ToByteBits;
  }

  /** An escape at the end of a binary write is completed by the end of the string, and one without a colon is data
      from its start. */
  lemma OddWritesSpelled(p: Bytes)
    ensures '}' as int !in p ==> Unescape(p + ['}' as int]) == p + [0x20]
    ensures ':' as int !in p ==> Payload(p) == p
  {
    if '}' as int !in p {
      EscapeAtEnd(p);
    }
  }

  lemma {:induction false} EscapeAtEnd(p: Bytes)
    requires '}' as int !in p
    ensures Unescape(p + ['}' as int]) == p + [0x20]
    decreases |p|
  {
    var q := p + ['}' as int];
    if p != [] {
      assert q[1..] == p[1..] + ['}' as int];
      EscapeAtEnd(p[1..]);
      assert [p[0]] + (p[1..] + [0x20]) == p + [0x20];
    }
  }

  /** An unfinished packet waits up to 4095 bytes, and one more ends the connection. */
  lemma UnfinishedPacketEnds(server: Server, s: State, b: Bytes)
    requires Idle(s) && MatchEnd(b) == None
    ensures Run(server, s, [Arrives(b), Handles]).status == if |b| < 4096 then Open else Overlong
  {
    hide MatchEnd;
    var events := [Arrives(b), Handles];
    assert events[1..] == [Handles] && [Handles][1..] == [];
    var t := Next(server, s, Arrives(b));
    assert [] + b == b && t.unread == b;
    assert Run(server, t, [Handles]) == Next(server, t, Handles);
  }
}
