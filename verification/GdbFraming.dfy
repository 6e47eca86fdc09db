/** Packets of the GDB remote serial protocol: framing of replies, the matcher that cuts a byte stream into
    packets, the checksum test, and the unescaping of binary writes. */
module GdbFraming {
  import opened Sequences
  import opened Wrappers
  import opened Words
  import opened GdbHex

  const BREAK := 3
  const HASH := '#' as int
  const DOLLAR := '$' as int
  const STAR := '*' as int
  const COLON := ':' as int
  const BRACE := '}' as int

  // ---------------------------------------------------------------- framing

  predicate Special(c: Byte) { c == DOLLAR || c == HASH || c == STAR || c == BRACE }

  /** A byte with bit five inverted. */
  function Flip(c: Byte): Byte { if c / 32 % 2 == 1 then c - 32 else c + 32 }

  function Escape(r: Bytes): Bytes {
    if r == [] then []
    else (if Special(r[0]) then [BRACE, Flip(r[0])] else [r[0]]) + Escape(r[1..])
  }

  function Add(a: Byte, b: Byte): Byte { (a + b) % 0x100 }

  function Sum(p: Bytes): Byte { if p == [] then 0 else Add(p[0], Sum(p[1..])) }

  lemma AddAssociates(a: Byte, b: Byte, c: Byte)
    ensures Add(Add(a, b), c) == Add(a, Add(b, c))
    ensures Add(a, 0) == a == Add(0, a) && Add(0, c) == c
  {
    hide Add;
    AddIs(0, c);
    AddIs(a, b);
    AddIs(Add(a, b), c);
    AddIs(b, c);
    AddIs(a, Add(b, c));
    AddIs(a, 0);
    AddIs(0, a);
  }

  lemma AddIs(a: Byte, b: Byte)
    ensures Add(a, b) == if a + b < 0x100 then a + b else a + b - 0x100
  {
  }

  function Closed(p: Bytes): Bytes { [HASH] + PackByte(ToByteBits(Sum(p))) }

  function Frame(r: Bytes): Bytes { [DOLLAR] + Escape(r) + Closed(Escape(r)) }

  function FrameAll(rs: seq<Bytes>): (fs: seq<Bytes>)
    ensures |fs| == |rs| && forall k :: 0 <= k < |rs| ==> fs[k] == Frame(rs[k])
  {
    seq(|rs|, k requires 0 <= k < |rs| => Frame(rs[k]))
  }

  /** All the replies to a command as one piece of output. */
  method FrameReplies(rs: seq<Bytes>) returns (data: Bytes)
    ensures data == Concat(FrameAll(rs))
  {
    hide Frame;
    data := [];
    assert FrameAll(rs)[0..] == FrameAll(rs);
    for k := 0 to |rs|
      invariant data + Concat(FrameAll(rs)[k..]) == Concat(FrameAll(rs))
    {
      var frame := FrameReply(rs[k]);
      ConcatStep(FrameAll(rs), k);
      assert data + (frame + Concat(FrameAll(rs)[k + 1..])) == data + frame + Concat(FrameAll(rs)[k + 1..]);
      data := data + frame;
    }
    assert data + [] == data;
  }

  method FrameReply(r: Bytes) returns (data: Bytes)
    ensures data == Frame(r)
  {
    hide PackByte, Special, Flip, Add, Sum, Escape;
    data := [DOLLAR];
    var checksum: Byte := 0;
    assert r[0..] == r;
    AddAssociates(0, 0, Sum(Escape(r)));
    for k := 0 to |r|
      invariant data + Escape(r[k..]) == [DOLLAR] + Escape(r)
      invariant Add(checksum, Sum(Escape(r[k..]))) == Sum(Escape(r))
    {
      var c := r[k];
      EscapeStep(r, k);
      ghost var rest := Escape(r[k + 1..]);
      if Special(c) {
        c := Flip(c);
        SumStep(BRACE, [c] + rest);
        AddAssociates(checksum, BRACE, Sum([c] + rest));
        assert [BRACE, c] + rest == [BRACE] + ([c] + rest);
        assert data + ([BRACE, c] + rest) == data + [BRACE] + [c] + rest;
        checksum := Add(checksum, BRACE);
        data := data + [BRACE];
      } else {
        assert data + ([c] + rest) == data + [c] + rest;
      }
      SumStep(c, rest);
      AddAssociates(checksum, c, Sum(rest));
      checksum := Add(checksum, c);
      data := data + [c];
    }
    EmptySum(r, checksum);
    assert data + [] == data;
    data := data + [HASH] + PackByte(ToByteBits(checksum));
    assert data == [DOLLAR] + Escape(r) + Closed(Escape(r));
  }

  lemma ConcatStep(bs: seq<Bytes>, k: nat)
    requires k < |bs|
    ensures Concat(bs[k..]) == bs[k] + Concat(bs[k + 1..])
  {
    assert bs[k..][1..] == bs[k + 1..];
  }

  lemma EscapeStep(r: Bytes, k: nat)
    requires k < |r|
    ensures Escape(r[k..]) == (if Special(r[k]) then [BRACE, Flip(r[k])] else [r[k]]) + Escape(r[k + 1..])
  {
    hide Special, Flip;
    assert r[k..][1..] == r[k + 1..];
  }

  lemma SumStep(c: Byte, rest: Bytes)
    ensures Sum([c] + rest) == Add(c, Sum(rest))
  {
    hide Add;
    assert ([c] + rest)[1..] == rest;
  }

  lemma EmptySum(r: Bytes, c: Byte)
    ensures Escape(r[|r|..]) == [] && Sum([]) == 0 && Add(c, 0) == c
  {
  }

  // ---------------------------------------------------------------- matching

  /** The end of the first packet in what has been received: a break, a stray byte, or all up to a hash
      and two digits. */
  function MatchEnd(b: Bytes): (r: Option<nat>)
    ensures r.Some? ==> 0 < r.value <= |b|
  {
    if b == [] then None
    else if b[0] != DOLLAR then Some(1)
    else
      var k := Find(b, HASH, 1);
      if k + 3 <= |b| then Some(k + 3) else None
  }

  method PacketMatcher(b: Bytes) returns (end: nat, found: bool)
    ensures match MatchEnd(b)
            case None => !found && end == 0
            case Some(n) => found && end == n
  {
    if |b| == 0 {
      return 0, false;
    }
    if b[0] == BREAK {
      return 1, true;
    }
    if b[0] != DOLLAR {
      return 1, true;
    }
    var i := 1;
    while i < |b| && b[i] != HASH
      invariant i <= |b| && Find(b, HASH, i) == Find(b, HASH, 1)
    {
      i := i + 1;
    }
    if i + 3 <= |b| {
      return i + 3, true;
    }
    return 0, false;
  }

  /** The packets a stream of bytes is cut into, and what is left waiting for more. */
  function Packets(b: Bytes): (seq<Bytes>, Bytes)
    decreases |b|
  {
    match MatchEnd(b)
    case None => ([], b)
    case Some(n) =>
      var (ps, left) := Packets(b[n..]);
      ([b[..n]] + ps, left)
  }

  /** A packet that has been recognised is not changed by what follows. */
  lemma MatchIsStable(a: Bytes, b: Bytes)
    requires MatchEnd(a).Some?
    ensures MatchEnd(a + b) == MatchEnd(a)
  {
    if a[0] == DOLLAR {
      var k := Find(a, HASH, 1);
      assert (a + b)[1..k] == a[1..k];
      FindIs(a + b, HASH, 1, k);
    }
  }

  /** Cutting a stream in two places at once or in turn is the same. */
  lemma {:induction false} PacketsOfTwo(a: Bytes, b: Bytes)
    ensures
      var (ps, left) := Packets(a);
      var (qs, rest) := Packets(left + b);
      Packets(a + b) == (ps + qs, rest)
    decreases |a|
  {
    hide MatchEnd;
    if MatchEnd(a).Some? {
      var n := MatchEnd(a).value;
      MatchIsStable(a, b);
      assert (a + b)[..n] == a[..n] && (a + b)[n..] == a[n..] + b;
      PacketsOfTwo(a[n..], b);
      var (ps, left) := Packets(a[n..]);
      var (qs, rest) := Packets(left + b);
      assert [a[..n]] + (ps + qs) == [a[..n]] + ps + qs;
    } else {
      var (qs, rest) := Packets(a + b);
      assert [] + qs == qs;
    }
  }

  // ---------------------------------------------------------------- judging a packet

  datatype Verdict = Interrupt | Stray | Corrupt | Command(body: Bytes)

  /** What happens to one packet. */
  function Judge(msg: Bytes): Verdict
    requires MatchEnd(msg) == Some(|msg|)
  {
    if msg[0] == BREAK then Interrupt
    else if msg[0] != DOLLAR then Stray
    else
      var n := |msg|;
      if ToByteBits(Sum(msg[1..n - 3])) as bv32 != UnpackByte(msg[n - 2], msg[n - 1]) then Corrupt
      else Command(msg[1..n - 3])
  }

  method Checksum(p: Bytes) returns (cksum: Byte)
    ensures cksum == Sum(p)
  {
    hide Add;
    cksum := 0;
    assert p[0..] == p;
    AddAssociates(0, 0, Sum(p));
    for i := 0 to |p|
      invariant Add(cksum, Sum(p[i..])) == Sum(p)
    {
      assert p[i..][1..] == p[i + 1..];
      AddAssociates(cksum, p[i], Sum(p[i + 1..]));
      cksum := Add(cksum, p[i]);
    }
    AddAssociates(cksum, 0, 0);
  }

  lemma PacketsStep(b: Bytes)
    ensures match MatchEnd(b)
            case None => Packets(b) == ([], b)
            case Some(n) => Packets(b) == ([b[..n]] + Packets(b[n..]).0, Packets(b[n..]).1)
  {
    hide MatchEnd;
  }

  /** A packet cut off a stream is a packet. */
  lemma PrefixMatches(b: Bytes)
    requires MatchEnd(b).Some?
    ensures var n := MatchEnd(b).value; MatchEnd(b[..n]) == Some(n)
  {
    var n := MatchEnd(b).value;
    if b[0] == DOLLAR {
      var k := Find(b, HASH, 1);
      assert b[..n][1..k] == b[1..k];
      FindIs(b[..n], HASH, 1, k);
    }
  }

  // ---------------------------------------------------------------- what holds of it

  /** The packets after chunks have arrived in turn. */
  function Feed(left: Bytes, chunks: seq<Bytes>): (seq<Bytes>, Bytes)
    decreases |chunks|
  {
    if chunks == [] then ([], left)
    else
      var (ps, l) := Packets(left + chunks[0]);
      var (qs, rest) := Feed(l, chunks[1..]);
      (ps + qs, rest)
  }

  /** Whatever the bytes are and however they are cut up on their way, the packets are the same. */
  lemma {:induction false} FragmentationDoesNotMatter(left: Bytes, chunks: seq<Bytes>)
    requires MatchEnd(left) == None
    ensures Feed(left, chunks) == Packets(left + Concat(chunks))
    decreases |chunks|
  {
    hide MatchEnd;
    if chunks == [] {
      assert left + [] == left;
    } else {
      var (ps, l) := Packets(left + chunks[0]);
      LeftoverHasNoPacket(left + chunks[0]);
      FragmentationDoesNotMatter(l, chunks[1..]);
      PacketsOfTwo(left + chunks[0], Concat(chunks[1..]));
      assert left + chunks[0] + Concat(chunks[1..]) == left + (chunks[0] + Concat(chunks[1..]));
    }
  }

  lemma {:induction false} LeftoverHasNoPacket(b: Bytes)
    ensures MatchEnd(Packets(b).1) == None
    decreases |b|
  {
    hide MatchEnd;
    if MatchEnd(b).Some? {
      LeftoverHasNoPacket(b[MatchEnd(b).value..]);
    }
  }

  lemma {:induction false} EscapedHasNoHash(r: Bytes)
    ensures HASH !in Escape(r)
    decreases |r|
  {
    if r != [] {
      EscapedHasNoHash(r[1..]);
    }
  }

  /** A frame is recognised as soon as its last byte is there, and not before. */
  lemma FrameMatches(r: Bytes, n: nat, tail: Bytes)
    requires n <= |Frame(r)|
    ensures MatchEnd(Frame(r) + tail) == Some(|Frame(r)|)
    ensures n < |Frame(r)| ==> MatchEnd(Frame(r)[..n]) == None
  {
    hide Escape, PackByte, Sum;
    EscapedHasNoHash(r);
    var f, k := Frame(r), 1 + |Escape(r)|;
    TwoDigits(Sum(Escape(r)));
    assert f[1..k] == Escape(r) && f[k] == HASH && |f| == k + 3;
    assert (f + tail)[1..k] == f[1..k];
    FindIs(f + tail, HASH, 1, k);
    if 0 < n < |f| {
      var h := if n < k then n else k;
      assert f[..n][1..h] == f[1..k][..h - 1];
      FindIs(f[..n], HASH, 1, h);
    }
  }

  lemma TwoDigits(c: Byte)
    ensures |PackByte(ToByteBits(c))| == 2
  {
  }

  /** A frame passes the checksum test, and its body is the escaped reply. */
  lemma FrameIsCommand(r: Bytes)
    ensures MatchEnd(Frame(r)) == Some(|Frame(r)|) && Judge(Frame(r)) == Command(Escape(r))
  {
    hide Escape, PackByte, UnpackByte, MatchEnd, Sum, ToByteBits;
    var f, n := Frame(r), |Frame(r)|;
    FrameMatches(r, 0, []);
    assert f + [] == f;
    TwoDigits(Sum(Escape(r)));
    assert f[1..n - 3] == Escape(r);
    ByteRoundTrip(ToByteBits(Sum(Escape(r))));
  }

  lemma {:induction false} FramesSplit(rs: seq<Bytes>)
    ensures Packets(Concat(FrameAll(rs))) == (FrameAll(rs), [])
    decreases |rs|
  {
    hide Frame, MatchEnd;
    if rs != [] {
      var f, tail := Frame(rs[0]), Concat(FrameAll(rs[1..]));
      assert FrameAll(rs)[1..] == FrameAll(rs[1..]);
      FrameMatches(rs[0], 0, tail);
      FramesSplit(rs[1..]);
      assert (f + tail)[..|f|] == f && (f + tail)[|f|..] == tail;
      assert [f] + FrameAll(rs[1..]) == FrameAll(rs);
    }
  }

  // ---------------------------------------------------------------- unescaping

  /** The unescaping of a binary write; the byte after a trailing escape is the end of the string. */
  function Unescape(p: Bytes): Bytes {
    if p == [] then []
    else if p[0] != BRACE then [p[0]] + Unescape(p[1..])
    else if |p| == 1 then [Flip(0)]
    else [Flip(p[1])] + Unescape(p[2..])
  }

  /** What follows the first colon of a binary write; all of it when there is none. */
  function Payload(pkt: Bytes): (p: Bytes)
    ensures |p| <= |pkt|
  {
    var k := Find(pkt, COLON, 0);
    if k < |pkt| then pkt[k + 1..] else pkt
  }

  /** The data of a binary write packet. */
  method WriteData(pkt: Bytes) returns (data: Bytes)
    ensures data == Unescape(Payload(pkt))
  {
    hide Flip, Find, Unescape;
    var end := Find(pkt, COLON, 0);
    var p := if end < |pkt| then end + 1 else 0;
    ghost var all := Unescape(Payload(pkt));
    assert pkt[0..] == pkt;
    data := [];
    assert [] + all == all;
    while p < |pkt|
      invariant p <= |pkt| && data + Unescape(pkt[p..]) == all
    {
      var b := pkt[p];
      UnescapeStep(pkt, p);
      ghost var before := data;
      if b == BRACE {
        p := p + 1;
        b := Flip(if p < |pkt| then pkt[p] else 0);
      }
      data := data + [b];
      p := if p < |pkt| then p + 1 else p;
      assert before + ([b] + Unescape(pkt[p..])) == data + Unescape(pkt[p..]);
    }
    NothingToUnescape(pkt, data);
  }

  lemma NothingToUnescape(pkt: Bytes, data: Bytes)
    ensures data + Unescape(pkt[|pkt|..]) == data
  {
  }

  lemma UnescapeStep(pkt: Bytes, p: nat)
    requires p < |pkt|
    ensures pkt[p] != BRACE ==> Unescape(pkt[p..]) == [pkt[p]] + Unescape(pkt[p + 1..])
    ensures pkt[p] == BRACE && p + 1 < |pkt| ==> Unescape(pkt[p..]) == [Flip(pkt[p + 1])] + Unescape(pkt[p + 2..])
    ensures pkt[p] == BRACE && p + 1 == |pkt| ==> Unescape(pkt[p..]) == [Flip(0)] + Unescape(pkt[p + 1..])
  {
    hide Flip;
    assert pkt[p..][1..] == pkt[p + 1..];
    if p + 2 <= |pkt| {
      assert pkt[p..][2..] == pkt[p + 2..];
    }
  }

  lemma FlipTwice(c: Byte)
    ensures Flip(Flip(c)) == c
  {
  }

  lemma {:induction false} UnescapeInverts(r: Bytes)
    ensures Unescape(Escape(r)) == r
    decreases |r|
  {
    hide Flip;
    if r != [] {
      var rest := Escape(r[1..]);
      UnescapeInverts(r[1..]);
      FlipTwice(r[0]);
      if Special(r[0]) {
        assert ([BRACE, Flip(r[0])] + rest)[2..] == rest;
      } else {
        assert ([r[0]] + rest)[1..] == rest;
      }
    }
  }

  /** Any replies, framed one after another and cut up in any way, come out as exactly those frames; each passes
      the checksum test, and unescaping its body gives the reply. */
  lemma RepliesArrive(rs: seq<Bytes>, chunks: seq<Bytes>)
    requires Concat(chunks) == Concat(FrameAll(rs))
    ensures Feed([], chunks) == (FrameAll(rs), [])
    ensures forall k :: 0 <= k < |rs| ==>
              && MatchEnd(FrameAll(rs)[k]) == Some(|FrameAll(rs)[k]|)
              && Judge(FrameAll(rs)[k]) == Command(Escape(rs[k])) && Unescape(Escape(rs[k])) == rs[k]
  {
    FragmentationDoesNotMatter([], chunks);
    assert [] + Concat(chunks) == Concat(chunks);
    FramesSplit(rs);
    hide MatchEnd, Judge, Escape, Unescape, Frame;
    forall k | 0 <= k < |rs|
      ensures MatchEnd(FrameAll(rs)[k]) == Some(|FrameAll(rs)[k]|)
      ensures Judge(FrameAll(rs)[k]) == Command(Escape(rs[k])) && Unescape(Escape(rs[k])) == rs[k]
    {
      FrameIsCommand(rs[k]);
      UnescapeInverts(rs[k]);
    }
  }

  lemma {:induction false} EscapePlain(head: Bytes, data: Bytes)
    requires forall c :: c in head ==> !Special(c)
    ensures Escape(head + data) == head + Escape(data)
    decreases |head|
  {
    hide Special, Flip;
    if head == [] {
      assert head + data == data;
    } else {
      assert (head + data)[1..] == head[1..] + data;
      EscapePlain(head[1..], data);
    }
  }

  /** A binary write sent with a plain head up to its colon delivers its data whatever bytes that holds. */
  lemma BinaryWriteArrives(head: Bytes, data: Bytes)
    requires COLON !in head && forall c :: c in head ==> !Special(c)
    ensures var f := Frame(head + [COLON] + data);
            && MatchEnd(f) == Some(|f|) && Judge(f).Command?
            && Unescape(Payload(Judge(f).body)) == data
  {
    hide Escape, MatchEnd, Judge, Frame;
    var h := head + [COLON];
    EscapePlain(h, data);
    FrameIsCommand(h + data);
    var body := h + Escape(data);
    assert body[0..|head|] == head;
    FindIs(body, COLON, 0, |head|);
    assert Payload(body) == Escape(data);
    UnescapeInverts(data);
  }

  lemma {:induction false} SumUpdated(p: Bytes, i: nat, c: Byte)
    requires i < |p| && c != p[i]
    ensures Sum(p[i := c]) != Sum(p)
    decreases |p|
  {
    hide Add;
    var q := p[i := c];
    if i == 0 {
      assert q[1..] == p[1..];
      AddCancels(c, p[0], Sum(p[1..]), Sum(p[1..]));
    } else {
      assert q[1..] == p[1..][i - 1 := c];
      SumUpdated(p[1..], i - 1, c);
      AddCancels(p[0], p[0], Sum(q[1..]), Sum(p[1..]));
    }
  }

  lemma AddCancels(a: Byte, b: Byte, c: Byte, d: Byte)
    requires a == b <==> c != d
    ensures Add(a, c) != Add(b, d)
  {
  }

  lemma SameDigits(a: Byte, b: Byte)
    requires UnpackByte(PackByte(ToByteBits(a))[0], PackByte(ToByteBits(a))[1]) == ToByteBits(b) as bv32
    ensures a == b
  {
    hide UnpackByte, PackByte, FromByteBits, ToByteBits;
    ByteRoundTrip(ToByteBits(a));
    ByteBits(a);
    ByteBits(b);
  }

  /** A frame in which one byte of the body has become another, but not a hash, is refused as a whole. */
  lemma ChangedByteIsNoticed(r: Bytes, i: nat, c: Byte)
    requires 1 <= i < |Frame(r)| - 3 && c != Frame(r)[i] && c != HASH
    ensures MatchEnd(Frame(r)[i := c]) == Some(|Frame(r)|) && Judge(Frame(r)[i := c]) == Corrupt
  {
    hide Escape, PackByte, UnpackByte, Sum, ToByteBits;
    var body := Escape(r);
    var f, k := Frame(r), 1 + |body|;
    var g := f[i := c];
    TwoDigits(Sum(body));
    EscapedHasNoHash(r);
    assert f[1..k] == body && g[1..k] == body[i - 1 := c];
    FindIs(g, HASH, 1, k);
    SumUpdated(body, i - 1, c);
    if UnpackByte(g[k + 1], g[k + 2]) == ToByteBits(Sum(g[1..k])) as bv32 {
      SameDigits(Sum(body), Sum(g[1..k]));
    }
  }
}
