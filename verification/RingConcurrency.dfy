/** One writer and one reader on the ring buffer at the same time: every load of the other's cursor, every
    byte copied and every cursor published is a step of its own, in any interleaving. */
module RingConcurrency {
  import opened Words
  import opened Modulo
  import opened RingBuffers

  datatype Writer =
    | WriterIdle
    | WriterLoaded(data: seq<Byte>, readCursor: nat)
    | WriterCopying(data: seq<Byte>, copied: nat)

  datatype Reader =
    | ReaderIdle
    | ReaderLoaded(size: nat, writeCursor: nat)
    | ReaderCopying(size: nat, got: seq<Byte>)

  /** The shared buffer and cursors, where each thread is, and what has been written and read so far. */
  datatype State = State(
    buf: seq<Byte>, rc: nat, wc: nat, writer: Writer, reader: Reader, written: seq<Byte>, taken: seq<Byte>)

  datatype Action =
    | StartWrite(data: seq<Byte>)
    | CheckWrite
    | CopyIn
    | PublishWrite
    | StartRead(size: nat)
    | CheckRead
    | CopyOut
    | PublishRead

  /** The place of the k-th byte of a transfer: in the piece up to the end of the buffer, or in the other. */
  function Place(cap: nat, c: nat, size: nat, k: nat): int
    requires c < cap && size < cap && k < size
  {
    var chunk := if size < cap - c then size else cap - c;
    if k < chunk then c + k else (c + chunk) % cap + (k - chunk)
  }

  lemma PlaceIs(cap: nat, c: nat, size: nat, k: nat)
    requires c < cap && size < cap && k < size
    ensures Place(cap, c, size, k) == At(cap, c, k)
  {
    if k >= cap - c {
      ModOver(cap, cap);
    }
  }

  predicate Shaped(s: State) { s.rc < |s.buf| && s.wc < |s.buf| }

  /** A thread that is not where an action needs it to be stays where it is. */
  function Next(s: State, a: Action): State
    requires Shaped(s)
  {
    var cap := |s.buf|;
    match a
    case StartWrite(data) => if s.writer.WriterIdle? then s.(writer := WriterLoaded(data, s.rc)) else s
    case CheckWrite =>
      if s.writer.WriterLoaded? && s.writer.readCursor < cap then
        if |s.writer.data| > WriteSize(cap, s.writer.readCursor, s.wc) then s.(writer := WriterIdle)
        else s.(writer := WriterCopying(s.writer.data, 0))
      else s
    case CopyIn =>
      if s.writer.WriterCopying? && s.writer.copied < |s.writer.data| < cap then
        var x := Place(cap, s.wc, |s.writer.data|, s.writer.copied);
        PlaceIs(cap, s.wc, |s.writer.data|, s.writer.copied);
        s.(buf := s.buf[x := s.writer.data[s.writer.copied]],
           writer := WriterCopying(s.writer.data, s.writer.copied + 1))
      else s
    case PublishWrite =>
      if s.writer.WriterCopying? && s.writer.copied == |s.writer.data| < cap then
        AdvancedIs(cap, s.wc, |s.writer.data|);
        s.(wc := Advanced(cap, s.wc, |s.writer.data|), writer := WriterIdle, written := s.written + s.writer.data)
      else s
    case StartRead(size) => if s.reader.ReaderIdle? then s.(reader := ReaderLoaded(size, s.wc)) else s
    case CheckRead =>
      if s.reader.ReaderLoaded? && s.reader.writeCursor < cap then
        if s.reader.size > ReadSize(cap, s.rc, s.reader.writeCursor) then s.(reader := ReaderIdle)
        else s.(reader := ReaderCopying(s.reader.size, []))
      else s
    case CopyOut =>
      if s.reader.ReaderCopying? && |s.reader.got| < s.reader.size < cap then
        PlaceIs(cap, s.rc, s.reader.size, |s.reader.got|);
        var x := Place(cap, s.rc, s.reader.size, |s.reader.got|);
        s.(reader := ReaderCopying(s.reader.size, s.reader.got + [s.buf[x]]))
      else s
    case PublishRead =>
      if s.reader.ReaderCopying? && |s.reader.got| == s.reader.size < cap then
        AdvancedIs(cap, s.rc, s.reader.size);
        s.(rc := Advanced(cap, s.rc, s.reader.size), reader := ReaderIdle, taken := s.taken + s.reader.got)
      else s
  }

  /** How many published bytes are still unread. */
  function Held(s: State): (n: nat)
    requires Shaped(s)
    ensures n < |s.buf|
  {
    Sizes(|s.buf|, s.rc, s.wc);
    ReadSize(|s.buf|, s.rc, s.wc)
  }

  predicate WriterSafe(s: State)
    requires Shaped(s)
  {
    match s.writer
    case WriterIdle => true
    // the reader may have moved on since, which only makes room
    case WriterLoaded(data, rc) => rc < |s.buf| && Held(s) <= ReadSize(|s.buf|, rc, s.wc)
    case WriterCopying(data, k) =>
      && k <= |data| && Held(s) + |data| < |s.buf|
      && forall j :: 0 <= j < k ==> s.buf[At(|s.buf|, s.wc, j)] == data[j]
  }

  predicate ReaderSafe(s: State)
    requires Shaped(s)
  {
    match s.reader
    case ReaderIdle => true
    case ReaderLoaded(size, wc) => wc < |s.buf| && ReadSize(|s.buf|, s.rc, wc) <= Held(s)
    case ReaderCopying(size, got) => |got| <= size <= Held(s) && got == Ring(s.buf, s.rc, |got|)
  }

  /** What has been written is what has been read followed by what the buffer holds. */
  predicate Safe(s: State) {
    && Shaped(s)
    && s.written == s.taken + Ring(s.buf, s.rc, Held(s))
    && WriterSafe(s) && ReaderSafe(s)
  }

  lemma HeldAt(s: State)
    requires Shaped(s)
    ensures At(|s.buf|, s.rc, Held(s)) == s.wc
    ensures Held(s) == if s.wc >= s.rc then s.wc - s.rc else s.wc - s.rc + |s.buf|
  {
    Sizes(|s.buf|, s.rc, s.wc);
  }

  lemma CopyInSafe(s: State)
    requires Safe(s)
    ensures Safe(Next(s, CopyIn))
    ensures Ring(Next(s, CopyIn).buf, s.rc, Held(s)) == Ring(s.buf, s.rc, Held(s))
  {
    HeldAt(s);
    if s.writer.WriterCopying? && s.writer.copied < |s.writer.data| < |s.buf| {
      PlaceIs(|s.buf|, s.wc, |s.writer.data|, s.writer.copied);
      hide ReadSize, Place;
      var t := Next(s, CopyIn);
      assert Held(t) == Held(s);
      var cap, k := |s.buf|, s.writer.copied;
      assert forall j :: 0 <= j < Held(s) ==> At(cap, s.rc, j) != At(cap, s.wc, k);
      assert forall j :: 0 <= j < k ==> At(cap, s.wc, j) != At(cap, s.wc, k);
    }
  }

  lemma CheckWriteSafe(s: State)
    requires Safe(s)
    ensures Safe(Next(s, CheckWrite))
  {
    if s.writer.WriterLoaded? {
      Sizes(|s.buf|, s.writer.readCursor, s.wc);
    }
    hide Ring, ReadSize, WriteSize;
  }

  lemma PublishedWriteHeld(s: State)
    requires Shaped(s) && s.writer.WriterCopying? && s.writer.copied == |s.writer.data|
    requires Held(s) + |s.writer.data| < |s.buf|
    ensures
      var t := Next(s, PublishWrite);
      t.wc < |s.buf| && t.rc == s.rc && Held(t) == Held(s) + |s.writer.data|
  {
    HeldAt(s);
    HeldAt(Next(s, PublishWrite));
    AdvancedIs(|s.buf|, s.wc, |s.writer.data|);
    hide ReadSize;
  }

  /** Bytes copied behind the published ones follow them. */
  lemma RingGrows(buf: seq<Byte>, c: nat, n: nat, d: nat, data: seq<Byte>)
    requires c < |buf| && n + |data| < |buf| && d == At(|buf|, c, n)
    requires forall j :: 0 <= j < |data| ==> buf[At(|buf|, d, j)] == data[j]
    ensures Ring(buf, c, n + |data|) == Ring(buf, c, n) + data
  {
    assert forall j :: 0 <= j < |data| ==> At(|buf|, c, n + j) == At(|buf|, d, j);
  }

  lemma PublishWriteSafe(s: State)
    requires Safe(s)
    ensures Safe(Next(s, PublishWrite))
  {
    var t := Next(s, PublishWrite);
    if s.writer.WriterCopying? && s.writer.copied == |s.writer.data| < |s.buf| {
      var data := s.writer.data;
      HeldAt(s);
      PublishedWriteHeld(s);
      hide ReadSize, Advanced;
      RingGrows(s.buf, s.rc, Held(s), s.wc, data);
      assert t.written == s.taken + (Ring(s.buf, s.rc, Held(s)) + data);
    }
  }

  lemma CopyOutSafe(s: State)
    requires Safe(s)
    ensures Safe(Next(s, CopyOut))
  {
    if s.reader.ReaderCopying? && |s.reader.got| < s.reader.size < |s.buf| {
      PlaceIs(|s.buf|, s.rc, s.reader.size, |s.reader.got|);
      hide ReadSize, Place;
      var t := Next(s, CopyOut);
      assert t.reader.got == Ring(s.buf, s.rc, |s.reader.got| + 1);
    }
  }

  lemma PublishedReadHeld(s: State)
    requires Shaped(s) && s.reader.ReaderCopying? && |s.reader.got| == s.reader.size <= Held(s)
    ensures
      var t := Next(s, PublishRead);
      t.rc == At(|s.buf|, s.rc, s.reader.size) && t.rc < |s.buf| && Held(t) == Held(s) - s.reader.size
  {
    HeldAt(s);
    HeldAt(Next(s, PublishRead));
    AdvancedIs(|s.buf|, s.rc, s.reader.size);
    hide ReadSize;
  }

  lemma PublishReadSafe(s: State)
    requires Safe(s)
    ensures Safe(Next(s, PublishRead))
  {
    var t := Next(s, PublishRead);
    if s.reader.ReaderCopying? && |s.reader.got| == s.reader.size < |s.buf| {
      var n := s.reader.size;
      PublishedReadHeld(s);
      Sizes(|s.buf|, s.rc, s.wc);
      Sizes(|s.buf|, t.rc, s.wc);
      AdvancedIs(|s.buf|, s.rc, n);
      hide ReadSize, Advanced;
      RingSplit(s.buf, s.rc, Held(s), n);
      assert s.taken + (s.reader.got + Ring(t.buf, t.rc, Held(t))) == t.taken + Ring(t.buf, t.rc, Held(t));
    }
  }

  lemma StartSafe(s: State, a: Action)
    requires Safe(s) && (a.StartWrite? || a.StartRead?)
    ensures Safe(Next(s, a))
  {
    hide Ring;
  }

  lemma CheckReadSafe(s: State)
    requires Safe(s)
    ensures Safe(Next(s, CheckRead))
  {
    hide ReadSize;
  }

  lemma OnlyCopyInWrites(s: State, a: Action)
    requires Shaped(s)
    ensures |Next(s, a).buf| == |s.buf| && (a != CopyIn ==> Next(s, a).buf == s.buf)
  {
    hide ReadSize, WriteSize, Place, Advanced;
    if a == CopyIn && s.writer.WriterCopying? && s.writer.copied < |s.writer.data| < |s.buf| {
      PlaceIs(|s.buf|, s.wc, |s.writer.data|, s.writer.copied);
    }
  }

  lemma StepSafe(s: State, a: Action)
    requires Safe(s)
    ensures Shaped(s) && Safe(Next(s, a)) && |Next(s, a).buf| == |s.buf|
  {
    hide Next, Ring, WriterSafe, ReaderSafe, Held;
    OnlyCopyInWrites(s, a);
    match a {
      case CopyIn => CopyInSafe(s);
      case CheckWrite => CheckWriteSafe(s);
      case PublishWrite => PublishWriteSafe(s);
      case CheckRead => CheckReadSafe(s);
      case CopyOut => CopyOutSafe(s);
      case PublishRead => PublishReadSafe(s);
      case _ => StartSafe(s, a);
    }
  }

  function RunFrom(s: State, actions: seq<Action>): State
    requires Safe(s)
    decreases |actions|
  {
    if actions == [] then s
    else
      StepSafe(s, actions[0]);
      RunFrom(Next(s, actions[0]), actions[1..])
  }

  function Fresh(buf: seq<Byte>): State { State(buf, 0, 0, WriterIdle, ReaderIdle, [], []) }

  lemma FreshSafe(buf: seq<Byte>)
    requires buf != []
    ensures Safe(Fresh(buf))
  {
    Sizes(|buf|, 0, 0);
  }

  lemma {:induction false} RunSafe(s: State, actions: seq<Action>)
    requires Safe(s)
    ensures Safe(RunFrom(s, actions)) && |RunFrom(s, actions).buf| == |s.buf|
    decreases |actions|
  {
    hide Next, Ring, WriterSafe, ReaderSafe, Held;
    if actions != [] {
      StepSafe(s, actions[0]);
      RunSafe(Next(s, actions[0]), actions[1..]);
    }
  }

  /** In every interleaving from an empty buffer: the bytes read are a prefix of the bytes written, the rest
      is in the buffer in order, and at least one place of the buffer stays free. */
  lemma EveryRunIsAQueue(buf: seq<Byte>, actions: seq<Action>)
    requires buf != []
    ensures Safe(Fresh(buf))
    ensures
      var s := RunFrom(Fresh(buf), actions);
      && s.taken <= s.written
      && |s.written| - |s.taken| <= |buf| - 1
      && s.rc < |buf| == |s.buf| && |s.written| - |s.taken| < |buf|
      && s.written[|s.taken|..] == Ring(s.buf, s.rc, |s.written| - |s.taken|)
  {
    FreshSafe(buf);
    RunSafe(Fresh(buf), actions);
  }

  /** No step touches a byte that is published and not yet released by the reader. */
  lemma UnreadBytesStay(s: State, a: Action)
    requires Safe(s)
    ensures
      var t := Next(s, a);
      && |t.buf| == |s.buf|
      && forall j :: 0 <= j < Held(s) ==> t.buf[At(|s.buf|, s.rc, j)] == s.buf[At(|s.buf|, s.rc, j)]
  {
    OnlyCopyInWrites(s, a);
    if a == CopyIn {
      CopyInSafe(s);
      hide Next, WriterSafe, ReaderSafe, Held;
      var before, after := Ring(s.buf, s.rc, Held(s)), Ring(Next(s, a).buf, s.rc, Held(s));
      forall j | 0 <= j < Held(s) ensures Next(s, a).buf[At(|s.buf|, s.rc, j)] == s.buf[At(|s.buf|, s.rc, j)] {
        assert before[j] == after[j];
      }
    }
    hide Next, WriterSafe, ReaderSafe, Held, Ring;
  }

  /** A finished read returns exactly the next unread bytes, in order. */
  lemma FinishedReadReturnsNextBytes(s: State)
    requires Safe(s) && s.reader.ReaderCopying? && |s.reader.got| == s.reader.size
    ensures |s.taken| + s.reader.size <= |s.written|
    ensures s.reader.got == s.written[|s.taken|..|s.taken| + s.reader.size]
  {
    RingSplit(s.buf, s.rc, Held(s), s.reader.size);
  }

  // ---------------------------------------------------------------- a call without interruption

  function Repeated(a: Action, n: nat): seq<Action> { if n == 0 then [] else [a] + Repeated(a, n - 1) }

  lemma {:induction false} RunAppend(s: State, a: seq<Action>, b: seq<Action>)
    requires Safe(s)
    ensures Safe(RunFrom(s, a)) && RunFrom(s, a + b) == RunFrom(RunFrom(s, a), b)
    decreases |a|
  {
    hide Next, Safe;
    if a == [] {
      assert a + b == b;
    } else {
      StepSafe(s, a[0]);
      assert (a + b)[1..] == a[1..] + b;
      RunAppend(Next(s, a[0]), a[1..], b);
    }
  }

  lemma FilledOneMore(buf: seq<Byte>, c: nat, data: seq<Byte>, k: nat)
    requires c < |buf| && k < |data| < |buf|
    ensures Filled(buf, c, data[..k + 1]) == Filled(buf, c, data[..k])[At(|buf|, c, k) := data[k]]
  {
  }

  lemma FilledNothing(buf: seq<Byte>, c: nat)
    requires c < |buf|
    ensures Filled(buf, c, []) == buf
  {
  }

  lemma {:induction false} CopyingInFills(s: State, buf: seq<Byte>, data: seq<Byte>, k: nat, n: nat)
    requires Safe(s) && s.writer == WriterCopying(data, k) && k + n == |data| && s.wc < |buf|
    requires |data| < |buf| == |s.buf| && s.buf == Filled(buf, s.wc, data[..k])
    ensures RunFrom(s, Repeated(CopyIn, n)) == s.(buf := Filled(buf, s.wc, data), writer := WriterCopying(data, |data|))
    decreases n
  {
    hide Safe, Filled, Ring, Held, ReadSize;
    if n == 0 {
      assert data[..k] == data;
    } else {
      StepSafe(s, CopyIn);
      PlaceIs(|s.buf|, s.wc, |data|, k);
      FilledOneMore(buf, s.wc, data, k);
      assert Repeated(CopyIn, n)[1..] == Repeated(CopyIn, n - 1);
      CopyingInFills(Next(s, CopyIn), buf, data, k + 1, n - 1);
    }
  }

  lemma RunStep(s: State, a: Action, rest: seq<Action>)
    requires Safe(s)
    ensures Safe(Next(s, a)) && RunFrom(s, [a] + rest) == RunFrom(Next(s, a), rest)
  {
    hide Next, Safe;
    StepSafe(s, a);
    assert ([a] + rest)[1..] == rest;
  }

  lemma RunNothing(s: State)
    requires Safe(s)
    ensures RunFrom(s, []) == s
  {
  }

  /** All the steps of one call of write, and of read. */
  function WriteCall(data: seq<Byte>): seq<Action> {
    [StartWrite(data)] + ([CheckWrite] + (Repeated(CopyIn, |data|) + [PublishWrite]))
  }

  function ReadCall(size: nat): seq<Action> {
    [StartRead(size)] + ([CheckRead] + (Repeated(CopyOut, size) + [PublishRead]))
  }

  lemma StartedWrite(s: State, data: seq<Byte>)
    requires Safe(s) && s.writer == WriterIdle
    ensures Safe(Next(s, StartWrite(data)))
    ensures Next(Next(s, StartWrite(data)), CheckWrite)
            == if |data| + Held(s) < |s.buf| then s.(writer := WriterCopying(data, 0)) else s
  {
    hide Ring, Place;
    StartSafe(s, StartWrite(data));
    Sizes(|s.buf|, s.rc, s.wc);
  }

  /** A call of write whose steps no one interrupts does to the buffer and the cursor what the sequential
      write does, or nothing when there is no room. */
  lemma WriteCallFills(s: State, data: seq<Byte>)
    requires Safe(s) && s.writer == WriterIdle
    ensures
      RunFrom(s, WriteCall(data))
      == if |data| + Held(s) < |s.buf| then
           s.(buf := Filled(s.buf, s.wc, data), wc := At(|s.buf|, s.wc, |data|), written := s.written + data)
         else s
  {
    hide Next, WriterSafe, ReaderSafe, Held, Ring, Filled, RunFrom, Repeated;
    var s1 := Next(s, StartWrite(data));
    var copies := Repeated(CopyIn, |data|);
    StartedWrite(s, data);
    RunStep(s, StartWrite(data), [CheckWrite] + (copies + [PublishWrite]));
    RunStep(s1, CheckWrite, copies + [PublishWrite]);
    var s2 := Next(s1, CheckWrite);
    RunAppend(s2, copies, [PublishWrite]);
    if |data| + Held(s) < |s.buf| {
      FilledNothing(s.buf, s.wc);
      assert data[..0] == [];
      CopyingInFills(s2, s.buf, data, 0, |data|);
      PublishedWrite(RunFrom(s2, copies), data);
    } else {
      IdleCopies(s, CopyIn, |data|);
      IdlePublish(s, PublishWrite);
    }
  }

  lemma PublishedWrite(s: State, data: seq<Byte>)
    requires Safe(s) && s.writer == WriterCopying(data, |data|)
    ensures RunFrom(s, [PublishWrite])
            == s.(wc := At(|s.buf|, s.wc, |data|), writer := WriterIdle, written := s.written + data)
  {
    RunStep(s, PublishWrite, []);
    RunNothing(Next(s, PublishWrite));
    AdvancedIs(|s.buf|, s.wc, |data|);
    assert [PublishWrite] + [] == [PublishWrite];
    hide RunFrom;
  }

  lemma IdlePublish(s: State, a: Action)
    requires Safe(s) && ((a == PublishWrite && s.writer == WriterIdle) || (a == PublishRead && s.reader == ReaderIdle))
    ensures RunFrom(s, [a]) == s
  {
    hide RunFrom;
    RunStep(s, a, []);
    RunNothing(s);
    assert [a] + [] == [a];
  }

  lemma {:induction false} IdleCopies(s: State, a: Action, n: nat)
    requires Safe(s) && ((a == CopyIn && s.writer == WriterIdle) || (a == CopyOut && s.reader == ReaderIdle))
    ensures RunFrom(s, Repeated(a, n)) == s
    decreases n
  {
    hide RunFrom;
    if n == 0 {
      RunNothing(s);
    } else {
      RunStep(s, a, Repeated(a, n - 1));
      IdleCopies(s, a, n - 1);
    }
  }

  lemma RingOneMore(buf: seq<Byte>, c: nat, k: nat)
    requires c < |buf| && k < |buf|
    ensures Ring(buf, c, k + 1) == Ring(buf, c, k) + [buf[At(|buf|, c, k)]]
  {
  }

  lemma {:induction false} CopyingOutTakes(s: State, size: nat, k: nat, n: nat)
    requires Safe(s) && k + n == size < |s.buf| && s.reader == ReaderCopying(size, Ring(s.buf, s.rc, k))
    ensures RunFrom(s, Repeated(CopyOut, n)) == s.(reader := ReaderCopying(size, Ring(s.buf, s.rc, size)))
    decreases n
  {
    hide WriterSafe, ReaderSafe, Ring, Held, RunFrom;
    if n == 0 {
      RunNothing(s);
    } else {
      RunStep(s, CopyOut, Repeated(CopyOut, n - 1));
      PlaceIs(|s.buf|, s.rc, size, k);
      RingOneMore(s.buf, s.rc, k);
      CopyingOutTakes(Next(s, CopyOut), size, k + 1, n - 1);
    }
  }

  lemma StartedRead(s: State, size: nat)
    requires Safe(s) && s.reader == ReaderIdle
    ensures Safe(Next(s, StartRead(size)))
    ensures Next(Next(s, StartRead(size)), CheckRead)
            == if size <= Held(s) then s.(reader := ReaderCopying(size, [])) else s
  {
    hide Ring, Place;
    StartSafe(s, StartRead(size));
    Sizes(|s.buf|, s.rc, s.wc);
  }

  lemma PublishedRead(s: State, size: nat, got: seq<Byte>)
    requires Safe(s) && s.reader == ReaderCopying(size, got) && |got| == size
    ensures size < |s.buf|
    ensures RunFrom(s, [PublishRead])
            == s.(rc := At(|s.buf|, s.rc, size), reader := ReaderIdle, taken := s.taken + got)
  {
    RunStep(s, PublishRead, []);
    RunNothing(Next(s, PublishRead));
    AdvancedIs(|s.buf|, s.rc, size);
    assert [PublishRead] + [] == [PublishRead];
    hide RunFrom;
  }

  /** The same of a call of read. */
  lemma ReadCallTakes(s: State, size: nat)
    requires Safe(s) && s.reader == ReaderIdle
    ensures
      RunFrom(s, ReadCall(size))
      == if size <= Held(s) then
           s.(rc := At(|s.buf|, s.rc, size), taken := s.taken + Ring(s.buf, s.rc, size))
         else s
  {
    hide Next, WriterSafe, ReaderSafe, Held, Ring, RunFrom, Repeated;
    var s1 := Next(s, StartRead(size));
    var copies := Repeated(CopyOut, size);
    StartedRead(s, size);
    RunStep(s, StartRead(size), [CheckRead] + (copies + [PublishRead]));
    RunStep(s1, CheckRead, copies + [PublishRead]);
    var s2 := Next(s1, CheckRead);
    RunAppend(s2, copies, [PublishRead]);
    if size <= Held(s) {
      assert Ring(s.buf, s.rc, 0) == [];
      CopyingOutTakes(s2, size, 0, size);
      PublishedRead(RunFrom(s2, copies), size, Ring(s.buf, s.rc, size));
    } else {
      IdleCopies(s, CopyOut, size);
      IdlePublish(s, PublishRead);
    }
  }
}
