/** Savestates: the sequence of operations both passes perform, the memory they fill, and reading it back. */
module Savestate {
  import opened Wrappers
  import opened Words

  const V16 := 811
  const V42 := 837
  const CURRENT := 853
  const NEXT := 854

  datatype Error =
    | Overflow
    | UnsupportedVersion
    | VersionTooRecent
    | RamSizeMismatch
    | NoMemSection

  /** Whether the platform is a console, and how much RAM it has. */
  datatype Platform = Platform(console: bool, ramSize: Word)

  /** What a component does to a state: a value, a gap, or a value that exists only below a version. */
  datatype Op =
    | Put(value: Bytes)
    | Skip(length: nat)
    | Dropped(value: Bytes, minVersion: int)

  // ---------------------------------------------------------------- the writer

  /** A serializer: without memory it only counts. */
  datatype Ser = Ser(mem: Option<Bytes>, at: nat, size: nat, limit: nat)

  function Overwritten(mem: Bytes, at: nat, b: Bytes): (r: Bytes)
    requires at + |b| <= |mem|
    ensures |r| == |mem|
  {
    mem[..at] + b + mem[at + |b|..]
  }

  /** The memory given to a serializer has room for its limit. */
  predicate Roomy(s: Ser) { s.mem.Some? ==> s.at == s.size && s.limit <= |s.mem.value| }

  function Serialize(s: Ser, b: Bytes): (r: Result<Ser, Error>)
    requires Roomy(s)
    ensures r.Ok? ==> Roomy(r.value)
  {
    if s.size + |b| > s.limit then Err(Overflow)
    else
      match s.mem
      case None => Ok(s.(size := s.size + |b|))
      case Some(m) => Ok(Ser(Some(Overwritten(m, s.at, b)), s.at + |b|, s.size + |b|, s.limit))
  }

  function SkipOut(s: Ser, n: nat): (r: Ser)
    requires Roomy(s)
    ensures Roomy(r)
  {
    s.(at := if s.mem.Some? then s.at + n else s.at, size := s.size + n)
  }

  /** What the program of a version does for an operation. */
  function Perform(s: Ser, version: int, op: Op): (r: Result<Ser, Error>)
    requires Roomy(s)
    ensures r.Ok? ==> Roomy(r.value)
  {
    match op
    case Put(b) => Serialize(s, b)
    case Skip(n) => Ok(SkipOut(s, n))
    case Dropped(b, min) => if version < min then Serialize(s, b) else Ok(s)
  }

  function PerformAll(s: Ser, version: int, ops: seq<Op>): (r: Result<Ser, Error>)
    requires Roomy(s)
    ensures r.Ok? ==> Roomy(r.value)
    decreases |ops|
  {
    if ops == [] then Ok(s)
    else
      match Perform(s, version, ops[0])
      case Err(e) => Err(e)
      case Ok(t) => PerformAll(t, version, ops[1..])
  }

  /** The header every state starts with, as operations. */
  function HeaderOps(version: Word, p: Platform): seq<Op> {
    [Put(Le32(version))] + if p.console && version >= V42 then [Put(Le32(p.ramSize))] else []
  }

  function Length(version: int, op: Op): nat {
    match op
    case Put(b) => |b|
    case Skip(n) => n
    case Dropped(b, min) => if version < min then |b| else 0
  }

  function Total(version: int, ops: seq<Op>): nat {
    if ops == [] then 0 else Length(version, ops[0]) + Total(version, ops[1..])
  }

  /** The memory from a position on holds what the operations wrote. */
  predicate Matches(mem: Bytes, at: nat, version: int, ops: seq<Op>)
    decreases |ops|
  {
    ops == []
    || (var n := Length(version, ops[0]);
        && at + n <= |mem|
        && (match ops[0]
            case Put(b) => mem[at..at + n] == b
            case Skip(_) => true
            case Dropped(b, min) => version < min ==> mem[at..at + n] == b)
        && Matches(mem, at + n, version, ops[1..]))
  }

  lemma {:induction false} CountingSucceeds(s: Ser, version: int, ops: seq<Op>)
    requires s.mem == None && s.size + Total(version, ops) <= s.limit
    ensures PerformAll(s, version, ops) == Ok(s.(size := s.size + Total(version, ops)))
    decreases |ops|
  {
    if ops != [] {
      var t := s.(size := s.size + Length(version, ops[0]));
      assert Perform(s, version, ops[0]) == Ok(t);
      CountingSucceeds(t, version, ops[1..]);
    }
  }

  /** What is before a position stays as it is, and what comes after matches what was written there. */
  lemma {:induction false} WritingSucceeds(s: Ser, version: int, ops: seq<Op>)
    requires Roomy(s) && s.mem.Some? && s.size + Total(version, ops) <= s.limit
    ensures PerformAll(s, version, ops).Ok?
    ensures
      var t := PerformAll(s, version, ops).value;
      && t.mem.Some? && |t.mem.value| == |s.mem.value| && t.size == s.size + Total(version, ops)
      && t.at == t.size && t.limit == s.limit
      && t.mem.value[..s.at] == s.mem.value[..s.at] && Matches(t.mem.value, s.at, version, ops)
    decreases |ops|
  {
    if ops != [] {
      var n := Length(version, ops[0]);
      var next := Perform(s, version, ops[0]).value;
      WritingSucceeds(next, version, ops[1..]);
      var t := PerformAll(s, version, ops).value;
      assert t.mem.value[..next.at][..s.at] == t.mem.value[..s.at];
      assert next.mem.value[..next.at][..s.at] == next.mem.value[..s.at] == s.mem.value[..s.at];
      assert t.mem.value[s.at..s.at + n] == t.mem.value[..next.at][s.at..s.at + n];
      assert next.mem.value[s.at..s.at + n] == next.mem.value[..next.at][s.at..s.at + n];
    }
  }

  /** Both passes over the same operations: the first counts exactly the bytes the second fills, and with
      that many bytes of memory the second cannot fail. */
  lemma SecondPassFits(p: Platform, ops: seq<Op>, mem: Bytes, max: nat)
    requires |mem| == Total(CURRENT, HeaderOps(CURRENT, p) + ops) <= max
    ensures
      var all := HeaderOps(CURRENT, p) + ops;
      var counted := PerformAll(Ser(None, 0, 0, max), CURRENT, all);
      && counted.Ok? && counted.value.size == |mem|
      && (var filled := PerformAll(Ser(Some(mem), 0, 0, counted.value.size), CURRENT, all);
          && filled.Ok? && filled.value.size == counted.value.size
          && filled.value.mem.Some? && |filled.value.mem.value| == |mem|
          && Matches(filled.value.mem.value, 0, CURRENT, all))
  {
    hide HeaderOps, PerformAll;
    var all := HeaderOps(CURRENT, p) + ops;
    CountingSucceeds(Ser(None, 0, 0, max), CURRENT, all);
    WritingSucceeds(Ser(Some(mem), 0, 0, |mem|), CURRENT, all);
  }

  // ---------------------------------------------------------------- the reader

  /** A deserializer over some memory. */
  datatype De = De(at: nat, size: nat, limit: nat, version: int)

  function Take(mem: Bytes, d: De, n: nat): Result<(Bytes, De), Error>
    requires d.at + n <= |mem| || d.size + n > d.limit
  {
    if d.size + n > d.limit then Err(Overflow)
    else Ok((mem[d.at..d.at + n], d.(at := d.at + n, size := d.size + n)))
  }

  /** A gap, unless the state is of a version that does not have it. */
  function SkipIn(d: De, n: nat, minVersion: int): Result<De, Error> {
    if d.version >= minVersion then Ok(d)
    else if d.size + n > d.limit then Err(Overflow)
    else Ok(d.(at := d.at + n, size := d.size + n))
  }

  /** The rest of the limit lies inside the memory. */
  predicate Inside(mem: Bytes, d: De) { d.size <= d.limit && d.at + (d.limit - d.size) <= |mem| }

  /** What an operation reads lies inside the memory, unless the limit refuses it. */
  predicate Readable(mem: Bytes, d: De, op: Op) {
    op.Put? ==> d.at + |op.value| <= |mem| || d.size + |op.value| > d.limit
  }

  /** The mirror of an operation, and the value it yields. */
  function Mirror(mem: Bytes, d: De, op: Op): (r: Result<(Option<Bytes>, De), Error>)
    requires Readable(mem, d, op)
    ensures r.Ok? && Inside(mem, d) ==> Inside(mem, r.value.1)
  {
    match op
    case Put(b) =>
      (match Take(mem, d, |b|)
       case Err(e) => Err(e)
       case Ok((v, e)) => Ok((Some(v), e)))
    case Skip(n) =>
      (match SkipIn(d, n, NEXT)
       case Err(e) => Err(e)
       case Ok(e) => Ok((None, e)))
    case Dropped(b, min) =>
      match SkipIn(d, |b|, min)
      case Err(e) => Err(e)
      case Ok(e) => Ok((None, e))
  }

  predicate AllReadable(mem: Bytes, d: De, ops: seq<Op>)
    decreases |ops|
  {
    ops == []
    || (Readable(mem, d, ops[0])
        && match Mirror(mem, d, ops[0])
           case Err(_) => true
           case Ok((_, e)) => AllReadable(mem, e, ops[1..]))
  }

  lemma {:induction false} InsideIsReadable(mem: Bytes, d: De, ops: seq<Op>)
    requires Inside(mem, d)
    ensures AllReadable(mem, d, ops)
    decreases |ops|
  {
    if ops != [] {
      var r := Mirror(mem, d, ops[0]);
      if r.Ok? {
        InsideIsReadable(mem, r.value.1, ops[1..]);
      }
    }
  }

  /** Whatever is read, it lies inside the memory, if and only if the rest of the limit does. */
  lemma ReadableExactly(mem: Bytes, d: De)
    requires d.size <= d.limit
    ensures (forall ops :: AllReadable(mem, d, ops)) <==> Inside(mem, d)
  {
    hide AllReadable, Inside;
    if Inside(mem, d) {
      forall ops ensures AllReadable(mem, d, ops) { InsideIsReadable(mem, d, ops); }
    } else {
      var all := OutsideIsReached(mem, d);
      assert !AllReadable(mem, d, all);
    }
  }

  lemma OutsideIsReached(mem: Bytes, d: De) returns (ops: seq<Op>)
    requires d.size <= d.limit && !Inside(mem, d)
    ensures !AllReadable(mem, d, ops)
  {
    var op := Put(seq(d.limit - d.size, _ => 0));
    assert !Readable(mem, d, op);
    ops := [op];
  }

  function MirrorAll(mem: Bytes, d: De, ops: seq<Op>): Result<(seq<Bytes>, De), Error>
    requires AllReadable(mem, d, ops)
    decreases |ops|
  {
    if ops == [] then Ok(([], d))
    else
      match Mirror(mem, d, ops[0])
      case Err(e) => Err(e)
      case Ok((v, e)) =>
        match MirrorAll(mem, e, ops[1..])
        case Err(x) => Err(x)
        case Ok((vs, f)) => Ok(((if v.Some? then [v.value] else []) + vs, f))
  }

  /** The values of the operations, in order. */
  function Values(ops: seq<Op>): seq<Bytes> {
    if ops == [] then [] else (if ops[0].Put? then [ops[0].value] else []) + Values(ops[1..])
  }

  lemma {:induction false} MirrorReadsValues(mem: Bytes, d: De, ops: seq<Op>)
    requires Inside(mem, d) && d.version < NEXT && d.size + Total(d.version, ops) <= d.limit
    requires Matches(mem, d.at, d.version, ops)
    ensures AllReadable(mem, d, ops)
    ensures MirrorAll(mem, d, ops)
            == Ok((Values(ops), d.(at := d.at + Total(d.version, ops), size := d.size + Total(d.version, ops))))
    decreases |ops|
  {
    if ops != [] {
      var n := Length(d.version, ops[0]);
      MirrorReadsValues(mem, d.(at := d.at + n, size := d.size + n), ops[1..]);
    }
  }
}
