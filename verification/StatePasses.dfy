/** What makes a savestate fail: which pass over its operations oversteps its limit, which version or RAM size is
    refused; and the tags of a container. */
module StatePasses {
  import opened Wrappers
  import opened Words
  import opened Savestate
  import opened StateFile

  // ---------------------------------------------------------------- writing

  /** What an operation stores in a state of a version, if it stores anything. */
  function Stored(version: int, op: Op): Option<Bytes> {
    match op
    case Put(b) => Some(b)
    case Skip(_) => None
    case Dropped(b, min) => if version < min then Some(b) else None
  }

  /** The i-th operation stores something that ends behind the limit. */
  predicate Oversteps(s: Ser, version: int, ops: seq<Op>, i: nat) {
    i < |ops| && Stored(version, ops[i]).Some? && s.size + Total(version, ops[..i + 1]) > s.limit
  }

  ghost predicate AnyOversteps(s: Ser, version: int, ops: seq<Op>) { exists i: nat :: Oversteps(s, version, ops, i) }

  lemma OverstepsLater(s: Ser, t: Ser, version: int, ops: seq<Op>, i: nat, next: nat)
    requires ops != [] && t.size == s.size + Length(version, ops[0]) && t.limit == s.limit && next == i + 1
    ensures Oversteps(t, version, ops[1..], i) <==> Oversteps(s, version, ops, next)
  {
    if i < |ops| - 1 {
      assert ops[..next + 1][1..] == ops[1..][..i + 1];
    }
  }

  lemma FirstOversteps(s: Ser, version: int, ops: seq<Op>)
    requires Roomy(s) && ops != []
    ensures Oversteps(s, version, ops, 0) <==> Perform(s, version, ops[0]).Err?
  {
    assert ops[..1] == [ops[0]] && ops[..1][1..] == [];
    assert Total(version, ops[..1]) == Length(version, ops[0]);
  }

  lemma AnyOverstepsStep(s: Ser, t: Ser, version: int, ops: seq<Op>)
    requires ops != [] && t.size == s.size + Length(version, ops[0]) && t.limit == s.limit
    ensures AnyOversteps(s, version, ops) <==> Oversteps(s, version, ops, 0) || AnyOversteps(t, version, ops[1..])
  {
    hide Oversteps;
    if AnyOversteps(s, version, ops) {
      var i: nat :| Oversteps(s, version, ops, i);
      if i > 0 {
        OverstepsLater(s, t, version, ops, i - 1, i);
      }
    }
    if AnyOversteps(t, version, ops[1..]) {
      var i: nat :| Oversteps(t, version, ops[1..], i);
      OverstepsLater(s, t, version, ops, i, i + 1);
    }
  }

  /** A pass fails exactly if something stored ends behind the limit; a gap does not fail it. */
  lemma {:induction false} WritingFailsExactly(s: Ser, version: int, ops: seq<Op>)
    requires Roomy(s)
    ensures PerformAll(s, version, ops).Err? <==> AnyOversteps(s, version, ops)
    ensures PerformAll(s, version, ops).Err? ==> PerformAll(s, version, ops).error == Overflow
    decreases |ops|
  {
    if ops != [] {
      FirstOversteps(s, version, ops);
      if Perform(s, version, ops[0]).Ok? {
        var t := Perform(s, version, ops[0]).value;
        AnyOverstepsStep(s, t, version, ops);
        hide AnyOversteps, Oversteps;
        WritingFailsExactly(t, version, ops[1..]);
      }
    }
  }

  /** A position in what some operations store from a place on. */
  predicate Covered(version: int, at: nat, ops: seq<Op>, k: nat)
    decreases |ops|
  {
    && ops != []
    && ((Stored(version, ops[0]).Some? && at <= k < at + |Stored(version, ops[0]).value|)
        || Covered(version, at + Length(version, ops[0]), ops[1..], k))
  }

  /** A pass changes nothing but where something is stored: gaps keep what the memory held. */
  lemma {:induction false} OnlyStoredIsChanged(s: Ser, version: int, ops: seq<Op>, k: nat)
    requires Roomy(s) && s.mem.Some? && PerformAll(s, version, ops).Ok? && k < |s.mem.value|
    ensures
      var t := PerformAll(s, version, ops).value;
      && t.mem.Some? && |t.mem.value| == |s.mem.value|
      && (!Covered(version, s.at, ops, k) ==> t.mem.value[k] == s.mem.value[k])
    decreases |ops|
  {
    if ops != [] {
      OnlyStoredIsChanged(Perform(s, version, ops[0]).value, version, ops[1..], k);
    }
  }

  // ---------------------------------------------------------------- reading

  /** Reading fails exactly if what is read and skipped ends behind the limit. */
  lemma {:induction false} ReadingFailsExactly(mem: Bytes, d: De, ops: seq<Op>)
    requires AllReadable(mem, d, ops) && d.version <= 853 && d.size <= d.limit
    ensures MirrorAll(mem, d, ops).Err? <==> d.size + Total(d.version, ops) > d.limit
    ensures MirrorAll(mem, d, ops).Err? ==> MirrorAll(mem, d, ops).error == Overflow
    decreases |ops|
  {
    if ops != [] {
      var r := Mirror(mem, d, ops[0]);
      if r.Ok? {
        ReadingFailsExactly(mem, r.value.1, ops[1..]);
      }
    }
  }

  /** Later versions have no gaps, and a value is skipped only in versions before the one that dropped it. */
  lemma GapsByVersion(mem: Bytes, d: De, n: nat, b: Bytes, min: int)
    ensures d.version >= 854 ==> Mirror(mem, d, Skip(n)) == Ok((None, d))
    ensures d.version >= min ==> Mirror(mem, d, Dropped(b, min)) == Ok((None, d))
    ensures d.version < min && d.size + |b| <= d.limit ==>
              Mirror(mem, d, Dropped(b, min)) == Ok((None, d.(at := d.at + |b|, size := d.size + |b|)))
  {
  }

  /** The header of a state that is not in a container, by its version and what is behind that. */
  function Opened(v: Word, rest: Bytes, p: Platform): Result<De, Error> {
    if v < 811 || v >= 0x8000_0000 then Err(UnsupportedVersion)
    else if v > 853 then Err(VersionTooRecent)
    else if v < 837 || !p.console then Ok(De(4, 4, 4 + |rest|, v))
    else if |rest| < 4 then Err(Overflow)
    else if rest[..4] != Le32(p.ramSize) then Err(RamSizeMismatch)
    else Ok(De(8, 8, 4 + |rest|, v))
  }

  /** A state starts with its version, and on a console from one version on with the size of the RAM; a bare one of
      fewer than four bytes is cut off. */
  lemma BareStateIsOpened(v: Word, rest: Bytes, p: Platform, data: Bytes)
    requires |data| < 8 || data[..8]
                           != ['R' as int, 'A' as int, 'S' as int, 'T' as int, 'A' as int, 'T' as int, 'E' as int, 1]
    ensures data == Le32(v) + rest ==> OpenState(data, p) == Opened(v, rest, p)
    ensures |data| < 4 ==> OpenState(data, p) == Err(Overflow)
  {
    if data == Le32(v) + rest {
      From32Le32(v);
      assert data[..4] == Le32(v) && data[4..] == rest;
      if |rest| >= 4 {
        From32Le32(p.ramSize);
        assert data[4..8] == rest[..4];
        if From32(rest[..4]) == p.ramSize {
          Le32From32(rest[..4]);
        }
      }
      hide Le32, From32;
    }
  }

  lemma Le32From32(b: Bytes)
    requires |b| == 4
    ensures Le32(From32(b)) == b
  {
    BytesOfFromBytes(b[0], b[1], b[2], b[3]);
    hide ByteOf, FromBytes;
  }

  /** The tags of a container and of its memory section. */
  lemma TagsSpelled(ss: seq<Section>)
    requires AreSections(ss)
    ensures Container(ss)[..8]
            == ['R' as int, 'A' as int, 'S' as int, 'T' as int, 'A' as int, 'T' as int, 'E' as int, 1]
    ensures FirstMem(ss) < |ss| ==> ss[FirstMem(ss)].tag == ['M' as int, 'E' as int, 'M' as int, ' ' as int]
    ensures forall k :: 0 <= k < FirstMem(ss) ==> ss[k].tag != ['M' as int, 'E' as int, 'M' as int, ' ' as int]
  {
  }
}
