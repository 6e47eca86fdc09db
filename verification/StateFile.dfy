/** Opening a savestate: the walk over the sections of a RetroArch container, the version and RAM checks,
    and whole states written in two passes and read back, bare or inside a container. */
module StateFile {
  import opened Wrappers
  import opened Words
  import opened Savestate

  const RASTATE: Bytes :=
    ['R' as int, 'A' as int, 'S' as int, 'T' as int, 'A' as int, 'T' as int, 'E' as int, 1]

  const MEM: Bytes := ['M' as int, 'E' as int, 'M' as int, ' ' as int]

  /** A 32-bit length rounded up to a multiple of eight, with the wrap-around of its type. */
  function Aligned(n: Word): Word { (n + 7) % TWO_32 / 8 * 8 }

  /** From a section header on, with so many bytes left: where the memory section's payload is, and its length. */
  function Walk(data: Bytes, p: nat, limit: nat): Result<(nat, nat), Error>
    requires p + limit == |data|
    decreases limit
  {
    if limit <= 8 then Err(NoMemSection)
    else
      var size, left := From32(data[p + 4..p + 8]), limit - 8;
      if data[p..p + 4] == MEM then if left <= 8 then Err(NoMemSection) else Ok((p + 8, size))
      else if left < Aligned(size) then Err(NoMemSection)
      else Walk(data, p + 8 + Aligned(size), left - Aligned(size))
  }

  function Locate(data: Bytes): Result<(nat, nat), Error> {
    if |data| >= 8 && data[..8] == RASTATE then Walk(data, 8, |data| - 8) else Ok((0, |data|))
  }

  lemma {:induction false} WalkFindsRoom(data: Bytes, p: nat, limit: nat)
    requires p + limit == |data|
    ensures Walk(data, p, limit).Err? ==> Walk(data, p, limit).error == NoMemSection
    ensures Walk(data, p, limit).Ok? ==> p + 8 <= Walk(data, p, limit).value.0 < |data| - 8
    decreases limit
  {
    if limit > 8 {
      var size, left := From32(data[p + 4..p + 8]), limit - 8;
      if data[p..p + 4] != MEM && left >= Aligned(size) {
        WalkFindsRoom(data, p + 8 + Aligned(size), left - Aligned(size));
      }
    }
  }

  /** The deserializer a state opens as on a platform. */
  function OpenState(data: Bytes, p: Platform): (r: Result<De, Error>)
  {
    match Locate(data)
    case Err(e) => Err(e)
    case Ok((at, limit)) =>
      if |data| >= 8 && data[..8] == RASTATE then
        WalkFindsRoom(data, 8, |data| - 8);
        CheckHeader(data, De(at, 0, limit, 0), p)
      else
        CheckHeader(data, De(at, 0, limit, 0), p)
  }

  function CheckHeader(data: Bytes, d: De, p: Platform): Result<De, Error>
    requires d.size == 0 && (d.at + 8 <= |data| || d.at + d.limit <= |data|)
  {
    if d.limit < 4 then Err(Overflow)
    else
      var version := Signed(From32(data[d.at..d.at + 4]));
      var d1 := d.(at := d.at + 4, size := 4, version := version);
      if version < V16 then Err(UnsupportedVersion)
      else if version > CURRENT then Err(VersionTooRecent)
      else if version >= V42 && p.console then
        if d.limit < 8 then Err(Overflow)
        else if From32(data[d.at + 4..d.at + 8]) != p.ramSize then Err(RamSizeMismatch)
        else Ok(d1.(at := d.at + 8, size := 8))
      else
        Ok(d1)
  }

  // ---------------------------------------------------------------- bare states

  lemma {:induction false} TotalAppend(version: int, a: seq<Op>, b: seq<Op>)
    ensures Total(version, a + b) == Total(version, a) + Total(version, b)
    decreases |a|
  {
    if a == [] {
      assert a + b == b;
    } else {
      assert (a + b)[1..] == a[1..] + b;
      TotalAppend(version, a[1..], b);
    }
  }

  lemma {:induction false} MatchesAppend(mem: Bytes, at: nat, version: int, a: seq<Op>, b: seq<Op>)
    ensures Matches(mem, at, version, a + b)
            <==> Matches(mem, at, version, a) && Matches(mem, at + Total(version, a), version, b)
    decreases |a|
  {
    if a == [] {
      assert a + b == b;
    } else {
      assert (a + b)[1..] == a[1..] + b;
      MatchesAppend(mem, at + Length(version, a[0]), version, a[1..], b);
    }
  }

  lemma SliceOfSlice<T>(s: seq<T>, a: nat, b: nat, c: nat, d: nat)
    requires a <= b <= |s| && c <= d <= b - a
    ensures s[a..b][c..d] == s[a + c..a + d]
  {
    var l, r := s[a..b][c..d], s[a + c..a + d];
    assert forall k :: 0 <= k < d - c ==> l[k] == s[a..b][c + k] == s[a + c + k];
    assert l == r;
  }

  /** Memory that holds other memory as a slice holds what it holds. */
  lemma {:induction false} MatchesInside(mem: Bytes, data: Bytes, off: nat, at: nat, version: int, ops: seq<Op>)
    requires off + |mem| <= |data| && data[off..off + |mem|] == mem && Matches(mem, at, version, ops)
    ensures Matches(data, off + at, version, ops)
    decreases |ops|
  {
    if ops != [] {
      var n := Length(version, ops[0]);
      SliceOfSlice(data, off, off + |mem|, at, at + n);
      MatchesInside(mem, data, off, at + n, version, ops[1..]);
    }
  }

  /** What the header of a state of some version takes. */
  function HeaderSize(version: int, p: Platform): nat { if p.console && version >= V42 then 8 else 4 }

  lemma HeaderFacts(mem: Bytes, off: nat, version: Word, p: Platform, ops: seq<Op>)
    requires Matches(mem, off, version, HeaderOps(version, p) + ops)
    ensures off + HeaderSize(version, p) <= |mem| && mem[off..off + 4] == Le32(version)
    ensures p.console && version >= V42 ==> mem[off + 4..off + 8] == Le32(p.ramSize)
    ensures Matches(mem, off + HeaderSize(version, p), version, ops)
    ensures Total(version, HeaderOps(version, p) + ops) == HeaderSize(version, p) + Total(version, ops)
  {
    hide Le32;
    var head := HeaderOps(version, p);
    MatchesAppend(mem, off, version, head, ops);
    TotalAppend(version, head, ops);
    if p.console && version >= V42 {
      assert head[1..] == [Put(Le32(p.ramSize))] && head[1..][1..] == [];
    } else {
      assert head[1..] == [];
    }
  }

  /** A header that was written opens on a platform of the same kind exactly if its version is supported
      and, when it names a RAM size, that is the platform's. */
  lemma HeaderOpens(mem: Bytes, off: nat, limit: nat, version: Word, p: Platform, q: Platform, ops: seq<Op>)
    requires Matches(mem, off, version, HeaderOps(version, p) + ops) && version < 0x8000_0000
    requires limit >= Total(version, HeaderOps(version, p) + ops) && off + limit <= |mem| && p.console == q.console
    ensures CheckHeader(mem, De(off, 0, limit, 0), q).Ok?
            <==> V16 <= version <= CURRENT && (p.console && version >= V42 ==> p.ramSize == q.ramSize)
    ensures CheckHeader(mem, De(off, 0, limit, 0), q).Ok?
            ==> (var h := HeaderSize(version, p);
                 CheckHeader(mem, De(off, 0, limit, 0), q).value == De(off + h, h, limit, version))
  {
    HeaderFacts(mem, off, version, p, ops);
    From32Le32(version);
    From32Le32(p.ramSize);
    hide Le32, From32;
  }

  lemma VersionIsNoContainer(data: Bytes, version: Word)
    requires |data| >= 4 && data[..4] == Le32(version) && version <= CURRENT
    ensures |data| >= 8 ==> data[..8] != RASTATE
  {
    if |data| >= 8 {
      assert data[..8][1] == data[..4][1] == version / 0x100 % 0x100;
    }
  }

  /** A state written by the program of a supported version, from its first byte to its last operation:
      it opens on its platform, yields the same values, and ends with the same size. */
  lemma StateReadsBack(mem: Bytes, version: Word, p: Platform, ops: seq<Op>)
    requires V16 <= version <= CURRENT && Matches(mem, 0, version, HeaderOps(version, p) + ops)
    requires |mem| == Total(version, HeaderOps(version, p) + ops)
    ensures OpenState(mem, p).Ok? && Inside(mem, OpenState(mem, p).value)
    ensures
      var d := OpenState(mem, p).value;
      && AllReadable(mem, d, ops)
      && (var r := MirrorAll(mem, d, ops);
          r.Ok? && r.value.0 == Values(ops) && r.value.1.size == |mem|)
  {
    HeaderFacts(mem, 0, version, p, ops);
    VersionIsNoContainer(mem, version);
    HeaderOpens(mem, 0, |mem|, version, p, p, ops);
    hide HeaderOps, Matches, MirrorAll, AllReadable, CheckHeader, Total, Walk, Le32;
    var h := HeaderSize(version, p);
    MirrorReadsValues(mem, De(h, h, |mem|, version), ops);
  }

  /** The two passes and the way back together. */
  lemma SavedStateLoads(p: Platform, ops: seq<Op>, mem: Bytes, max: nat)
    requires |mem| == Total(CURRENT, HeaderOps(CURRENT, p) + ops) <= max
    ensures
      var all := HeaderOps(CURRENT, p) + ops;
      var counted := PerformAll(Ser(None, 0, 0, max), CURRENT, all);
      && counted.Ok? && counted.value.size == |mem|
      && (var filled := PerformAll(Ser(Some(mem), 0, 0, counted.value.size), CURRENT, all);
          && filled.Ok? && filled.value.mem.Some?
          && (var m := filled.value.mem.value;
              && OpenState(m, p).Ok? && Inside(m, OpenState(m, p).value)
              && AllReadable(m, OpenState(m, p).value, ops)
              && (var r := MirrorAll(m, OpenState(m, p).value, ops);
                  r.Ok? && r.value.0 == Values(ops) && r.value.1.size == counted.value.size)))
  {
    hide HeaderOps, PerformAll, Matches, MirrorAll, AllReadable, OpenState, Inside, Total;
    SecondPassFits(p, ops, mem, max);
    var filled := PerformAll(Ser(Some(mem), 0, 0, |mem|), CURRENT, HeaderOps(CURRENT, p) + ops);
    StateReadsBack(filled.value.mem.value, CURRENT, p, ops);
  }

  // ---------------------------------------------------------------- containers

  datatype Section = Section(tag: Bytes, payload: Bytes)

  predicate IsSection(s: Section) { |s.tag| == 4 && |s.payload| < TWO_32 - 7 }

  /** The payload up to a multiple of eight. */
  function Padded(b: Bytes): (r: Bytes)
    ensures |r| % 8 == 0 && |b| <= |r| < |b| + 8 && r[..|b|] == b
  {
    b + seq((8 - |b| % 8) % 8, _ => 0)
  }

  function SectionBytes(s: Section): Bytes
    requires IsSection(s)
  {
    s.tag + Le32(|s.payload|) + Padded(s.payload)
  }

  predicate AreSections(ss: seq<Section>) { forall s :: s in ss ==> IsSection(s) }

  function SectionsBytes(ss: seq<Section>): Bytes
    requires AreSections(ss)
  {
    if ss == [] then []
    else
      assert ss[0] in ss && forall s :: s in ss[1..] ==> s in ss;
      SectionBytes(ss[0]) + SectionsBytes(ss[1..])
  }

  function Container(ss: seq<Section>): Bytes
    requires AreSections(ss)
  {
    RASTATE + SectionsBytes(ss)
  }

  /** The first memory section: how many sections come before it. */
  function FirstMem(ss: seq<Section>): (k: nat)
    ensures k <= |ss| && (k < |ss| ==> ss[k].tag == MEM) && forall j :: 0 <= j < k ==> ss[j].tag != MEM
  {
    if ss == [] || ss[0].tag == MEM then 0 else 1 + FirstMem(ss[1..])
  }

  lemma AlignedIsPadded(b: Bytes)
    requires |b| < TWO_32 - 7
    ensures Aligned(|b|) == |Padded(b)|
  {
  }

  lemma SectionLength(s: Section)
    requires IsSection(s)
    ensures |SectionBytes(s)| == 8 + |Padded(s.payload)|
  {
    hide Padded, Le32;
  }

  lemma SectionHead(data: Bytes, p: nat, s: Section, rest: Bytes)
    requires IsSection(s) && p <= |data| && data[p..] == SectionBytes(s) + rest
    ensures p + 8 + |Padded(s.payload)| + |rest| == |data|
    ensures data[p..p + 4] == s.tag && From32(data[p + 4..p + 8]) == |s.payload|
    ensures data[p + 8..p + 8 + |s.payload|] == s.payload && data[p + 8 + |Padded(s.payload)|..] == rest
  {
    hide Padded, Le32, From32;
    From32Le32(|s.payload|);
    var d, n, w := data[p..], |s.payload|, |Padded(s.payload)|;
    assert data[p..p + 4] == d[..4] == s.tag;
    assert data[p + 4..p + 8] == d[4..8] == Le32(n);
    assert d[8..8 + w] == Padded(s.payload);
    assert data[p + 8..p + 8 + n] == d[8..8 + n] == d[8..8 + w][..n];
    assert data[p + 8 + w..] == d[8 + w..] == rest;
  }

  /** The walk over any sections stops at the first memory section, if more than eight bytes follow its header. */
  lemma {:induction false} WalkFindsFirstMem(data: Bytes, p: nat, ss: seq<Section>)
    requires AreSections(ss) && p <= |data| && data[p..] == SectionsBytes(ss)
    ensures AreSections(ss[FirstMem(ss)..])
    ensures
      var k := FirstMem(ss);
      var r := Walk(data, p, |data| - p);
      if k < |ss| && |SectionsBytes(ss[k..])| > 16 then
        && r.Ok? && r.value.1 == |ss[k].payload| && p + 8 <= r.value.0
        && (r.value.0 + |ss[k].payload| <= |data|)
        && data[r.value.0..r.value.0 + |ss[k].payload|] == ss[k].payload
      else
        r == Err(NoMemSection)
    decreases |ss|
  {
    hide SectionBytes, SectionsBytes, Padded, Walk, AreSections;
    SectionsStep(ss);
    if ss == [] {
      WalkTooShort(data, p);
    } else if ss[0].tag == MEM {
      MemInFront(data, p, ss);
    } else {
      var s, rest := ss[0], ss[1..];
      WalkStep(data, p, s, SectionsBytes(rest));
      WalkFindsFirstMem(data, p + 8 + |Padded(s.payload)|, rest);
      assert ss[FirstMem(ss)..] == rest[FirstMem(rest)..];
    }
  }

  lemma SectionsStep(ss: seq<Section>)
    requires AreSections(ss)
    ensures ss == [] ==> SectionsBytes(ss) == [] && ss[FirstMem(ss)..] == []
    ensures ss != [] ==> IsSection(ss[0]) && AreSections(ss[1..])
                         && SectionsBytes(ss) == SectionBytes(ss[0]) + SectionsBytes(ss[1..])
  {
    hide SectionBytes, IsSection;
    assert ss != [] ==> ss[0] in ss && forall x :: x in ss[1..] ==> x in ss;
  }

  lemma MemInFront(data: Bytes, p: nat, ss: seq<Section>)
    requires AreSections(ss) && p <= |data| && data[p..] == SectionsBytes(ss)
    requires ss != [] && ss[0].tag == MEM
    ensures FirstMem(ss) == 0 && ss[0..] == ss
    ensures
      var r := Walk(data, p, |data| - p);
      if |SectionsBytes(ss)| > 16 then
        && r.Ok? && r.value.1 == |ss[0].payload| && p + 8 == r.value.0
        && (r.value.0 + |ss[0].payload| <= |data|)
        && data[r.value.0..r.value.0 + |ss[0].payload|] == ss[0].payload
      else
        r == Err(NoMemSection)
  {
    hide SectionBytes, SectionsBytes, Padded, Walk, AreSections;
    SectionsStep(ss);
    WalkStep(data, p, ss[0], SectionsBytes(ss[1..]));
  }

  lemma WalkTooShort(data: Bytes, p: nat)
    requires p <= |data| <= p + 8
    ensures Walk(data, p, |data| - p) == Err(NoMemSection)
  {
  }

  lemma UnfoldWalk(data: Bytes, p: nat, tag: Bytes, size: Word, padded: nat)
    requires p + 8 <= |data| && data[p..p + 4] == tag && From32(data[p + 4..p + 8]) == size
    requires Aligned(size) == padded && p + 8 + padded <= |data|
    ensures Walk(data, p, |data| - p)
            == if tag == MEM && |data| - p > 16 then Ok((p + 8, size))
               else if tag == MEM then Err(NoMemSection)
               else Walk(data, p + 8 + padded, |data| - (p + 8 + padded))
  {
    hide From32, Aligned;
  }

  lemma WalkStep(data: Bytes, p: nat, s: Section, rest: Bytes)
    requires IsSection(s) && p <= |data| && data[p..] == SectionBytes(s) + rest
    ensures p + 8 + |Padded(s.payload)| + |rest| == |data| && |SectionBytes(s)| == 8 + |Padded(s.payload)|
    ensures
      var q, w := p + 8, |Padded(s.payload)|;
      && data[q..q + |s.payload|] == s.payload && data[q + w..] == rest
      && Walk(data, p, |data| - p)
         == if s.tag == MEM && w + |rest| > 8 then Ok((q, |s.payload|))
            else if s.tag == MEM then Err(NoMemSection)
            else Walk(data, q + w, |data| - (q + w))
  {
    hide Padded, Aligned, From32, Le32, Walk, SectionBytes;
    SectionHead(data, p, s, rest);
    SectionLength(s);
    AlignedIsPadded(s.payload);
    UnfoldWalk(data, p, s.tag, |s.payload|, |Padded(s.payload)|);
  }

  /** A container is located exactly if more than sixteen bytes are left from the header of its first memory
      section on, and then at that section's payload, with the payload's length as limit. */
  lemma ContainerLocates(ss: seq<Section>)
    requires AreSections(ss)
    ensures AreSections(ss[FirstMem(ss)..])
    ensures
      var data, k := Container(ss), FirstMem(ss);
      var r := Locate(data);
      if k < |ss| && |SectionsBytes(ss[k..])| > 16 then
        && r.Ok? && r.value.1 == |ss[k].payload|
        && r.value.0 + |ss[k].payload| <= |data|
        && data[r.value.0..r.value.0 + |ss[k].payload|] == ss[k].payload
      else
        r == Err(NoMemSection)
  {
    hide SectionsBytes, Walk;
    var data := Container(ss);
    assert data[..8] == RASTATE && data[8..] == SectionsBytes(ss);
    WalkFindsFirstMem(data, 8, ss);
  }

  /** A first memory section with a payload longer than eight bytes is always found. */
  lemma LongPayloadIsFound(ss: seq<Section>)
    requires AreSections(ss) && FirstMem(ss) < |ss| && |ss[FirstMem(ss)].payload| > 8
    ensures
      var data, payload := Container(ss), ss[FirstMem(ss)].payload;
      var r := Locate(data);
      && r.Ok? && r.value.1 == |payload| && r.value.0 + |payload| <= |data|
      && data[r.value.0..r.value.0 + |payload|] == payload
  {
    hide Container, Locate, Le32, Padded;
    var k := FirstMem(ss);
    ContainerLocates(ss);
    assert ss[k..][0] == ss[k];
    assert ss[k] in ss;
  }

  /** A whole state carried as the first memory section of a container opens and reads back as it does bare. */
  lemma ContainedStateReadsBack(ss: seq<Section>, version: Word, p: Platform, ops: seq<Op>)
    requires AreSections(ss) && FirstMem(ss) < |ss| && |ss[FirstMem(ss)].payload| > 8
    requires V16 <= version <= CURRENT
    requires
      var payload := ss[FirstMem(ss)].payload;
      && Matches(payload, 0, version, HeaderOps(version, p) + ops)
      && |payload| == Total(version, HeaderOps(version, p) + ops)
    ensures
      var data, payload := Container(ss), ss[FirstMem(ss)].payload;
      var d := OpenState(data, p);
      && d.Ok? && Inside(data, d.value) && AllReadable(data, d.value, ops)
      && (var r := MirrorAll(data, d.value, ops);
          r.Ok? && r.value.0 == Values(ops) && r.value.1.size == |payload|)
  {
    var data, payload := Container(ss), ss[FirstMem(ss)].payload;
    LongPayloadIsFound(ss);
    var off := Locate(data).value.0;
    assert |data| >= 8 && data[..8] == RASTATE;
    hide Container, Matches, Total, Walk, Le32, MirrorAll, AllReadable, HeaderOps, Locate, CheckHeader, FirstMem;
    hide AreSections;
    MatchesInside(payload, data, off, 0, version, HeaderOps(version, p) + ops);
    PayloadReadsBack(data, off, |payload|, version, p, ops);
  }

  /** A state in the middle of some data, up to its limit. */
  lemma PayloadReadsBack(data: Bytes, off: nat, limit: nat, version: Word, p: Platform, ops: seq<Op>)
    requires V16 <= version <= CURRENT && off + limit <= |data|
    requires Matches(data, off, version, HeaderOps(version, p) + ops)
    requires limit == Total(version, HeaderOps(version, p) + ops)
    ensures
      var d := CheckHeader(data, De(off, 0, limit, 0), p);
      && d.Ok? && Inside(data, d.value) && AllReadable(data, d.value, ops)
      && (var r := MirrorAll(data, d.value, ops);
          r.Ok? && r.value.0 == Values(ops) && r.value.1.size == limit)
  {
    hide Matches, Total, Le32, MirrorAll, AllReadable, HeaderOps;
    HeaderFacts(data, off, version, p, ops);
    HeaderOpens(data, off, limit, version, p, p, ops);
    hide CheckHeader;
    var h := HeaderSize(version, p);
    MirrorReadsValues(data, De(off + h, h, limit, version), ops);
  }
}
