/** The serializer and deserializer objects, advancing over memory one operation at a time. */
module Serializers {
  import opened Wrappers
  import opened Words
  import opened Savestate
  import opened StateFile

  class Serializer {
    var data: array?<Byte>
    var at: nat
    var size: nat
    var limit: nat

    /** The serializer this object is. */
    function View(): Ser
      reads this, data
    {
      Ser(if data == null then None else Some(data[..]), at, size, limit)
    }

    predicate Valid()
      reads this, data
    {
      Roomy(View())
    }

    constructor (data: array?<Byte>, limit: nat)
      requires data != null ==> limit <= data.Length
      ensures Valid() && this.data == data && View() == Ser(if data == null then None else Some(data[..]), 0, 0, limit)
    {
      this.data, at, size, this.limit := data, 0, 0, limit;
    }

    method Serialize(src: Bytes) returns (error: Option<Error>)
      requires Valid()
      modifies this`at, this`size, data
      ensures match Savestate.Serialize(old(View()), src)
              case Err(e) => error == Some(e) && View() == old(View())
              case Ok(s) => error == None && View() == s
    {
      if size + |src| > limit {
        return Some(Overflow);
      }
      if data != null {
        Copy(src);
        at := at + |src|;
      }
      size := size + |src|;
      error := None;
    }

    method Copy(src: Bytes)
      requires data != null && at + |src| <= data.Length
      modifies data
      ensures data[..] == Overwritten(old(data[..]), at, src)
    {
      for k := 0 to |src|
        invariant data[..at] == old(data[..at]) && data[at..at + k] == src[..k]
        invariant data[at + k..] == old(data[at + k..])
      {
        data[at + k] := src[k];
        assert data[at..at + k + 1] == data[at..at + k] + [src[k]];
        assert old(data[at + k + 1..]) == old(data[at + k..])[1..];
      }
    }

    method Skip(n: nat)
      requires Valid()
      modifies this`at, this`size
      ensures View() == SkipOut(old(View()), n)
    {
      if data != null {
        at := at + n;
      }
      size := size + n;
    }

    /** The version, and on consoles the RAM size, in front of everything. */
    method WriteHeader(p: Platform) returns (error: Option<Error>)
      requires Valid()
      modifies this`at, this`size, data
      ensures Valid()
      ensures match PerformAll(old(View()), CURRENT, HeaderOps(CURRENT, p))
              case Err(e) => error == Some(e)
              case Ok(s) => error == None && View() == s
    {
      ghost var head := HeaderOps(CURRENT, p);
      hide Le32, Savestate.Serialize;
      HeaderSteps(View(), p);
      error := Serialize(Le32(CURRENT));
      if error.None? && p.console {
        error := Serialize(Le32(p.ramSize));
      }
    }

    /** What a component's save does, operation by operation. */
    method Run(ops: seq<Op>) returns (error: Option<Error>)
      requires Valid()
      modifies this`at, this`size, data
      ensures Valid()
      ensures match PerformAll(old(View()), CURRENT, ops)
              case Err(e) => error == Some(e)
              case Ok(s) => error == None && View() == s
    {
      hide Savestate.Serialize, SkipOut, Roomy, PerformAll;
      error := None;
      assert ops[0..] == ops;
      for k := 0 to |ops|
        invariant error == None && Valid()
        invariant PerformAll(View(), CURRENT, ops[k..]) == PerformAll(old(View()), CURRENT, ops)
      {
        PerformStep(View(), CURRENT, ops, k);
        match ops[k] {
          case Put(b) =>
            error := Serialize(b);
          case Skip(n) =>
            Skip(n);
          case Dropped(b, min) =>
            if CURRENT < min {
              error := Serialize(b);
            }
        }
        if error.Some? {
          return;
        }
      }
      PerformNothing(View(), CURRENT);
      assert ops[|ops|..] == [];
    }
  }

  lemma PerformNothing(s: Ser, version: int)
    requires Roomy(s)
    ensures PerformAll(s, version, []) == Ok(s)
  {
  }

  lemma PerformStep(s: Ser, version: int, ops: seq<Op>, k: nat)
    requires Roomy(s) && k < |ops|
    ensures PerformAll(s, version, ops[k..])
            == match Perform(s, version, ops[k])
               case Err(e) => Err(e)
               case Ok(t) => PerformAll(t, version, ops[k + 1..])
  {
    hide Perform;
    assert ops[k..][1..] == ops[k + 1..];
  }

  lemma HeaderSteps(s: Ser, p: Platform)
    requires Roomy(s)
    ensures PerformAll(s, CURRENT, HeaderOps(CURRENT, p))
            == match Savestate.Serialize(s, Le32(CURRENT))
               case Err(e) => Err(e)
               case Ok(t) => if p.console then Savestate.Serialize(t, Le32(p.ramSize)) else Ok(t)
  {
    hide Le32, Savestate.Serialize, Roomy, PerformAll;
    var head := HeaderOps(CURRENT, p);
    assert head[0..] == head && head[|head|..] == [];
    PerformStep(s, CURRENT, head, 0);
    var first := Savestate.Serialize(s, Le32(CURRENT));
    if first.Ok? {
      if p.console {
        PerformStep(first.value, CURRENT, head, 1);
        var second := Savestate.Serialize(first.value, Le32(p.ramSize));
        if second.Ok? {
          PerformNothing(second.value, CURRENT);
        }
      } else {
        PerformNothing(first.value, CURRENT);
      }
    }
  }

  class Deserializer {
    const data: Bytes
    var at: nat
    var size: nat
    var limit: nat
    var version: int

    /** The deserializer this object is. */
    function View(): De
      reads this
    {
      De(at, size, limit, version)
    }

    constructor (data: Bytes)
      ensures this.data == data && View() == De(0, 0, |data|, 0)
    {
      this.data, at, size, limit, version := data, 0, 0, |data|, 0;
    }

    /** The walk over the sections of a container, up to the first memory section. */
    method FindMem() returns (found: bool)
      requires |data| >= 8
      modifies this`at, this`limit
      ensures match Walk(data, 8, |data| - 8)
              case Err(_) => !found
              case Ok((p, n)) => found && at == p && limit == n
    {
      hide From32, Aligned;
      var p, left := 8, |data| - 8;
      while left > 8
        invariant left >= 0 && p + left == |data| && Walk(data, p, left) == Walk(data, 8, |data| - 8)
      {
        var section, sectionSize := p, From32(data[p + 4..p + 8]);
        p := p + 8;
        left := left - 8;
        if data[section..section + 4] == MEM {
          at := p;
          limit := sectionSize;
          break;
        }
        var padded := Aligned(sectionSize);
        if left < padded {
          left := 0;
          break;
        }
        p := p + padded;
        left := left - padded;
      }
      found := left > 8;
    }

    method Open(p: Platform) returns (error: Option<Error>)
      requires View() == De(0, 0, |data|, 0)
      modifies this
      ensures match OpenState(data, p)
              case Err(e) => error == Some(e)
              case Ok(d) => error == None && View() == d
    {
      hide Walk, From32;
      if |data| >= 8 && data[..8] == RASTATE {
        WalkFindsRoom(data, 8, |data| - 8);
        var found := FindMem();
        if !found {
          return Some(NoMemSection);
        }
      }
      if limit < 4 {
        return Some(Overflow);
      }
      version := Signed(From32(data[at..at + 4]));
      at, size := at + 4, 4;
      if version < V16 {
        return Some(UnsupportedVersion);
      }
      if version > CURRENT {
        return Some(VersionTooRecent);
      }
      if version >= V42 && p.console {
        if limit < 8 {
          return Some(Overflow);
        }
        var ramSize := From32(data[at..at + 4]);
        at, size := at + 4, 8;
        if ramSize != p.ramSize {
          return Some(RamSizeMismatch);
        }
      }
      error := None;
    }

    method Deserialize(n: nat) returns (r: Result<Bytes, Error>)
      requires at + n <= |data| || size + n > limit
      modifies this`at, this`size
      ensures match Take(data, old(View()), n)
              case Err(e) => r == Err(e) && View() == old(View())
              case Ok((b, d)) => r == Ok(b) && View() == d
    {
      if size + n > limit {
        return Err(Overflow);
      }
      r := Ok(data[at..at + n]);
      at, size := at + n, size + n;
    }

    method Skip(n: nat, minVersion: int) returns (error: Option<Error>)
      modifies this`at, this`size
      ensures match SkipIn(old(View()), n, minVersion)
              case Err(e) => error == Some(e) && View() == old(View())
              case Ok(d) => error == None && View() == d
    {
      if version >= minVersion {
        return None;
      }
      if size + n > limit {
        return Some(Overflow);
      }
      at, size := at + n, size + n;
      error := None;
    }

    /** What a component's load does, operation by operation. */
    method Run(ops: seq<Op>) returns (r: Result<seq<Bytes>, Error>)
      requires AllReadable(data, View(), ops)
      modifies this`at, this`size
      ensures match MirrorAll(data, old(View()), ops)
              case Err(e) => r == Err(e)
              case Ok((values, d)) => r == Ok(values) && View() == d
    {
      hide Take, SkipIn, MirrorAll, AllReadable, Prefixed;
      var values: seq<Bytes> := [];
      ghost var all := MirrorAll(data, View(), ops);
      PrefixedByNothing(all);
      assert ops[0..] == ops;
      for k := 0 to |ops|
        invariant AllReadable(data, View(), ops[k..])
        invariant all == Prefixed(values, MirrorAll(data, View(), ops[k..]))
      {
        MirrorStep(data, View(), ops, k, values);
        match ops[k] {
          case Put(b) =>
            var v := Deserialize(|b|);
            if v.Err? {
              return Err(v.error);
            }
            values := values + [v.value];
          case Skip(n) =>
            var error := Skip(n, NEXT);
            if error.Some? {
              return Err(error.value);
            }
          case Dropped(b, min) =>
            var error := Skip(|b|, min);
            if error.Some? {
              return Err(error.value);
            }
        }
      }
      assert ops[|ops|..] == [];
      MirrorNothing(data, View(), values);
      r := Ok(values);
    }
  }

  /** Values read before the rest of a load. */
  ghost function Prefixed(values: seq<Bytes>, r: Result<(seq<Bytes>, De), Error>): Result<(seq<Bytes>, De), Error> {
    match r
    case Err(e) => Err(e)
    case Ok((vs, d)) => Ok((values + vs, d))
  }

  lemma PrefixedByNothing(r: Result<(seq<Bytes>, De), Error>)
    ensures Prefixed([], r) == r
  {
    if r.Ok? {
      assert [] + r.value.0 == r.value.0;
    }
  }

  lemma MirrorNothing(mem: Bytes, d: De, values: seq<Bytes>)
    ensures Prefixed(values, MirrorAll(mem, d, [])) == Ok((values, d))
  {
    assert values + [] == values;
  }

  lemma MirrorStep(mem: Bytes, d: De, ops: seq<Op>, k: nat, values: seq<Bytes>)
    requires k < |ops| && AllReadable(mem, d, ops[k..])
    ensures Readable(mem, d, ops[k])
    ensures var r := Mirror(mem, d, ops[k]); r.Ok? ==> AllReadable(mem, r.value.1, ops[k + 1..])
    ensures Prefixed(values, MirrorAll(mem, d, ops[k..]))
            == match Mirror(mem, d, ops[k])
               case Err(e) => Err(e)
               case Ok((v, e)) =>
                 Prefixed(if v.Some? then values + [v.value] else values, MirrorAll(mem, e, ops[k + 1..]))
  {
    hide Mirror, Readable;
    assert ops[k..][1..] == ops[k + 1..];
    var now := Mirror(mem, d, ops[k]);
    if now.Ok? {
      var (v, e) := now.value;
      var rest := MirrorAll(mem, e, ops[k + 1..]);
      if rest.Ok? {
        var head := if v.Some? then [v.value] else [];
        assert values + (head + rest.value.0) == values + head + rest.value.0;
        assert values + [] == values;
      }
    }
  }
}
