/** The event manager: an ordered list of listeners an event, each a callback and its parameter. */
module Events {
  import Sequences

  datatype Event = Start | Pause | Resume | Terminate | LoadState | VBlank | Network | DiskChange | GgpoGameEnd

  datatype Listener = Listener(callback: nat, param: nat)

  /** The list without the first occurrence of a listener. */
  function Without(ls: seq<Listener>, x: Listener): seq<Listener> {
    if ls == [] then [] else if ls[0] == x then ls[1..] else [ls[0]] + Without(ls[1..], x)
  }

  function Registered(ls: seq<Listener>, x: Listener): seq<Listener> { Without(ls, x) + [x] }

  function Count(ls: seq<Listener>, x: Listener): nat {
    if ls == [] then 0 else (if ls[0] == x then 1 else 0) + Count(ls[1..], x)
  }

  /** The list without any occurrence of a listener. */
  function Others(ls: seq<Listener>, x: Listener): seq<Listener> {
    if ls == [] then [] else (if ls[0] == x then [] else [ls[0]]) + Others(ls[1..], x)
  }

  lemma {:induction false} WithoutCounts(ls: seq<Listener>, x: Listener)
    ensures Count(Without(ls, x), x) == if Count(ls, x) == 0 then 0 else Count(ls, x) - 1
    ensures Others(Without(ls, x), x) == Others(ls, x)
  {
    if ls != [] && ls[0] != x {
      WithoutCounts(ls[1..], x);
      assert Without(ls, x)[1..] == Without(ls[1..], x);
    }
  }

  lemma {:induction false} AppendCounts(ls: seq<Listener>, x: Listener)
    ensures Count(ls + [x], x) == Count(ls, x) + 1 && Others(ls + [x], x) == Others(ls, x)
  {
    if ls == [] {
      assert [x][1..] == [];
    } else {
      assert (ls + [x])[1..] == ls[1..] + [x];
      AppendCounts(ls[1..], x);
    }
  }

  lemma WithoutAt(ls: seq<Listener>, k: nat, x: Listener)
    requires k < |ls|
    ensures ls[..k] + Without(ls[k..], x)
            == if ls[k] == x then ls[..k] + ls[k + 1..] else ls[..k + 1] + Without(ls[k + 1..], x)
  {
    assert ls[k..][0] == ls[k] && ls[k..][1..] == ls[k + 1..];
    assert Without(ls[k..], x) == if ls[k] == x then ls[k + 1..] else [ls[k]] + Without(ls[k + 1..], x);
    hide Without;
    Sequences.Associates(ls[..k], [ls[k]], Without(ls[k + 1..], x));
    assert ls[..k] + [ls[k]] == ls[..k + 1];
  }

  lemma WithoutEnds(ls: seq<Listener>, x: Listener)
    ensures ls[..|ls|] + Without(ls[|ls|..], x) == ls
    ensures ls[..0] + Without(ls[0..], x) == Without(ls, x)
  {
    assert ls[|ls|..] == [] && ls[0..] == ls && ls[..0] == [];
  }

  /** Registering a listener that is there at most once leaves it there exactly once, the others as they were. */
  lemma RegisteredOnce(ls: seq<Listener>, x: Listener)
    requires Count(ls, x) <= 1
    ensures Count(Registered(ls, x), x) == 1 && Others(Registered(ls, x), x) == Others(ls, x)
    ensures Count(Without(ls, x), x) == 0 && Others(Without(ls, x), x) == Others(ls, x)
  {
    WithoutCounts(ls, x);
    AppendCounts(Without(ls, x), x);
  }

  /** The listener registered now is called last, after all the others in their order. */
  lemma RegisteredLast(ls: seq<Listener>, x: Listener)
    requires Count(ls, x) <= 1
    ensures
      var r := Registered(ls, x);
      r != [] && r[|r| - 1] == x && r[..|r| - 1] == Others(ls, x)
  {
    WithoutCounts(ls, x);
    OthersAreAll(Without(ls, x), x);
    assert Registered(ls, x)[..|Without(ls, x)|] == Without(ls, x);
  }

  lemma {:induction false} OthersAreAll(ls: seq<Listener>, x: Listener)
    requires Count(ls, x) == 0
    ensures Others(ls, x) == ls
  {
    if ls != [] {
      OthersAreAll(ls[1..], x);
    }
  }

  class EventManager {
    var callbacks: map<Event, seq<Listener>>

    constructor ()
      ensures callbacks == map[]
    {
      callbacks := map[];
    }

    function Listeners(e: Event): seq<Listener>
      reads this
    {
      if e in callbacks then callbacks[e] else []
    }

    method UnregisterEvent(e: Event, x: Listener)
      modifies this
      ensures Listeners(e) == Without(old(Listeners(e)), x)
      ensures forall o :: o != e ==> Listeners(o) == old(Listeners(o))
    {
      hide Without;
      var vector := Listeners(e);
      WithoutEnds(vector, x);
      var k := 0;
      while k < |vector| && vector[k] != x
        invariant 0 <= k <= |vector| && callbacks == old(callbacks)
        invariant Without(vector, x) == vector[..k] + Without(vector[k..], x)
      {
        WithoutAt(vector, k, x);
        k := k + 1;
      }
      if k < |vector| {
        WithoutAt(vector, k, x);
        vector := vector[..k] + vector[k + 1..];
      }
      callbacks := callbacks[e := vector];
    }

    method RegisterEvent(e: Event, x: Listener)
      modifies this
      ensures Listeners(e) == Registered(old(Listeners(e)), x)
      ensures forall o :: o != e ==> Listeners(o) == old(Listeners(o))
    {
      UnregisterEvent(e, x);
      callbacks := callbacks[e := Listeners(e) + [x]];
    }
  }
}
