/** The debugger's shadow call stack, kept from the stack pointer at calls and returns. */
module ShadowStack {
  import opened Words

  datatype Frame = Frame(pc: Word, sp: Word)

  /** A call, with the program counter and the stack pointer, or a return, with the stack pointer. */
  datatype Event = Call(pc: Word, sp: Word) | Return(sp: Word)

  function Returned(stack: seq<Frame>, sp: Word): (r: seq<Frame>)
    ensures r <= stack
    decreases |stack|
  {
    if stack == [] || sp < stack[|stack| - 1].sp then stack else Returned(stack[..|stack| - 1], sp)
  }

  function After(stack: seq<Frame>, e: Event): seq<Frame> {
    match e
    case Call(pc, sp) => Returned(stack, sp) + [Frame(pc, sp)]
    case Return(sp) => Returned(stack, sp)
  }

  function AfterAll(stack: seq<Frame>, events: seq<Event>): seq<Frame>
    decreases |events|
  {
    if events == [] then stack else AfterAll(After(stack, events[0]), events[1..])
  }

  /** Stack pointers fall strictly from the bottom of the stack to its top. */
  predicate Descending(stack: seq<Frame>) { forall i, j :: 0 <= i < j < |stack| ==> stack[j].sp < stack[i].sp }

  // ---------------------------------------------------------------- which calls are on it

  function Pushed(e: Event): seq<Frame> {
    match e
    case Call(pc, sp) => [Frame(pc, sp)]
    case Return(_) => []
  }

  /** No later event brings the stack pointer back to where it was. */
  predicate Below(sp: Word, later: seq<Event>) { forall e :: e in later ==> e.sp < sp }

  /** The calls that every later event stays below, in the order they were made. */
  function Live(events: seq<Event>): seq<Frame> {
    if events == [] then []
    else (if Below(events[0].sp, events[1..]) then Pushed(events[0]) else []) + Live(events[1..])
  }

  /** The frames above a stack pointer. */
  function Above(stack: seq<Frame>, sp: Word): seq<Frame> {
    if stack == [] then [] else (if sp < stack[0].sp then [stack[0]] else []) + Above(stack[1..], sp)
  }

  lemma AboveAppend(a: seq<Frame>, b: seq<Frame>, sp: Word)
    ensures Above(a + b, sp) == Above(a, sp) + Above(b, sp)
    decreases |a|
  {
    if a == [] {
      assert a + b == b;
    } else {
      assert (a + b)[1..] == a[1..] + b;
      AboveAppend(a[1..], b, sp);
    }
  }

  lemma {:induction false} AboveAll(stack: seq<Frame>, sp: Word)
    requires forall f :: f in stack ==> sp < f.sp
    ensures Above(stack, sp) == stack
    decreases |stack|
  {
    if stack != [] {
      AboveAll(stack[1..], sp);
    }
  }

  /** Popping from the top of a descending stack is keeping exactly what is above the stack pointer. */
  lemma {:induction false} PoppingKeepsAbove(stack: seq<Frame>, sp: Word)
    requires Descending(stack)
    ensures Returned(stack, sp) == Above(stack, sp)
    decreases |stack|
  {
    if stack != [] {
      var n := |stack| - 1;
      if sp < stack[n].sp {
        forall f | f in stack
          ensures sp < f.sp
        {
          var i :| 0 <= i < |stack| && stack[i] == f;
        }
        AboveAll(stack, sp);
      } else {
        PoppingKeepsAbove(stack[..n], sp);
        AboveAppend(stack[..n], [stack[n]], sp);
        assert stack[..n] + [stack[n]] == stack;
        assert [stack[n]][1..] == [];
      }
    }
  }

  /** One more event leaves the live calls above its stack pointer, and adds itself if it is a call. */
  lemma {:induction false} LiveAfterOneMore(events: seq<Event>, e: Event)
    ensures Live(events + [e]) == Above(Live(events), e.sp) + Pushed(e)
    decreases |events|
  {
    hide Live, Below, Pushed, Above;
    LiveFirst(events);
    LiveFirst(events + [e]);
    BelowNothing(e.sp);
    if events == [] {
      assert [e][1..] == [] && events + [e] == [e];
      LiveFirst([]);
      assert Pushed(e) + [] == Pushed(e) && [] + Pushed(e) == Pushed(e);
    } else {
      var first, rest := events[0], events[1..];
      assert (events + [e])[1..] == rest + [e];
      LiveAfterOneMore(rest, e);
      BelowOneMore(first.sp, rest, e);
      var head := if Below(first.sp, rest) then Pushed(first) else [];
      AboveAppend(head, Live(rest), e.sp);
      AbovePushed(first, e.sp);
      assert events == [first] + rest;
      assert Above(head, e.sp) + (Above(Live(rest), e.sp) + Pushed(e))
             == Above(head, e.sp) + Above(Live(rest), e.sp) + Pushed(e);
    }
  }

  lemma LiveFirst(events: seq<Event>)
    ensures Live(events)
            == if events == [] then []
               else (if Below(events[0].sp, events[1..]) then Pushed(events[0]) else []) + Live(events[1..])
    ensures Above([], 0) == []
  {
    hide Below, Pushed;
  }

  lemma BelowNothing(sp: Word)
    ensures Below(sp, []) && Above([], sp) == []
  {
  }

  lemma BelowOneMore(sp: Word, later: seq<Event>, e: Event)
    ensures Below(sp, later + [e]) <==> Below(sp, later) && e.sp < sp
  {
    assert e in later + [e];
  }

  lemma AbovePushed(e: Event, sp: Word)
    ensures Above(Pushed(e), sp) == if sp < e.sp then Pushed(e) else []
  {
    assert Pushed(e) == [] || Pushed(e)[1..] == [];
  }

  lemma LiveFramesAreCalls(events: seq<Event>)
    ensures forall f :: f in Live(events) ==> Call(f.pc, f.sp) in events
  {
  }

  lemma {:induction false} LiveDescends(events: seq<Event>)
    ensures Descending(Live(events))
    decreases |events|
  {
    if events != [] {
      LiveDescends(events[1..]);
      LiveFramesAreCalls(events[1..]);
    }
  }

  lemma {:induction false} AfterOneMore(stack: seq<Frame>, events: seq<Event>, e: Event)
    ensures AfterAll(stack, events + [e]) == After(AfterAll(stack, events), e)
    decreases |events|
  {
    hide After;
    if events == [] {
      assert [e][1..] == [] && events + [e] == [e];
    } else {
      assert (events + [e])[1..] == events[1..] + [e];
      AfterOneMore(After(stack, events[0]), events[1..], e);
    }
  }

  /** After any events the stack holds exactly the calls whose stack pointer every later event stayed below,
      with strictly falling stack pointers. */
  lemma {:induction false} StackIsLiveCalls(events: seq<Event>)
    ensures AfterAll([], events) == Live(events) && Descending(AfterAll([], events))
    decreases |events|
  {
    if events != [] {
      var n := |events| - 1;
      var before, e := events[..n], events[n];
      assert before + [e] == events;
      StackIsLiveCalls(before);
      AfterOneMore([], before, e);
      LiveAfterOneMore(before, e);
      LiveDescends(before);
      PoppingKeepsAbove(Live(before), e.sp);
      LiveDescends(events);
      hide Live, AfterAll, Above;
      assert After(Live(before), e) == Above(Live(before), e.sp) + Pushed(e);
    }
  }
}
