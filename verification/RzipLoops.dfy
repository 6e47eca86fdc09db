/** The loops of Read and Write narrow what is left to 32 bits: which calls of 4 GiB and more come to an end. */
module RzipLoops {
  import opened Wrappers
  import opened Words
  import opened Rzip

  /** One round of the loop in Write: a chunk of what is left. */
  function WriteRound(left: nat): nat { left - Min(CHUNK, left % TWO_32) }

  predicate WriteEndsIn(left: nat, rounds: nat) {
    left == 0 || (rounds > 0 && WriteEndsIn(WriteRound(left), rounds - 1))
  }

  lemma LowStays(left: nat, l: nat)
    requires l <= left % TWO_32
    ensures (left - l) % TWO_32 == left % TWO_32 - l
    ensures left >= TWO_32 <==> left - l >= TWO_32
  {
  }

  lemma {:induction false} WriteGoesOn(left: nat, rounds: nat)
    requires left >= TWO_32
    ensures !WriteEndsIn(left, rounds)
    decreases rounds
  {
    if rounds > 0 {
      LowStays(left, Min(CHUNK, left % TWO_32));
      WriteGoesOn(WriteRound(left), rounds - 1);
    }
  }

  lemma {:induction false} WriteEnds(left: nat) returns (rounds: nat)
    requires left < TWO_32
    ensures WriteEndsIn(left, rounds)
  {
    rounds := 0;
    if left > 0 {
      rounds := WriteEnds(WriteRound(left));
      rounds := rounds + 1;
    }
  }

  /** The loop of Write ends if and only if the call is below 4 GiB. */
  lemma WriteEndsExactly(length: nat)
    ensures (exists rounds :: WriteEndsIn(length, rounds)) <==> length < TWO_32
  {
    if length < TWO_32 {
      var k := WriteEnds(length);
      assert exists rounds :: WriteEndsIn(length, rounds) by { assert WriteEndsIn(length, k); }
    } else {
      forall rounds ensures !WriteEndsIn(length, rounds) { WriteGoesOn(length, rounds); }
    }
  }

  /** One round of the loop in Read: the reader and what is left to read; None when the call ends early. */
  function ReadRound(z: Zlib, r: Reader, left: nat): Option<(Reader, nat)> {
    if r.pending == [] then
      if |r.rest| < 4 then None
      else
        var n, after := From32(r.rest[..4]), r.rest[4..];
        if n == 0 then Some((r.(rest := after), left))
        else if |after| < n then None
        else
          match z.uncompress(after[..n])
          case None => None
          case Some(x) => if |x| > r.maxChunk then None else Some((r.(rest := after[n..], pending := x), left))
    else
      var l := Min(|r.pending|, left % TWO_32);
      Some((r.(pending := r.pending[l..]), left - l))
  }

  predicate ReadEndsIn(z: Zlib, r: Reader, left: nat, rounds: nat)
    decreases rounds
  {
    left == 0
    || (rounds > 0 && match ReadRound(z, r, left)
                      case None => true
                      case Some((next, more)) => ReadEndsIn(z, next, more, rounds - 1))
  }

  /** A round fetches a chunk or takes bytes, at most as many as the low 32 bits say are left. */
  lemma RoundTakes(z: Zlib, r: Reader, left: nat)
    requires left > 0
    ensures match ReadRound(z, r, left)
            case None => ReadFrom(z, r, left).0 == []
            case Some((next, more)) =>
              && more <= left && left - more <= left % TWO_32
              && |ReadFrom(z, r, left).0| == left - more + |ReadFrom(z, next, more).0|
              && (if r.pending == [] then |next.rest| < |r.rest| && more == left else next.rest == r.rest)
  {
    if r.pending == [] {
      hide From32;
    } else {
      hide ReadFrom;
      PendingCut(z, r, left, Min(|r.pending|, left % TWO_32));
    }
  }

  lemma RoundKeepsEnding(z: Zlib, r: Reader, left: nat)
    requires left > 0
    ensures match ReadRound(z, r, left)
            case None => ReadEnds(z, r, left)
            case Some((next, more)) => ReadEnds(z, next, more) <==> ReadEnds(z, r, left)
  {
    RoundTakes(z, r, left);
    hide ReadFrom, ReadRound;
    match ReadRound(z, r, left)
    case None =>
    case Some((next, more)) => LowStays(left, left - more);
  }

  lemma RoundProgresses(z: Zlib, r: Reader, left: nat)
    requires left > 0 && ReadEnds(z, r, left) && r.pending != []
    ensures ReadRound(z, r, left).Some? && ReadRound(z, r, left).value.1 < left
  {
    PendingStep(z, r, left);
  }

  /** A round that takes bytes, in a call that ends. */
  lemma PieceRound(z: Zlib, r: Reader, left: nat, l: nat)
    requires left > 0 && r.pending != [] && ReadEnds(z, r, left) && l == Min(|r.pending|, left % TWO_32)
    ensures 0 < l <= left && ReadEnds(z, r.(pending := r.pending[l..]), left - l)
    ensures
      var (more, rest) := ReadFrom(z, r.(pending := r.pending[l..]), left - l);
      ReadFrom(z, r, left) == (r.pending[..l] + more, rest)
  {
    RoundProgresses(z, r, left);
    RoundKeepsEnding(z, r, left);
    PendingCut(z, r, left, l);
    hide ReadFrom, ReadEnds;
  }

  lemma {:induction false} ReadGoesOn(z: Zlib, r: Reader, left: nat, rounds: nat)
    requires !ReadEnds(z, r, left)
    ensures !ReadEndsIn(z, r, left, rounds)
    decreases rounds
  {
    if rounds > 0 {
      RoundKeepsEnding(z, r, left);
      hide ReadEnds, ReadRound;
      match ReadRound(z, r, left)
      case None =>
      case Some((next, more)) => ReadGoesOn(z, next, more, rounds - 1);
    }
  }

  lemma {:induction false} ReadComesToEnd(z: Zlib, r: Reader, left: nat) returns (rounds: nat)
    requires ReadEnds(z, r, left)
    ensures ReadEndsIn(z, r, left, rounds)
    decreases |r.rest|, left
  {
    rounds := 0;
    if left > 0 {
      RoundKeepsEnding(z, r, left);
      RoundTakes(z, r, left);
      if r.pending != [] {
        RoundProgresses(z, r, left);
      }
      hide ReadEnds, ReadRound, ReadFrom;
      match ReadRound(z, r, left)
      case None => rounds := 1;
      case Some((next, more)) =>
        rounds := ReadComesToEnd(z, next, more);
        rounds := rounds + 1;
    }
  }

  /** The loop of Read ends if and only if the call is below 4 GiB, or the stream has no more to give than the low
      32 bits of the length ask for. */
  lemma ReadEndsExactly(z: Zlib, r: Reader, length: nat)
    ensures (exists rounds :: ReadEndsIn(z, r, length, rounds)) <==> ReadEnds(z, r, length)
  {
    if ReadEnds(z, r, length) {
      var rounds := ReadComesToEnd(z, r, length);
    } else {
      forall rounds ensures !ReadEndsIn(z, r, length, rounds) { ReadGoesOn(z, r, length, rounds); }
    }
  }
}
