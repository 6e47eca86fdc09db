/** What a frame of a widescreen hack leaves in RAM: its words are set one after another, each if it has its original
    value by then or names none, up to the first zero address. */
module WidescreenHacks {
  import opened Words
  import opened Memory
  import opened MemoryAccess
  import opened CheatLifecycle
  import opened CheatManagers

  /** No word of a table has address zero. */
  predicate Addressed(table: WideTable) { forall i :: 0 <= i < |table| ==> table[i].address != 0 }

  lemma FirstWord(w: WideWord, rest: WideTable, m: Ram)
    requires w.address != 0
    ensures Widen([w] + rest, m) == Widen(rest, Widen([w], m))
  {
    hide Read, Write;
    assert ([w] + rest)[1..] == rest && [w][1..] == [];
  }

  lemma {:induction false} WidenSplits(first: WideTable, rest: WideTable, m: Ram)
    requires Addressed(first)
    ensures Widen(first + rest, m) == Widen(rest, Widen(first, m))
  {
    if first == [] {
      assert first + rest == rest;
    } else {
      var w, others := first[0], first[1..];
      assert [w] + (others + rest) == first + rest && [w] + others == first;
      FirstWord(w, others + rest, m);
      FirstWord(w, others, m);
      hide Widen;
      WidenSplits(others, rest, Widen([w], m));
    }
  }

  /** The words behind a zero address are left out. */
  lemma ZeroEnds(table: WideTable, m: Ram, i: nat)
    requires i < |table| && Addressed(table[..i]) && table[i].address == 0
    ensures Widen(table, m) == Widen(table[..i], m)
  {
    hide Read, Write;
    assert table[..i] + table[i..] == table;
    WidenSplits(table[..i], table[i..], m);
  }

  /** One word is set if it has its original value or names none, and no other byte changes. */
  ghost predicate Sets(w: WideWord, before: Ram, after: Ram) {
    && Read(after, w.address, 32) == (if w.original == 0 || Read(before, w.address, 32) == w.original then w.value
                                      else Read(before, w.address, 32))
    && forall x :: Outside(before, w.address, 4, x) ==> At(after, x) == At(before, x)
  }

  lemma LoneWord(w: WideWord, m: Ram)
    requires |m| >= 4 && w.address != 0
    ensures Sets(w, m, Widen([w], m))
  {
    StoredIsRead(m, w.address, w.value, 32);
    hide Read, Write, At, Outside, Fitted;
    assert Fitted(w.value, 32) == w.value && BytesOf(32) == 4 by { WholeWord(w.value); }
    assert [w][1..] == [];
  }

  lemma WholeWord(v: Word)
    ensures Fitted(v, 32) == v && BytesOf(32) == 4
  {
  }

  /** A frame starts from the RAM as it is and sets each word over what the words before it left. */
  lemma WordByWord(table: WideTable, m: Ram, i: nat)
    requires |m| >= 4 && i < |table| && Addressed(table[..i + 1])
    ensures Widen([], m) == m && Sets(table[i], Widen(table[..i], m), Widen(table[..i + 1], m))
  {
    NoWords(m);
    FirstAddressed(table, i);
    hide Sets, Widen, Addressed;
    WidenSplits(table[..i], [table[i]], m);
    LoneWord(table[i], Widen(table[..i], m));
  }

  lemma FirstAddressed(table: WideTable, i: nat)
    requires i < |table| && Addressed(table[..i + 1])
    ensures table[..i + 1] == table[..i] + [table[i]] && Addressed(table[..i]) && table[i].address != 0
  {
    var all := table[..i + 1];
    assert all[i] == table[i];
    assert forall j :: 0 <= j < i ==> table[..i][j] == all[j];
  }

  lemma NoWords(m: Ram)
    ensures Widen([], m) == m
  {
  }
}
