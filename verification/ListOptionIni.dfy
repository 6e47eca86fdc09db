/** The list option kept in an INI file, where a value that starts with a quote loses it and everything from
    its last quote on: the list survives exactly if its first element is not written in quotes. */
module ListOptionIni {
  import opened Ini
  import opened IniRoundTrip
  import opened ListOption
  import opened Sequences
  import opened Wrappers

  /** From a position on, a text holds what comes before the last quote of another. */
  predicate HoldsUpTo(u: string, start: nat, s: string, m: nat) {
    start <= |u| && m < |s| && s[m] == '"' && '"' !in s[m + 1..] && u[start..] == s[..m]
  }

  lemma Holds(u: string, start: nat, s: string, m: nat)
    requires HoldsUpTo(u, start, s, m)
    ensures m < |s| && s[m] == '"' && |u| == start + m && (forall j :: start <= j < |u| ==> u[j] == s[j - start])
    ensures forall i :: 0 <= i < |s| && s[i] == '"' ==> i <= m
  {
    assert forall j :: start <= j < |u| ==> u[j] == u[start..][j - start];
    assert forall i :: m < i < |s| ==> s[i] == s[m + 1..][i - m - 1];
  }

  lemma HoldsAfter(u: string, start: nat, s: string, m: nat, k: nat, tail: string)
    requires HoldsUpTo(u, start, s, m) && k <= m && s[k..] == tail
    ensures HoldsUpTo(u, start + k, tail, m - k)
  {
    assert u[start + k..] == u[start..][k..] == s[..m][k..] == tail[..m - k];
    assert tail[m - k + 1..] == s[m + 1..];
    assert tail[m - k] == s[m];
  }

  /** The same behind one more quote. */
  lemma BehindQuote(u: string, start: nat, q: string, m: nat)
    requires HoldsUpTo(u, start, "\"" + q, m)
    ensures m <= |q| && |u| == start + m && (m > 0 ==> u[start] == '"' && q[m - 1] == '"')
    ensures forall j :: start < j < |u| ==> u[j] == q[j - start - 1]
    ensures forall i :: 0 <= i < |q| && q[i] == '"' ==> i < m
  {
    var s := "\"" + q;
    Holds(u, start, s, m);
    assert s[0] == '"' && forall i :: 0 <= i < |q| ==> s[1 + i] == q[i];
  }

  lemma AfterQuote(u: string, start: nat, q: string, m: nat, k: nat, tail: string)
    requires HoldsUpTo(u, start, "\"" + q, m) && k < m <= |q| && q[k..] == tail
    ensures HoldsUpTo(u, start + 1 + k, tail, m - 1 - k)
  {
    assert ("\"" + q)[1 + k..] == tail;
    HoldsAfter(u, start, "\"" + q, m, 1 + k, tail);
  }

  // ---------------------------------------------------------------- what reading adds

  lemma {:induction false} ItemsExtend(u: string, start: nat, sofar: seq<string>)
    requires start <= |u|
    ensures var r := ParseItems(u, start, sofar); r.Some? ==> sofar <= r.value
    decreases |u| - start, 1
  {
    hide Find;
    if start < |u| && u[start] == '"' {
      QuotedExtends(u, start + 1, "", sofar);
    } else {
      var end := Find(u, ';', start);
      if end < |u| {
        ItemsExtend(u, end + 1, if start != end then sofar + [u[start..end]] else sofar);
      }
    }
  }

  lemma {:induction false} QuotedExtends(u: string, start: nat, v: string, sofar: seq<string>)
    requires start <= |u|
    ensures var r := ParseQuoted(u, start, v, sofar);
            r.Some? ==> sofar < r.value && v <= r.value[|sofar|]
    decreases |u| - start, 0
  {
    hide ParseItems;
    if start < |u| {
      if u[start] != '"' {
        QuotedExtends(u, start + 1, v + [u[start]], sofar);
      } else if start + 1 < |u| {
        if u[start + 1] == '"' {
          QuotedExtends(u, start + 2, v + "\"", sofar);
        } else if u[start + 1] == ';' {
          ItemsExtend(u, start + 2, sofar + [v]);
        } else {
          QuotedExtends(u, start + 1, v + "\"", sofar);
        }
      }
    }
  }

  /** One element read differently makes the whole list differ. */
  lemma ItemDiffers(u: string, start: nat, sofar: seq<string>, e: string, v: string, rest: seq<string>)
    requires start <= |u| && e != v
    ensures ParseItems(u, start, sofar + [e]) != Some(sofar + [v] + NonEmpty(rest))
  {
    hide ParseItems, NonEmpty;
    ItemsExtend(u, start, sofar + [e]);
    assert (sofar + [e])[|sofar|] == e && (sofar + [v] + NonEmpty(rest))[|sofar|] == v;
  }

  lemma QuotedDiffers(u: string, start: nat, e: string, sofar: seq<string>, v: string, rest: seq<string>)
    requires start <= |u| && !(e <= v)
    ensures ParseQuoted(u, start, e, sofar) != Some(sofar + [v] + NonEmpty(rest))
  {
    hide ParseQuoted, NonEmpty;
    QuotedExtends(u, start, e, sofar);
    assert (sofar + [v] + NonEmpty(rest))[|sofar|] == v;
  }

  lemma QuotedStep(u: string, start: nat, v: string, sofar: seq<string>)
    requires start <= |u|
    ensures
      ParseQuoted(u, start, v, sofar)
      == if start == |u| then None
         else if u[start] != '"' then ParseQuoted(u, start + 1, v + [u[start]], sofar)
         else if start + 1 == |u| then Some(sofar + [v])
         else if u[start + 1] == '"' then ParseQuoted(u, start + 2, v + "\"", sofar)
         else if u[start + 1] == ';' then ParseItems(u, start + 2, sofar + [v])
         else ParseQuoted(u, start + 1, v + "\"", sofar)
  {
    hide ParseItems;
  }

  lemma TailStep(rest: seq<string>)
    requires rest != []
    ensures Tail(rest) == ";" + Item(rest[0]) + Tail(rest[1..])
    ensures Tail(rest) == [';'] + (Item(rest[0]) + Tail(rest[1..]))
    ensures [rest[0]] + rest[1..] == rest
  {
    hide Item, Tail;
    TailUnfolds(rest);
    Associates([';'], Item(rest[0]), Tail(rest[1..]));
  }

  lemma TailUnfolds(rest: seq<string>)
    requires rest != []
    ensures Tail(rest) == [';'] + Item(rest[0]) + Tail(rest[1..])
  {
    hide Item;
  }

  lemma NonEmptyOf(v: string, rest: seq<string>)
    ensures NonEmpty([v] + rest) == if v == "" then NonEmpty(rest) else [v] + NonEmpty(rest)
  {
    assert ([v] + rest)[1..] == rest;
  }

  // ---------------------------------------------------------------- reading in step, up to the cut

  function Quoted(w: string, rest: seq<string>): string { Doubled(w) + "\"" + Tail(rest) }

  lemma QuotedShape(w: string, rest: seq<string>)
    ensures w == "" ==> Quoted(w, rest) == "\"" + Tail(rest)
    ensures w != "" && w[0] == '"' ==> Quoted(w, rest) == "\"\"" + Quoted(w[1..], rest)
    ensures w != "" && w[0] != '"' ==> Quoted(w, rest) == [w[0]] + Quoted(w[1..], rest)
    ensures exists i :: 0 <= i < |Quoted(w, rest)| && Quoted(w, rest)[i] == '"' && i >= |w|
                        && (w != "" && w[0] == '"' ==> i > |w|)
  {
    var d := Doubled(w);
    DoubledLonger(w);
    assert Quoted(w, rest)[|d|] == '"';
    if w != "" {
      assert Quoted(w, rest) == (if w[0] == '"' then "\"\"" else [w[0]]) + (Doubled(w[1..]) + "\"" + Tail(rest));
    }
  }

  lemma {:induction false} DoubledLonger(w: string)
    ensures |Doubled(w)| >= |w| && (w != "" && w[0] == '"' ==> |Doubled(w)| > |w|)
  {
    if w != "" {
      DoubledLonger(w[1..]);
    }
  }

  /** In step inside quotes: the element may come out right, but then a later one does not. */
  lemma {:induction false} InStepQuoted(u: string, start: nat, m: nat, v: string, w: string, rest: seq<string>,
                                        sofar: seq<string>)
    requires HoldsUpTo(u, start, Quoted(w, rest), m)
    ensures ParseQuoted(u, start, v, sofar) != Some(sofar + [v + w] + NonEmpty(rest))
    decreases |u| - start, 0
  {
    hide Quoted, HoldsUpTo, ParseQuoted, ParseItems, NonEmpty, Tail, Item;
    var s := Quoted(w, rest);
    QuotedShape(w, rest);
    Holds(u, start, s, m);
    QuotedStep(u, start, v, sofar);
    if w == "" {
      if m > 0 {
        assert rest != [] by { NoTail(); }
        TailStep(rest);
        HoldsAfter(u, start, s, m, 2, Item(rest[0]) + Tail(rest[1..])) by { assert m >= 2; }
        InStepPlain(u, start + 2, m - 2, rest[0], rest[1..], sofar + [v]);
        assert v + w == v;
      }
    } else if w[0] == '"' {
      assert s[2..] == Quoted(w[1..], rest);
      HoldsAfter(u, start, s, m, 2, Quoted(w[1..], rest));
      InStepQuoted(u, start + 2, m - 2, v + "\"", w[1..], rest, sofar);
      assert (v + "\"") + w[1..] == v + w;
    } else {
      assert s[1..] == Quoted(w[1..], rest);
      HoldsAfter(u, start, s, m, 1, Quoted(w[1..], rest));
      InStepQuoted(u, start + 1, m - 1, v + [w[0]], w[1..], rest, sofar);
      assert (v + [w[0]]) + w[1..] == v + w;
    }
  }

  lemma NoTail()
    ensures Tail([]) == ""
  {
  }

  /** What stands behind an unquoted element and its separator. */
  lemma BehindItem(v: string, rest: seq<string>)
    requires !NeedsQuotes(v) && rest != []
    ensures |v| + 1 <= |Item(v) + Tail(rest)|
    ensures (Item(v) + Tail(rest))[|v| + 1..] == Item(rest[0]) + Tail(rest[1..])
  {
    assert Item(v) == v;
    TailStep(rest);
    hide Item, Tail, NeedsQuotes;
    CutAfter(v, ';', Item(rest[0]) + Tail(rest[1..]));
  }

  lemma CutAfter(v: string, c: char, tail: string)
    ensures (v + ([c] + tail))[|v| + 1..] == tail
  {
  }

  /** In step between elements: the last quote is in one that is still to come. */
  lemma {:induction false} InStepPlain(u: string, start: nat, m: nat, v: string, rest: seq<string>, sofar: seq<string>)
    requires HoldsUpTo(u, start, Item(v) + Tail(rest), m)
    ensures ParseItems(u, start, sofar) != Some(sofar + NonEmpty([v] + rest))
    decreases |u| - start, 1
  {
    hide HoldsUpTo, ParseQuoted, ParseItems, NonEmpty, Tail, Doubled, Find, Item, Quoted, NeedsQuotes;
    var s := Item(v) + Tail(rest);
    Holds(u, start, s, m);
    NonEmptyCons(v, rest, sofar);
    ElementShape(v, rest);
    if NeedsQuotes(v) {
      CutIsLater(u, start, m, v, rest);
      UnfoldQuoted(u, start, sofar);
      InStepQuoted(u, start + 1, m - 1, "", v, rest, sofar);
      assert "" + v == v;
    } else {
      if m <= |v| {
        CutElement(u, start, m, v, rest, sofar);
      } else {
        PlainElement(u, start, m, v, rest, sofar);
        TailStep(rest);
        var more := if v == "" then sofar else sofar + [v];
        BehindItem(v, rest);
        HoldsAfter(u, start, s, m, |v| + 1, Item(rest[0]) + Tail(rest[1..]));
        InStepPlain(u, start + |v| + 1, m - |v| - 1, rest[0], rest[1..], more);
      }
    }
  }

  lemma ElementShape(v: string, rest: seq<string>)
    ensures NeedsQuotes(v) ==> v != "" && Item(v) + Tail(rest) == "\"" + Quoted(v, rest)
    ensures NeedsQuotes(v) ==> (Item(v) + Tail(rest))[0] == '"'
    ensures !NeedsQuotes(v) ==> Item(v) == v
  {
    hide Tail, Doubled;
    if NeedsQuotes(v) {
      assert Item(v) + Tail(rest) == "\"" + Quoted(v, rest);
    }
  }

  /** The closing quote of an element is not its opening one. */
  lemma CutIsLater(u: string, start: nat, m: nat, v: string, rest: seq<string>)
    requires HoldsUpTo(u, start, "\"" + Quoted(v, rest), m)
    ensures m > |v| && |u| == start + m && u[start] == '"' && HoldsUpTo(u, start + 1, Quoted(v, rest), m - 1)
  {
    hide Quoted, HoldsUpTo;
    var s, q := "\"" + Quoted(v, rest), Quoted(v, rest);
    QuotedShape(v, rest);
    Holds(u, start, s, m);
    assert s[1..] == q && forall i :: 0 <= i < |q| ==> s[1 + i] == q[i];
    HoldsAfter(u, start, s, m, 1, q);
  }

  /** An unquoted element before the cut is read as it is. */
  lemma PlainElement(u: string, start: nat, m: nat, v: string, rest: seq<string>, sofar: seq<string>)
    requires HoldsUpTo(u, start, v + Tail(rest), m) && !NeedsQuotes(v) && m > |v|
    ensures rest != [] && start + |v| < |u|
    ensures ParseItems(u, start, sofar) == ParseItems(u, start + |v| + 1, if v == "" then sofar else sofar + [v])
  {
    hide HoldsUpTo, ParseItems, Tail, Item;
    var s := v + Tail(rest);
    Holds(u, start, s, m);
    NoTail();
    if rest != [] {
      TailStep(rest);
      assert s[|v|] == ';';
    }
    assert forall i :: 0 <= i < |v| ==> s[i] == v[i] && v[i] in v;
    UnfoldPlain(u, start, sofar);
    FindIs(u, ';', start, start + |v|);
    assert u[start..start + |v|] == v;
  }

  /** With the cut inside it an unquoted element is read in part, and as the last one. */
  lemma CutElement(u: string, start: nat, m: nat, v: string, rest: seq<string>, sofar: seq<string>)
    requires HoldsUpTo(u, start, v + Tail(rest), m) && !NeedsQuotes(v) && m <= |v|
    ensures ParseItems(u, start, sofar) != Some(sofar + NonEmpty([v] + rest))
  {
    hide HoldsUpTo, ParseItems, Tail, Item, NonEmpty;
    var s := v + Tail(rest);
    Holds(u, start, s, m);
    NoTail();
    NonEmptyOf(v, rest);
    if rest != [] {
      TailStep(rest);
      assert s[|v|] == ';';
    }
    assert forall i :: 0 <= i < |v| ==> s[i] == v[i] && v[i] in v;
    UnfoldPlain(u, start, sofar);
    FindIs(u, ';', start, |u|);
    assert |u[start..]| < |v|;
    assert sofar + ([v] + NonEmpty(rest)) == sofar + [v] + NonEmpty(rest);
    assert (sofar + [v] + NonEmpty(rest))[|sofar|] == v;
  }

  // ---------------------------------------------------------------- reading out of step

  lemma HalfAQuoteAtEnd(u: string, start: nat, m: nat, v: string, rest: seq<string>, sofar: seq<string>)
    requires HoldsUpTo(u, start, "\"" + Quoted("", rest), m)
    ensures ParseQuoted(u, start, v, sofar) != Some(sofar + [v + "\""] + NonEmpty(rest))
  {
    hide Quoted, HoldsUpTo, ParseQuoted, ParseItems, NonEmpty, Tail, Item, Doubled;
    var w := v + "\"";
    QuotedShape("", rest);
    BehindQuote(u, start, Quoted("", rest), m);
    QuotedStep(u, start, v, sofar);
    NoTail();
    if rest != [] {
      TailStep(rest);
    }
    ShorterItem(v, w, rest, sofar);
    if m > 1 {
      QuotedStep(u, start + 2, w, sofar);
      QuotedDiffers(u, start + 3, w + ";", sofar, w, rest);
    }
  }

  /** Inside quotes with the closing one next: the first quote of a doubled one has been taken for a whole. */
  lemma {:induction false} HalfAQuoteBehind(u: string, start: nat, m: nat, v: string, g: string, rest: seq<string>,
                                            sofar: seq<string>)
    requires HoldsUpTo(u, start, "\"" + Quoted(g, rest), m)
    ensures ParseQuoted(u, start, v, sofar) != Some(sofar + [v + "\"" + g] + NonEmpty(rest))
    decreases |u| - start
  {
    hide Quoted, HoldsUpTo, ParseQuoted, ParseItems, NonEmpty, Tail, Item, Doubled;
    if g == "" {
      HalfAQuoteAtEnd(u, start, m, v, rest, sofar);
      assert v + "\"" + g == v + "\"";
      return;
    }
    QuotedShape(g, rest);
    BehindQuote(u, start, Quoted(g, rest), m);
    QuotedStep(u, start, v, sofar);
    var w := v + "\"";
    if g[0] == '"' {
      AfterQuote(u, start, Quoted(g, rest), m, 1, "\"" + Quoted(g[1..], rest));
      HalfAQuoteBehind(u, start + 2, m - 2, w, g[1..], rest, sofar);
      assert w + "\"" + g[1..] == w + g;
    } else if g[0] == ';' {
      ItemDiffers(u, start + 2, sofar, v, w + g, rest);
    } else {
      AfterQuote(u, start, Quoted(g, rest), m, 0, Quoted(g, rest));
      InStepQuoted(u, start + 1, m - 1, w, g, rest, sofar);
    }
  }

  lemma ShorterItem(e: string, v: string, rest: seq<string>, sofar: seq<string>)
    requires e != v
    ensures sofar + [e] != sofar + [v] + NonEmpty(rest)
  {
    assert (sofar + [e])[|sofar|] == e && (sofar + [v] + NonEmpty(rest))[|sofar|] == v;
  }

  predicate AllSemicolons(v: string) { forall k :: 0 <= k < |v| ==> v[k] == ';' }

  lemma NotSemicolons(f: string, v: string)
    requires AllSemicolons(v)
    ensures !(f + "\"" <= v)
  {
    assert (f + "\"")[|f|] == '"';
  }

  /** Between elements, in the text of one that contains semicolons, of which only some have been passed. */
  lemma {:induction false} InsideOut(u: string, start: nat, m: nat, p: string, w: string, rest: seq<string>,
                                     sofar: seq<string>)
    requires HoldsUpTo(u, start, Quoted(w, rest), m) && AllSemicolons(p)
    requires ';' in p + w && (p + w)[0] != '"'
    ensures ParseItems(u, start, sofar) != Some(sofar + [p + w] + NonEmpty(rest))
    decreases |u| - start, 1
  {
    hide Quoted, HoldsUpTo, ParseQuoted, ParseItems, NonEmpty, Tail, Item;
    var s, v := Quoted(w, rest), p + w;
    QuotedShape(w, rest);
    Holds(u, start, s, m);
    if w == "" {
      assert v == p;
      if m == 0 {
        UnfoldPlain(u, start, sofar);
        assert |sofar + [v] + NonEmpty(rest)| > |sofar|;
      } else {
        UnfoldQuoted(u, start, sofar);
        HoldsAfter(u, start, s, m, 1, Tail(rest));
        SeparatorsQuoted(u, start + 1, m - 1, "", v, rest, sofar);
      }
    } else if w[0] == ';' {
      UnfoldPlain(u, start, sofar);
      FindIs(u, ';', start, start);
      HoldsAfter(u, start, s, m, 1, Quoted(w[1..], rest));
      assert p + [';'] + w[1..] == v;
      InsideOut(u, start + 1, m - 1, p + [';'], w[1..], rest, sofar);
    } else if w[0] == '"' {
      assert p != "" && v[0] == ';';
      UnfoldQuoted(u, start, sofar);
      EmptyQuotes(u, start + 1, v, rest, sofar);
    } else {
      UnfoldPlain(u, start, sofar);
      var end := Find(u, ';', start);
      var e := u[start..end];
      assert ';' !in e;
      ShorterItem(e, v, rest, sofar);
      if end < |u| {
        ItemDiffers(u, end + 1, sofar, e, v, rest);
      }
    }
  }

  /** Two quotes at the start of an element give an empty one, or one that starts with a quote. */
  lemma EmptyQuotes(u: string, start: nat, v: string, rest: seq<string>, sofar: seq<string>)
    requires start < |u| && u[start] == '"' && v != "" && v[0] != '"'
    ensures ParseQuoted(u, start, "", sofar) != Some(sofar + [v] + NonEmpty(rest))
  {
    hide ParseQuoted, ParseItems, NonEmpty;
    QuotedStep(u, start, "", sofar);
    ShorterItem("", v, rest, sofar);
    if start + 1 < |u| {
      if u[start + 1] == '"' {
        QuotedDiffers(u, start + 2, "" + "\"", sofar, v, rest);
      } else if u[start + 1] == ';' {
        ItemDiffers(u, start + 2, sofar, "", v, rest);
      } else {
        QuotedDiffers(u, start + 1, "" + "\"", sofar, v, rest);
      }
    }
  }

  /** Inside quotes over the separators, after an element of nothing but semicolons. */
  lemma {:induction false} SeparatorsQuoted(u: string, start: nat, m: nat, e: string, v: string, rest: seq<string>,
                                            sofar: seq<string>)
    requires HoldsUpTo(u, start, Tail(rest), m) && AllSemicolons(e) && AllSemicolons(v)
    ensures ParseQuoted(u, start, e, sofar) != Some(sofar + [v] + NonEmpty(rest))
    decreases |u| - start, 0
  {
    hide Quoted, HoldsUpTo, ParseQuoted, ParseItems, NonEmpty, Tail, Item, NeedsQuotes, AllSemicolons;
    PastSeparator(u, start, m, e, rest, sofar);
    var x, later, f := rest[0], rest[1..], e + [';'];
    OneMoreSemicolon(e);
    assert [x] + later == rest;
    ElementShape(x, later);
    if x == "" {
      NoQuotesForEmpty();
      NonEmptyOf(x, later);
      assert Item(x) + Tail(later) == Tail(later);
      SeparatorsQuoted(u, start + 1, m - 1, f, v, later, sofar);
    } else if NeedsQuotes(x) {
      ThenQuoted(u, start + 1, m - 1, f, v, x, later, sofar);
    } else {
      ThenPlain(u, start + 1, m - 1, f, v, x, later, sofar);
    }
  }

  lemma OneMoreSemicolon(e: string)
    requires AllSemicolons(e)
    ensures AllSemicolons(e + [';'])
  {
  }

  lemma PastSeparator(u: string, start: nat, m: nat, e: string, rest: seq<string>, sofar: seq<string>)
    requires HoldsUpTo(u, start, Tail(rest), m)
    ensures rest != [] && m > 0 && |u| == start + m
    ensures HoldsUpTo(u, start + 1, Item(rest[0]) + Tail(rest[1..]), m - 1)
    ensures ParseQuoted(u, start, e, sofar) == ParseQuoted(u, start + 1, e + [';'], sofar)
  {
    hide HoldsUpTo, ParseQuoted, ParseItems, Tail, Item;
    var s := Tail(rest);
    Holds(u, start, s, m);
    NoTail();
    TailStep(rest);
    assert s[0] == ';' && s[1..] == Item(rest[0]) + Tail(rest[1..]);
    HoldsAfter(u, start, s, m, 1, Item(rest[0]) + Tail(rest[1..]));
    QuotedStep(u, start, e, sofar);
  }

  lemma ThenPlain(u: string, start: nat, m: nat, f: string, v: string, x: string, later: seq<string>,
                  sofar: seq<string>)
    requires HoldsUpTo(u, start, x + Tail(later), m) && AllSemicolons(v) && x != "" && !NeedsQuotes(x)
    ensures ParseQuoted(u, start, f, sofar) != Some(sofar + [v] + NonEmpty([x] + later))
  {
    hide HoldsUpTo, ParseQuoted, NonEmpty, Tail, NeedsQuotes;
    var s := x + Tail(later);
    Holds(u, start, s, m);
    PlainStarts(x);
    assert s[0] == x[0];
    QuotedStep(u, start, f, sofar);
    assert (f + [x[0]])[|f|] == x[0];
    QuotedDiffers(u, start + 1, f + [x[0]], sofar, v, [x] + later);
  }

  lemma {:induction false} ThenQuoted(u: string, start: nat, m: nat, f: string, v: string, x: string,
                                      later: seq<string>, sofar: seq<string>)
    requires HoldsUpTo(u, start, "\"" + Quoted(x, later), m) && AllSemicolons(v) && x != ""
    ensures ParseQuoted(u, start, f, sofar) != Some(sofar + [v] + NonEmpty([x] + later))
    decreases |u| - start, 1
  {
    hide Quoted, HoldsUpTo, ParseQuoted, ParseItems, NonEmpty, Tail, Item, Doubled, AllSemicolons;
    HeldBehindQuote(u, start, m, x, later);
    QuotedStep(u, start, f, sofar);
    if x[0] != ';' {
      NotSemicolons(f, v);
      QuotedDiffers(u, if x[0] == '"' then start + 2 else start + 1, f + "\"", sofar, v, [x] + later);
    } else if f != v {
      ItemDiffers(u, start + 2, sofar, f, v, [x] + later);
    } else {
      OutAgain(u, start, m, v, x, later, sofar);
    }
  }

  /** What stands behind a quote that is followed by a quoted element. */
  lemma HeldBehindQuote(u: string, start: nat, m: nat, x: string, later: seq<string>)
    requires HoldsUpTo(u, start, "\"" + Quoted(x, later), m) && x != ""
    ensures m >= 2 && start + 2 <= |u| && u[start] == '"' && u[start + 1] == x[0]
    ensures x[0] == ';' ==> HoldsUpTo(u, start + 2, Quoted(x[1..], later), m - 2)
  {
    hide Quoted, HoldsUpTo, Tail, Doubled;
    QuotedShape(x, later);
    BehindQuote(u, start, Quoted(x, later), m);
    if x[0] == ';' {
      AfterQuote(u, start, Quoted(x, later), m, 1, Quoted(x[1..], later));
    }
  }

  lemma OneSemicolon(x: string)
    requires x != "" && x[0] == ';'
    ensures AllSemicolons([';']) && [';'] + x[1..] == x && ';' in x
  {
  }

  lemma {:induction false} OutAgain(u: string, start: nat, m: nat, v: string, x: string, later: seq<string>,
                                    sofar: seq<string>)
    requires HoldsUpTo(u, start, "\"" + Quoted(x, later), m) && x != "" && x[0] == ';'
    ensures start + 2 <= |u| && ParseItems(u, start + 2, sofar + [v]) != Some(sofar + [v] + NonEmpty([x] + later))
    decreases |u| - start, 0
  {
    hide Quoted, HoldsUpTo, ParseItems, NonEmpty, AllSemicolons;
    HeldBehindQuote(u, start, m, x, later);
    OneSemicolon(x);
    InsideOut(u, start + 2, m - 2, [';'], x[1..], later, sofar + [v]);
    NonEmptyOf(x, later);
    assert sofar + [v] + ([x] + NonEmpty(later)) == sofar + [v] + [x] + NonEmpty(later);
  }

  lemma PlainStarts(x: string)
    requires x != "" && !NeedsQuotes(x)
    ensures x[0] != ';' && x[0] != '"'
  {
    assert x[0] in x;
  }

  // ---------------------------------------------------------------- the whole list

  /** A list whose first element is written in quotes never survives losing the first and the last quote. */
  lemma QuotedFirstIsLost(v: string, rest: seq<string>)
    requires NeedsQuotes(v)
    ensures Unquoted(Item(v) + Tail(rest)) != ""
    ensures ParseItems(Unquoted(Item(v) + Tail(rest)), 0, []) != Some([v] + NonEmpty(rest))
  {
    hide Quoted, HoldsUpTo, ParseQuoted, ParseItems, NonEmpty, Tail, Item, NeedsQuotes, Unquoted;
    ElementShape(v, rest);
    var u := Unquoted(Item(v) + Tail(rest));
    var m := FirstCut(v, rest);
    Holds(u, 0, Quoted(v, rest), m);
    assert [] + [v] + NonEmpty(rest) == [v] + NonEmpty(rest);
    if v[0] == '"' {
      UnfoldQuoted(u, 0, []);
      HalfAQuoteBehind(u, 1, m - 1, "", v[1..], rest, []);
      assert "" + "\"" + v[1..] == v;
    } else {
      assert "" + v == v;
      SemicolonInside(v);
      InsideOut(u, 0, m, "", v, rest, []);
    }
  }

  lemma SemicolonInside(v: string)
    requires NeedsQuotes(v) && v[0] != '"'
    ensures ';' in v && AllSemicolons("")
  {
  }

  lemma FirstCut(v: string, rest: seq<string>) returns (m: nat)
    requires v != ""
    ensures HoldsUpTo(Unquoted("\"" + Quoted(v, rest)), 0, Quoted(v, rest), m) && m > 0
    ensures v[0] == '"' ==> var u := Unquoted("\"" + Quoted(v, rest));
                            m > 1 && u[0] == '"' && HoldsUpTo(u, 1, "\"" + Quoted(v[1..], rest), m - 1)
  {
    hide Quoted, HoldsUpTo, Unquoted, LastQuote;
    var t, s := "\"" + Quoted(v, rest), Quoted(v, rest);
    var u, last := Unquoted(t), LastQuote(t, |t|);
    QuotedShape(v, rest);
    assert t[1..] == s && forall i :: 0 <= i < |s| ==> t[1 + i] == s[i];
    m := last - 1;
    LostQuotes(t, s, last);
    if v[0] == '"' {
      AfterDoubled(u, m, v, rest);
    }
  }

  lemma AfterDoubled(u: string, m: nat, v: string, rest: seq<string>)
    requires HoldsUpTo(u, 0, Quoted(v, rest), m) && v != "" && v[0] == '"'
    ensures m > 1 && u[0] == '"' && HoldsUpTo(u, 1, "\"" + Quoted(v[1..], rest), m - 1)
  {
    hide Quoted, HoldsUpTo;
    var s := Quoted(v, rest);
    QuotedShape(v, rest);
    Holds(u, 0, s, m);
    assert s[1..] == "\"" + Quoted(v[1..], rest);
    HoldsAfter(u, 0, s, m, 1, "\"" + Quoted(v[1..], rest));
  }

  lemma LostQuotes(t: string, s: string, last: nat)
    requires t == "\"" + s && last == LastQuote(t, |t|) && last >= 1
    ensures HoldsUpTo(Unquoted(t), 0, s, last - 1)
  {
    var u := Unquoted(t);
    assert u == t[1..last] == s[..last - 1] && u[0..] == u;
    assert s[last..] == t[last + 1..];
  }

  /** The first element that is not empty. */
  function First(l: seq<string>): (v: string)
    requires NonEmpty(l) != []
    ensures v == NonEmpty(l)[0]
  {
    if l[0] != "" then l[0] else First(l[1..])
  }

  lemma UnquotedPlain(t: string)
    requires t == "" || t[0] != '"'
    ensures Unquoted(t) == t
  {
  }

  /** The list comes back from the text an INI file would read exactly if its first element needs no quotes. */
  lemma UnquotedListLoads(l: seq<string>, current: seq<string>)
    requires NonEmpty(l) != []
    ensures LoadList(Unquoted(SaveList(l)), current) == Some(NonEmpty(l)) <==> !NeedsQuotes(First(l))
  {
    hide ParseItems, NonEmpty, Tail, Unquoted, NeedsQuotes, First, SaveList, Item;
    SavedIsEmpty(l);
    var t := SaveList(l);
    var k :| 0 <= k < |l| && l[k] != "" && NonEmpty(l) == NonEmpty([l[k]] + l[k + 1..])
             && t == Item(l[k]) + Tail(l[k + 1..]);
    var v, rest := l[k], l[k + 1..];
    NonEmptyOf(v, rest);
    assert First(l) == v;
    if NeedsQuotes(v) {
      QuotedFirstIsLost(v, rest);
      LoadOfText(Unquoted(t), current);
    } else {
      ElementShape(v, rest);
      PlainStarts(v);
      UnquotedPlain(t);
      ListOption.LoadOfSave(l, current);
    }
  }

  lemma LoadOfText(u: string, current: seq<string>)
    ensures LoadList(u, current) == if u == "" then Some(current) else ParseItems(u, 0, [])
  {
  }

  // ---------------------------------------------------------------- through the file

  lemma {:induction false} NewlineInDoubled(v: string)
    ensures '\n' in Doubled(v) <==> '\n' in v
  {
    if v != "" {
      NewlineInDoubled(v[1..]);
      assert v == [v[0]] + v[1..];
    }
  }

  lemma {:induction false} NewlineInSaved(s: string, l: seq<string>)
    ensures '\n' in SaveAfter(s, l) <==> '\n' in s || exists v :: v in l && '\n' in v
    decreases |l|
  {
    hide Doubled;
    if l != [] {
      NewlineInDoubled(l[0]);
      NewlineInSaved((if s == "" then "" else s + ";") + Item(l[0]), l[1..]);
      assert l == [l[0]] + l[1..];
    }
  }

  /** The saved text spans lines exactly if some element does. */
  lemma SavedListLines(l: seq<string>)
    ensures '\n' in SaveList(l) <==> exists v :: v in l && '\n' in v
  {
    hide SaveAfter;
    NewlineInSaved("", l);
  }

  /** A list kept in an INI file with readable names and values on one line comes back from the saved file
      exactly if its first non-empty element needs no quotes. */
  lemma ListThroughIni(f: Sections, section: string, name: string, l: seq<string>, current: seq<string>)
    requires Readable(Persistent(f)) && section in f && name in f[section]
    requires f[section][name].value == SaveList(l) && NonEmpty(l) != []
    ensures
      var back := Lookup(LoadText(map[], SaveText(f)), section, name);
      && back.Some?
      && (LoadList(back.value, current) == Some(NonEmpty(l)) <==> !NeedsQuotes(First(l)))
  {
    hide Readable, SaveText, LoadText, SaveList, LoadList, NonEmpty, First, NeedsQuotes, Unquoted;
    IniRoundTrip.LoadOfSave(f);
    SavedIsEmpty(l);
    UnquotedListLoads(l, current);
    assert name in Kept(f[section]);
  }
}
