/** Lists of strings as they may be written by hand: empty places, and quotes inside of a quoted element. */
module ListTexts {
  import opened Sequences
  import opened Wrappers
  import opened ListOption

  predicate QuoteFree(s: string) { '"' !in s }

  /** Characters that are no quotes are taken as they are. */
  lemma {:induction false} PlainRun(t: string, start: nat, s: string, v: string, sofar: seq<string>)
    requires start + |s| <= |t| && t[start..start + |s|] == s && QuoteFree(s)
    ensures ParseQuoted(t, start, v, sofar) == ParseQuoted(t, start + |s|, v + s, sofar)
    decreases |s|
  {
    if s == "" {
      assert v + s == v;
    } else {
      assert t[start] == t[start..start + |s|][0] == s[0];
      assert t[start + 1..start + |s|] == t[start..start + |s|][1..] == s[1..];
      PlainRun(t, start + 1, s[1..], v + [s[0]], sofar);
      assert v + [s[0]] + s[1..] == v + s;
    }
  }

  /** Inside of a quoted element two quotes stand for one, and so does one that neither a semicolon nor the end follows;
      an element without a closing quote spoils the list. */
  lemma QuotesInside(v: string, w: string)
    requires QuoteFree(v) && QuoteFree(w)
    ensures LoadsAs("\"" + v + "\"", [v])
    ensures LoadsAs("\"" + v + "\"\"" + w + "\"", [v + "\"" + w])
    ensures w != "" && w[0] != ';' ==> LoadsAs("\"" + v + "\"" + w + "\"", [v + "\"" + w])
    ensures LoadList("\"" + v, []) == None
  {
    WholeElement(v);
    DoubledQuote(v, w);
    if w != "" && w[0] != ';' {
      LoneQuote(v, w);
    }
    OpenElement(v);
  }

  /** What a text is read as, whatever the list was before. */
  ghost predicate LoadsAs(t: string, l: seq<string>) { forall current :: LoadList(t, current) == Some(l) }

  lemma LoadsItems(t: string, l: seq<string>)
    requires t != "" && ParseItems(t, 0, []) == Some(l)
    ensures LoadsAs(t, l)
  {
    hide ParseItems;
  }

  /** What a text is read as that starts with a quote and some characters that are none. */
  lemma QuotedStart(t: string, v: string)
    requires QuoteFree(v) && |t| >= |v| + 1 && t[..|v| + 1] == "\"" + v
    ensures ParseItems(t, 0, []) == ParseQuoted(t, |v| + 1, v, [])
  {
    assert t[0] == t[..|v| + 1][0] == '"';
    assert t[1..1 + |v|] == t[..|v| + 1][1..] == v;
    UnfoldQuoted(t, 0, []);
    PlainRun(t, 1, v, "", []);
    assert "" + v == v;
  }

  lemma WholeElement(v: string)
    requires QuoteFree(v)
    ensures LoadsAs("\"" + v + "\"", [v])
  {
    var t := "\"" + v + "\"";
    QuotedStart(t, v);
    assert [] + [v] == [v];
    LoadsItems(t, [v]);
  }

  lemma DoubledQuote(v: string, w: string)
    requires QuoteFree(v) && QuoteFree(w)
    ensures LoadsAs("\"" + v + "\"\"" + w + "\"", [v + "\"" + w])
  {
    var t := "\"" + v + "\"\"" + w + "\"";
    QuotedStart(t, v);
    assert t[|v| + 1] == '"' && t[|v| + 2] == '"';
    PlainRun(t, |v| + 3, w, v + "\"", []);
    var x := v + "\"" + w;
    assert [] + [x] == [x];
    LoadsItems(t, [x]);
  }

  lemma LoneQuote(v: string, w: string)
    requires QuoteFree(v) && QuoteFree(w) && w != "" && w[0] != ';'
    ensures LoadsAs("\"" + v + "\"" + w + "\"", [v + "\"" + w])
  {
    var t := "\"" + v + "\"" + w + "\"";
    QuotedStart(t, v);
    assert t[|v| + 1] == '"' && t[|v| + 2] == w[0] && w[0] in w;
    PlainRun(t, |v| + 2, w, v + "\"", []);
    var x := v + "\"" + w;
    assert [] + [x] == [x];
    LoadsItems(t, [x]);
  }

  lemma OpenElement(v: string)
    requires QuoteFree(v)
    ensures LoadList("\"" + v, []) == None
  {
    var t := "\"" + v;
    QuotedStart(t, v);
  }

  // ---------------------------------------------------------------- empty places

  /** Elements with a semicolon between them, none of which needs quotes. */
  function Joined(l: seq<string>): string
    requires l != []
  {
    if |l| == 1 then l[0] else l[0] + ";" + Joined(l[1..])
  }

  predicate AllPlain(l: seq<string>) { forall v :: v in l ==> ';' !in v && (v == "" || v[0] != '"') }

  lemma {:induction false} JoinedIsTail(l: seq<string>)
    requires l != [] && AllPlain(l)
    ensures Joined(l) == Item(l[0]) + Tail(l[1..])
  {
    assert l[0] in l;
    if |l| == 1 {
      assert Tail([]) == "" && l[0] + "" == l[0];
    } else {
      JoinedIsTail(l[1..]);
      hide Item;
      assert l[0] + ";" + (Item(l[1]) + Tail(l[2..])) == l[0] + (";" + Item(l[1]) + Tail(l[2..]));
      assert l[1..][1..] == l[2..];
    }
  }

  /** Empty places are left out, wherever they are; a text of no more than one of them leaves the list as it was. */
  lemma EmptyPlacesAreLeftOut(l: seq<string>, current: seq<string>)
    requires l != [] && AllPlain(l)
    ensures Joined(l) != "" ==> LoadsAs(Joined(l), NonEmpty(l))
    ensures LoadList("", current) == Some(current)
  {
    var t := Joined(l);
    if t != "" {
      JoinedIsTail(l);
      hide Joined, Tail, Item, NonEmpty, ParseItems;
      assert t[0..] == t && [l[0]] + l[1..] == l && [] + NonEmpty(l) == NonEmpty(l);
      ParseAt(t, 0, l[0], l[1..], []);
      LoadsItems(t, NonEmpty(l));
    }
  }
}
