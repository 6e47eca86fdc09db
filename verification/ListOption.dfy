/** The list-of-strings option: elements joined by semicolons, quoted when they need it. */
module ListOption {
  import opened Sequences
  import opened Wrappers

  // ---------------------------------------------------------------- writing

  predicate NeedsQuotes(v: string) { ';' in v || (v != "" && v[0] == '"') }

  /** With every quote doubled. */
  function Doubled(v: string): string {
    if v == "" then "" else (if v[0] == '"' then "\"\"" else [v[0]]) + Doubled(v[1..])
  }

  function Item(v: string): string { if NeedsQuotes(v) then "\"" + Doubled(v) + "\"" else v }

  /** The text after the elements of a list have been added to what is there. */
  function SaveAfter(s: string, l: seq<string>): string
    decreases |l|
  {
    if l == [] then s else SaveAfter((if s == "" then "" else s + ";") + Item(l[0]), l[1..])
  }

  function SaveList(l: seq<string>): string { SaveAfter("", l) }

  // ---------------------------------------------------------------- reading

  /** Elements from a position on, after those already read; None for a quoted element without end. */
  function ParseItems(t: string, start: nat, sofar: seq<string>): Option<seq<string>>
    requires start <= |t|
    decreases |t| - start
  {
    if start < |t| && t[start] == '"' then ParseQuoted(t, start + 1, "", sofar)
    else
      var end := Find(t, ';', start);
      var more := if start != end then sofar + [t[start..end]] else sofar;
      if end == |t| then Some(more) else ParseItems(t, end + 1, more)
  }

  function ParseQuoted(t: string, start: nat, v: string, sofar: seq<string>): Option<seq<string>>
    requires start <= |t|
    decreases |t| - start
  {
    if start == |t| then None
    else if t[start] != '"' then ParseQuoted(t, start + 1, v + [t[start]], sofar)
    else if start + 1 == |t| then Some(sofar + [v])
    else if t[start + 1] == '"' then ParseQuoted(t, start + 2, v + "\"", sofar)
    else if t[start + 1] == ';' then ParseItems(t, start + 2, sofar + [v])
    else ParseQuoted(t, start + 1, v + "\"", sofar)
  }

  /** The value of the option once the text is loaded; an empty text leaves the current one. */
  function LoadList(t: string, current: seq<string>): Option<seq<string>> {
    if t == "" then Some(current) else ParseItems(t, 0, [])
  }

  function NonEmpty(l: seq<string>): (r: seq<string>)
    ensures forall v :: v in r <==> v in l && v != ""
  {
    if l == [] then [] else (if l[0] == "" then [] else [l[0]]) + NonEmpty(l[1..])
  }

  // ---------------------------------------------------------------- round trip

  function Tail(l: seq<string>): string { if l == [] then "" else ";" + Item(l[0]) + Tail(l[1..]) }

  lemma {:induction false} SaveAfterIs(s: string, l: seq<string>)
    requires s != ""
    ensures SaveAfter(s, l) == s + Tail(l)
    decreases |l|
  {
    hide Item;
    if l == [] {
      assert s + "" == s;
    } else {
      SaveAfterIs(s + ";" + Item(l[0]), l[1..]);
      assert (s + ";" + Item(l[0])) + Tail(l[1..]) == s + (";" + Item(l[0]) + Tail(l[1..]));
    }
  }

  lemma ItemNotEmpty(v: string)
    ensures Item(v) == "" <==> v == ""
  {
  }

  lemma NonEmptyCons(v: string, rest: seq<string>, sofar: seq<string>)
    ensures sofar + NonEmpty([v] + rest) == (if v == "" then sofar else sofar + [v]) + NonEmpty(rest)
  {
    assert ([v] + rest)[1..] == rest;
  }

  /** Where an unquoted element starts and ends. */
  lemma PlainItem(t: string, start: nat, v: string, rest: seq<string>)
    requires start <= |t| && t[start..] == v + Tail(rest) && !NeedsQuotes(v)
    ensures start + |v| <= |t| && t[start + |v|..] == Tail(rest) && t[start..start + |v|] == v
    ensures Find(t, ';', start) == start + |v| && (start < |t| ==> t[start] != '"')
  {
    var end := start + |v|;
    assert forall k :: 0 <= k < |v| ==> t[start + k] == t[start..][k] == v[k] && v[k] in v;
    assert t[end..] == t[start..][|v|..] == Tail(rest);
    assert end < |t| ==> t[end] == t[end..][0];
    FindIs(t, ';', start, end);
  }

  lemma UnfoldQuoted(t: string, start: nat, sofar: seq<string>)
    requires start < |t| && t[start] == '"'
    ensures ParseItems(t, start, sofar) == ParseQuoted(t, start + 1, "", sofar)
  {
  }

  lemma UnfoldPlain(t: string, start: nat, sofar: seq<string>)
    requires start <= |t| && (start < |t| ==> t[start] != '"')
    ensures
      var end := Find(t, ';', start);
      var more := if start != end then sofar + [t[start..end]] else sofar;
      ParseItems(t, start, sofar) == if end == |t| then Some(more) else ParseItems(t, end + 1, more)
  {
  }

  /** What stands where a quoted element starts. */
  lemma QuotedItem(t: string, start: nat, v: string, rest: seq<string>)
    requires start <= |t| && t[start..] == Item(v) + Tail(rest) && NeedsQuotes(v)
    ensures start < |t| && t[start] == '"' && v != ""
    ensures t[start + 1..] == Doubled(v) + "\"" + Tail(rest)
  {
    NoQuotesForEmpty();
    hide Tail, Doubled, NeedsQuotes;
    assert t[start] == t[start..][0];
    assert t[start + 1..] == t[start..][1..];
  }

  /** What is read from the rest of a text that starts with an element and goes on with others. */
  lemma {:induction false} ParseAt(t: string, start: nat, v: string, rest: seq<string>, sofar: seq<string>)
    requires start <= |t| && t[start..] == Item(v) + Tail(rest)
    ensures ParseItems(t, start, sofar) == Some(sofar + NonEmpty([v] + rest))
    decreases |t| - start
  {
    hide NonEmpty, Tail, NeedsQuotes, Find, ParseItems, ParseQuoted, Doubled;
    NonEmptyCons(v, rest, sofar);
    if NeedsQuotes(v) {
      QuotedItem(t, start, v, rest);
      UnfoldQuoted(t, start, sofar);
      ParseQuotedAt(t, start + 1, "", v, rest, sofar);
      assert "" + v == v;
    } else {
      assert Item(v) == v;
      hide Item;
      PlainItem(t, start, v, rest);
      UnfoldPlain(t, start, sofar);
      AfterItem(t, start + |v|, rest, if v == "" then sofar else sofar + [v]);
    }
  }

  lemma NoQuotesForEmpty()
    ensures !NeedsQuotes("")
  {
  }

  /** At the end of an element. */
  lemma {:induction false} AfterItem(t: string, end: nat, rest: seq<string>, sofar: seq<string>)
    requires end <= |t| && t[end..] == Tail(rest)
    ensures end == |t| <==> rest == []
    ensures rest == [] ==> sofar + NonEmpty(rest) == sofar
    ensures rest != [] ==> t[end] == ';' && ParseItems(t, end + 1, sofar) == Some(sofar + NonEmpty(rest))
    decreases |t| - end, 0
  {
    if rest != [] {
      assert t[end] == t[end..][0];
      assert t[end + 1..] == t[end..][1..] == Item(rest[0]) + Tail(rest[1..]);
      ParseAt(t, end + 1, rest[0], rest[1..], sofar);
      assert [rest[0]] + rest[1..] == rest;
    }
  }

  lemma {:induction false} ParseQuotedAt(t: string, start: nat, v: string, w: string, rest: seq<string>,
                                         sofar: seq<string>)
    requires start <= |t| && t[start..] == Doubled(w) + "\"" + Tail(rest)
    ensures ParseQuoted(t, start, v, sofar) == Some(sofar + [v + w] + NonEmpty(rest))
    decreases |t| - start
  {
    hide NonEmpty, Tail, ParseItems;
    assert t[start] == t[start..][0];
    assert start + 1 < |t| ==> t[start + 1] == t[start..][1];
    if w == "" {
      assert t[start + 1..] == t[start..][1..] == Tail(rest);
      AfterItem(t, start + 1, rest, sofar + [v]);
      assert v + w == v;
    } else if w[0] == '"' {
      assert t[start + 2..] == t[start..][2..] == Doubled(w[1..]) + "\"" + Tail(rest);
      ParseQuotedAt(t, start + 2, v + "\"", w[1..], rest, sofar);
      assert (v + "\"") + w[1..] == v + w;
    } else {
      assert t[start + 1..] == t[start..][1..] == Doubled(w[1..]) + "\"" + Tail(rest);
      ParseQuotedAt(t, start + 1, v + [w[0]], w[1..], rest, sofar);
      assert (v + [w[0]]) + w[1..] == v + w;
    }
  }

  lemma {:induction false} SavedIsEmpty(l: seq<string>)
    ensures SaveList(l) == "" <==> NonEmpty(l) == []
    ensures NonEmpty(l) != []
            ==> (exists k :: 0 <= k < |l| && l[k] != "" && NonEmpty(l) == NonEmpty([l[k]] + l[k + 1..])
                             && SaveList(l) == Item(l[k]) + Tail(l[k + 1..]))
  {
    if l != [] {
      if l[0] == "" {
        SavedIsEmpty(l[1..]);
        assert "" + Item(l[0]) == "" && [] + NonEmpty(l[1..]) == NonEmpty(l[1..]);
        assert SaveList(l) == SaveList(l[1..]) && NonEmpty(l) == NonEmpty(l[1..]);
        if NonEmpty(l) != [] {
          var k :| 0 <= k < |l[1..]| && l[1..][k] != "" && NonEmpty(l[1..]) == NonEmpty([l[1..][k]] + l[1..][k + 1..])
                   && SaveList(l[1..]) == Item(l[1..][k]) + Tail(l[1..][k + 1..]);
          assert l[k + 1] == l[1..][k] && l[k + 2..] == l[1..][k + 1..];
        }
      } else {
        ItemNotEmpty(l[0]);
        SaveAfterIs(Item(l[0]), l[1..]);
        assert l[0] in NonEmpty(l);
        assert "" + Item(l[0]) == Item(l[0]);
        assert SaveList(l) == SaveAfter(Item(l[0]), l[1..]);
        assert [l[0]] + l[0 + 1..] == l;
      }
    }
  }

  /** For every list: reading back what was saved gives its non-empty elements, or, when there are none,
      leaves the current value. */
  lemma LoadOfSave(l: seq<string>, current: seq<string>)
    ensures LoadList(SaveList(l), current) == Some(if NonEmpty(l) == [] then current else NonEmpty(l))
  {
    SavedIsEmpty(l);
    if NonEmpty(l) != [] {
      var t := SaveList(l);
      var k :| 0 <= k < |l| && l[k] != "" && NonEmpty(l) == NonEmpty([l[k]] + l[k + 1..])
               && t == Item(l[k]) + Tail(l[k + 1..]);
      assert t[0..] == t;
      ParseAt(t, 0, l[k], l[k + 1..], []);
      assert [] + NonEmpty(l) == NonEmpty(l);
    }
  }

  // ---------------------------------------------------------------- the loops of the option

  lemma {:induction false} DoubledPlain(v: string)
    requires '"' !in v
    ensures Doubled(v) == v
  {
    if v != "" {
      assert forall c :: c in v[1..] ==> c in v;
      DoubledPlain(v[1..]);
      assert v == [v[0]] + v[1..];
    }
  }

  lemma {:induction false} DoubledSplit(v: string, pos: nat)
    requires pos < |v| && v[pos] == '"' && forall k :: 0 <= k < pos ==> v[k] != '"'
    ensures Doubled(v) == v[..pos + 1] + "\"" + Doubled(v[pos + 1..])
  {
    if pos > 0 {
      DoubledSplit(v[1..], pos - 1);
      assert v[1..][..pos] == v[1..pos + 1] && v[1..][pos..] == v[pos + 1..];
      assert [v[0]] + v[1..pos + 1] == v[..pos + 1];
    }
  }

  class StringListOption {
    var value: seq<string>

    constructor (value: seq<string>)
      ensures this.value == value
    {
      this.value := value;
    }

    method AppendQuoted(s: string, v: string) returns (r: string)
      ensures r == s + "\"" + Doubled(v) + "\""
    {
      r := s + "\"";
      var v2 := v;
      while true
        invariant r + Doubled(v2) == s + "\"" + Doubled(v)
        decreases |v2|
      {
        var pos := Find(v2, '"', 0);
        if pos < |v2| {
          DoubledSplit(v2, pos);
          assert r + (v2[..pos + 1] + "\"" + Doubled(v2[pos + 1..]))
                 == (r + v2[..pos + 1] + "\"") + Doubled(v2[pos + 1..]);
          r := r + v2[..pos + 1] + "\"";
          v2 := v2[pos + 1..];
        } else {
          DoubledPlain(v2);
          r := r + v2;
          break;
        }
      }
      r := r + "\"";
    }

    method AppendItem(s: string, v: string) returns (r: string)
      ensures r == s + Item(v)
    {
      hide Doubled;
      if ';' in v || (v != "" && v[0] == '"') {
        r := AppendQuoted(s, v);
        assert r == s + ("\"" + Doubled(v) + "\"");
      } else {
        r := s + v;
      }
    }

    method DoSave() returns (s: string)
      ensures s == SaveList(value)
    {
      hide Item;
      s := "";
      for k := 0 to |value|
        invariant SaveAfter(s, value[k..]) == SaveList(value)
      {
        assert value[k..][0] == value[k] && value[k..][1..] == value[k + 1..];
        if s != "" {
          s := s + ";";
        }
        s := AppendItem(s, value[k]);
      }
      assert value[|value|..] == [];
    }

    /** The text must end its quoted elements: past an unfinished one the original leaves its buffer. */
    method DoLoad(paths: string) returns (r: Option<seq<string>>)
      ensures r == LoadList(paths, value)
    {
      if paths == "" {
        return Some(value);
      }
      var start := 0;
      var newValue: seq<string> := [];
      while true
        invariant start <= |paths| && ParseItems(paths, start, newValue) == LoadList(paths, value)
        decreases |paths| - start, 1
      {
        if start < |paths| && paths[start] == '"' {
          var v := "";
          start := start + 1;
          while true
            invariant start <= |paths| && ParseQuoted(paths, start, v, newValue) == LoadList(paths, value)
            decreases |paths| - start
          {
            if start == |paths| {
              return None;
            }
            if paths[start] == '"' {
              if start + 1 >= |paths| {
                return Some(newValue + [v]);
              }
              if paths[start + 1] == '"' {
                v := v + "\"";
                start := start + 2;
              } else if paths[start + 1] == ';' {
                newValue := newValue + [v];
                start := start + 2;
                break;
              } else {
                v := v + "\"";
                start := start + 1;
              }
            } else {
              v := v + [paths[start]];
              start := start + 1;
            }
          }
        } else {
          var end := Find(paths, ';', start);
          if start != end {
            newValue := newValue + [paths[start..end]];
          }
          if end == |paths| {
            break;
          }
          start := end + 1;
        }
      }
      r := Some(newValue);
    }
  }
}
