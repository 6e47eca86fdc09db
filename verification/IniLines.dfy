/** The lines of an INI file as they may be written by hand: comments, headers, entries with and without blanks and
    quotes, and lines that are left out. */
module IniLines {
  import opened Sequences
  import opened Text
  import opened Ini
  import opened IniRoundTrip
  import opened IniValues

  /** Nothing but blanks. */
  predicate IsBlanks(s: string) { forall k :: 0 <= k < |s| ==> s[k] in [' ', '\t'] }

  predicate Starts(c: char, s: string) { s != "" && s[0] == c }

  lemma FirstOfWhite(space: string, rest: string)
    requires IsWhite(space) && rest != "" && !IsWhite(rest[..1])
    ensures SkipSpace(space + rest, 0) == |space| && (space + rest)[|space|] == rest[0]
    ensures (space + rest)[|space|..] == rest
  {
    SkipsWhite(space, rest, 0);
  }

  lemma FindBehind(before: string, s: string, c: char, from: nat)
    requires from <= |before|
    requires forall k :: from <= k < |before| ==> before[k] != c
    ensures c !in s ==> Find(before + s, c, from) == |before + s|
    ensures Starts(c, s) ==> Find(before + s, c, from) == |before|
  {
    var t := before + s;
    assert forall k :: 0 <= k < |s| ==> t[|before| + k] == s[k];
    if c !in s {
      FindIs(t, c, from, |t|);
    } else if s[0] == c {
      FindIs(t, c, from, |before|);
    }
  }

  lemma LeftOutWhite(space: string)
    requires IsWhite(space)
    ensures ParseLine(space) == Ignored
  {
    SkipsWhite(space, "", 0);
    assert space + "" == space;
  }

  lemma LeftOutPlain(space: string, rest: string)
    requires IsWhite(space) && rest != "" && !IsWhite(rest[..1]) && rest[0] != '[' && '=' !in rest
    ensures ParseLine(space + rest) == Ignored
  {
    var t := space + rest;
    assert forall k :: 0 <= k < |rest| ==> t[|space| + k] == rest[k] && rest[k] in rest;
    assert forall k :: 0 <= k < |space| ==> t[k] == space[k];
    assert forall k :: 0 <= k < |t| ==> t[k] != '=';
    var pos := SkipSpace(t, 0);
    FindIs(t, '=', pos, |t|);
    FirstOfWhite(space, rest);
    hide Find, SkipSpace;
  }

  /** Empty lines and comments, and headers and entries without their sign, are left out. */
  lemma LeftOut(space: string, rest: string)
    requires IsWhite(space)
    ensures ParseLine(space) == Ignored
    ensures ParseLine(space + (";" + rest)) == Ignored
    ensures ']' !in rest ==> ParseLine(space + ("[" + rest)) == Ignored
    ensures rest != "" && !IsWhite(rest[..1]) && rest[0] != '[' && '=' !in rest ==> ParseLine(space + rest) == Ignored
  {
    assert (";" + rest)[..1][0] == ';' && ("[" + rest)[..1][0] == '[';
    FirstOfWhite(space, ";" + rest);
    hide SkipSpace;
    FirstOfWhite(space, "[" + rest);
    LeftOutWhite(space);
    if ']' !in rest {
      assert space + ("[" + rest) == space + "[" + rest;
      FindBehind(space + "[", rest, ']', |space| + 1);
    }
    if rest != "" && !IsWhite(rest[..1]) && rest[0] != '[' && '=' !in rest {
      LeftOutPlain(space, rest);
    }
  }

  /** A header is what stands before the first closing bracket. */
  lemma HeaderIsRead(space: string, name: string, rest: string)
    requires IsWhite(space) && ']' !in name
    ensures ParseLine(space + ("[" + name + "]" + rest)) == Header(name)
  {
    var r := "[" + name + "]" + rest;
    var t := space + r;
    assert r[..1][0] == '[';
    FirstOfWhite(space, r);
    hide SkipSpace, Find, IsWhite;
    EndIsFound(space, name, rest);
    var end := |space| + 1 + |name|;
    assert t == space + "[" + name + ("]" + rest);
    assert t[|space| + 1..end] == name;
  }

  lemma EndIsFound(space: string, name: string, rest: string)
    requires ']' !in name
    ensures Find(space + "[" + name + ("]" + rest), ']', |space| + 1) == |space| + 1 + |name|
  {
    hide Find;
    NameHasNoEnd(space, name);
    FindBehind(space + "[" + name, "]" + rest, ']', |space| + 1);
  }

  lemma NameHasNoEnd(space: string, name: string)
    requires ']' !in name
    ensures var before := space + "[" + name; forall k :: |space| + 1 <= k < |before| ==> before[k] != ']'
  {
    var before := space + "[" + name;
    forall k | |space| + 1 <= k < |before| ensures before[k] != ']' {
      assert before[k] == name[k - |space| - 1];
    }
  }

  // ---------------------------------------------------------------- entries

  lemma BlankIsBlank(c: char)
    ensures c in [' ', '\t'] <==> IsBlank(c)
  {
  }

  /** Blanks around a name are not part of it. */
  lemma {:induction false} BlanksAreTrimmed(before: string, name: string, after: string)
    requires IsBlanks(before) && IsBlanks(after)
    requires name != "" ==> name[0] !in [' ', '\t'] && name[|name| - 1] !in [' ', '\t']
    ensures Trim(before + name + after) == name
    decreases |before| + |after|
  {
    var t := before + name + after;
    if before != "" {
      BlankIsBlank(before[0]);
      assert t[1..] == before[1..] + name + after;
      BlanksAreTrimmed(before[1..], name, after);
    } else if name == "" {
      assert t == after;
      if after != "" {
        BlankIsBlank(after[0]);
        assert t[1..] == before + name + after[1..];
        BlanksAreTrimmed(before, name, after[1..]);
      }
    } else {
      BlankIsBlank(name[0]);
      if after != "" {
        BlankIsBlank(after[|after| - 1]);
        assert t[..|t| - 1] == before + name + after[..|after| - 1];
        BlanksAreTrimmed(before, name, after[..|after| - 1]);
      } else {
        BlankIsBlank(name[|name| - 1]);
        assert t == name;
      }
    }
  }

  lemma SignIsFound(before: string, name: string, after: string, rest: string, from: nat)
    requires IsBlanks(before) && IsBlanks(after) && '=' !in name && from <= |before + name + after|
    ensures Find(before + name + after + ("=" + rest), '=', from) == |before + name + after|
  {
    var left := before + name + after;
    assert forall k :: 0 <= k < |name| ==> left[|before| + k] == name[k] && name[k] in name;
    assert forall k :: 0 <= k < |after| ==> left[|before| + |name| + k] == after[k];
    assert forall k :: from <= k < |left| ==> left[k] != '=';
    FindBehind(left, "=" + rest, '=', from);
  }

  /** Where the first character of an entry is, and its sign. */
  lemma EntryShape(before: string, name: string, after: string, rest: string)
    requires IsBlanks(before) && IsBlanks(after) && '=' !in name
    requires name != "" ==> !IsWhite(name[..1]) && name[0] !in [';', '[']
    ensures
      var left := before + name + after;
      var t := left + ("=" + rest);
      var pos := SkipSpace(t, 0);
      && pos < |t| && t[pos] !in [';', '['] && Find(t, '=', pos) == |left| && t[..|left|] == left
      && t[|left| + 1..] == rest
  {
    var left := before + name + after;
    var t := left + ("=" + rest);
    if name == "" {
      assert IsWhite(left) && ("=" + rest)[..1][0] == '=';
      FirstOfWhite(left, "=" + rest);
      SignIsFound(before, name, after, rest, |left|);
    } else {
      var r := name + after + ("=" + rest);
      assert t == before + r && r[..1] == name[..1];
      FirstOfWhite(before, r);
      SignIsFound(before, name, after, rest, |before|);
    }
  }

  /** An entry is named by what stands before the first equal sign, without the blanks around it; one blank behind the
      sign is not part of its value. Without a name it is left out. */
  lemma EntryIsRead(before: string, name: string, after: string, blank: string, v: string)
    requires IsBlanks(before) && IsBlanks(after) && blank in ["", " "] && (blank == "" ==> !Starts(' ', v))
    requires '=' !in name
    requires name != "" ==> !IsWhite(name[..1]) && name[0] !in [';', '['] && name[|name| - 1] !in [' ', '\t']
    ensures ParseLine(before + (name + after + "=" + blank + v))
            == if name == "" then Ignored else Pair(name, Unquoted(v))
  {
    hide SkipSpace, Trim, Unquoted, Find, ParseLine, IsBlanks;
    assert name != "" ==> name[..1][0] !in [' ', '\t'];
    hide IsWhite;
    var rest := blank + v;
    assert before + (name + after + "=" + blank + v) == before + name + after + ("=" + rest);
    EntryShape(before, name, after, rest);
    BlanksAreTrimmed(before, name, after);
    ReadFrom(before + name + after + ("=" + rest), |before + name + after|, name, rest);
    if blank == "" {
      assert rest == v;
    } else {
      assert rest[0] == ' ' && rest[1..] == v;
    }
  }

  lemma ReadFrom(t: string, eq: nat, name: string, rest: string)
    requires var pos := SkipSpace(t, 0); pos < |t| && t[pos] !in [';', '['] && Find(t, '=', pos) == eq < |t|
    requires Trim(t[..eq]) == name && t[eq + 1..] == rest
    ensures ParseLine(t)
            == if name == "" then Ignored else Pair(name, Unquoted(if Starts(' ', rest) then rest[1..] else rest))
  {
    hide SkipSpace, Trim, Unquoted, Find;
  }

  /** A value that starts with a quote ends at the last one behind it, or with the line if there is none. */
  lemma QuotesAreTaken(v: string, inner: string, tail: string)
    ensures !Starts('"', v) ==> Unquoted(v) == v
    ensures '"' !in tail ==> Unquoted("\"" + inner + "\"" + tail) == inner
    ensures '"' !in inner ==> Unquoted("\"" + inner) == inner
  {
    NoQuote(v);
    LoneQuote(inner);
    if '"' !in tail {
      QuotePair(inner, tail);
    }
    hide Unquoted;
  }

  lemma NoQuote(v: string)
    ensures !Starts('"', v) ==> Unquoted(v) == v
  {
  }

  lemma QuotePair(inner: string, tail: string)
    requires '"' !in tail
    ensures Unquoted("\"" + inner + "\"" + tail) == inner
  {
    var t := "\"" + inner + "\"" + tail;
    var last := LastQuote(t, |t|);
    hide LastQuote;
    assert forall k :: 0 <= k < |tail| ==> t[|inner| + 2 + k] == tail[k] && tail[k] in tail;
    assert t[|inner| + 1] == '"';
    assert last == |inner| + 1;
    assert t[1..last] == inner;
  }

  lemma LoneQuote(inner: string)
    ensures '"' !in inner ==> Unquoted("\"" + inner) == inner
  {
    var t := "\"" + inner;
    var last := LastQuote(t, |t|);
    assert forall k :: 0 <= k < |inner| ==> t[1 + k] == inner[k] && inner[k] in inner;
    assert t[1..] == inner;
  }
}
