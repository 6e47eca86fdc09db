/** Saving an INI file and loading the text back: what survives, in general and exactly. */
module IniRoundTrip {
  import opened Sequences
  import opened Text
  import opened Ini

  predicate GoodSection(s: string) { ']' !in s && '\n' !in s }

  predicate GoodName(n: string) {
    && n != "" && '=' !in n && '\n' !in n && !IsBlank(n[0]) && !IsBlank(n[|n| - 1])
    && (var p := SkipSpace(n, 0); p < |n| ==> n[p] != '[' && n[p] != ';')
  }

  predicate GoodValue(v: string) { '\n' !in v && (v == "" || v[0] != '"') }

  type Values = map<string, map<string, string>>

  /** Every section and name can be read back, and no value spans lines. */
  predicate Readable(p: Values) {
    forall s :: s in p ==> GoodSection(s) && forall n :: n in p[s] ==> GoodName(n) && '\n' !in p[s][n]
  }

  predicate Clean(p: Values) {
    forall s :: s in p ==> GoodSection(s) && forall n :: n in p[s] ==> GoodName(n) && GoodValue(p[s][n])
  }

  function Stored(v: string): Entry { Entry(v, "", false) }

  function AsSection(p: map<string, string>): Section { map n | n in p :: Stored(p[n]) }

  /** The file with exactly these values, none of them transient. */
  function AsFile(p: Values): Sections { map s | s in p :: AsSection(p[s]) }

  function UnquoteSection(p: map<string, string>): map<string, string> { map n | n in p :: Unquoted(p[n]) }

  function UnquoteAll(p: Values): Values { map s | s in p :: UnquoteSection(p[s]) }

  // ---------------------------------------------------------------- one line

  lemma {:induction false} SkipSpaceIs(s: string, from: nat, k: nat)
    requires from <= k <= |s| && (k < |s| ==> !IsSpace(s[k])) && forall j :: from <= j < k ==> IsSpace(s[j])
    ensures SkipSpace(s, from) == k
    decreases |s| - from
  {
    if from < k {
      SkipSpaceIs(s, from + 1, k);
    }
  }

  lemma {:induction false} TrimPadded(n: string)
    requires n != "" && !IsBlank(n[0]) && !IsBlank(n[|n| - 1])
    ensures Trim(n + " ") == n
  {
    var padded := n + " ";
    assert padded[..|padded| - 1] == n;
  }

  /** Where the reader of a printed pair finds its name and its equal sign. */
  lemma PairShape(n: string, v: string)
    requires GoodName(n)
    ensures
      var line := PairLine(n, v);
      var pos := SkipSpace(line, 0);
      && pos < |line| && line[pos] != ';' && line[pos] != '[' && Find(line, '=', pos) == |n| + 1
      && line[..|n| + 1] == n + " " && line[|n| + 2..] == " " + v
  {
    var line := PairLine(n, v);
    PairChars(n, v);
    hide PairLine, Find, IsSpace;
    assert !IsSpace('=') && IsSpace(' ') by { Separators(); }
    var p := SkipSpace(n, 0);
    assert forall j :: 0 <= j < |n| ==> line[j] == n[j] && n[j] in n;
    var pos := if p < |n| then p else |n| + 1;
    SkipSpaceIs(line, 0, pos);
    FindIs(line, '=', pos, |n| + 1);
  }

  lemma Separators()
    ensures !IsSpace('=') && IsSpace(' ')
  {
  }

  lemma PairChars(n: string, v: string)
    ensures
      var line := PairLine(n, v);
      && |line| == |n| + 3 + |v| && line[..|n|] == n && line[|n|] == ' ' && line[|n| + 1] == '='
      && line[..|n| + 1] == n + " " && line[|n| + 2..] == " " + v
  {
  }

  lemma PairParses(n: string, v: string)
    requires GoodName(n)
    ensures ParseLine(PairLine(n, v)) == Pair(n, Unquoted(v))
  {
    PairShape(n, v);
    TrimPadded(n);
    assert (" " + v)[1..] == v;
    hide PairLine, SkipSpace, Find, Trim, Unquoted;
  }

  lemma HeaderParses(s: string)
    requires ']' !in s
    ensures ParseLine("[" + s + "]") == Header(s)
  {
    var line := "[" + s + "]";
    assert forall j :: 1 <= j <= |s| ==> line[j] == s[j - 1] && s[j - 1] in s;
    FindIs(line, ']', 1, |s| + 1);
    assert line[1..|s| + 1] == s;
  }

  // ---------------------------------------------------------------- one section

  /** What reading back the saved ones of some names of a section yields. */
  function ReadBack(s: Section, names: seq<string>): Section {
    map n | n in names && n in s && IsSaved(s[n]) :: Stored(Unquoted(s[n].value))
  }

  predicate NamesReadable(s: Section, names: seq<string>) {
    forall n :: n in names ==> n in s && (IsSaved(s[n]) ==> GoodName(n))
  }

  lemma SetNew(f: Sections, cur: string, n: string, v: string)
    ensures cur !in f ==> SetEntry(f, cur, n, v, false) == f[cur := map[n := Stored(v)]]
    ensures cur in f && n !in f[cur] ==> SetEntry(f, cur, n, v, false) == f[cur := f[cur][n := Stored(v)]]
  {
  }

  lemma ReadBackStep(s: Section, names: seq<string>)
    requires names != [] && names[0] in s && Distinct(names)
    ensures
      var n := names[0];
      if IsSaved(s[n]) then
        && ReadBack(s, names) == map[n := Stored(Unquoted(s[n].value))] + ReadBack(s, names[1..])
        && n in ReadBack(s, names)
      else
        ReadBack(s, names) == ReadBack(s, names[1..])
  {
    hide Unquoted;
    assert forall k :: k in names <==> k == names[0] || k in names[1..];
  }

  lemma AddedFirst<K, V>(m: map<K, V>, k: K, v: V, r: map<K, V>)
    ensures m[k := v] + r == m + (map[k := v] + r)
  {
  }

  lemma UpdatedTwice<K, V>(m: map<K, V>, k: K, v: V, w: V)
    ensures m[k := v][k := w] == m[k := w]
  {
  }

  lemma ReadPairLine(f: Sections, cur: string, n: string, value: string, rest: seq<string>)
    requires GoodName(n)
    ensures ReadLines(Reader(f, cur), [PairLine(n, value)] + rest)
            == ReadLines(Reader(SetEntry(f, cur, n, Unquoted(value), false), cur), rest)
  {
    hide ParseLine, PairLine, GoodName, Unquoted, SetEntry;
    PairParses(n, value);
    assert ([PairLine(n, value)] + rest)[1..] == rest;
  }

  lemma {:induction false} ReadEntries(f: Sections, cur: string, got: Section, s: Section, names: seq<string>)
    requires NamesReadable(s, names) && Distinct(names) && forall n :: n in names ==> n !in got
    requires cur in f && f[cur] == got
    ensures ReadLines(Reader(f, cur), EntryLines(s, names))
            == Reader(f[cur := got + ReadBack(s, names)], cur)
    decreases |names|
  {
    hide ParseLine, PairLine, GoodName, Unquoted, IsSaved, SetEntry;
    if names == [] {
      assert got + ReadBack(s, names) == got;
      assert f[cur := got] == f;
    } else {
      var n, rest := names[0], names[1..];
      EntryLinesStep(s, names);
      ReadBackStep(s, names);
      hide ReadBack, EntryLines;
      if IsSaved(s[n]) {
        var v := Unquoted(s[n].value);
        var got1 := got[n := Stored(v)];
        var f1 := f[cur := got1];
        ReadPairLine(f, cur, n, s[n].value, EntryLines(s, rest));
        SetNew(f, cur, n, v);
        hide ReadLines;
        ReadEntries(f1, cur, got1, s, rest);
        AddedFirst(got, n, Stored(v), ReadBack(s, rest));
        UpdatedTwice(f, cur, got1, got + ReadBack(s, names));
      } else {
        ReadEntries(f, cur, got, s, rest);
      }
    }
  }

  /** The same from a section the file does not have yet. */
  lemma {:induction false} ReadFreshEntries(f: Sections, cur: string, s: Section, names: seq<string>)
    requires NamesReadable(s, names) && Distinct(names) && cur !in f
    ensures (EntryLines(s, names) == []) == (ReadBack(s, names) == map[])
    ensures ReadLines(Reader(f, cur), EntryLines(s, names))
            == Reader(if ReadBack(s, names) == map[] then f else f[cur := ReadBack(s, names)], cur)
    decreases |names|
  {
    hide ParseLine, PairLine, GoodName, Unquoted, IsSaved, SetEntry;
    if names != [] {
      var n, rest := names[0], names[1..];
      EntryLinesStep(s, names);
      ReadBackStep(s, names);
      hide ReadBack, EntryLines;
      if IsSaved(s[n]) {
        ReadPairLine(f, cur, n, s[n].value, EntryLines(s, rest));
        SetNew(f, cur, n, Unquoted(s[n].value));
        var got := map[n := Stored(Unquoted(s[n].value))];
        ReadEntries(f[cur := got], cur, got, s, rest);
        UpdatedTwice(f, cur, got, ReadBack(s, names));
      } else {
        ReadFreshEntries(f, cur, s, rest);
      }
    }
  }

  lemma ReadBackIsKept(s: Section)
    ensures ReadBack(s, Sorted(s.Keys)) == AsSection(UnquoteSection(Kept(s)))
    ensures ReadBack(s, Sorted(s.Keys)) == map[] <==> Kept(s) == map[]
  {
    hide Unquoted;
    var r := ReadBack(s, Sorted(s.Keys));
    assert r.Keys == Kept(s).Keys;
  }

  predicate SectionReadable(name: string, s: Section) {
    Kept(s) != map[] ==> GoodSection(name) && forall n :: n in Kept(s) ==> GoodName(n)
  }

  lemma ReadSection(f: Sections, cur: string, name: string, s: Section)
    requires SectionReadable(name, s) && name !in f && (name == "" ==> cur == "")
    ensures
      var r := ReadLines(Reader(f, cur), SectionLines(name, s));
      r == if Kept(s) == map[] then Reader(f, cur)
           else Reader(f[name := AsSection(UnquoteSection(Kept(s)))], name)
  {
    hide ParseLine, GoodName, IsSaved, ReadBack, EntryLines, AsSection, UnquoteSection;
    var names := Sorted(s.Keys);
    var start := Reader(f, cur);
    SortedDistinct(s.Keys);
    ReadBackIsKept(s);
    SortedNamesReadable(name, s);
    ReadFreshEntries(f, name, s, names);
    var pairs := EntryLines(s, names);
    if pairs == [] {
      BlankLine(start);
      assert SectionLines(name, s) == [""];
    } else {
      var head := if name != "" then ["[" + name + "]"] else [];
      HeaderLine(start, name);
      ReadAppend(start, head + pairs, [""]);
      ReadAppend(start, head, pairs);
      BlankLine(ReadLines(start, head + pairs));
    }
  }

  lemma SortedNamesReadable(name: string, s: Section)
    requires SectionReadable(name, s)
    ensures NamesReadable(s, Sorted(s.Keys))
  {
    hide GoodName;
    forall n | n in Sorted(s.Keys) && IsSaved(s[n]) ensures GoodName(n) { assert n in Kept(s); }
  }

  lemma BlankLine(r: Reader)
    ensures ReadLines(r, [""]) == r
  {
    assert ParseLine("") == Ignored;
    assert ReadLines(r, []) == r;
  }

  lemma HeaderLine(r: Reader, name: string)
    requires ']' !in name && (name == "" ==> r.section == "")
    ensures ReadLines(r, if name != "" then ["[" + name + "]"] else []) == Reader(r.file, name)
  {
    HeaderParses(name);
    hide ParseLine;
    assert ReadLines(Reader(r.file, name), []) == Reader(r.file, name);
  }

  // ---------------------------------------------------------------- the whole file

  function ReadBackAll(f: Sections, names: seq<string>): Sections {
    map s | s in names && s in f && Kept(f[s]) != map[] :: AsSection(UnquoteSection(Kept(f[s])))
  }

  /** A file with at most the one section. */
  function OneSection(s: string, kept: map<string, string>): Sections {
    if kept == map[] then map[] else map[s := AsSection(UnquoteSection(kept))]
  }

  lemma ReadBackAllSplit(f: Sections, names: seq<string>)
    requires names != [] && names[0] in f && Distinct(names)
    ensures ReadBackAll(f, names) == OneSection(names[0], Kept(f[names[0]])) + ReadBackAll(f, names[1..])
  {
    hide Kept, AsSection, UnquoteSection;
    var s := names[0];
    var all, one, rest := ReadBackAll(f, names), OneSection(s, Kept(f[s])), ReadBackAll(f, names[1..]);
    FirstApart(names);
    assert all.Keys == one.Keys + rest.Keys;
    assert forall k :: k in rest ==> all[k] == rest[k];
    assert forall k :: k in one ==> all[k] == one[k];
    hide ReadBackAll, OneSection;
    assert one.Keys !! rest.Keys;
  }

  lemma FirstApart(names: seq<string>)
    requires names != [] && Distinct(names)
    ensures names[0] !in names[1..]
    ensures forall k :: k in names <==> k == names[0] || k in names[1..]
  {
  }

  lemma ReadBackAllStep(acc: Sections, f: Sections, names: seq<string>)
    requires names != [] && names[0] in f && Distinct(names)
    ensures forall s :: s in names[1..] ==> s in names && s != names[0]
    ensures
      var s := names[0];
      var acc1 := if Kept(f[s]) == map[] then acc else acc[s := AsSection(UnquoteSection(Kept(f[s])))];
      acc + ReadBackAll(f, names) == acc1 + ReadBackAll(f, names[1..])
  {
    hide Kept, AsSection, UnquoteSection, ReadBackAll;
    ReadBackAllSplit(f, names);
    AddOneSection(acc, names[0], Kept(f[names[0]]), ReadBackAll(f, names[1..]));
  }

  lemma AddOneSection(acc: Sections, s: string, kept: map<string, string>, rest: Sections)
    ensures acc + (OneSection(s, kept) + rest)
            == (if kept == map[] then acc else acc[s := AsSection(UnquoteSection(kept))]) + rest
  {
    hide AsSection, UnquoteSection;
  }

  lemma {:induction false} ReadFile(acc: Sections, cur: string, f: Sections, names: seq<string>)
    requires Distinct(names) && forall s :: s in names ==> s in f && s !in acc && SectionReadable(s, f[s])
    requires forall k :: 0 <= k < |names| && names[k] == "" ==> k == 0 && cur == ""
    ensures ReadLines(Reader(acc, cur), FileLines(f, names)).file == acc + ReadBackAll(f, names)
    decreases |names|
  {
    hide ParseLine, ReadLine, ReadLines, SectionLines, SectionReadable, AsSection, UnquoteSection, Kept, ReadBackAll;
    if names == [] {
      ReadNothing(acc, cur, f);
    } else {
      var s, rest := names[0], names[1..];
      var lines := SectionLines(s, f[s]);
      assert s in names;
      ReadAppend(Reader(acc, cur), lines, FileLines(f, rest));
      ReadSection(acc, cur, s, f[s]);
      ReadBackAllStep(acc, f, names);
      var r := ReadLines(Reader(acc, cur), lines);
      ReadFile(r.file, r.section, f, rest);
    }
  }

  lemma ReadNothing(acc: Sections, cur: string, f: Sections)
    ensures ReadLines(Reader(acc, cur), []).file == acc + ReadBackAll(f, [])
  {
    assert acc + ReadBackAll(f, []) == acc;
  }

  lemma {:induction false} EntryLinesUnbroken(s: Section, names: seq<string>)
    requires forall n :: n in names ==> n in s && (IsSaved(s[n]) ==> '\n' !in n && '\n' !in s[n].value)
    ensures forall l :: l in EntryLines(s, names) ==> '\n' !in l
    ensures EntryLines(s, names) != [] ==> Kept(s) != map[]
    decreases |names|
  {
    if names != [] {
      var n := names[0];
      EntryLinesStep(s, names);
      EntryLinesUnbroken(s, names[1..]);
      hide EntryLines;
      if IsSaved(s[n]) {
        assert n in Kept(s);
      }
    }
  }

  lemma SectionLinesUnbroken(f: Sections, s: string)
    requires Readable(Persistent(f)) && s in f
    ensures forall l :: l in SectionLines(s, f[s]) ==> '\n' !in l
  {
    hide GoodName, EntryLines, IsSaved, PairLine, SectionLines;
    var keys := Sorted(f[s].Keys);
    forall n | n in keys && IsSaved(f[s][n]) ensures '\n' !in n && '\n' !in f[s][n].value {
      assert n in Kept(f[s]) && s in Persistent(f);
      GoodNameUnbroken(n);
    }
    EntryLinesUnbroken(f[s], keys);
    if EntryLines(f[s], keys) != [] {
      assert s in Persistent(f);
    }
    SectionLinesAre(s, f[s]);
  }

  lemma SectionLinesAre(name: string, s: Section)
    requires forall l :: l in EntryLines(s, Sorted(s.Keys)) ==> '\n' !in l
    requires EntryLines(s, Sorted(s.Keys)) != [] ==> '\n' !in name
    ensures forall l :: l in SectionLines(name, s) ==> '\n' !in l
  {
    hide EntryLines;
    var pairs := EntryLines(s, Sorted(s.Keys));
    var header := "[" + name + "]";
    forall l | l in SectionLines(name, s) ensures '\n' !in l {
      assert l in pairs || l == "" || (pairs != [] && l == header);
    }
  }

  lemma GoodNameUnbroken(n: string)
    requires GoodName(n)
    ensures '\n' !in n
  {
  }

  lemma {:induction false} FileLinesUnbroken(f: Sections, names: seq<string>)
    requires Readable(Persistent(f)) && forall s :: s in names ==> s in f
    ensures forall l :: l in FileLines(f, names) ==> '\n' !in l
    decreases |names|
  {
    hide Readable, Persistent, SectionLines;
    if names != [] {
      assert names[0] in names && forall k :: k in names[1..] ==> k in names;
      SectionLinesUnbroken(f, names[0]);
      FileLinesUnbroken(f, names[1..]);
    }
  }

  /** Reading back what was saved gives the persistent values, each without its leading quote if it has one. */
  lemma LoadOfSave(f: Sections)
    requires Readable(Persistent(f))
    ensures LoadText(map[], SaveText(f)) == AsFile(UnquoteAll(Persistent(f)))
  {
    hide FileLines, ReadLines, AsSection, UnquoteSection, Readable, SectionReadable;
    var names := Sorted(f.Keys);
    SortedDistinct(f.Keys);
    FileLinesUnbroken(f, names);
    LinesOfUnlines(FileLines(f, names));
    if "" in f {
      EmptyKeyFirst(f.Keys);
    }
    forall s | s in names ensures SectionReadable(s, f[s]) { KeptReadable(f, s); }
    ReadFile(map[], "", f, names);
    ReadBackAllIsPersistent(f);
  }

  lemma KeptReadable(f: Sections, s: string)
    requires Readable(Persistent(f)) && s in f
    ensures SectionReadable(s, f[s])
  {
    hide GoodName, Kept;
    if Kept(f[s]) != map[] {
      assert s in Persistent(f) && Persistent(f)[s] == Kept(f[s]);
    }
  }

  lemma ReadBackAllIsPersistent(f: Sections)
    ensures map[] + ReadBackAll(f, Sorted(f.Keys)) == AsFile(UnquoteAll(Persistent(f)))
  {
    hide Kept, AsSection, UnquoteSection;
    var r := ReadBackAll(f, Sorted(f.Keys));
    assert r.Keys == AsFile(UnquoteAll(Persistent(f))).Keys;
  }

  // ---------------------------------------------------------------- what can come out of a text at all

  predicate Loadable(f: Sections) {
    forall s :: s in f ==> GoodSection(s) && forall n :: n in f[s] ==> GoodName(n) && IsStored(f[s][n])
  }

  predicate IsStored(e: Entry) { e == Stored(e.value) && '\n' !in e.value }

  lemma SubstringLacks(s: string, from: nat, to: nat, c: char)
    requires from <= to <= |s| && forall k :: from <= k < to ==> s[k] != c
    ensures c !in s[from..to]
  {
  }

  lemma {:induction false} TrimIsSlice(s: string) returns (a: nat, b: nat)
    ensures a <= b <= |s| && Trim(s) == s[a..b]
    ensures forall k :: (0 <= k < a || b <= k < |s|) ==> IsBlank(s[k])
    decreases |s|
  {
    if s == "" {
      a, b := 0, 0;
    } else if IsBlank(s[0]) {
      a, b := TrimIsSlice(s[1..]);
      assert s[1..][a..b] == s[a + 1..b + 1];
      a, b := a + 1, b + 1;
    } else if IsBlank(s[|s| - 1]) {
      a, b := TrimIsSlice(s[..|s| - 1]);
      assert s[..|s| - 1][a..b] == s[a..b];
    } else {
      a, b := 0, |s|;
    }
  }

  lemma {:induction false} QuotedPart(v: string, c: char)
    requires c !in v
    ensures c !in Unquoted(v)
  {
  }

  /** A non-empty trimmed slice of a line before its equal sign is a good name. */
  lemma TrimmedNameIsGood(line: string, pos: nat, eq: nat)
    requires '\n' !in line && pos == SkipSpace(line, 0) && pos < |line| && line[pos] != ';' && line[pos] != '['
    requires eq == Find(line, '=', pos) && eq < |line| && Trim(line[..eq]) != ""
    ensures GoodName(Trim(line[..eq]))
  {
    hide Trim, Find, SkipSpace;
    var a, b := TrimIsSlice(line[..eq]);
    var name := Trim(line[..eq]);
    assert line[..eq][a..b] == line[a..b];
    assert forall k :: pos <= k < eq ==> line[k] != '=';
    assert forall k :: 0 <= k < pos ==> line[k] != '=';
    SubstringLacks(line, a, b, '=');
    SubstringLacks(line, a, b, '\n');
    assert pos < eq ==> a <= pos < b;
    assert forall k :: 0 <= k < pos ==> IsSpace(line[k]);
    SliceSkips(line, a, b, pos);
  }

  lemma SliceSkips(line: string, a: nat, b: nat, pos: nat)
    requires a <= b <= |line| && pos < |line| && (a <= pos < b || b <= pos)
    requires !IsSpace(line[pos]) && forall k :: 0 <= k < pos ==> IsSpace(line[k])
    ensures SkipSpace(line[a..b], 0) == if pos < b then pos - a else b - a
  {
    SkipSpaceIs(line[a..b], 0, if pos < b then pos - a else b - a);
  }

  lemma ParsedNameIsGood(line: string)
    requires '\n' !in line && ParseLine(line).Pair?
    ensures GoodName(ParseLine(line).name) && '\n' !in ParseLine(line).value
  {
    var pos := SkipSpace(line, 0);
    var eq := Find(line, '=', pos);
    TrimmedNameIsGood(line, pos, eq);
    var raw := line[eq + 1..];
    SubstringLacks(line, eq + 1, |line|, '\n');
    if raw != "" && raw[0] == ' ' {
      SubstringLacks(raw, 1, |raw|, '\n');
      QuotedPart(raw[1..], '\n');
    } else {
      QuotedPart(raw, '\n');
    }
    hide GoodName, Unquoted, Trim, Find, SkipSpace;
  }

  lemma ParsedSectionIsGood(line: string)
    requires '\n' !in line && ParseLine(line).Header?
    ensures GoodSection(ParseLine(line).section)
  {
    var pos := SkipSpace(line, 0);
    var end := Find(line, ']', pos + 1);
    SubstringLacks(line, pos + 1, end, ']');
    SubstringLacks(line, pos + 1, end, '\n');
  }

  lemma {:induction false} ReadingYieldsLoadable(r: Reader, ls: seq<string>)
    requires Loadable(r.file) && GoodSection(r.section) && forall l :: l in ls ==> '\n' !in l
    ensures Loadable(ReadLines(r, ls).file)
    decreases |ls|
  {
    if ls != [] {
      assert ls[0] in ls && forall l :: l in ls[1..] ==> l in ls;
      var line := ParseLine(ls[0]);
      if line.Pair? {
        ParsedNameIsGood(ls[0]);
      } else if line.Header? {
        ParsedSectionIsGood(ls[0]);
      }
      ReadingYieldsLoadable(ReadLine(r, line), ls[1..]);
    }
  }

  lemma CameBackReadable(p: Values, back: Sections)
    requires Loadable(back) && back == AsFile(p)
    ensures Readable(p)
  {
    hide GoodName, GoodSection;
    forall s | s in p
      ensures GoodSection(s)
      ensures forall n :: n in p[s] ==> GoodName(n) && '\n' !in p[s][n]
    {
      assert s in back;
      forall n | n in p[s] ensures GoodName(n) && '\n' !in p[s][n] {
        assert n in back[s] && back[s][n] == Stored(p[s][n]);
      }
    }
  }

  lemma UnquotedChanges(v: string)
    ensures Unquoted(v) == v <==> v == "" || v[0] != '"'
  {
  }

  lemma CleanWhenUnquotedSame(p: Values)
    requires Readable(p)
    ensures AsFile(UnquoteAll(p)) == AsFile(p) <==> Clean(p)
  {
    hide GoodName, GoodSection, Unquoted;
    var a, b := AsFile(UnquoteAll(p)), AsFile(p);
    forall s, n | s in p && n in p[s]
      ensures a[s][n] == Stored(Unquoted(p[s][n])) && b[s][n] == Stored(p[s][n])
      ensures Unquoted(p[s][n]) == p[s][n] <==> p[s][n] == "" || p[s][n][0] != '"'
    {
      UnquotedChanges(p[s][n]);
    }
    if Clean(p) {
      forall s | s in p ensures UnquoteSection(p[s]) == p[s] {}
      assert UnquoteAll(p) == p;
    }
  }

  /** The exact domain: a file comes back as its persistent values if and only if they are all clean. */
  lemma RoundTripExactly(f: Sections)
    ensures LoadText(map[], SaveText(f)) == AsFile(Persistent(f)) <==> Clean(Persistent(f))
  {
    hide Persistent, SaveText, AsFile, UnquoteAll, GoodName, GoodSection, ReadLines, Loadable;
    var p := Persistent(f);
    var back := LoadText(map[], SaveText(f));
    NothingLoadable();
    ReadingYieldsLoadable(Reader(map[], ""), Lines(SaveText(f)));
    if back == AsFile(p) {
      CameBackReadable(p, back);
    }
    if Readable(p) {
      LoadOfSave(f);
      CleanWhenUnquotedSame(p);
    }
  }

  lemma NothingLoadable()
    ensures Loadable(map[]) && GoodSection("")
  {
  }
}
