/** The INI file object: typed lookups, the loading loop over lines and the saving loop over sorted keys. */
module IniFiles {
  import opened Sequences
  import opened Wrappers
  import opened Words
  import opened Text
  import opened Ini

  // ---------------------------------------------------------------- typed values

  /** A prefix 0x after any white space; the last character alone is never looked at as white space. */
  function HasHexPrefix(s: string): bool {
    s != "" && (var pos := SkipSpace(s[..|s| - 1], 0);
                pos + 1 < |s| && s[pos] == '0' && (s[pos + 1] == 'x' || s[pos + 1] == 'X'))
  }

  function DigitOf(c: char, hex: bool): Option<nat> {
    if IsDigit(c) then Some(c as int - '0' as int)
    else if hex && 'a' <= c <= 'f' then Some(c as int - 'a' as int + 10)
    else if hex && 'A' <= c <= 'F' then Some(c as int - 'A' as int + 10)
    else None
  }

  /** The number spelled by the digits from a position on, given the value of those before it. */
  function Digits(s: string, from: nat, hex: bool, sofar: nat): nat
    requires from <= |s|
    decreases |s| - from
  {
    if from == |s| then sofar
    else
      match DigitOf(s[from], hex)
      case Some(d) => Digits(s, from + 1, hex, (if hex then 16 else 10) * sofar + d)
      case None => sofar
  }

  /** Formatted input of an unsigned integer: only a text of nothing but white space leaves the default. */
  function ParseInt(s: string, default: Word): Word {
    var p := SkipSpace(s, 0);
    if p == |s| then default
    else
      var hex := HasHexPrefix(s);
      var q := if s[p] == '-' || s[p] == '+' then p + 1 else p;
      var v := Digits(s, if hex then q + 2 else q, hex, 0);
      if v >= TWO_32 then TWO_32 - 1 else if s[p] == '-' then Minus(0, v) else v
  }

  function Lower(s: string): string {
    seq(|s|, k requires 0 <= k < |s| => if 'A' <= s[k] <= 'Z' then ((s[k] as int) + 32) as char else s[k])
  }

  function ParseBool(s: string): bool { Lower(s) in {"yes", "true", "on", "1"} }

  function BoolText(b: bool): string { if b then "yes" else "no" }

  function IntOf(f: Sections, section: string, name: string, default: Word): Word {
    match Lookup(f, section, name)
    case None => default
    case Some(s) => ParseInt(s, default)
  }

  lemma {:induction false} DigitsOfDecimal(s: string, from: nat)
    requires AllDigits(s) && from <= |s|
    ensures Digits(s, from, false, DigitsValue(s[..from])) == DigitsValue(s)
    decreases |s| - from
  {
    if from == |s| {
      assert s[..from] == s;
    } else {
      assert s[..from + 1][..from] == s[..from];
      DigitsOfDecimal(s, from + 1);
    }
  }

  /** A printed number is read back, whatever the default. */
  lemma ParseIntOfDecimal(n: Word, default: Word)
    ensures ParseInt(Decimal(n), default) == n
  {
    var s := Decimal(n);
    assert IsDigit(s[0]);
    DecimalValue(n);
    DigitsOfDecimal(s, 0);
    assert s[..0] == "";
  }

  lemma ParseBoolOfText(b: bool)
    ensures ParseBool(BoolText(b)) == b
  {
    assert Lower("yes") == "yes";
    assert Lower("no")[0] == 'n';
  }

  // ---------------------------------------------------------------- the object

  class IniFile {
    var sections: Sections

    constructor ()
      ensures sections == map[]
    {
      sections := map[];
    }

    method GetRaw(section: string, name: string) returns (r: Option<string>)
      ensures r == Lookup(sections, section, name)
    {
      if section !in sections {
        return None;
      }
      if name !in sections[section] {
        return None;
      }
      var entry := sections[section][name];
      r := Some(if entry.transient then entry.transientValue else entry.value);
    }

    method GetString(section: string, name: string, default: string) returns (r: string)
      ensures r == match Lookup(sections, section, name) case None => default case Some(s) => s
    {
      var p := GetRaw(section, name);
      r := if p.None? then default else p.value;
    }

    method GetInt(section: string, name: string, default: Word) returns (r: Word)
      ensures r == IntOf(sections, section, name, default)
    {
      var p := GetRaw(section, name);
      r := if p.None? then default else ParseInt(p.value, default);
    }

    method GetBool(section: string, name: string, default: bool) returns (r: bool)
      ensures r == match Lookup(sections, section, name) case None => default case Some(s) => ParseBool(s)
    {
      var p := GetRaw(section, name);
      r := if p.None? then default else ParseBool(p.value);
    }

    method SetRaw(section: string, name: string, value: string, transient: bool)
      modifies this
      ensures sections == SetEntry(old(sections), section, name, value, transient)
      ensures !transient ==> Lookup(sections, section, name)
                             == if (Lookup(old(sections), section, name).Some?
                                    && old(sections)[section][name].transient)
                                then Lookup(old(sections), section, name) else Some(value)
    {
      var s := if section in sections then sections[section] else map[];
      var entry := if name in s then s[name] else NO_ENTRY;
      if transient {
        entry := entry.(transientValue := value, transient := true);
      } else {
        entry := entry.(value := value);
      }
      sections := sections[section := s[name := entry]];
    }

    method LoadLine(line: string, curSection: string) returns (next: string)
      modifies this
      ensures Reader(sections, next) == ReadLine(Reader(old(sections), curSection), ParseLine(line))
    {
      hide SetEntry, Trim, Unquoted;
      next := curSection;
      var pos := 0;
      while pos < |line| && IsSpace(line[pos])
        invariant pos <= |line| && SkipSpace(line, pos) == SkipSpace(line, 0)
      {
        pos := pos + 1;
      }
      if pos == |line| || line[pos] == ';' {
        return;
      }
      if line[pos] == '[' {
        var end := Find(line, ']', pos + 1);
        if end == |line| {
          return;
        }
        next := line[pos + 1..end];
      } else {
        var eq := Find(line, '=', pos);
        if eq == |line| {
          return;
        }
        var entry := Trim(line[..eq]);
        if entry == "" {
          return;
        }
        var value := line[eq + 1..];
        if value != "" && value[0] == ' ' {
          value := value[1..];
        }
        value := Unquoted(value);
        SetRaw(curSection, entry, value, false);
      }
    }

    method Load(data: string)
      modifies this
      ensures sections == LoadText(old(sections), data)
    {
      hide ReadLine, ParseLine;
      var curSection := "";
      var rest := data;
      while rest != ""
        invariant ReadLines(Reader(sections, curSection), Lines(rest)).file == LoadText(old(sections), data)
        decreases |rest|
      {
        var k := Find(rest, '\n', 0);
        var line := rest[..k];
        ghost var r := Reader(sections, curSection);
        ghost var lines := Lines(rest);
        curSection := LoadLine(line, curSection);
        LinesStep(rest);
        rest := if k == |rest| then "" else rest[k + 1..];
        assert lines == [line] + Lines(rest);
        assert ReadLines(r, lines) == ReadLines(ReadLine(r, ParseLine(line)), Lines(rest));
      }
    }

    method SaveSection(name: string) returns (data: string)
      requires name in sections
      ensures data == Unlines(SectionLines(name, sections[name]))
    {
      hide Unlines, EntryLines, PairLine, IsSaved, Sorted, Put, SectionLines, WithHeader;
      var s := sections[name];
      var names := InOrder(s.Keys);
      var sectionSaved := name == "";
      data := "";
      ghost var pairs: seq<string> := [];
      NoEntries(name, s);
      for i := 0 to |names|
        invariant EntryLines(s, names) == pairs + EntryLines(s, names[i..])
        invariant sectionSaved == (name == "" || pairs != [])
        invariant data == Unlines(WithHeader(name, pairs))
      {
        var n := names[i];
        EntryAt(s, names, i, pairs);
        if IsSaved(s[n]) {
          var line := PairLine(n, s[n].value);
          AddPair(name, pairs, line);
          if !sectionSaved {
            data := Put(data, "[" + name + "]");
            sectionSaved := true;
          }
          data := Put(data, line);
          pairs := pairs + [line];
        }
      }
      data := Put(data, "");
      PutIsUnlines(WithHeader(name, pairs), "");
      assert names[|names|..] == [];
      assert pairs + [] == pairs;
      AssembledSection(name, s, pairs);
    }

    method Save() returns (data: string)
      ensures data == SaveText(sections)
    {
      hide SectionLines, Unlines, FileLines, Sorted;
      var names := InOrder(sections.Keys);
      ghost var done: seq<string> := [];
      data := "";
      NoFiles(sections);
      for i := 0 to |names|
        invariant FileLines(sections, names) == done + FileLines(sections, names[i..]) && data == Unlines(done)
      {
        FileLinesStep(sections, names[i..]);
        assert names[i..][1..] == names[i + 1..];
        var text := SaveSection(names[i]);
        ghost var lines := SectionLines(names[i], sections[names[i]]);
        UnlinesAppend(done, lines);
        data := data + text;
        done := done + lines;
      }
      assert names[|names|..] == [];
      assert done == FileLines(sections, Sorted(sections.Keys));
    }
  }

  /** The lines of a section so far: its header comes with its first saved entry. */
  function WithHeader(name: string, pairs: seq<string>): seq<string> {
    (if pairs != [] && name != "" then ["[" + name + "]"] else []) + pairs
  }

  lemma AddPair(name: string, pairs: seq<string>, line: string)
    ensures
      var before := Unlines(WithHeader(name, pairs));
      Unlines(WithHeader(name, pairs + [line]))
      == Put(if pairs == [] && name != "" then Put(before, "[" + name + "]") else before, line)
  {
    hide Unlines, Put;
    var header := "[" + name + "]";
    if pairs == [] && name != "" {
      PutIsUnlines([], header);
      assert [] + [header] == [header] && WithHeader(name, pairs) == [];
      PutIsUnlines([header], line);
      assert WithHeader(name, pairs + [line]) == [header] + [line];
    } else {
      PutIsUnlines(WithHeader(name, pairs), line);
      assert WithHeader(name, pairs + [line]) == WithHeader(name, pairs) + [line];
    }
  }

  lemma EntryAt(s: Section, names: seq<string>, i: nat, pairs: seq<string>)
    requires i < |names| && forall n :: n in names ==> n in s
    ensures names[i] in s && forall n :: n in names[i + 1..] ==> n in names
    ensures
      var n := names[i];
      pairs + EntryLines(s, names[i..])
      == (if IsSaved(s[n]) then pairs + [PairLine(n, s[n].value)] else pairs) + EntryLines(s, names[i + 1..])
  {
    hide EntryLines, PairLine, IsSaved;
    EntryLinesStep(s, names[i..]);
    assert names[i..][0] == names[i] && names[i..][1..] == names[i + 1..];
    Sequences.Associates(pairs, [PairLine(names[i], s[names[i]].value)], EntryLines(s, names[i + 1..]));
  }

  lemma AssembledSection(name: string, s: Section, pairs: seq<string>)
    requires pairs == EntryLines(s, Sorted(s.Keys))
    ensures WithHeader(name, pairs) + [""] == SectionLines(name, s)
  {
    hide EntryLines;
  }

  lemma NoEntries(name: string, s: Section)
    ensures EntryLines(s, []) == [] && Unlines(WithHeader(name, [])) == ""
  {
    assert WithHeader(name, []) == [];
  }

  lemma NoFiles(f: Sections)
    ensures FileLines(f, []) == [] && Unlines([]) == ""
  {
  }

  lemma SortedStep(ks: set<string>)
    requires ks != {}
    ensures Sorted(ks) == [Least(ks)] + Sorted(ks - {Least(ks)})
  {
    hide IsLeast;
  }

  /** The keys of a sorted map, in its order. */
  method InOrder(ks: set<string>) returns (r: seq<string>)
    ensures r == Sorted(ks)
  {
    hide Sorted, LexLe;
    var rest := ks;
    r := [];
    while rest != {}
      invariant Sorted(ks) == r + Sorted(rest)
      decreases |rest|
    {
      LeastExists(rest);
      var k :| k in rest && IsLeast(k, rest);
      SortedStep(rest);
      LeastUnique(k, Least(rest), rest);
      assert r + ([k] + Sorted(rest - {k})) == (r + [k]) + Sorted(rest - {k});
      r := r + [k];
      rest := rest - {k};
    }
  }
}
