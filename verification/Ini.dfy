/** INI files: sections of named entries, each with a stored value and perhaps a transient one that
    shadows it and is never saved. */
module Ini {
  import opened Sequences
  import opened Wrappers
  import opened Text

  datatype Entry = Entry(value: string, transientValue: string, transient: bool)

  type Section = map<string, Entry>

  type Sections = map<string, Section>

  const NO_ENTRY := Entry("", "", false)

  function Lookup(f: Sections, section: string, name: string): Option<string> {
    if section in f && name in f[section] then
      var e := f[section][name];
      Some(if e.transient then e.transientValue else e.value)
    else
      None
  }

  function SetEntry(f: Sections, section: string, name: string, value: string, transient: bool): Sections {
    var s := if section in f then f[section] else map[];
    var e := if name in s then s[name] else NO_ENTRY;
    f[section := s[name := if transient then e.(transientValue := value, transient := true) else e.(value := value)]]
  }

  // ---------------------------------------------------------------- reading

  datatype Line = Ignored | Header(section: string) | Pair(name: string, value: string)

  /** What a value is read as once the quote that starts it, and the last one, are taken off. */
  function Unquoted(v: string): string {
    if v != "" && v[0] == '"' then
      var last := LastQuote(v, |v|);
      v[1..if last == 0 then |v| else last]
    else
      v
  }

  /** Index of the last quote before a position of a string that starts with one. */
  function LastQuote(v: string, before: nat): (k: nat)
    requires 0 < before <= |v| && v[0] == '"'
    ensures k < before && v[k] == '"'
    ensures forall j :: k < j < before ==> v[j] != '"'
  {
    if v[before - 1] == '"' then before - 1 else LastQuote(v, before - 1)
  }

  function ParseLine(line: string): Line {
    var pos := SkipSpace(line, 0);
    if pos == |line| || line[pos] == ';' then Ignored
    else if line[pos] == '[' then
      var end := Find(line, ']', pos + 1);
      if end == |line| then Ignored else Header(line[pos + 1..end])
    else
      var eq := Find(line, '=', pos);
      if eq == |line| then Ignored
      else
        var name := Trim(line[..eq]);
        var raw := line[eq + 1..];
        var value := if raw != "" && raw[0] == ' ' then raw[1..] else raw;
        if name == "" then Ignored else Pair(name, Unquoted(value))
  }

  /** The file being filled and the section in force. */
  datatype Reader = Reader(file: Sections, section: string)

  function ReadLine(r: Reader, line: Line): Reader {
    match line
    case Ignored => r
    case Header(s) => r.(section := s)
    case Pair(n, v) => r.(file := SetEntry(r.file, r.section, n, v, false))
  }

  function ReadLines(r: Reader, ls: seq<string>): Reader
    decreases |ls|
  {
    if ls == [] then r else ReadLines(ReadLine(r, ParseLine(ls[0])), ls[1..])
  }

  function LoadText(f: Sections, text: string): Sections { ReadLines(Reader(f, ""), Lines(text)).file }

  lemma {:induction false} ReadAppend(r: Reader, a: seq<string>, b: seq<string>)
    ensures ReadLines(r, a + b) == ReadLines(ReadLines(r, a), b)
    decreases |a|
  {
    if a == [] {
      assert a + b == b;
    } else {
      assert (a + b)[1..] == a[1..] + b;
      ReadAppend(ReadLine(r, ParseLine(a[0])), a[1..], b);
    }
  }

  // ---------------------------------------------------------------- writing

  predicate IsSaved(e: Entry) { !(e.transient && e.value == "") }

  /** The values of a section that are saved. */
  function Kept(s: Section): map<string, string> { map n | n in s && IsSaved(s[n]) :: s[n].value }

  /** What saving a file keeps of it. */
  function Persistent(f: Sections): map<string, map<string, string>> {
    map s | s in f && Kept(f[s]) != map[] :: Kept(f[s])
  }

  function PairLine(name: string, value: string): string { name + " = " + value }

  function EntryLines(s: Section, names: seq<string>): seq<string>
    requires forall n :: n in names ==> n in s
  {
    if names == [] then []
    else (if IsSaved(s[names[0]]) then [PairLine(names[0], s[names[0]].value)] else []) + EntryLines(s, names[1..])
  }

  lemma EntryLinesStep(s: Section, names: seq<string>)
    requires names != [] && forall n :: n in names ==> n in s
    ensures forall n :: n in names[1..] ==> n in names
    ensures
      var n := names[0];
      EntryLines(s, names)
      == if IsSaved(s[n]) then [PairLine(n, s[n].value)] + EntryLines(s, names[1..]) else EntryLines(s, names[1..])
  {
    hide PairLine;
    assert names[0] in names;
  }

  ghost function SectionLines(name: string, s: Section): seq<string> {
    var pairs := EntryLines(s, Sorted(s.Keys));
    (if pairs != [] && name != "" then ["[" + name + "]"] else []) + pairs + [""]
  }

  ghost function FileLines(f: Sections, names: seq<string>): seq<string>
    requires forall n :: n in names ==> n in f
  {
    if names == [] then [] else SectionLines(names[0], f[names[0]]) + FileLines(f, names[1..])
  }

  ghost function SaveText(f: Sections): string { Unlines(FileLines(f, Sorted(f.Keys))) }

  lemma FileLinesStep(f: Sections, names: seq<string>)
    requires names != [] && forall n :: n in names ==> n in f
    ensures names[0] in f && forall n :: n in names[1..] ==> n in f
    ensures FileLines(f, names) == SectionLines(names[0], f[names[0]]) + FileLines(f, names[1..])
  {
    hide SectionLines;
    assert names[0] in names;
  }
}
