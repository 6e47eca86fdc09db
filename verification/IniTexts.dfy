/** The text of an INI file and the view of its entries: what is written where, and which value is seen. */
module IniTexts {
  import Sequences
  import opened Wrappers
  import opened Text
  import opened Ini

  /** Keys are ordered by their first different character, and a prefix comes first. */
  lemma {:induction false} OrderIsLexicographic(p: string, c: char, d: char, x: string, y: string)
    ensures LexLe(p + [c] + x, p + [d] + y) && c != d ==> c < d
    ensures c < d ==> LexLe(p + [c] + x, p + [d] + y)
    ensures LexLe(p, p + x) && (LexLe(p + x, p) ==> x == "")
  {
    if p != "" {
      OrderIsLexicographic(p[1..], c, d, x, y);
      assert (p + [c] + x)[1..] == p[1..] + [c] + x && (p + [d] + y)[1..] == p[1..] + [d] + y;
      assert (p + x)[1..] == p[1..] + x;
    } else {
      assert (p + x) == x && (p + [c] + x)[0] == c && (p + [d] + y)[0] == d;
    }
  }

  lemma SortedOne(a: string)
    ensures Sorted({a}) == [a]
  {
    var r := Sorted({a});
    assert r[0] in {a};
  }

  lemma SortedTwo(a: string, b: string)
    requires a != b && LexLe(a, b)
    ensures Sorted({a, b}) == [a, b]
  {
    var r := Sorted({a, b});
    assert |{a, b}| == 2;
    assert r[0] in {a, b} && r[1] in {a, b} && a in r && b in r;
    if r[0] == b {
      assert r[1] == a;
      LexAntisymmetric(a, b);
    }
  }

  /** A section is its header, its entries in order, one to a line, and an empty line. */
  lemma SectionSpelled(s: string, a: string, b: string, va: string, vb: string)
    requires a != b && LexLe(a, b)
    ensures SaveText(map[s := map[a := Entry(va, "", false), b := Entry(vb, "", false)]])
            == (if s == "" then "" else "[" + s + "]\n") + (a + " = " + va + "\n") + (b + " = " + vb + "\n") + "\n"
  {
    var sec := map[a := Entry(va, "", false), b := Entry(vb, "", false)];
    var f := map[s := sec];
    assert sec.Keys == {a, b} && f.Keys == {s};
    SortedTwo(a, b);
    SortedOne(s);
    hide Sorted;
    PairsOfTwo(sec, a, b);
    OnlySection(f, s);
    hide EntryLines, SaveText, LexLe, Unlines;
    var first, second := a + " = " + va, b + " = " + vb;
    assert SectionLines(s, sec) == (if s == "" then [] else ["[" + s + "]"]) + [first, second] + [""];
    hide SectionLines;
    SectionUnlined(s, first, second);
  }

  lemma SectionUnlined(s: string, first: string, second: string)
    ensures Unlines((if s == "" then [] else ["[" + s + "]"]) + [first, second] + [""])
            == (if s == "" then "" else "[" + s + "]\n") + (first + "\n") + (second + "\n") + "\n"
  {
    hide Unlines;
    var head := if s == "" then [] else ["[" + s + "]"];
    TwoLines(first, second);
    UnlinesAppend(head + [first, second], [""]);
    UnlinesAppend(head, [first, second]);
    OneLine("");
    if s == "" {
      assert head + [first, second] == [first, second];
    } else {
      OneLine("[" + s + "]");
      Sequences.Associates("[" + s + "]\n", first + "\n", second + "\n");
    }
  }

  lemma OneLine(l: string)
    ensures Unlines([l]) == l + "\n" && Unlines([]) == ""
  {
    assert [l][1..] == [];
  }

  lemma TwoLines(l: string, k: string)
    ensures Unlines([l, k]) == l + "\n" + (k + "\n")
  {
    OneLine(k);
    assert [l, k][1..] == [k];
  }

  lemma PairsOfTwo(sec: Section, a: string, b: string)
    requires a in sec && b in sec
    ensures forall n :: n in [a, b] ==> n in sec
    ensures EntryLines(sec, [a, b]) == (if IsSaved(sec[a]) then [a + " = " + sec[a].value] else [])
                                       + (if IsSaved(sec[b]) then [b + " = " + sec[b].value] else [])
  {
    EntryLinesStep(sec, [a, b]);
    assert [a, b][1..] == [b];
    EntryLinesStep(sec, [b]);
    assert EntryLines(sec, []) == [];
  }

  lemma OnlySection(f: Sections, s: string)
    requires s in f && Sorted(f.Keys) == [s]
    ensures SaveText(f) == Unlines(SectionLines(s, f[s]))
  {
    hide SectionLines;
    FileLinesStep(f, [s]);
    assert [s][1..] == [];
    assert FileLines(f, []) == [];
    assert SectionLines(s, f[s]) + [] == SectionLines(s, f[s]);
  }

  lemma TwoSections(f: Sections, s: string, t: string)
    requires s in f && t in f && Sorted(f.Keys) == [s, t]
    ensures SaveText(f) == Unlines(SectionLines(s, f[s]) + SectionLines(t, f[t]))
  {
    hide SectionLines;
    FileLinesStep(f, [s, t]);
    assert [s, t][1..] == [t] && [t][1..] == [];
    FileLinesStep(f, [t]);
    assert FileLines(f, []) == [];
    assert SectionLines(t, f[t]) + [] == SectionLines(t, f[t]);
  }

  /** Sections are written one after another, in order. */
  lemma SectionsInOrder(s: string, t: string, first: Section, second: Section)
    requires s != t && LexLe(s, t)
    ensures SaveText(map[s := first, t := second]) == SaveText(map[s := first]) + SaveText(map[t := second])
  {
    var f, g, h := map[s := first, t := second], map[s := first], map[t := second];
    assert f.Keys == {s, t} && g.Keys == {s} && h.Keys == {t};
    SortedTwo(s, t);
    SortedOne(s);
    SortedOne(t);
    hide Sorted, SectionLines, LexLe, Unlines;
    OnlySection(g, s);
    OnlySection(h, t);
    TwoSections(f, s, t);
    UnlinesAppend(SectionLines(s, first), SectionLines(t, second));
  }

  /** A value that is there only until the program ends is not written, and no header for it alone; the stored value
      it shadows is. */
  lemma TransientIsLeftOut(s: string, a: string, v: string, w: string)
    ensures SaveText(map[s := map[a := Entry(v, w, true)]])
            == if v == "" then "\n" else SaveText(map[s := map[a := Entry(v, "", false)]])
  {
    var e, d := map[a := Entry(v, w, true)], map[a := Entry(v, "", false)];
    var f, g := map[s := e], map[s := d];
    assert e.Keys == {a} && d.Keys == {a} && f.Keys == {s} && g.Keys == {s};
    SortedOne(a);
    SortedOne(s);
    hide Sorted;
    OnlySection(f, s);
    OnlySection(g, s);
    EntryLinesStep(e, [a]);
    EntryLinesStep(d, [a]);
    assert [a][1..] == [];
    OneLine("");
    hide SaveText;
    assert v == "" ==> SectionLines(s, e) == [""];
  }

  /** A value that is set is seen, unless a transient one shadows it; no other entry changes. */
  lemma SettingIsSeen(f: Sections, s: string, a: string, v: string, t: string, b: string)
    ensures Lookup(SetEntry(f, s, a, v, true), s, a) == Some(v)
    ensures Lookup(SetEntry(f, s, a, v, false), s, a)
            == if s in f && a in f[s] && f[s][a].transient then Lookup(f, s, a) else Some(v)
    ensures (t, b) != (s, a) ==> forall transient :: Lookup(SetEntry(f, s, a, v, transient), t, b) == Lookup(f, t, b)
  {
  }

  /** A transient value leaves the stored one as it was. */
  lemma TransientKeepsStored(f: Sections, s: string, a: string, v: string)
    ensures SetEntry(f, s, a, v, true)[s][a].value == if s in f && a in f[s] then f[s][a].value else ""
  {
  }
}
