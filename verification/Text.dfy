/** Strings: trimming, lines, decimal numbers, and the order of `std::map` keys. */
module Text {
  import opened Sequences

  predicate IsSpace(c: char) { c == ' ' || '\t' <= c <= '\r' }

  predicate IsBlank(c: char) { c == ' ' || c == '\t' }

  function SkipSpace(s: string, from: nat): (k: nat)
    requires from <= |s|
    ensures from <= k <= |s|
    ensures k < |s| ==> !IsSpace(s[k])
    ensures forall j :: from <= j < k ==> IsSpace(s[j])
    decreases |s| - from
  {
    if from < |s| && IsSpace(s[from]) then SkipSpace(s, from + 1) else from
  }

  /** Without the blanks at both ends. */
  function Trim(s: string): (t: string)
    ensures t != "" ==> !IsBlank(t[0]) && !IsBlank(t[|t| - 1])
    decreases |s|
  {
    if s == "" then ""
    else if IsBlank(s[0]) then Trim(s[1..])
    else if IsBlank(s[|s| - 1]) then Trim(s[..|s| - 1])
    else s
  }

  // ---------------------------------------------------------------- lines

  function Lines(t: string): (ls: seq<string>)
    ensures forall l :: l in ls ==> '\n' !in l
    decreases |t|
  {
    if t == "" then []
    else
      var k := Find(t, '\n', 0);
      if k == |t| then [t] else [t[..k]] + Lines(t[k + 1..])
  }

  function Unlines(ls: seq<string>): string {
    if ls == [] then "" else ls[0] + "\n" + Unlines(ls[1..])
  }

  lemma {:induction false} LinesOfUnlines(ls: seq<string>)
    requires forall l :: l in ls ==> '\n' !in l
    ensures Lines(Unlines(ls)) == ls
  {
    if ls != [] {
      var rest := Unlines(ls[1..]);
      assert ls[0] in ls;
      LinesOfUnlines(ls[1..]);
      FirstLine(ls[0], rest);
      hide Lines, Unlines;
      assert [ls[0]] + ls[1..] == ls;
    }
  }

  lemma FirstLine(line: string, rest: string)
    requires '\n' !in line
    ensures Lines(line + "\n" + rest) == [line] + Lines(rest)
  {
    var t := line + "\n" + rest;
    hide Lines;
    assert forall j :: 0 <= j < |line| ==> t[j] == line[j] && t[j] in line;
    FindIs(t, '\n', 0, |line|);
    hide Find;
    LinesStep(t);
    assert t[..|line|] == line && t[|line| + 1..] == rest;
    NoLines();
  }

  lemma NoLines()
    ensures Lines("") == []
  {
  }

  lemma LinesStep(t: string)
    requires t != ""
    ensures
      var k := Find(t, '\n', 0);
      Lines(t) == [t[..k]] + if k == |t| then [] else Lines(t[k + 1..])
  {
    var k := Find(t, '\n', 0);
    hide Find;
    if k == |t| {
      assert t[..k] == t && [t] + [] == [t];
    }
  }

  /** A text with one more line at its end. */
  function Put(t: string, line: string): string { t + line + "\n" }

  lemma PutIsUnlines(ls: seq<string>, line: string)
    ensures Unlines(ls + [line]) == Put(Unlines(ls), line)
  {
    UnlinesAppend(ls, [line]);
    assert Unlines([line]) == line + "\n" + Unlines([line][1..]);
    assert Unlines(ls) + (line + "\n" + "") == Unlines(ls) + line + "\n";
  }

  lemma {:induction false} UnlinesAppend(a: seq<string>, b: seq<string>)
    ensures Unlines(a + b) == Unlines(a) + Unlines(b)
  {
    if a == [] {
      assert a + b == b;
    } else {
      assert (a + b)[1..] == a[1..] + b;
      UnlinesAppend(a[1..], b);
    }
  }

  // ---------------------------------------------------------------- decimal numbers

  predicate IsDigit(c: char) { '0' <= c <= '9' }

  predicate AllDigits(s: string) { forall k :: 0 <= k < |s| ==> IsDigit(s[k]) }

  function Decimal(n: nat): (s: string)
    ensures s != "" && AllDigits(s)
  {
    var last := [('0' as int + n % 10) as char];
    if n < 10 then last else Decimal(n / 10) + last
  }

  function DigitsValue(s: string): nat
    requires AllDigits(s)
  {
    if s == "" then 0 else 10 * DigitsValue(s[..|s| - 1]) + (s[|s| - 1] as int - '0' as int)
  }

  lemma {:induction false} DecimalValue(n: nat)
    ensures DigitsValue(Decimal(n)) == n
  {
    var s := Decimal(n);
    if n < 10 {
      assert s[..|s| - 1] == "";
    } else {
      DecimalValue(n / 10);
      assert s[..|s| - 1] == Decimal(n / 10);
    }
  }

  lemma DecimalInjective(a: nat, b: nat)
    requires Decimal(a) == Decimal(b)
    ensures a == b
  {
    DecimalValue(a);
    DecimalValue(b);
  }

  // ---------------------------------------------------------------- key order

  predicate LexLe(a: string, b: string) {
    a == "" || (b != "" && (a[0] < b[0] || (a[0] == b[0] && LexLe(a[1..], b[1..]))))
  }

  lemma {:induction false} LexTotal(a: string, b: string)
    ensures LexLe(a, b) || LexLe(b, a)
  {
    if a != "" && b != "" && a[0] == b[0] {
      LexTotal(a[1..], b[1..]);
    }
  }

  lemma {:induction false} LexTransitive(a: string, b: string, c: string)
    requires LexLe(a, b) && LexLe(b, c)
    ensures LexLe(a, c)
  {
    if a != "" && a[0] == b[0] == c[0] {
      LexTransitive(a[1..], b[1..], c[1..]);
    }
  }

  lemma {:induction false} LexAntisymmetric(a: string, b: string)
    requires LexLe(a, b) && LexLe(b, a)
    ensures a == b
  {
    if a != "" {
      LexAntisymmetric(a[1..], b[1..]);
      assert a == [a[0]] + a[1..] && b == [b[0]] + b[1..];
    }
  }

  predicate IsLeast(k: string, ks: set<string>) { k in ks && forall j :: j in ks ==> LexLe(k, j) }

  lemma {:induction false} LeastExists(ks: set<string>)
    requires ks != {}
    ensures exists k :: IsLeast(k, ks)
    decreases |ks|
  {
    var a :| a in ks;
    if ks == {a} {
      LexTotal(a, a);
      assert IsLeast(a, ks);
    } else {
      LeastExists(ks - {a});
      var b :| IsLeast(b, ks - {a});
      LexTotal(a, b);
      LexTotal(a, a);
      if LexLe(a, b) {
        forall j | j in ks ensures LexLe(a, j) { if j != a { LexTransitive(a, b, j); } }
        assert IsLeast(a, ks);
      } else {
        assert IsLeast(b, ks);
      }
    }
  }

  lemma LeastUnique(a: string, b: string, ks: set<string>)
    requires IsLeast(a, ks) && IsLeast(b, ks)
    ensures a == b
  {
    LexAntisymmetric(a, b);
  }

  ghost function Least(ks: set<string>): (k: string)
    requires ks != {}
    ensures IsLeast(k, ks)
  {
    LeastExists(ks);
    var k :| IsLeast(k, ks);
    k
  }

  /** The keys as a sorted map lists them. */
  ghost function Sorted(ks: set<string>): (r: seq<string>)
    ensures forall k :: k in r <==> k in ks
    ensures |r| == |ks|
    ensures forall i, j :: 0 <= i < j < |r| ==> LexLe(r[i], r[j])
    decreases |ks|
  {
    if ks == {} then [] else [Least(ks)] + Sorted(ks - {Least(ks)})
  }

  predicate Distinct(ks: seq<string>) { forall i, j :: 0 <= i < j < |ks| ==> ks[i] != ks[j] }

  lemma {:induction false} SortedDistinct(ks: set<string>)
    ensures Distinct(Sorted(ks))
    decreases |ks|
  {
    if ks != {} {
      SortedDistinct(ks - {Least(ks)});
    }
  }

  /** The empty key comes before all others. */
  lemma EmptyKeyFirst(ks: set<string>)
    requires "" in ks
    ensures Sorted(ks)[0] == ""
  {
    LexAntisymmetric("", Least(ks));
  }
}
