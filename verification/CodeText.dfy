/** The text of a code list: groups of eight hexadecimal digits with anything else in between. */
module CodeText {
  import opened Wrappers
  import opened Words
  import opened GameShark

  function HexDigitValue(c: char): Option<nat> {
    if '0' <= c <= '9' then Some(c as int - '0' as int)
    else if 'a' <= c <= 'f' then Some(c as int - 'a' as int + 10)
    else if 'A' <= c <= 'F' then Some(c as int - 'A' as int + 10)
    else None
  }

  predicate IsHex(c: char) { HexDigitValue(c).Some? }

  predicate AllHex(s: string) { forall k :: 0 <= k < |s| ==> IsHex(s[k]) }

  function Power16(n: nat): nat { if n == 0 then 1 else 16 * Power16(n - 1) }

  function HexValue(s: string): (v: nat)
    requires AllHex(s)
    ensures v < Power16(|s|)
  {
    if s == "" then 0 else 16 * HexValue(s[..|s| - 1]) + HexDigitBound(s[|s| - 1])
  }

  function HexDigitBound(c: char): (d: nat)
    requires IsHex(c)
    ensures d < 16
  {
    HexDigitValue(c).value
  }

  function CodeWord(s: string): Word
    requires AllHex(s) && |s| == 8
  {
    assert Power16(8) == TWO_32;
    HexValue(s)
  }

  /** The codes of a text, given the digits of the one being read and the codes before it. */
  function ParseRest(s: string, cur: string, codes: Codes): Result<Codes, Error>
    requires AllHex(cur) && |cur| < 8
    decreases |s|
  {
    if s == "" then if cur == "" then Ok(codes) else Err(InvalidCode)
    else if IsHex(s[0]) then
      var more := cur + [s[0]];
      if |more| == 8 then ParseRest(s[1..], "", codes + [CodeWord(more)]) else ParseRest(s[1..], more, codes)
    else if cur != "" then Err(InvalidCode)
    else ParseRest(s[1..], cur, codes)
  }

  function ParseCodes(s: string): Result<Codes, Error> { ParseRest(s, "", []) }

  method Parse(s: string) returns (r: Result<Codes, Error>)
    ensures r == ParseCodes(s)
  {
    var codes: Codes := [];
    var curCode := "";
    for k := 0 to |s|
      invariant AllHex(curCode) && |curCode| < 8
      invariant ParseRest(s[k..], curCode, codes) == ParseCodes(s)
    {
      var c := s[k];
      assert s[k..][0] == c && s[k..][1..] == s[k + 1..];
      if IsHex(c) {
        curCode := curCode + [c];
        if |curCode| == 8 {
          codes := codes + [CodeWord(curCode)];
          curCode := "";
        }
      } else if curCode != "" {
        return Err(InvalidCode);
      }
    }
    assert s[|s|..] == "";
    if curCode != "" {
      return Err(InvalidCode);
    }
    r := Ok(codes);
  }

  // ---------------------------------------------------------------- printed codes are read back

  const LOWER := "0123456789abcdef"
  const UPPER := "0123456789ABCDEF"

  function HexChar(d: nat, lower: bool): (c: char)
    requires d < 16
    ensures HexDigitValue(c) == Some(d)
  {
    if lower then LOWER[d] else UPPER[d]
  }

  /** A number as hexadecimal digits, each in lower or upper case. */
  function HexText(v: nat, cases: seq<bool>): (s: string)
    ensures |s| == |cases| && AllHex(s)
  {
    var n := |cases|;
    if n == 0 then "" else HexText(v / 16, cases[..n - 1]) + [HexChar(v % 16, cases[n - 1])]
  }

  lemma {:induction false} HexTextValue(v: nat, cases: seq<bool>)
    requires v < Power16(|cases|)
    ensures HexValue(HexText(v, cases)) == v
    decreases |cases|
  {
    hide HexChar;
    var n := |cases|;
    if n > 0 {
      HexTextValue(v / 16, cases[..n - 1]);
      var s := HexText(v, cases);
      assert s[..n - 1] == HexText(v / 16, cases[..n - 1]);
    }
  }

  /** Each code as eight digits in any mixture of cases, with a separator before it and one more at the end. */
  function CodesText(ws: Codes, seps: seq<string>, cases: seq<seq<bool>>): string
    requires |seps| == |ws| + 1 && |cases| == |ws|
    decreases |ws|
  {
    if ws == [] then seps[0]
    else seps[0] + HexText(ws[0], cases[0]) + CodesText(ws[1..], seps[1..], cases[1..])
  }

  predicate NoHex(s: string) { forall k :: 0 <= k < |s| ==> !IsHex(s[k]) }

  lemma {:induction false} SkipSeparator(sep: string, rest: string, codes: Codes)
    requires NoHex(sep)
    ensures ParseRest(sep + rest, "", codes) == ParseRest(rest, "", codes)
    decreases |sep|
  {
    if sep == "" {
      assert sep + rest == rest;
    } else {
      assert (sep + rest)[0] == sep[0] && (sep + rest)[1..] == sep[1..] + rest;
      SkipSeparator(sep[1..], rest, codes);
    }
  }

  lemma {:induction false} ReadDigits(digits: string, cur: string, rest: string, codes: Codes)
    requires AllHex(digits) && AllHex(cur) && |cur| < 8 && |cur| + |digits| == 8
    ensures ParseRest(digits + rest, cur, codes) == ParseRest(rest, "", codes + [CodeWord(cur + digits)])
    decreases |digits|
  {
    var t := digits + rest;
    var more := cur + [digits[0]];
    assert t[0] == digits[0] && t[1..] == digits[1..] + rest;
    if |digits| == 1 {
      assert digits == [digits[0]] && t[1..] == rest && cur + digits == more;
    } else {
      assert more + digits[1..] == cur + digits;
      ReadDigits(digits[1..], more, rest, codes);
    }
  }

  lemma {:induction false} ReadCodes(ws: Codes, seps: seq<string>, cases: seq<seq<bool>>, codes: Codes)
    requires |seps| == |ws| + 1 && forall k :: 0 <= k < |seps| ==> NoHex(seps[k])
    requires |cases| == |ws| && forall k :: 0 <= k < |cases| ==> |cases[k]| == 8
    ensures ParseRest(CodesText(ws, seps, cases), "", codes) == Ok(codes + ws)
    decreases |ws|
  {
    hide HexText, NoHex, HexDigitValue, IsHex;
    if ws == [] {
      assert seps[0] + "" == seps[0] && codes + ws == codes;
      SkipSeparator(seps[0], "", codes);
      NothingLeft(codes);
    } else {
      var digits, rest := HexText(ws[0], cases[0]), CodesText(ws[1..], seps[1..], cases[1..]);
      assert CodesText(ws, seps, cases) == seps[0] + (digits + rest);
      SkipSeparator(seps[0], digits + rest, codes);
      assert Power16(8) == TWO_32;
      HexTextValue(ws[0], cases[0]);
      assert "" + digits == digits;
      ReadDigits(digits, "", rest, codes);
      ReadCodes(ws[1..], seps[1..], cases[1..], codes + [ws[0]]);
      assert codes + [ws[0]] + ws[1..] == codes + ws;
    }
  }

  lemma NothingLeft(codes: Codes)
    ensures ParseRest("", "", codes) == Ok(codes)
  {
  }

  /** Whatever is printed between the codes, as long as it is no digit, and whichever case each digit has, the codes
      are read back. */
  lemma ParsePrinted(ws: Codes, seps: seq<string>, cases: seq<seq<bool>>)
    requires |seps| == |ws| + 1 && forall k :: 0 <= k < |seps| ==> NoHex(seps[k])
    requires |cases| == |ws| && forall k :: 0 <= k < |cases| ==> |cases[k]| == 8
    ensures ParseCodes(CodesText(ws, seps, cases)) == Ok(ws)
  {
    ReadCodes(ws, seps, cases, []);
    assert [] + ws == ws;
  }

  // ---------------------------------------------------------------- exactly the texts that are accepted

  lemma HexIsLetterOrDigit(c: char)
    ensures IsHex(c) <==> c in LOWER || c in UPPER
  {
    if '0' <= c <= '9' {
      assert LOWER[c as int - '0' as int] == c;
    } else if 'a' <= c <= 'f' {
      assert LOWER[c as int - 'a' as int + 10] == c;
    } else if 'A' <= c <= 'F' {
      assert UPPER[c as int - 'A' as int + 10] == c;
    }
  }

  /** Digits from i up to j that no other digit adjoins. */
  predicate RunAt(s: string, i: int, j: int) {
    && 0 <= i < j <= |s| && (forall k :: i <= k < j ==> s[k] in LOWER || s[k] in UPPER)
    && (i > 0 ==> s[i - 1] !in LOWER && s[i - 1] !in UPPER)
    && (j < |s| ==> s[j] !in LOWER && s[j] !in UPPER)
  }

  /** Every run of digits is a multiple of eight long, the first counted with n digits in front of it. */
  ghost predicate RunsOfEight(s: string, n: nat) {
    && (s == "" || !IsHex(s[0]) ==> n == 0)
    && forall i, j :: RunAt(s, i, j) ==> IsEights(if i == 0 then n + j else j - i)
  }

  predicate IsEights(n: int) { n % 8 == 0 }

  /** The count of digits in hand, as the parser keeps it. */
  predicate CountsOut(s: string, n: nat) {
    if s == "" then n == 0
    else if IsHex(s[0]) then CountsOut(s[1..], if n == 7 then 0 else n + 1)
    else n == 0 && CountsOut(s[1..], 0)
  }

  lemma RunInTail(s: string, i: int, j: int)
    requires s != ""
    ensures i > 0 && RunAt(s[1..], i, j) ==> RunAt(s, i + 1, j + 1)
    ensures i > 1 && RunAt(s, i, j) ==> RunAt(s[1..], i - 1, j - 1)
    ensures !IsHex(s[0]) && RunAt(s[1..], 0, j) ==> RunAt(s, 1, j + 1)
    ensures !IsHex(s[0]) && i == 1 && RunAt(s, i, j) ==> RunAt(s[1..], 0, j - 1)
    ensures IsHex(s[0]) && RunAt(s[1..], 0, j) ==> RunAt(s, 0, j + 1)
    ensures IsHex(s[0]) && RunAt(s, 0, j) && j > 1 ==> RunAt(s[1..], 0, j - 1)
    ensures IsHex(s[0]) && RunAt(s, 0, j) && j == 1 ==> s[1..] == "" || !IsHex(s[1])
    ensures IsHex(s[0]) ==> !RunAt(s, 1, j)
    ensures !IsHex(s[0]) ==> !RunAt(s, 0, j)
    ensures IsHex(s[0]) && (s[1..] == "" || !IsHex(s[1])) ==> RunAt(s, 0, 1)
  {
    HexIsLetterOrDigit(s[0]);
    if |s| > 1 {
      HexIsLetterOrDigit(s[1]);
    }
    hide IsHex;
    var t := s[1..];
    assert forall k :: 0 <= k < |t| ==> t[k] == s[k + 1];
  }

  lemma EightMore(n: nat, j: int)
    requires n < 8
    ensures IsEights((if n == 7 then 0 else n + 1) + j) <==> IsEights(n + 1 + j)
    ensures IsEights(n + 1) <==> n == 7
  {
  }

  lemma {:induction false} CountsExactly(s: string, n: nat)
    requires n < 8
    ensures CountsOut(s, n) <==> RunsOfEight(s, n)
    decreases |s|
  {
    hide IsHex, RunAt, IsEights;
    if s == "" {
      NoRuns();
    } else {
      var t, next := s[1..], if n == 7 then 0 else n + 1;
      if IsHex(s[0]) {
        CountsExactly(t, next);
        EightMore(n, 0);
        if RunsOfEight(t, next) {
          forall i, j | RunAt(s, i, j) ensures IsEights(if i == 0 then n + j else j - i) {
            RunInTail(s, i, j);
            RunOrder(s, i, j);
            EightMore(n, j - 1);
          }
        }
        if RunsOfEight(s, n) {
          RunInTail(s, 0, 1);
          forall i, j | RunAt(t, i, j) ensures IsEights(if i == 0 then next + j else j - i) {
            RunInTail(s, i, j);
            RunOrder(t, i, j);
            EightMore(n, j);
          }
        }
      } else {
        CountsExactly(t, 0);
        if n == 0 && RunsOfEight(t, 0) {
          forall i, j | RunAt(s, i, j) ensures IsEights(if i == 0 then n + j else j - i) {
            RunInTail(s, i, j);
            RunOrder(s, i, j);
          }
        }
        if RunsOfEight(s, n) {
          forall i, j | RunAt(t, i, j) ensures IsEights(if i == 0 then 0 + j else j - i) {
            RunInTail(s, i, j);
            RunOrder(t, i, j);
          }
        }
      }
    }
  }

  lemma RunOrder(s: string, i: int, j: int)
    requires RunAt(s, i, j)
    ensures 0 <= i < j <= |s|
  {
  }

  lemma NoRuns()
    ensures forall i, j :: !RunAt("", i, j)
  {
  }

  lemma {:induction false} ParsingCounts(s: string, cur: string, codes: Codes)
    requires AllHex(cur) && |cur| < 8
    ensures ParseRest(s, cur, codes).Ok? <==> CountsOut(s, |cur|)
    decreases |s|
  {
    hide HexDigitValue, CodeWord;
    if s != "" && IsHex(s[0]) {
      var more := cur + [s[0]];
      if |more| == 8 {
        ParsingCounts(s[1..], "", codes + [CodeWord(more)]);
      } else {
        ParsingCounts(s[1..], more, codes);
      }
    } else if s != "" && cur == "" {
      ParsingCounts(s[1..], cur, codes);
    }
  }

  /** A text is accepted if and only if every run of hexadecimal digits in it is a multiple of eight long; the error is
      always the same. */
  lemma AcceptedExactly(s: string)
    ensures ParseCodes(s).Ok? <==> forall i, j :: RunAt(s, i, j) ==> (j - i) % 8 == 0
    ensures ParseCodes(s).Err? ==> ParseCodes(s).error == InvalidCode
  {
    hide RunAt;
    ParsingCounts(s, "", []);
    CountsExactly(s, 0);
    SameError(s, "", []);
    hide HexDigitValue;
  }

  lemma {:induction false} SameError(s: string, cur: string, codes: Codes)
    requires AllHex(cur) && |cur| < 8
    ensures ParseRest(s, cur, codes).Err? ==> ParseRest(s, cur, codes).error == InvalidCode
    decreases |s|
  {
    hide HexDigitValue, CodeWord;
    if s != "" && IsHex(s[0]) {
      var more := cur + [s[0]];
      if |more| == 8 {
        SameError(s[1..], "", codes + [CodeWord(more)]);
      } else {
        SameError(s[1..], more, codes);
      }
    } else if s != "" && cur == "" {
      SameError(s[1..], cur, codes);
    }
  }
}
