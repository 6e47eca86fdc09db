/** The typed values of an INI file as they may be written by hand: numbers with white space, a sign, a prefix or other
    text behind them, and the words that stand for a flag. */
module IniValues {
  import opened Words
  import opened Text
  import opened IniFiles

  predicate IsWhite(s: string) {
    forall k :: 0 <= k < |s| ==> s[k] in [' ', '\t', '\n', '\U{000B}', '\U{000C}', '\r']
  }

  lemma WhiteIsSpace(c: char)
    ensures c in [' ', '\t', '\n', '\U{000B}', '\U{000C}', '\r'] <==> IsSpace(c)
  {
  }

  lemma {:induction false} SkipsWhite(space: string, rest: string, from: nat)
    requires IsWhite(space) && from <= |space| && (rest != "" ==> !IsWhite(rest[..1]))
    ensures SkipSpace(space + rest, from) == |space|
    decreases |space| - from
  {
    var s := space + rest;
    if from < |space| {
      WhiteIsSpace(s[from]);
      SkipsWhite(space, rest, from + 1);
    } else if rest != "" {
      WhiteIsSpace(rest[0]);
    }
  }

  /** A text of nothing but white space leaves the default. */
  lemma WhiteIsDefault(s: string, default: Word)
    requires IsWhite(s)
    ensures ParseInt(s, default) == default
  {
    SkipsWhite(s, "", 0);
    assert s + "" == s;
  }

  // ---------------------------------------------------------------- digits

  const SMALL := "0123456789abcdef"
  const CAPITAL := "0123456789ABCDEF"

  /** A character is the d-th digit, in either case. */
  predicate IsNth(c: char, d: nat) { d < 16 && (c == SMALL[d] || c == CAPITAL[d]) }

  /** A text spells digits below a base, the first one first. */
  predicate Spells(s: string, ds: seq<nat>, base: nat) {
    |s| == |ds| && forall k :: 0 <= k < |s| ==> ds[k] < base && IsNth(s[k], ds[k])
  }

  function Number(ds: seq<nat>, base: nat): nat {
    if ds == [] then 0 else base * Number(ds[..|ds| - 1], base) + ds[|ds| - 1]
  }

  /** A text does not go on with a digit. */
  ghost predicate Stops(s: string, base: nat) { s != "" ==> forall d: nat :: d < base ==> !IsNth(s[0], d) }

  lemma NthDigit(c: char, d: nat, hex: bool)
    requires d < (if hex then 16 else 10) && IsNth(c, d)
    ensures DigitOf(c, hex).Some? && DigitOf(c, hex).value == d
  {
  }

  lemma NoDigit(c: char, hex: bool)
    requires DigitOf(c, hex).Some?
    ensures DigitOf(c, hex).value < (if hex then 16 else 10) && IsNth(c, DigitOf(c, hex).value)
  {
  }

  lemma {:induction false} DigitsRead(before: string, s: string, ds: seq<nat>, rest: string, hex: bool, k: nat)
    requires var base := if hex then 16 else 10; Spells(s, ds, base) && Stops(rest, base) && k <= |s|
    ensures var base := if hex then 16 else 10;
            Digits(before + s + rest, |before| + k, hex, Number(ds[..k], base)) == Number(ds, base)
    decreases |s| - k
  {
    hide Digits, Number, DigitOf, IsNth;
    var base, t, pos := if hex then 16 else 10, before + s + rest, |before| + k;
    if k < |s| {
      assert t[pos] == s[k];
      NthDigit(s[k], ds[k], hex);
      OneDigit(t, pos, hex, Number(ds[..k], base));
      OneMoreDigit(ds, k, base);
      DigitsRead(before, s, ds, rest, hex, k + 1);
    } else {
      assert ds[..k] == ds;
      if rest != "" {
        assert t[pos] == rest[0];
        StopsIsNoDigit(rest, hex);
      }
      DigitsEnd(t, pos, hex, Number(ds, base));
    }
  }

  lemma OneDigit(t: string, pos: nat, hex: bool, sofar: nat)
    requires pos < |t| && DigitOf(t[pos], hex).Some?
    ensures Digits(t, pos, hex, sofar)
            == Digits(t, pos + 1, hex, (if hex then 16 else 10) * sofar + DigitOf(t[pos], hex).value)
  {
    hide DigitOf;
  }

  lemma DigitsEnd(t: string, pos: nat, hex: bool, sofar: nat)
    requires pos <= |t| && (pos < |t| ==> DigitOf(t[pos], hex).None?)
    ensures Digits(t, pos, hex, sofar) == sofar
  {
    hide DigitOf;
  }

  lemma OneMoreDigit(ds: seq<nat>, k: nat, base: nat)
    requires k < |ds|
    ensures Number(ds[..k + 1], base) == base * Number(ds[..k], base) + ds[k]
  {
    assert ds[..k + 1][..k] == ds[..k];
  }

  lemma StopsIsNoDigit(rest: string, hex: bool)
    requires rest != "" && Stops(rest, if hex then 16 else 10)
    ensures DigitOf(rest[0], hex).None?
  {
    hide DigitOf, IsNth;
    if DigitOf(rest[0], hex).Some? {
      NoDigit(rest[0], hex);
      assert false;
    }
  }

  // ---------------------------------------------------------------- numbers

  function Capped(v: nat): Word { if v > 0xFFFF_FFFF then 0xFFFF_FFFF else v }

  /** Hexadecimal digits of either case behind 0x, up to the first character that is none. */
  lemma HexIsRead(space: string, x: char, s: string, ds: seq<nat>, rest: string, default: Word)
    requires IsWhite(space) && x in ['x', 'X'] && Spells(s, ds, 16) && Stops(rest, 16)
    ensures ParseInt(space + ("0" + [x] + s + rest), default) == Capped(Number(ds, 16))
  {
    hide Digits, SkipSpace, Number, Spells, IsNth, Stops, IsWhite, ParseInt;
    var r := "0" + [x] + s + rest;
    var t := space + r;
    assert t[|space|] == '0' && t[|space| + 1] == x;
    PrefixIsSeen(space, r);
    var before := space + "0" + [x];
    assert before + s + rest == t;
    DigitsRead(before, s, ds, rest, true, 0);
    NoDigits(ds, 16);
    PrefixedValue(t, |space|, Number(ds, 16), default);
  }

  /** A prefix behind white space is found. */
  lemma PrefixIsSeen(space: string, r: string)
    requires IsWhite(space) && |r| > 1 && r[0] == '0' && r[1] in ['x', 'X']
    ensures SkipSpace(space + r, 0) == |space| && HasHexPrefix(space + r)
  {
    hide SkipSpace, IsWhite;
    var t := space + r;
    FirstIsNotWhite(r);
    FirstIsNotWhite(r[..|r| - 1]);
    SkipsWhite(space, r, 0);
    SkipsWhite(space, r[..|r| - 1], 0);
    WithoutLast(space, r);
    assert t[|space|] == r[0] && t[|space| + 1] == r[1];
  }

  lemma FirstIsNotWhite(r: string)
    requires r != "" && r[0] == '0'
    ensures !IsWhite(r[..1])
  {
    assert r[..1][0] == '0';
  }

  lemma WithoutLast(space: string, r: string)
    requires r != ""
    ensures (space + r)[..|space + r| - 1] == space + r[..|r| - 1]
  {
  }

  /** The value of a number behind a prefix at a position. */
  lemma PrefixedValue(t: string, p: nat, v: nat, default: Word)
    requires p + 2 <= |t| && SkipSpace(t, 0) == p && HasHexPrefix(t) && t[p] == '0'
    requires Digits(t, p + 2, true, 0) == v
    ensures ParseInt(t, default) == Capped(v)
  {
    hide Digits, SkipSpace, HasHexPrefix;
  }

  /** Decimal digits, with or without a sign, up to the first character that is none; a negative number wraps around.
      No digits at all are zero. */
  lemma DecimalIsRead(space: string, sign: string, s: string, ds: seq<nat>, rest: string, default: Word)
    requires IsWhite(space) && sign in ["", "+", "-"] && Spells(s, ds, 10) && Stops(rest, 10)
    requires sign == s == "" ==> rest != "" && !IsWhite(rest[..1]) && rest[0] !in ['+', '-']
    requires !(sign == "" && s == "0" && rest != "" && rest[0] in ['x', 'X'])
    ensures ParseInt(space + (sign + s + rest), default)
            == var v := Number(ds, 10);
               if v > 0xFFFF_FFFF then 0xFFFF_FFFF else if sign == "-" && v > 0 then 0x1_0000_0000 - v else v
  {
    hide Digits, SkipSpace, HasHexPrefix, Number, Spells, IsNth, Stops, IsWhite, ParseInt;
    var r := sign + s + rest;
    var t := space + r;
    NotWhite(sign, s, ds, rest);
    SkipsWhite(space, r, 0);
    assert t[|space|] == r[0];
    NotHex(space, sign, s, ds, rest);
    var before := space + sign;
    assert before + s + rest == t;
    DigitsRead(before, s, ds, rest, false, 0);
    FirstSign(sign, s, ds, rest);
    NoDigits(ds, 10);
    SignedValue(t, |space|, sign, Number(ds, 10), default);
  }

  lemma NoDigits(ds: seq<nat>, base: nat)
    ensures Number(ds[..0], base) == 0
  {
  }

  /** The value of a number without prefix, with its sign at a position. */
  lemma SignedValue(t: string, p: nat, sign: string, v: nat, default: Word)
    requires p < |t| && SkipSpace(t, 0) == p && !HasHexPrefix(t)
    requires if t[p] in ['+', '-'] then sign == [t[p]] else sign == ""
    requires Digits(t, p + |sign|, false, 0) == v
    ensures ParseInt(t, default)
            == if v > 0xFFFF_FFFF then 0xFFFF_FFFF else if sign == "-" && v > 0 then 0x1_0000_0000 - v else v
  {
    hide Digits, SkipSpace, HasHexPrefix;
  }

  lemma FirstSign(sign: string, s: string, ds: seq<nat>, rest: string)
    requires sign in ["", "+", "-"] && Spells(s, ds, 10)
    requires sign == s == "" ==> rest != "" && rest[0] !in ['+', '-']
    ensures var r := sign + s + rest; r != "" && (if r[0] in ['+', '-'] then sign == [r[0]] else sign == "")
  {
    var r := sign + s + rest;
    if sign == "" && s != "" {
      assert r[0] == s[0] && IsNth(s[0], ds[0]);
    } else if sign == "" {
      assert r == rest;
    } else {
      assert r[0] == sign[0];
    }
  }

  lemma NotWhite(sign: string, s: string, ds: seq<nat>, rest: string)
    requires sign in ["", "+", "-"] && Spells(s, ds, 10)
    requires sign == s == "" ==> rest != "" && !IsWhite(rest[..1])
    ensures var r := sign + s + rest; r != "" && !IsWhite(r[..1])
  {
    var r := sign + s + rest;
    if sign == "" && s != "" {
      assert r[0] == s[0] && IsNth(s[0], ds[0]);
      assert r[..1][0] == s[0];
    } else if sign == "" {
      assert r == rest;
    } else {
      assert r[..1][0] == sign[0];
    }
  }

  lemma NotHex(space: string, sign: string, s: string, ds: seq<nat>, rest: string)
    requires IsWhite(space) && sign in ["", "+", "-"] && Spells(s, ds, 10) && Stops(rest, 10)
    requires sign == s == "" ==> rest != "" && !IsWhite(rest[..1])
    requires !(sign == "" && s == "0" && rest != "" && rest[0] in ['x', 'X'])
    ensures !HasHexPrefix(space + (sign + s + rest))
  {
    hide SkipSpace, Spells, IsNth, Stops;
    var r := sign + s + rest;
    NotWhite(sign, s, ds, rest);
    NoPrefix(sign, s, ds, rest);
    NoPrefixSeen(space, r);
  }

  lemma NoPrefixSeen(space: string, r: string)
    requires IsWhite(space) && r != "" && !IsWhite(r[..1])
    requires |r| > 1 ==> !(r[0] == '0' && r[1] in ['x', 'X'])
    ensures !HasHexPrefix(space + r)
  {
    hide SkipSpace;
    var t := space + r;
    WithoutLast(space, r);
    if |r| > 1 {
      assert r[..|r| - 1][..1] == r[..1];
      SkipsWhite(space, r[..|r| - 1], 0);
      hide IsWhite;
      assert t[|space|] == r[0] && t[|space| + 1] == r[1];
    } else {
      SkipsWhite(space, r[..0], 0);
    }
  }

  lemma NoPrefix(sign: string, s: string, ds: seq<nat>, rest: string)
    requires sign in ["", "+", "-"] && Spells(s, ds, 10) && Stops(rest, 10)
    requires !(sign == "" && s == "0" && rest != "" && rest[0] in ['x', 'X'])
    ensures var r := sign + s + rest; |r| > 1 ==> !(r[0] == '0' && r[1] in ['x', 'X'])
  {
    var r := sign + s + rest;
    if |r| > 1 && sign == "" {
      if s == "" {
        assert r[0] == rest[0] && !IsNth(rest[0], 0);
      } else if |s| == 1 {
        assert s == [r[0]] && r[1] == rest[0];
      } else {
        assert r[1] == s[1] && IsNth(s[1], ds[1]);
      }
    }
  }

  // ---------------------------------------------------------------- flags

  /** A word in letters of either case. */
  predicate InAnyCase(s: string, small: string, capital: string)
    requires |small| == |capital|
  {
    |s| == |small| && forall k :: 0 <= k < |s| ==> InCase(s[k], small[k], capital[k])
  }

  predicate InCase(c: char, small: char, capital: char) { c == small || c == capital }

  /** A flag is set by four words, in any case, and by nothing else. */
  lemma FlagIsRead(s: string)
    ensures ParseBool(s)
            <==> InAnyCase(s, "yes", "YES") || InAnyCase(s, "true", "TRUE") || InAnyCase(s, "on", "ON") || s == "1"
    ensures BoolText(true) == "yes" && BoolText(false) == "no"
  {
    LowerIs(s, "yes", "YES");
    LowerIs(s, "true", "TRUE");
    LowerIs(s, "on", "ON");
    LowerIs(s, "1", "1");
    hide Lower;
  }

  predicate Pairs(small: string, capital: string) {
    |small| == |capital| && forall k :: 0 <= k < |small| ==>
      small[k] == capital[k] == '1' || ('a' <= small[k] <= 'z' && capital[k] as int == small[k] as int - 32)
  }

  lemma LowerIs(s: string, small: string, capital: string)
    requires Pairs(small, capital)
    ensures Lower(s) == small <==> InAnyCase(s, small, capital)
  {
    var l := Lower(s);
    assert InAnyCase(s, small, capital) ==> l == small;
    assert l == small ==> forall k :: 0 <= k < |s| ==> l[k] == small[k] && InCase(s[k], small[k], capital[k]);
  }
}
