/**
 * The JavaScript string operations the server and client rely on: trimming, case
 * conversion, `substring`, `includes`, `padStart`, `split`, `parseInt` and the `<`
 * comparison of strings.
 */
module Text {
  import opened Common

  /** The characters JavaScript's `trim` removes and its regular-expression class `\s` matches. */
  predicate IsSpace(c: char) {
    c == ' ' || c == '\t' || c == '\n' || c == '\r' || c == '\U{000B}' || c == '\U{000C}'
    || c == '\U{00A0}' || c == '\U{1680}' || ('\U{2000}' <= c <= '\U{200A}')
    || c == '\U{2028}' || c == '\U{2029}' || c == '\U{202F}' || c == '\U{205F}'
    || c == '\U{3000}' || c == '\U{FEFF}'
  }

  predicate Blank(s: string) {
    forall i :: 0 <= i < |s| ==> IsSpace(s[i])
  }

  /** The number of space characters at the front of `s`. */
  function LeadingSpaces(s: string): (k: nat)
    ensures k <= |s|
    ensures Blank(s[..k])
    ensures k < |s| ==> !IsSpace(s[k])
  {
    if s == [] || !IsSpace(s[0]) then 0
    else
      var k := LeadingSpaces(s[1..]);
      assert s[..k + 1] == [s[0]] + s[1..][..k];
      k + 1
  }

  /** The number of space characters at the end of `s`. */
  function TrailingSpaces(s: string): (k: nat)
    ensures k <= |s|
    ensures Blank(s[|s| - k..])
    ensures k < |s| ==> !IsSpace(s[|s| - 1 - k])
  {
    if s == [] || !IsSpace(s[|s| - 1]) then 0
    else
      var t := s[..|s| - 1];
      var k := TrailingSpaces(t);
      assert s[|s| - (k + 1)..] == t[|t| - k..] + [s[|s| - 1]];
      k + 1
  }

  /** JavaScript's `s.trim()`. */
  function Trim(s: string): (r: string)
    ensures |r| <= |s|
    ensures r == "" <==> Blank(s)
    ensures r != "" ==> !IsSpace(r[0]) && !IsSpace(r[|r| - 1])
  {
    var a := LeadingSpaces(s);
    var t := s[a..];
    var b := TrailingSpaces(t);
    assert !Blank(s) ==> a < |s| by {
      if a == |s| {
        assert s[..a] == s;
      }
    }
    t[..|t| - b]
  }

  lemma TrimIdempotent(s: string)
    ensures Trim(Trim(s)) == Trim(s)
  {
    var r := Trim(s);
    if r != "" {
      assert LeadingSpaces(r) == 0;
      assert TrailingSpaces(r) == 0;
    }
  }

  /** JavaScript's `s.substring(0, n)`: at most the first `n` characters. */
  function Take(s: string, n: nat): (r: string)
    ensures |r| <= n
    ensures |s| <= n ==> r == s
    ensures |s| > n ==> |r| == n
    ensures r == s[..|r|]
  {
    if |s| <= n then s else s[..n]
  }

  function LowerChar(c: char): char {
    if 'A' <= c <= 'Z' then (c as int + 32) as char else c
  }

  function UpperChar(c: char): char {
    if 'a' <= c <= 'z' then (c as int - 32) as char else c
  }

  /** `s.toLowerCase()`, over the ASCII letters. */
  function Lower(s: string): (r: string)
    ensures |r| == |s|
    ensures forall i :: 0 <= i < |s| ==> r[i] == LowerChar(s[i])
  {
    seq(|s|, i requires 0 <= i < |s| => LowerChar(s[i]))
  }

  predicate IsLower(s: string) {
    forall i :: 0 <= i < |s| ==> !('A' <= s[i] <= 'Z')
  }

  lemma LowerIsLower(s: string)
    ensures IsLower(Lower(s))
    ensures Lower(Lower(s)) == Lower(s)
  {
  }

  /** Whether `needle` occurs in `hay` starting at position `i`. */
  predicate OccursAt(hay: string, needle: string, i: nat) {
    i + |needle| <= |hay| && hay[i..i + |needle|] == needle
  }

  /** JavaScript's `hay.includes(needle)`. */
  function Contains(hay: string, needle: string): (r: bool)
    ensures r <==> exists i: nat :: OccursAt(hay, needle, i)
  {
    if |needle| > |hay| then
      assert forall i: nat :: !OccursAt(hay, needle, i);
      false
    else if hay[..|needle|] == needle then
      assert OccursAt(hay, needle, 0);
      true
    else
      var r := Contains(hay[1..], needle);
      assert forall i: nat :: OccursAt(hay[1..], needle, i) <==> OccursAt(hay, needle, i + 1) by {
        forall i: nat ensures OccursAt(hay[1..], needle, i) <==> OccursAt(hay, needle, i + 1) {
          if i + 1 + |needle| <= |hay| {
            assert hay[1..][i..i + |needle|] == hay[i + 1..i + 1 + |needle|];
          }
        }
      }
      assert r ==> exists i: nat :: OccursAt(hay, needle, i) by {
        if r {
          var i: nat :| OccursAt(hay[1..], needle, i);
          assert OccursAt(hay, needle, i + 1);
        }
      }
      assert (exists i: nat :: OccursAt(hay, needle, i)) ==> r by {
        if exists i: nat :: OccursAt(hay, needle, i) {
          var i: nat :| OccursAt(hay, needle, i);
          assert i != 0;
          assert OccursAt(hay[1..], needle, i - 1);
        }
      }
      r
  }

  /** A text of `n` copies of `c`. */
  function Repeat(c: char, n: nat): (r: string)
    ensures |r| == n
    ensures forall i :: 0 <= i < n ==> r[i] == c
  {
    if n == 0 then "" else [c] + Repeat(c, n - 1)
  }

  /** JavaScript's `s.padStart(n, c)` with a one-character fill. */
  function PadStart(s: string, n: nat, c: char): (r: string)
    ensures |r| == if |s| >= n then |s| else n
    ensures r[|r| - |s|..] == s
    ensures forall i :: 0 <= i < |r| - |s| ==> r[i] == c
  {
    if |s| >= n then s else Repeat(c, n - |s|) + s
  }

  /** JavaScript's `s.split(sep)` for a one-character separator. */
  function Split(s: string, sep: char): (parts: seq<string>)
    ensures |parts| >= 1
    ensures forall k :: 0 <= k < |parts| ==> sep !in parts[k]
  {
    if s == [] then [""]
    else if s[0] == sep then [""] + Split(s[1..], sep)
    else
      var rest := Split(s[1..], sep);
      [[s[0]] + rest[0]] + rest[1..]
  }

  /** The inverse of `Split`: the parts written back with the separator between them. */
  function Join(parts: seq<string>, sep: char): string
    requires |parts| >= 1
  {
    if |parts| == 1 then parts[0] else parts[0] + [sep] + Join(parts[1..], sep)
  }

  lemma {:induction false} JoinSplit(s: string, sep: char)
    ensures Join(Split(s, sep), sep) == s
  {
    if s != [] {
      JoinSplit(s[1..], sep);
      var rest := Split(s[1..], sep);
      if s[0] != sep {
        if |rest| > 1 {
          assert ([[s[0]] + rest[0]] + rest[1..])[1..] == rest[1..];
        }
      }
    }
  }

  /** Splitting a part that holds no separator, followed by more text after the separator. */
  lemma {:induction false} SplitCons(a: string, sep: char, rest: string)
    requires sep !in a
    ensures Split(a + [sep] + rest, sep) == [a] + Split(rest, sep)
  {
    if a == [] {
      assert a + [sep] + rest == [sep] + rest;
    } else {
      assert (a + [sep] + rest)[1..] == a[1..] + [sep] + rest;
      assert a[0] != sep && a == [a[0]] + a[1..];
      SplitCons(a[1..], sep, rest);
    }
  }

  lemma {:induction false} SplitNoSep(a: string, sep: char)
    requires sep !in a
    ensures Split(a, sep) == [a]
  {
    if a != [] {
      assert a[0] != sep && a == [a[0]] + a[1..];
      SplitNoSep(a[1..], sep);
    }
  }

  /** Splitting what `Join` wrote gives back the parts. */
  lemma {:induction false} SplitJoin(parts: seq<string>, sep: char)
    requires |parts| >= 1
    requires forall k :: 0 <= k < |parts| ==> sep !in parts[k]
    ensures Split(Join(parts, sep), sep) == parts
  {
    if |parts| == 1 {
      SplitNoSep(parts[0], sep);
    } else {
      SplitJoin(parts[1..], sep);
      SplitCons(parts[0], sep, Join(parts[1..], sep));
    }
  }

  predicate IsDigit(c: char) {
    '0' <= c <= '9'
  }

  function DigitValue(c: char): nat
    requires IsDigit(c)
  {
    c as int - '0' as int
  }

  function DigitChar(d: nat): (c: char)
    requires d < 10
    ensures IsDigit(c) && DigitValue(c) == d
  {
    ('0' as int + d) as char
  }

  predicate AllDigits(s: string) {
    forall i :: 0 <= i < |s| ==> IsDigit(s[i])
  }

  /** The value of a text made of decimal digits. */
  function DigitsValue(s: string): nat
    requires AllDigits(s)
  {
    if s == [] then 0 else DigitsValue(s[..|s| - 1]) * 10 + DigitValue(s[|s| - 1])
  }

  /** The decimal text of a natural number, as JavaScript's `String(n)` writes it. */
  function NatToString(n: nat): (s: string)
    ensures |s| >= 1 && AllDigits(s)
  {
    if n < 10 then [DigitChar(n)] else NatToString(n / 10) + [DigitChar(n % 10)]
  }

  lemma {:induction false} DigitsValueOfNatToString(n: nat)
    ensures DigitsValue(NatToString(n)) == n
  {
    if n >= 10 {
      DigitsValueOfNatToString(n / 10);
      var s := NatToString(n);
      assert s[..|s| - 1] == NatToString(n / 10);
    }
  }

  /** The length of the longest prefix of `s` made of digits. */
  function DigitPrefix(s: string): (k: nat)
    ensures k <= |s| && AllDigits(s[..k])
    ensures k < |s| ==> !IsDigit(s[k])
  {
    if s == [] || !IsDigit(s[0]) then 0
    else
      var k := DigitPrefix(s[1..]);
      assert s[..k + 1] == [s[0]] + s[1..][..k];
      k + 1
  }

  lemma {:induction false} DigitPrefixAll(s: string)
    requires AllDigits(s)
    ensures DigitPrefix(s) == |s|
  {
    if s != [] {
      DigitPrefixAll(s[1..]);
    }
  }

  /**
   * JavaScript's `parseInt(s, 10)`: leading white space is skipped, an optional sign
   * is read, then the longest run of digits; `None` stands for NaN (no digit at all).
   * It also stands for a radix-less `parseInt` whose text is always decimal (the hour of a
   * stored `HH:MM:SS` time, an event id written with `String`), where the two readings
   * agree: see `ParseIntNoRadix` and `ParseIntNoRadixIntToString`.
   */
  function ParseInt(s: string): (r: Option<int>)
    ensures r.None? <==> (var t := s[LeadingSpaces(s)..];
                          var u := if t != [] && (t[0] == '+' || t[0] == '-') then t[1..] else t;
                          u == [] || !IsDigit(u[0]))
  {
    var t := s[LeadingSpaces(s)..];
    var negative := t != [] && t[0] == '-';
    var u := if t != [] && (t[0] == '+' || t[0] == '-') then t[1..] else t;
    var k := DigitPrefix(u);
    if k == 0 then None
    else
      var v: int := DigitsValue(u[..k]);
      Some(if negative then -v else v)
  }

  /** Reading back what `NatToString` wrote gives the number again. */
  lemma ParseIntNatToString(n: nat)
    ensures ParseInt(NatToString(n)) == Some(n)
  {
    var s := NatToString(n);
    assert LeadingSpaces(s) == 0 by {
      assert IsDigit(s[0]);
    }
    assert s[0..] == s;
    DigitPrefixAll(s);
    assert s[..|s|] == s;
    DigitsValueOfNatToString(n);
  }

  /** `String(n)` for an integer. */
  function IntToString(n: int): (s: string)
    ensures |s| >= 1
  {
    if n >= 0 then NatToString(n) else "-" + NatToString(-n)
  }

  /** `parseInt(String(n))` is `n`. */
  lemma ParseIntIntToString(n: int)
    ensures ParseInt(IntToString(n)) == Some(n)
  {
    if n >= 0 {
      ParseIntNatToString(n);
    } else {
      var d := NatToString(-n);
      var s := "-" + d;
      assert LeadingSpaces(s) == 0 by {
        assert !IsSpace('-');
      }
      assert s[0..] == s && s[1..] == d;
      DigitPrefixAll(d);
      assert d[..|d|] == d;
      DigitsValueOfNatToString(-n);
    }
  }

  /** What follows the leading white space and an optional sign. */
  function Unsigned(s: string): (u: string)
    ensures |u| <= |s|
  {
    var t := s[LeadingSpaces(s)..];
    if t != [] && (t[0] == '+' || t[0] == '-') then t[1..] else t
  }

  /** Whether the sign read after the leading white space is a minus. */
  predicate NegativeSign(s: string) {
    var t := s[LeadingSpaces(s)..];
    t != [] && t[0] == '-'
  }

  predicate IsHexDigit(c: char) {
    IsDigit(c) || 'a' <= c <= 'f' || 'A' <= c <= 'F'
  }

  function HexDigitValue(c: char): (v: nat)
    requires IsHexDigit(c)
    ensures v < 16
  {
    if IsDigit(c) then DigitValue(c)
    else if 'a' <= c <= 'f' then c as int - 'a' as int + 10
    else c as int - 'A' as int + 10
  }

  predicate AllHexDigits(s: string) {
    forall i :: 0 <= i < |s| ==> IsHexDigit(s[i])
  }

  /** The value of a text made of hexadecimal digits of either case. */
  function HexValue(s: string): nat
    requires AllHexDigits(s)
  {
    if s == [] then 0 else HexValue(s[..|s| - 1]) * 16 + HexDigitValue(s[|s| - 1])
  }

  /** The length of the longest prefix of `s` made of hexadecimal digits. */
  function HexPrefix(s: string): (k: nat)
    ensures k <= |s| && AllHexDigits(s[..k])
    ensures k < |s| ==> !IsHexDigit(s[k])
  {
    if s == [] || !IsHexDigit(s[0]) then 0
    else
      var k := HexPrefix(s[1..]);
      assert s[..k + 1] == [s[0]] + s[1..][..k];
      k + 1
  }

  lemma {:induction false} HexPrefixAll(s: string)
    requires AllHexDigits(s)
    ensures HexPrefix(s) == |s|
  {
    if s != [] {
      HexPrefixAll(s[1..]);
    }
  }

  /** Whether a text starts with `0x` or `0X`, the prefix that switches `parseInt` to base 16. */
  predicate HexPrefixed(u: string) {
    |u| >= 2 && u[0] == '0' && (u[1] == 'x' || u[1] == 'X')
  }

  /**
   * JavaScript's `parseInt(s)` with no radix: as `parseInt(s, 10)`, except that a `0x` or
   * `0X` after the white space and sign switches to base 16, read from the longest run of
   * hexadecimal digits that follows; `None` (NaN) when no digit of the base follows.
   */
  function ParseIntNoRadix(s: string): (r: Option<int>)
    ensures !HexPrefixed(Unsigned(s)) ==> r == ParseInt(s)
    ensures HexPrefixed(Unsigned(s)) ==>
      (r.None? <==> |Unsigned(s)| == 2 || !IsHexDigit(Unsigned(s)[2]))
    ensures HexPrefixed(Unsigned(s)) && |Unsigned(s)| > 2 && AllHexDigits(Unsigned(s)[2..]) ==>
      (var v: int := HexValue(Unsigned(s)[2..]); r == Some(if NegativeSign(s) then -v else v))
  {
    var u := Unsigned(s);
    if !HexPrefixed(u) then ParseInt(s)
    else
      var h := u[2..];
      var k := HexPrefix(h);
      if k == 0 then None
      else
        var v: int := HexValue(h[..k]);
        assert AllHexDigits(h) ==> h[..k] == h by {
          if AllHexDigits(h) {
            HexPrefixAll(h);
          }
        }
        Some(if NegativeSign(s) then -v else v)
  }

  /** The decimal text of an integer never carries the hexadecimal prefix, so both readings agree. */
  lemma ParseIntNoRadixIntToString(n: int)
    ensures !HexPrefixed(Unsigned(IntToString(n)))
    ensures ParseIntNoRadix(IntToString(n)) == Some(n)
  {
    var s := IntToString(n);
    var d := NatToString(if n >= 0 then n else -n);
    assert LeadingSpaces(s) == 0 by {
      assert !IsSpace(s[0]) by {
        assert s[0] == '-' || IsDigit(s[0]);
      }
    }
    assert s[0..] == s;
    assert Unsigned(s) == d by {
      if n < 0 {
        assert s[1..] == d;
      } else {
        assert !IsHexDigit(s[0]) || IsDigit(s[0]);
      }
    }
    assert |d| >= 2 ==> IsDigit(d[1]);
    ParseIntIntToString(n);
  }

  /** Radix-less readings of hexadecimal texts: `"0x1a"` is 26, a bare prefix is NaN. */
  lemma ParseIntNoRadixHex()
    ensures ParseIntNoRadix("0x1a") == Some(26)
    ensures ParseIntNoRadix(" -0X1A") == Some(-26)
    ensures ParseIntNoRadix("0x") == None
    ensures ParseIntNoRadix("0xg1") == None
  {
    assert LeadingSpaces("0x1a") == 0;
    assert Unsigned("0x1a") == "0x1a";
    assert "0x1a"[2..] == "1a";
    assert HexValue("1a") == 26 by {
      assert "1a"[..1] == "1";
      assert "1"[..0] == "";
    }
    assert LeadingSpaces(" -0X1A") == 1 by {
      assert LeadingSpaces(" -0X1A"[1..]) == 0 by {
        assert " -0X1A"[1..][0] == '-';
      }
    }
    assert " -0X1A"[1..] == "-0X1A";
    assert Unsigned(" -0X1A") == "0X1A";
    assert "0X1A"[2..] == "1A";
    assert HexValue("1A") == 26 by {
      assert "1A"[..1] == "1";
      assert "1"[..0] == "";
    }
    assert LeadingSpaces("0x") == 0;
    assert Unsigned("0x") == "0x";
    assert LeadingSpaces("0xg1") == 0;
    assert Unsigned("0xg1") == "0xg1";
  }

  /** JavaScript's `a < b` on strings: lexicographic order of the characters. */
  predicate LexLess(a: string, b: string) {
    if a == [] then b != []
    else b != [] && (a[0] < b[0] || (a[0] == b[0] && LexLess(a[1..], b[1..])))
  }

  lemma {:induction false} LexLessIrreflexive(a: string)
    ensures !LexLess(a, a)
  {
    if a != [] {
      LexLessIrreflexive(a[1..]);
    }
  }

  lemma {:induction false} LexLessAsymmetric(a: string, b: string)
    ensures !(LexLess(a, b) && LexLess(b, a))
  {
    if a != [] && b != [] && a[0] == b[0] {
      LexLessAsymmetric(a[1..], b[1..]);
    }
  }
}
