/** The JavaScript string built-ins the application relies on: `trim`, the
    `\s` class, `toLowerCase`/`toUpperCase`, `includes` and string ordering. */
module Strings {
  import opened Base

  /** The code points JavaScript's `\s` and `String.prototype.trim` treat as
      white space (WhiteSpace and LineTerminator). */
  predicate IsSpace(c: char)
  {
    var n := c as int;
    n == 0x09 || n == 0x0A || n == 0x0B || n == 0x0C || n == 0x0D || n == 0x20 ||
    n == 0xA0 || n == 0x1680 || (0x2000 <= n <= 0x200A) || n == 0x2028 || n == 0x2029 ||
    n == 0x202F || n == 0x205F || n == 0x3000 || n == 0xFEFF
  }

  predicate AllSpace(s: string)
  {
    forall i :: 0 <= i < |s| ==> IsSpace(s[i])
  }

  /** The UTF-16 code units of one character, as `charCodeAt` reads them:
      one unit inside the Basic Multilingual Plane, a surrogate pair beyond
      it. */
  function Utf16(c: char): (r: seq<int>)
    ensures 1 <= |r| <= 2
    ensures forall u :: u in r ==> 0 <= u < 0x1_0000
    ensures |r| == 1 <==> c as int < 0x1_0000
  {
    var n := c as int;
    if n < 0x1_0000 then [n]
    else [0xD800 + (n - 0x1_0000) / 0x400, 0xDC00 + (n - 0x1_0000) % 0x400]
  }

  /** A surrogate pair read back as the character it encodes. */
  function FromSurrogates(hi: int, lo: int): int
  {
    0x1_0000 + (hi - 0xD800) * 0x400 + (lo - 0xDC00)
  }

  /** A character beyond the Basic Multilingual Plane becomes a high
      surrogate followed by a low one, which decode back to it. */
  lemma Utf16RoundTrip(c: char)
    ensures var r := Utf16(c);
      (|r| == 1 ==> r[0] == c as int) &&
      (|r| == 2 ==> 0xD800 <= r[0] < 0xDC00 && 0xDC00 <= r[1] < 0xE000 &&
                    FromSurrogates(r[0], r[1]) == c as int)
  {
    var n := c as int;
    if n >= 0x1_0000 {
      var v := n - 0x1_0000;
      assert v == (v / 0x400) * 0x400 + v % 0x400;
    }
  }

  /** The code units of a string, the sequence `length` counts and
      `charCodeAt` indexes. */
  function CodeUnits(s: string): (r: seq<int>)
    ensures |r| >= |s|
    ensures forall u :: u in r ==> 0 <= u < 0x1_0000
  {
    if s == [] then []
    else CodeUnits(s[..|s| - 1]) + Utf16(s[|s| - 1])
  }

  /** Inside the Basic Multilingual Plane every character is one code unit. */
  lemma {:induction false} CodeUnitsBmp(s: string)
    requires forall i :: 0 <= i < |s| ==> s[i] as int < 0x1_0000
    ensures CodeUnits(s) == seq(|s|, i requires 0 <= i < |s| => s[i] as int)
  {
    if s != [] {
      CodeUnitsBmp(s[..|s| - 1]);
    }
  }

  /** Leading white space removed: the result is the longest suffix of `s`
      that does not start with white space. */
  function TrimStart(s: string): (r: string)
    ensures |r| <= |s| && r == s[|s| - |r|..]
    ensures AllSpace(s[..|s| - |r|])
    ensures r == [] || !IsSpace(r[0])
  {
    if s != [] && IsSpace(s[0]) then
      var r := TrimStart(s[1..]);
      assert s[..|s| - |r|] == [s[0]] + s[1..][..|s| - 1 - |r|];
      assert s[1..][|s| - 1 - |r|..] == s[|s| - |r|..];
      r
    else s
  }

  /** Trailing white space removed: the longest prefix of `s` that does not
      end with white space. */
  function TrimEnd(s: string): (r: string)
    ensures |r| <= |s| && r == s[..|r|]
    ensures AllSpace(s[|r|..])
    ensures r == [] || !IsSpace(r[|r| - 1])
  {
    if s != [] && IsSpace(s[|s| - 1]) then
      var r := TrimEnd(s[..|s| - 1]);
      assert s[|r|..] == s[..|s| - 1][|r|..] + [s[|s| - 1]];
      assert s[..|s| - 1][..|r|] == s[..|r|];
      r
    else s
  }

  /** `s.trim()` */
  function Trim(s: string): string
  {
    TrimEnd(TrimStart(s))
  }

  /** `!s.trim()`: the string holds nothing but white space. */
  predicate IsBlank(s: string)
  {
    Trim(s) == []
  }

  /** `!x || !x.trim()` for an optional string. */
  predicate IsBlankOpt(x: Option<string>)
  {
    x.None? || IsBlank(x.value)
  }

  /** `x?.trim() || ''` */
  function TrimOrEmpty(x: Option<string>): string
  {
    match x
    case None => ""
    case Some(s) => Trim(s)
  }

  /** `x?.trim() || ''` is already trimmed. */
  lemma TrimOrEmptyNormal(x: Option<string>)
    ensures Trim(TrimOrEmpty(x)) == TrimOrEmpty(x)
  {
    if x.Some? { TrimIdempotent(x.value); }
  }

  /** `s.trim()` has no white space at either end, and it is the slice of `s`
      that starts right after the leading white space. */
  lemma TrimBounds(s: string)
    ensures Trim(s) == [] || (!IsSpace(Trim(s)[0]) && !IsSpace(Trim(s)[|Trim(s)| - 1]))
    ensures |TrimStart(s)| >= |Trim(s)|
    ensures Trim(s) == s[|s| - |TrimStart(s)|..][..|Trim(s)|]
  {
    var t := TrimStart(s);
    var r := TrimEnd(t);
    if r != [] {
      assert r[0] == t[0];
    }
  }

  /** `s.trim()` is the slice `s[a..b]`. */
  lemma TrimSlice(s: string) returns (a: nat, b: nat)
    ensures a <= b <= |s| && Trim(s) == s[a..b]
  {
    var t := TrimStart(s);
    a := |s| - |t|;
    b := a + |Trim(s)|;
    assert t == s[a..] && Trim(s) == t[..b - a];
    assert s[a..][..b - a] == s[a..b];
  }

  /** Leading white space is all there is exactly when every character is white space. */
  lemma {:induction false} TrimStartEmptyIffAllSpace(s: string)
    ensures TrimStart(s) == [] <==> AllSpace(s)
  {
    if s != [] && IsSpace(s[0]) {
      TrimStartEmptyIffAllSpace(s[1..]);
      assert AllSpace(s) <==> AllSpace(s[1..]) by {
        assert forall i :: 1 <= i < |s| ==> s[i] == s[1..][i - 1];
      }
    }
  }

  /** A string is blank exactly when every character is white space. */
  lemma BlankIffAllSpace(s: string)
    ensures IsBlank(s) <==> AllSpace(s)
  {
    var t := TrimStart(s);
    TrimStartEmptyIffAllSpace(s);
    if t != [] {
      assert TrimEnd(t) != [] by {
        assert !IsSpace(t[0]);
        assert AllSpace(t[|TrimEnd(t)|..]);
      }
    }
  }

  /** Trimming twice is trimming once. */
  lemma TrimIdempotent(s: string)
    ensures Trim(Trim(s)) == Trim(s)
  {
    TrimBounds(s);
    TrimFixed(Trim(s));
  }

  /** A string with no white space at either end is its own trim. */
  lemma TrimFixed(r: string)
    requires r == [] || (!IsSpace(r[0]) && !IsSpace(r[|r| - 1]))
    ensures Trim(r) == r
  {
  }

  /** ASCII case mapping (`toLowerCase` on the characters A to Z). */
  function LowerChar(c: char): char
  {
    if 'A' <= c <= 'Z' then (c as int + 32) as char else c
  }

  function UpperChar(c: char): char
  {
    if 'a' <= c <= 'z' then (c as int - 32) as char else c
  }

  /** `s.toLowerCase()` */
  function ToLower(s: string): (r: string)
    ensures |r| == |s|
    ensures forall i :: 0 <= i < |s| ==> r[i] == LowerChar(s[i])
  {
    seq(|s|, i requires 0 <= i < |s| => LowerChar(s[i]))
  }

  /** `s.toUpperCase()` */
  function ToUpper(s: string): (r: string)
    ensures |r| == |s|
    ensures forall i :: 0 <= i < |s| ==> r[i] == UpperChar(s[i])
  {
    seq(|s|, i requires 0 <= i < |s| => UpperChar(s[i]))
  }

  /** `s.includes(t)`: `t` occurs in `s` as a contiguous substring. */
  predicate Includes(s: string, t: string)
  {
    (|t| <= |s| && s[..|t|] == t) || (s != [] && Includes(s[1..], t))
  }

  /** Lexicographic order of code points. It stands for the code-unit order
      of `Array.prototype.sort()` without a comparator, which it matches on
      strings inside the Basic Multilingual Plane, and for `localeCompare`. */
  predicate Le(a: string, b: string)
  {
    a == [] || (b != [] && (a[0] < b[0] || (a[0] == b[0] && Le(a[1..], b[1..]))))
  }

  lemma {:induction false} LeReflexive(a: string)
    ensures Le(a, a)
  {
    if a != [] {
      LeReflexive(a[1..]);
    }
  }

  lemma {:induction false} LeTotal(a: string, b: string)
    ensures Le(a, b) || Le(b, a)
  {
    if a != [] && b != [] && a[0] == b[0] {
      LeTotal(a[1..], b[1..]);
    }
  }

  lemma {:induction false} LeAntisymmetric(a: string, b: string)
    requires Le(a, b) && Le(b, a)
    ensures a == b
  {
    if a != [] && b != [] {
      LeAntisymmetric(a[1..], b[1..]);
      assert a == [a[0]] + a[1..];
      assert b == [b[0]] + b[1..];
    }
  }

  lemma {:induction false} LeTransitive(a: string, b: string, c: string)
    requires Le(a, b) && Le(b, c)
    ensures Le(a, c)
  {
    if a != [] && b != [] && c != [] && a[0] == b[0] && b[0] == c[0] {
      LeTransitive(a[1..], b[1..], c[1..]);
    }
  }
}
