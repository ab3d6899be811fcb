/** The Kotlin `String` operations the plugin relies on, over `seq<char>`. */
module Strings {
  import opened Wrappers

  /** Kotlin's `Int.MIN_VALUE` and `Int.MAX_VALUE`: the range `toIntOrNull` accepts. */
  const IntMin: int := -0x8000_0000
  const IntMax: int := 0x7fff_ffff

  predicate StartsWith(s: string, prefix: string) {
    |prefix| <= |s| && s[..|prefix|] == prefix
  }

  predicate EndsWith(s: string, suffix: string) {
    |suffix| <= |s| && s[|s| - |suffix|..] == suffix
  }

  /** `dropLast(1)`: everything but the last character. */
  function DropLast(s: string): (r: string)
    ensures s != [] ==> s == r + [s[|s| - 1]]
    ensures s == [] ==> r == []
  {
    if s == [] then [] else s[..|s| - 1]
  }

  /** `replace(from, to)` on single characters. */
  function ReplaceChar(s: string, from: char, to: char): (r: string)
    ensures |r| == |s|
    ensures forall i :: 0 <= i < |s| ==> r[i] == if s[i] == from then to else s[i]
  {
    if s == [] then []
    else [if s[0] == from then to else s[0]] + ReplaceChar(s[1..], from, to)
  }

  /** Kotlin's `Char.isWhitespace()` on the JVM: `Character.isWhitespace(c) || Character.isSpaceChar(c)`. */
  predicate IsWhitespace(c: char) {
    || c == ' ' || c == '\t' || c == '\n' || c == '\U{000B}' || c == '\U{000C}' || c == '\r'
    || ('\U{001C}' <= c <= '\U{001F}')
    || c == '\U{00A0}' || c == '\U{1680}' || ('\U{2000}' <= c <= '\U{200A}')
    || c == '\U{2028}' || c == '\U{2029}' || c == '\U{202F}' || c == '\U{205F}' || c == '\U{3000}'
  }

  /** `isBlank()`: empty, or whitespace only. */
  predicate IsBlank(s: string) {
    forall i :: 0 <= i < |s| ==> IsWhitespace(s[i])
  }

  /** `s` without the whitespace it ends with. */
  function DropTrailingBlanks(s: string): (r: string)
    ensures |r| <= |s| && r == s[..|r|]
    ensures IsBlank(s[|r|..])
    ensures r != [] ==> !IsWhitespace(r[|r| - 1])
  {
    if s != [] && IsWhitespace(s[|s| - 1]) then
      var r := DropTrailingBlanks(s[..|s| - 1]);
      assert s[|r|..] == s[..|s| - 1][|r|..] + [s[|s| - 1]];
      r
    else s
  }

  /** `trim()`: `s` without the whitespace at both of its ends. */
  function Trim(s: string): (r: string)
    ensures |r| <= |s|
    ensures r != [] ==> !IsWhitespace(r[0]) && !IsWhitespace(r[|r| - 1])
  {
    if s != [] && IsWhitespace(s[0]) then Trim(s[1..]) else DropTrailingBlanks(s)
  }

  /** What `trim()` removes is whitespace, and only at the two ends. */
  lemma {:induction false} TrimSlice(s: string)
    ensures exists i, j :: 0 <= i <= j <= |s| && Trim(s) == s[i..j] && IsBlank(s[..i]) && IsBlank(s[j..])
  {
    if s != [] && IsWhitespace(s[0]) {
      var u := s[1..];
      TrimSlice(u);
      var i, j :| 0 <= i <= j <= |u| && Trim(u) == u[i..j] && IsBlank(u[..i]) && IsBlank(u[j..]);
      ShiftSlice(s, u, i, j);
      assert Trim(s) == s[i + 1..j + 1];
    } else {
      var r := DropTrailingBlanks(s);
      assert IsBlank(s[..0]);
      assert Trim(s) == s[0..|r|];
    }
  }

  /** Slices of `s[1..]` are slices of `s` one further on; a leading blank
      extends a blank prefix. */
  lemma ShiftSlice(s: string, u: string, i: nat, j: nat)
    requires s != [] && IsWhitespace(s[0]) && u == s[1..]
    requires i <= j <= |u| && IsBlank(u[..i]) && IsBlank(u[j..])
    ensures u[i..j] == s[i + 1..j + 1] && IsBlank(s[..i + 1]) && IsBlank(s[j + 1..])
  {
    assert forall k :: 0 <= k < i ==> s[..i + 1][k + 1] == u[..i][k];
    assert u[j..] == s[j + 1..];
  }

  /** A string is blank exactly when it trims to nothing. */
  lemma {:induction false} TrimBlank(s: string)
    ensures IsBlank(s) <==> Trim(s) == []
  {
    if s != [] && IsWhitespace(s[0]) {
      TrimBlank(s[1..]);
      assert IsBlank(s) <==> IsBlank(s[1..]) by {
        assert forall k :: 1 <= k < |s| ==> s[k] == s[1..][k - 1];
      }
    }
  }

  /** A string with no whitespace at either end is its own trim. */
  lemma TrimIdentity(s: string)
    requires s != [] ==> !IsWhitespace(s[0]) && !IsWhitespace(s[|s| - 1])
    ensures Trim(s) == s
  {
  }

  function CountChar(s: string, c: char): nat {
    if s == [] then 0 else (if s[0] == c then 1 else 0) + CountChar(s[1..], c)
  }

  /** The character occurs exactly when it is counted at least once. */
  lemma {:induction false} CountCharIn(s: string, c: char)
    ensures CountChar(s, c) > 0 <==> c in s
  {
    if s != [] {
      CountCharIn(s[1..], c);
      assert s == [s[0]] + s[1..];
    }
  }

  /** `split(d)` with a one-character delimiter and no limit: pieces between
      the delimiters, empty pieces kept, so never an empty list. */
  function Split(s: string, d: char): (r: seq<string>)
    ensures |r| == CountChar(s, d) + 1
    ensures forall k :: 0 <= k < |r| ==> d !in r[k]
  {
    if s == [] then [[]]
    else if s[0] == d then [[]] + Split(s[1..], d)
    else
      var rest := Split(s[1..], d);
      [[s[0]] + rest[0]] + rest[1..]
  }

  /** `joinToString(d)`: the pieces with one delimiter between neighbours. */
  function Join(xs: seq<string>, d: char): string {
    if xs == [] then []
    else if |xs| == 1 then xs[0]
    else xs[0] + [d] + Join(xs[1..], d)
  }

  /** Joining the pieces of a split gives back the string. */
  lemma {:induction false} JoinSplit(s: string, d: char)
    ensures Join(Split(s, d), d) == s
  {
    if s != [] {
      JoinSplit(s[1..], d);
      var rest := Split(s[1..], d);
      if s[0] == d {
        JoinCons([], rest, d);
        assert [] + [d] + s[1..] == s;
      } else if |rest| == 1 {
        assert Split(s, d) == [[s[0]] + rest[0]];
        assert [s[0]] + s[1..] == s;
      } else {
        JoinCons([s[0]] + rest[0], rest[1..], d);
        JoinCons(rest[0], rest[1..], d);
        assert rest == [rest[0]] + rest[1..];
        assert [s[0]] + s[1..] == s;
      }
    }
  }

  lemma JoinCons(x: string, xs: seq<string>, d: char)
    requires xs != []
    ensures Join([x] + xs, d) == x + [d] + Join(xs, d)
  {
    assert ([x] + xs)[1..] == xs;
  }

  /** Splitting a join gives back the pieces, when no piece holds the delimiter. */
  lemma {:induction false} SplitJoin(xs: seq<string>, d: char)
    requires |xs| >= 1
    requires forall k :: 0 <= k < |xs| ==> d !in xs[k]
    ensures Split(Join(xs, d), d) == xs
  {
    if |xs| == 1 {
      SplitPiece(xs[0], [], d);
      assert xs[0] + [] == xs[0];
    } else {
      SplitJoin(xs[1..], d);
      SplitPiece(xs[0], [d] + Join(xs[1..], d), d);
      var j := [d] + Join(xs[1..], d);
      assert j[0] == d && j[1..] == Join(xs[1..], d);
      assert Split(j, d) == [[]] + xs[1..];
      assert Join(xs, d) == xs[0] + j;
      var sp := Split(j, d);
      assert sp[0] == [] && sp[1..] == xs[1..];
      assert xs[0] + sp[0] == xs[0];
      assert xs == [xs[0]] + xs[1..];
    }
  }

  /** A delimiter-free prefix extends the first piece of the split. */
  lemma {:induction false} SplitPiece(p: string, rest: string, d: char)
    requires d !in p
    ensures Split(p + rest, d) == [p + Split(rest, d)[0]] + Split(rest, d)[1..]
  {
    if p != [] {
      assert (p + rest)[0] == p[0] != d;
      assert (p + rest)[1..] == p[1..] + rest;
      SplitPiece(p[1..], rest, d);
      var r := Split(rest, d);
      assert [p[0]] + (p[1..] + r[0]) == p + r[0];
    } else {
      assert p + rest == rest;
      var r := Split(rest, d);
      assert r == [r[0]] + r[1..];
      assert p + r[0] == r[0];
    }
  }

  predicate IsDigit(c: char) {
    '0' <= c <= '9'
  }

  predicate AllDigits(s: string) {
    forall i :: 0 <= i < |s| ==> IsDigit(s[i])
  }

  /** The value of a string of decimal digits, most significant first. */
  function DigitsValue(s: string): nat
    requires AllDigits(s)
  {
    if s == [] then 0 else DigitsValue(s[..|s| - 1]) * 10 + (s[|s| - 1] as int - '0' as int)
  }

  /** `toIntOrNull()`: an optional sign, then one or more decimal digits whose
      value lies in the 32-bit range; anything else is `null`. */
  function ParseInt(s: string): (r: Option<int>)
    ensures r.Some? ==> IntMin <= r.value <= IntMax
    ensures s == [] ==> r == None
    ensures (exists i :: 0 < i < |s| && !IsDigit(s[i])) ==> r == None
    ensures s != [] && !IsDigit(s[0]) && s[0] != '-' && s[0] != '+' ==> r == None
    ensures s == "-" || s == "+" ==> r == None
  {
    if s == [] then None
    else
      var digits := if s[0] == '-' || s[0] == '+' then s[1..] else s;
      if digits == [] || !AllDigits(digits) then None
      else
        var v: int := if s[0] == '-' then 0 - DigitsValue(digits) as int else DigitsValue(digits);
        if IntMin <= v <= IntMax then Some(v) else None
  }

  function DigitChar(d: nat): (c: char)
    requires d < 10
    ensures IsDigit(c) && c as int - '0' as int == d
  {
    ('0' as int + d) as char
  }

  /** Decimal digits of `n`, no leading zeros. */
  function NatToString(n: nat): (r: string)
    ensures r != [] && AllDigits(r)
    ensures |r| > 1 ==> r[0] != '0'
  {
    if n < 10 then [DigitChar(n)] else NatToString(n / 10) + [DigitChar(n % 10)]
  }

  /** `Int.toString()`. */
  function IntToString(n: int): string {
    if n < 0 then "-" + NatToString(-n) else NatToString(n)
  }

  lemma {:induction false} DigitsValueOfNatToString(n: nat)
    ensures DigitsValue(NatToString(n)) == n
  {
    if n >= 10 {
      DigitsValueOfNatToString(n / 10);
      var s := NatToString(n);
      assert s[..|s| - 1] == NatToString(n / 10);
    }
  }

  /** `toIntOrNull` reads back every 32-bit integer that `toString` writes. */
  lemma ParseIntOfIntToString(n: int)
    requires IntMin <= n <= IntMax
    ensures ParseInt(IntToString(n)) == Some(n)
  {
    if n < 0 {
      DigitsValueOfNatToString(-n);
      ParseIntNegated(NatToString(-n));
    } else {
      DigitsValueOfNatToString(n);
      ParseIntUnsigned(NatToString(n));
    }
  }

  lemma ParseIntUnsigned(d: string)
    requires d != [] && AllDigits(d) && DigitsValue(d) <= IntMax
    ensures ParseInt(d) == Some(DigitsValue(d))
  {
    assert IsDigit(d[0]);
  }

  lemma ParseIntNegated(d: string)
    requires d != [] && AllDigits(d) && DigitsValue(d) <= -IntMin
    ensures ParseInt("-" + d) == Some(0 - DigitsValue(d))
  {
    var s := "-" + d;
    assert s[0] == '-' && s[1..] == d;
  }

  /** `c.toString().repeat(n)`. */
  function Repeat(c: char, n: nat): (r: string)
    ensures |r| == n
    ensures forall i :: 0 <= i < n ==> r[i] == c
  {
    if n == 0 then [] else [c] + Repeat(c, n - 1)
  }

  /** `%-ws`: left-justified, space-padded to width `w`, never truncated. */
  function PadRight(s: string, w: nat): (r: string)
    ensures |r| == if |s| < w then w else |s|
    ensures r[..|s|] == s
    ensures forall i :: |s| <= i < |r| ==> r[i] == ' '
  {
    if |s| < w then s + Repeat(' ', w - |s|) else s
  }

  /** `%ws`: right-justified, space-padded to width `w`, never truncated. */
  function PadLeft(s: string, w: nat): (r: string)
    ensures |r| == if |s| < w then w else |s|
    ensures r[|r| - |s|..] == s
    ensures forall i :: 0 <= i < |r| - |s| ==> r[i] == ' '
  {
    if |s| < w then Repeat(' ', w - |s|) + s else s
  }

  /** `String.compareTo(...) <= 0`: lexicographic order on characters, a proper prefix first. */
  predicate LexLessEq(a: string, b: string) {
    if a == [] then true
    else if b == [] then false
    else if a[0] != b[0] then a[0] < b[0]
    else LexLessEq(a[1..], b[1..])
  }

  lemma {:induction false} LexReflexive(a: string)
    ensures LexLessEq(a, a)
  {
    if a != [] { LexReflexive(a[1..]); }
  }

  lemma {:induction false} LexTotal(a: string, b: string)
    ensures LexLessEq(a, b) || LexLessEq(b, a)
  {
    if a != [] && b != [] && a[0] == b[0] { LexTotal(a[1..], b[1..]); }
  }

  lemma {:induction false} LexTransitive(a: string, b: string, c: string)
    requires LexLessEq(a, b) && LexLessEq(b, c)
    ensures LexLessEq(a, c)
  {
    if a != [] && b != [] && c != [] && a[0] == b[0] && b[0] == c[0] {
      LexTransitive(a[1..], b[1..], c[1..]);
    }
  }

  lemma {:induction false} LexAntisymmetric(a: string, b: string)
    requires LexLessEq(a, b) && LexLessEq(b, a)
    ensures a == b
  {
    if a != [] && b != [] {
      LexAntisymmetric(a[1..], b[1..]);
      assert a == [a[0]] + a[1..] && b == [b[0]] + b[1..];
    }
  }

  function LowerAscii(c: char): char {
    if 'A' <= c <= 'Z' then (c as int + 32) as char else c
  }

  /** `lowercase()` restricted to ASCII letters. */
  function LowercaseAscii(s: string): (r: string)
    ensures |r| == |s|
    ensures forall i :: 0 <= i < |s| ==> r[i] == LowerAscii(s[i])
  {
    if s == [] then [] else [LowerAscii(s[0])] + LowercaseAscii(s[1..])
  }

  /** `substringAfterLast(c, "")`: what follows the last `c`, or "" when there is none. */
  function AfterLast(s: string, c: char): (r: string)
    ensures c !in r
    ensures c !in s ==> r == []
    ensures c in s ==> |r| < |s| && r == s[|s| - |r|..] && s[|s| - |r| - 1] == c
  {
    if c !in s then []
    else if s[|s| - 1] == c then []
    else
      assert c in s[..|s| - 1] by {
        var k :| 0 <= k < |s| && s[k] == c;
        assert s[..|s| - 1][k] == c;
      }
      AfterLast(s[..|s| - 1], c) + [s[|s| - 1]]
  }

  /** What follows the last `c` is exactly the part after it that holds no `c`. */
  lemma {:induction false} AfterLastAppend(s: string, c: char, t: string)
    requires c !in t
    ensures AfterLast(s + [c] + t, c) == t
  {
    var x := s + [c] + t;
    assert x[|s|] == c;
    if t != [] {
      var init := t[..|t| - 1];
      assert x[..|x| - 1] == s + [c] + init;
      AfterLastAppend(s, c, init);
      assert t == init + [t[|t| - 1]];
    }
  }
}
