/** The JavaScript built-ins on text that the application relies on:
    `String.prototype.trim`, `Number.prototype.toString` on integers,
    `parseInt` on decimal integer text and `Array.prototype.join(",")`. */
module JsText {

  /** ECMAScript WhiteSpace and LineTerminator code points: what `trim` removes. */
  predicate IsJsSpace(c: char) {
    var n := c as int;
    (0x09 <= n <= 0x0D) || n == 0x20 || n == 0xA0 || n == 0x1680
    || (0x2000 <= n <= 0x200A) || n == 0x2028 || n == 0x2029
    || n == 0x202F || n == 0x205F || n == 0x3000 || n == 0xFEFF
  }

  predicate AllSpace(s: string) {
    forall k :: 0 <= k < |s| ==> IsJsSpace(s[k])
  }

  /** `s` without its leading whitespace: a suffix of `s` that does not start with whitespace. */
  function TrimStart(s: string): (r: string)
    ensures |r| <= |s| && r == s[|s| - |r|..]
    ensures AllSpace(s[..|s| - |r|])
    ensures r == [] || !IsJsSpace(r[0])
  {
    if s != [] && IsJsSpace(s[0]) then
      var r := TrimStart(s[1..]);
      assert AllSpace(s[..|s| - |r|]) by {
        forall k | 0 <= k < |s| - |r|
          ensures IsJsSpace(s[k])
        {
          if k > 0 {
            assert s[k] == s[1..][..|s| - 1 - |r|][k - 1];
          }
        }
      }
      r
    else
      s
  }

  /** `s` without its trailing whitespace: a prefix of `s` that does not end with whitespace. */
  function TrimEnd(s: string): (r: string)
    ensures |r| <= |s| && r == s[..|r|]
    ensures AllSpace(s[|r|..])
    ensures r == [] || !IsJsSpace(r[|r| - 1])
  {
    if s != [] && IsJsSpace(s[|s| - 1]) then
      var r := TrimEnd(s[..|s| - 1]);
      assert s[|r|..] == s[..|s| - 1][|r|..] + [s[|s| - 1]];
      r
    else
      s
  }

  /** `String.prototype.trim`: the slice of `s` between its leading and its trailing
      whitespace (see TrimIsSlice); empty exactly when `s` is whitespace only. */
  function Trim(s: string): (r: string)
    ensures r == [] <==> AllSpace(s)
    ensures r == [] || (!IsJsSpace(r[0]) && !IsJsSpace(r[|r| - 1]))
  {
    var t := TrimStart(s);
    assert t == [] ==> s == s[..|s| - |t|];
    TrimEnd(t)
  }

  /** `r` is the slice of `s` at offset `i` with only whitespace around it. */
  predicate SliceBetweenSpaces(s: string, r: string, i: nat) {
    i + |r| <= |s| && r == s[i..i + |r|] && AllSpace(s[..i]) && AllSpace(s[i + |r|..])
  }

  lemma TrimIsSlice(s: string)
    ensures exists i :: SliceBetweenSpaces(s, Trim(s), i)
  {
    var t := TrimStart(s);
    var r := TrimEnd(t);
    var i := |s| - |t|;
    assert r == Trim(s);
    assert t == s[i..];
    assert r == s[i..i + |r|];
    assert s[i + |r|..] == t[|r|..];
    assert SliceBetweenSpaces(s, r, i);
  }

  predicate IsDigit(c: char) {
    '0' <= c <= '9'
  }

  predicate AllDigits(s: string) {
    forall k :: 0 <= k < |s| ==> IsDigit(s[k])
  }

  function DigitChar(d: nat): (c: char)
    requires d < 10
    ensures IsDigit(c) && c as int - '0' as int == d
  {
    ('0' as int + d) as char
  }

  /** The value of a string of decimal digits, most significant first (empty reads as 0). */
  function DigitsValue(s: string): nat
    requires AllDigits(s)
  {
    if s == [] then 0 else 10 * DigitsValue(s[..|s| - 1]) + (s[|s| - 1] as int - '0' as int)
  }

  /** `Number.prototype.toString` on a non-negative integer: its decimal digits. */
  function NatToString(n: nat): (s: string)
    ensures s != [] && AllDigits(s)
  {
    if n < 10 then [DigitChar(n)] else NatToString(n / 10) + [DigitChar(n % 10)]
  }

  lemma {:induction false} NatToStringRoundTrip(n: nat)
    ensures DigitsValue(NatToString(n)) == n
  {
    if n >= 10 {
      NatToStringRoundTrip(n / 10);
      var s := NatToString(n);
      assert s[..|s| - 1] == NatToString(n / 10);
    }
  }

  /** A number's text has no redundant leading zero. */
  lemma {:induction false} NatToStringNoLeadingZero(n: nat)
    ensures NoLeadingZero(NatToString(n))
  {
    if n >= 10 {
      NatToStringNoLeadingZero(n / 10);
    }
  }

  /** `Number.prototype.toString` on an integer: a minus sign before the digits of a
      negative one; the digits never start with a redundant `0`. */
  function IntToString(i: int): (r: string)
    ensures r != [] && (r[0] == '-' <==> i < 0)
    ensures IsJsonIntText(r)
    ensures ',' !in r
  {
    var digits := NatToString(if i < 0 then -i else i);
    NatToStringNoLeadingZero(if i < 0 then -i else i);
    if i < 0 then
      var r := "-" + digits;
      assert r[1..] == digits;
      r
    else digits
  }

  /** Decimal integer text: digits, optionally after one minus sign. */
  predicate IsIntText(s: string) {
    (s != [] && AllDigits(s)) || (|s| >= 2 && s[0] == '-' && AllDigits(s[1..]))
  }

  /** No redundant leading zero: a single digit, or digits that do not start with `0`. */
  predicate NoLeadingZero(d: string) {
    |d| == 1 || (d != [] && d[0] != '0')
  }

  /** An integer as a JSON number: an optional minus sign, then digits without a
      redundant leading zero. */
  predicate IsJsonIntText(s: string) {
    IsIntText(s) && NoLeadingZero(if s[0] == '-' then s[1..] else s)
  }

  /** What `parseInt` returns for decimal integer text. */
  function ParseIntText(s: string): int
    requires IsIntText(s)
  {
    if s[0] == '-' then -(DigitsValue(s[1..]) as int) else DigitsValue(s)
  }

  /** Reading back what `toString` wrote gives the same integer. */
  lemma IntToStringRoundTrip(i: int)
    ensures IsIntText(IntToString(i)) && ParseIntText(IntToString(i)) == i
  {
    var s := IntToString(i);
    if i < 0 {
      NatToStringRoundTrip(-i);
      assert s[1..] == NatToString(-i);
    } else {
      NatToStringRoundTrip(i);
    }
  }

  /** `Array.prototype.join(",")` over integers: empty exactly for the empty list, and
      otherwise holding one comma fewer than there are integers. */
  function JoinInts(l: seq<int>): (r: string)
    ensures r == "" <==> l == []
    ensures multiset(r)[','] == if l == [] then 0 else |l| - 1
  {
    if l == [] then ""
    else if |l| == 1 then IntToString(l[0])
    else IntToString(l[0]) + "," + JoinInts(l[1..])
  }

  /** The position of the first `c` in `s`. */
  function IndexOf(s: string, c: char): (i: nat)
    requires c in s
    ensures i < |s| && s[i] == c && c !in s[..i]
  {
    if s[0] == c then 0 else 1 + IndexOf(s[1..], c)
  }

  /** The first `c` after a prefix free of `c` is found right after that prefix. */
  lemma {:induction false} IndexOfAfter(prefix: string, rest: string, c: char)
    requires c !in prefix
    ensures IndexOf(prefix + [c] + rest, c) == |prefix|
  {
    if prefix != [] {
      assert (prefix + [c] + rest)[1..] == prefix[1..] + [c] + rest;
      IndexOfAfter(prefix[1..], rest, c);
    }
  }
}
