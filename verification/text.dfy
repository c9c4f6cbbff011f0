/** String helpers the game relies on from the JavaScript runtime:
    `String.prototype.trim`, `Array.prototype.join`, and the decimal
    rendering of integers inside template literals. */
module Text {

  /** ECMAScript WhiteSpace and LineTerminator code points: exactly the
      characters `trim` removes from both ends of a string. */
  const Whitespace: set<char> := {
    '\t', '\U{000B}', '\U{000C}', ' ', '\U{00A0}', '\U{1680}',
    '\U{2000}', '\U{2001}', '\U{2002}', '\U{2003}', '\U{2004}', '\U{2005}',
    '\U{2006}', '\U{2007}', '\U{2008}', '\U{2009}', '\U{200A}',
    '\U{202F}', '\U{205F}', '\U{3000}', '\U{FEFF}',
    '\n', '\r', '\U{2028}', '\U{2029}'
  }

  predicate IsWhitespace(c: char) {
    c in Whitespace
  }

  predicate AllWhitespace(s: string) {
    forall i :: 0 <= i < |s| ==> IsWhitespace(s[i])
  }

  /** Neither end of `s` is a whitespace character. */
  predicate IsTrimmed(s: string) {
    |s| == 0 || (!IsWhitespace(s[0]) && !IsWhitespace(s[|s| - 1]))
  }

  /** Drops the leading whitespace: the result is a suffix of `s` that does
      not start with whitespace, and everything dropped is whitespace. */
  function TrimStart(s: string): (r: string)
    ensures |r| <= |s| && r == s[|s| - |r|..]
    ensures AllWhitespace(s[..|s| - |r|])
    ensures |r| == 0 || !IsWhitespace(r[0])
  {
    if |s| > 0 && IsWhitespace(s[0]) then
      var t := TrimStart(s[1..]);
      assert s[..|s| - |t|] == [s[0]] + s[1..][..|s| - 1 - |t|];
      t
    else
      s
  }

  /** Drops the trailing whitespace: the result is a prefix of `s` that does
      not end with whitespace, and everything dropped is whitespace. */
  function TrimEnd(s: string): (r: string)
    ensures |r| <= |s| && r == s[..|r|]
    ensures AllWhitespace(s[|r|..])
    ensures |r| == 0 || !IsWhitespace(r[|r| - 1])
  {
    if |s| > 0 && IsWhitespace(s[|s| - 1]) then
      var t := TrimEnd(s[..|s| - 1]);
      assert s[|t|..] == s[..|s| - 1][|t|..] + [s[|s| - 1]];
      t
    else
      s
  }

  /** `String.prototype.trim`: whitespace stripped from both ends. */
  function Trim(s: string): (r: string)
    ensures IsTrimmed(r) && |r| <= |s|
  {
    var a := TrimStart(s);
    var r := TrimEnd(a);
    assert |r| > 0 ==> r[0] == a[0];
    r
  }

  /** `r` occurs in `s` at offset `i` with only whitespace around it. */
  predicate PaddedAt(s: string, r: string, i: int) {
    && 0 <= i <= |s| - |r| && r == s[i..i + |r|]
    && AllWhitespace(s[..i]) && AllWhitespace(s[i + |r|..])
  }

  /** What `trim` removes is whitespace only: the result sits inside `s`
      with nothing but whitespace before and after it. */
  lemma TrimIsInfix(s: string)
    ensures exists i :: PaddedAt(s, Trim(s), i)
  {
    var a := TrimStart(s);
    var r := TrimEnd(a);
    assert Trim(s) == r;
    var i := TrimBothEnds(s, a, r);
    assert PaddedAt(s, r, i);
  }

  /** Stripping a whitespace prefix and then a whitespace suffix leaves a
      trimmed infix. */
  lemma TrimBothEnds(s: string, a: string, r: string) returns (i: int)
    requires |a| <= |s| && a == s[|s| - |a|..] && AllWhitespace(s[..|s| - |a|])
    requires |a| == 0 || !IsWhitespace(a[0])
    requires |r| <= |a| && r == a[..|r|] && AllWhitespace(a[|r|..])
    requires |r| == 0 || !IsWhitespace(r[|r| - 1])
    ensures IsTrimmed(r)
    ensures PaddedAt(s, r, i)
  {
    i := |s| - |a|;
    assert a == s[i..];
    assert r == a[..|r|];
    assert r == s[i..i + |r|];
    assert s[i + |r|..] == a[|r|..];
    if |r| > 0 {
      assert r[0] == a[0];
    }
  }

  lemma {:induction false} TrimStartOfPadded(a: string, m: string)
    requires AllWhitespace(a)
    requires |m| == 0 || !IsWhitespace(m[0])
    ensures TrimStart(a + m) == m
    decreases |a|
  {
    if |a| > 0 {
      assert (a + m)[1..] == a[1..] + m;
      TrimStartOfPadded(a[1..], m);
    } else {
      assert a + m == m;
    }
  }

  lemma {:induction false} TrimEndOfPadded(m: string, b: string)
    requires AllWhitespace(b)
    requires |m| == 0 || !IsWhitespace(m[|m| - 1])
    ensures TrimEnd(m + b) == m
    decreases |b|
  {
    if |b| > 0 {
      assert (m + b)[..|m + b| - 1] == m + b[..|b| - 1];
      TrimEndOfPadded(m, b[..|b| - 1]);
    } else {
      assert m + b == m;
    }
  }

  /** `trim` is characterised by its result: whatever surrounds a trimmed
      string with whitespace on both sides, trimming gives that string back. */
  lemma TrimOfPadded(a: string, m: string, b: string)
    requires AllWhitespace(a) && AllWhitespace(b) && IsTrimmed(m)
    ensures Trim(a + m + b) == m
  {
    if |m| == 0 {
      assert a + m + b == a + b;
      assert AllWhitespace(a + b);
      TrimStartOfPadded(a + b, []);
      assert a + b + [] == a + b;
      var e: string := [];
      TrimEndOfPadded(e, e);
      assert e + e == e;
    } else {
      assert a + m + b == a + (m + b);
      TrimStartOfPadded(a, m + b);
      TrimEndOfPadded(m, b);
    }
  }

  /** Trimming twice is the same as trimming once. */
  lemma TrimIdempotent(s: string)
    ensures Trim(Trim(s)) == Trim(s)
  {
  }

  /** `Array.prototype.join(sep)`: the elements with `sep` between
      neighbours; the empty array joins to the empty string. */
  function Join(xs: seq<string>, sep: string): (r: string)
    ensures |xs| == 0 ==> r == ""
    ensures |xs| == 1 ==> r == xs[0]
    ensures |xs| > 0 ==> |xs[0]| <= |r| && r[..|xs[0]|] == xs[0]
    ensures |xs| > 0 ==> |xs[|xs| - 1]| <= |r| && r[|r| - |xs[|xs| - 1]|..] == xs[|xs| - 1]
  {
    if |xs| == 0 then ""
    else if |xs| == 1 then xs[0]
    else xs[0] + sep + Join(xs[1..], sep)
  }

  /** `join` built from the other end: appending one more element adds the
      separator and that element at the end of the joined string. */
  lemma {:induction false} JoinSnoc(xs: seq<string>, y: string, sep: string)
    requires |xs| > 0
    ensures Join(xs + [y], sep) == Join(xs, sep) + sep + y
    decreases |xs|
  {
    assert (xs + [y])[0] == xs[0];
    assert (xs + [y])[1..] == xs[1..] + [y];
    if |xs| > 1 {
      JoinSnoc(xs[1..], y, sep);
    } else {
      assert xs[1..] + [y] == [y];
    }
  }

  predicate IsDigit(c: char) {
    '0' <= c <= '9'
  }

  function DigitChar(d: int): (c: char)
    requires 0 <= d < 10
    ensures IsDigit(c)
  {
    "0123456789"[d]
  }

  function DigitValue(c: char): (d: int)
    requires IsDigit(c)
    ensures 0 <= d < 10
  {
    (c as int) - ('0' as int)
  }

  /** Decimal rendering of a natural number: non-empty, digits only, no
      leading zero unless the number itself is zero. */
  function NatToString(n: nat): (r: string)
    ensures |r| > 0
    ensures forall i :: 0 <= i < |r| ==> IsDigit(r[i])
    ensures r[0] == '0' ==> n == 0 && |r| == 1
    decreases n
  {
    if n < 10 then [DigitChar(n)] else NatToString(n / 10) + [DigitChar(n % 10)]
  }

  /** Reads a digit string as a decimal number. */
  function ParseNat(s: string): (n: nat)
    requires forall i :: 0 <= i < |s| ==> IsDigit(s[i])
    decreases |s|
  {
    if |s| == 0 then 0 else ParseNat(s[..|s| - 1]) * 10 + DigitValue(s[|s| - 1])
  }

  /** The decimal rendering a JavaScript template literal gives an integer
      of ordinary size (below 10^21 in magnitude, where it is exact). */
  function IntToString(n: int): (r: string)
    ensures |r| > 0
    ensures n < 0 <==> r[0] == '-'
    ensures r[0] == '0' ==> r == "0"
    ensures r[0] == '-' ==> |r| >= 2 && r[1] != '0'
  {
    if n < 0 then "-" + NatToString(-n) else NatToString(n)
  }

  /** Reads back an optional minus sign followed by digits. */
  function ParseInt(s: string): int
    requires |s| > 0
    requires s[0] == '-' || IsDigit(s[0])
    requires forall i :: 0 < i < |s| ==> IsDigit(s[i])
  {
    if s[0] == '-' then 0 - ParseNat(s[1..]) else ParseNat(s)
  }

  lemma {:induction false} ParseNatToString(n: nat)
    ensures ParseNat(NatToString(n)) == n
    decreases n
  {
    if n >= 10 {
      var r := NatToString(n);
      assert r[..|r| - 1] == NatToString(n / 10);
      ParseNatToString(n / 10);
    }
  }

  /** The decimal rendering of an integer reads back as that integer. */
  lemma IntToStringRoundTrip(n: int)
    ensures var s := IntToString(n);
            && (s[0] == '-' || IsDigit(s[0]))
            && (forall i :: 0 < i < |s| ==> IsDigit(s[i]))
            && ParseInt(s) == n
  {
    var s := IntToString(n);
    if n < 0 {
      assert s[1..] == NatToString(-n);
      ParseNatToString(-n);
    } else {
      ParseNatToString(n);
    }
  }
}
