/** Models of the JavaScript built-ins the paste tracker relies on:
    `String.prototype.trim`, `toString` on an integer, and
    `Array.prototype.join`. */
module JsStrings {

  /** The code points `trim` strips: ECMAScript WhiteSpace (tab, vertical
      tab, form feed, space, no-break space, byte order mark and the other
      Unicode space separators) and LineTerminator (LF, CR, LS, PS). */
  predicate IsWhitespace(c: char) {
    || c == '\t' || c == '\U{B}' || c == '\U{C}' || c == ' '
    || c == '\U{A0}' || c == '\U{FEFF}'
    || c == '\n' || c == '\r' || c == '\U{2028}' || c == '\U{2029}'
    || c == '\U{1680}' || ('\U{2000}' <= c <= '\U{200A}')
    || c == '\U{202F}' || c == '\U{205F}' || c == '\U{3000}'
  }

  predicate AllWhitespace(s: string) {
    forall i :: 0 <= i < |s| ==> IsWhitespace(s[i])
  }

  /** Drops the leading whitespace: what is left is a suffix of `s` that
      does not start with whitespace, and what was dropped is all whitespace. */
  function TrimStart(s: string): (r: string)
    ensures |r| <= |s| && r == s[|s| - |r|..]
    ensures forall k :: 0 <= k < |s| - |r| ==> IsWhitespace(s[k])
    ensures r != [] ==> !IsWhitespace(r[0])
  {
    if s != [] && IsWhitespace(s[0]) then
      var r := TrimStart(s[1..]);
      assert forall k :: 1 <= k < |s| ==> s[k] == s[1..][k - 1];
      r
    else
      s
  }

  /** Drops the trailing whitespace: what is left is a prefix of `s` that
      does not end with whitespace, and what was dropped is all whitespace. */
  function TrimEnd(s: string): (r: string)
    ensures |r| <= |s| && r == s[..|r|]
    ensures forall k :: |r| <= k < |s| ==> IsWhitespace(s[k])
    ensures r != [] ==> !IsWhitespace(r[|r| - 1])
  {
    if s != [] && IsWhitespace(s[|s| - 1]) then
      TrimEnd(s[..|s| - 1])
    else
      s
  }

  /** `String.prototype.trim`: the result neither starts nor ends with
      whitespace (its full shape is `TrimShape`). */
  function Trim(s: string): (r: string)
    ensures |r| <= |s|
    ensures r != [] ==> !IsWhitespace(r[0]) && !IsWhitespace(r[|r| - 1])
  {
    TrimEnd(TrimStart(s))
  }

  /** `s` is the trimmed string with a run of whitespace before it and a
      run after it: everything between the ends is kept as it was. */
  lemma TrimShape(s: string) returns (i: nat)
    ensures i + |Trim(s)| <= |s| && s[i..i + |Trim(s)|] == Trim(s)
    ensures forall k :: 0 <= k < i ==> IsWhitespace(s[k])
    ensures forall k :: i + |Trim(s)| <= k < |s| ==> IsWhitespace(s[k])
  {
    var t := TrimStart(s);
    i := |s| - |t|;
    assert forall k :: i <= k < |s| ==> s[k] == t[k - i];
  }

  /** The trimmed string is empty exactly when the input is all whitespace;
      this is the falsy test `if (content)` after `trim()`. */
  lemma TrimEmptyIff(s: string)
    ensures Trim(s) == [] <==> AllWhitespace(s)
  {
    var r := Trim(s);
    var i := TrimShape(s);
    if r != [] {
      assert s[i] == r[0];
    }
  }

  /** Trimming an already trimmed string changes nothing. */
  lemma TrimIdempotent(s: string)
    ensures Trim(Trim(s)) == Trim(s)
  {
    var r := Trim(s);
    if r != [] {
      assert TrimStart(r) == r;
      assert TrimEnd(r) == r;
    }
  }

  // ---------------------------------------------------------------------
  // Integer to decimal string, as `Number.prototype.toString()` renders a
  // safe integer (`Date.now().toString()`, the counter, the minute count).

  predicate IsDigit(c: char) {
    '0' <= c <= '9'
  }

  predicate AllDigits(s: string) {
    forall i :: 0 <= i < |s| ==> IsDigit(s[i])
  }

  function DigitChar(d: nat): (c: char)
    requires d < 10
    ensures IsDigit(c)
  {
    ('0' as int + d) as char
  }

  function DigitValue(c: char): (d: nat)
    requires IsDigit(c)
    ensures d < 10 && DigitChar(d) == c
  {
    c as int - '0' as int
  }

  /** Decimal digits of `n` with no leading zero. */
  function NatToDecimal(n: nat): (r: string)
    ensures r != [] && AllDigits(r)
    ensures r[0] == '0' ==> n == 0 && r == "0"
  {
    if n < 10 then [DigitChar(n)] else NatToDecimal(n / 10) + [DigitChar(n % 10)]
  }

  /** The value a string of decimal digits denotes. */
  function DecimalValue(s: string): nat
    requires AllDigits(s)
  {
    if s == [] then 0 else DecimalValue(s[..|s| - 1]) * 10 + DigitValue(s[|s| - 1])
  }

  /** Reading back the digits `NatToDecimal` writes gives the number. */
  lemma {:induction false} DecimalRoundTrip(n: nat)
    ensures DecimalValue(NatToDecimal(n)) == n
  {
    var s := NatToDecimal(n);
    if n < 10 {
      assert s[..|s| - 1] == [];
    } else {
      assert s[..|s| - 1] == NatToDecimal(n / 10);
      DecimalRoundTrip(n / 10);
    }
  }

  lemma NatToDecimalInjective(a: nat, b: nat)
    ensures NatToDecimal(a) == NatToDecimal(b) <==> a == b
  {
    DecimalRoundTrip(a);
    DecimalRoundTrip(b);
  }

  /** `toString()` of any integer: a minus sign before the digits of a
      negative number (a clock set before 1970 gives a negative `Date.now()`). */
  function IntToDecimal(i: int): (r: string)
    ensures r != [] && (r[0] == '-' <==> i < 0)
    ensures i < 0 ==> |r| > 1 && AllDigits(r[1..])
    ensures i >= 0 ==> AllDigits(r)
  {
    if i < 0 then "-" + NatToDecimal(-i) else NatToDecimal(i)
  }

  /** Different integers render differently, so two records get the same
      id exactly when they were created in the same millisecond. */
  lemma IntToDecimalInjective(a: int, b: int)
    ensures IntToDecimal(a) == IntToDecimal(b) <==> a == b
  {
    if a < 0 && b < 0 {
      assert IntToDecimal(a)[1..] == NatToDecimal(-a);
      assert IntToDecimal(b)[1..] == NatToDecimal(-b);
      NatToDecimalInjective(-a, -b);
    } else if a >= 0 && b >= 0 {
      NatToDecimalInjective(a, b);
    } else {
      assert IntToDecimal(a)[0] != IntToDecimal(b)[0];
    }
  }

  lemma CharOfConcat(a: string, b: string, k: int)
    ensures 0 <= k < |a| ==> (a + b)[k] == a[k]
    ensures k == |a| && b != [] ==> (a + b)[k] == b[0]
  {
  }

  /** A run of digits followed by a non-digit is determined by the string. */
  lemma DigitsThenRest(d1: string, t1: string, d2: string, t2: string)
    requires AllDigits(d1) && AllDigits(d2)
    requires t1 != [] && !IsDigit(t1[0]) && t2 != [] && !IsDigit(t2[0])
    requires d1 + t1 == d2 + t2
    ensures d1 == d2 && t1 == t2
  {
    var s := d1 + t1;
    if |d1| < |d2| {
      CharOfConcat(d1, t1, |d1|);
      CharOfConcat(d2, t2, |d1|);
    } else if |d2| < |d1| {
      CharOfConcat(d1, t1, |d2|);
      CharOfConcat(d2, t2, |d2|);
    } else {
      assert d1 == s[..|d1|] == d2;
      assert t1 == s[|d1|..] == t2;
    }
  }

  // ---------------------------------------------------------------------
  // `Array.prototype.join(sep)` on an array of strings.

  /** `Array.prototype.join(sep)`: the empty array gives "", and otherwise
      the string ends exactly where the last element, placed at its
      `Offset`, ends (`JoinLayout` places every element). */
  function Join(xs: seq<string>, sep: string): (r: string)
    ensures xs == [] ==> r == ""
    ensures xs != [] ==> |r| == Offset(xs, sep, |xs| - 1) + |xs[|xs| - 1]|
  {
    if xs == [] then ""
    else if |xs| == 1 then xs[0]
    else xs[0] + sep + Join(xs[1..], sep)
  }

  /** Where the `i`-th element starts in `Join(xs, sep)`: the lengths of the
      elements before it, each followed by one separator. */
  function Offset(xs: seq<string>, sep: string, i: nat): nat
    requires i <= |xs|
  {
    if i == 0 then 0 else |xs[0]| + |sep| + Offset(xs[1..], sep, i - 1)
  }

  lemma {:induction false} OffsetNext(xs: seq<string>, sep: string, i: nat)
    requires i < |xs|
    ensures Offset(xs, sep, i + 1) == Offset(xs, sep, i) + |xs[i]| + |sep|
  {
    if i > 0 {
      OffsetNext(xs[1..], sep, i - 1);
    }
  }

  /** From the `i`-th element's offset on, the join is the join of the
      elements from `i` on. */
  lemma {:induction false} JoinSuffix(xs: seq<string>, sep: string, i: nat)
    requires i < |xs|
    ensures Offset(xs, sep, i) <= |Join(xs, sep)|
    ensures Join(xs, sep)[Offset(xs, sep, i)..] == Join(xs[i..], sep)
  {
    if i > 0 {
      JoinSuffix(xs[1..], sep, i - 1);
      assert xs[1..][i - 1..] == xs[i..];
      var k := |xs[0]| + |sep|;
      assert Join(xs, sep)[k..] == Join(xs[1..], sep);
    }
  }

  /** The layout of a join: element `i` sits unchanged at `Offset(xs, sep, i)`,
      a separator follows every element but the last, and the last one ends
      the string. Elements therefore appear in the array's order. */
  lemma JoinLayout(xs: seq<string>, sep: string, i: nat)
    requires i < |xs|
    ensures Offset(xs, sep, i) + |xs[i]| <= |Join(xs, sep)|
    ensures Join(xs, sep)[Offset(xs, sep, i)..Offset(xs, sep, i) + |xs[i]|] == xs[i]
    ensures i + 1 < |xs| ==>
              Offset(xs, sep, i + 1) == Offset(xs, sep, i) + |xs[i]| + |sep| <= |Join(xs, sep)|
    ensures i + 1 < |xs| ==>
              Join(xs, sep)[Offset(xs, sep, i) + |xs[i]|..Offset(xs, sep, i + 1)] == sep
    ensures i + 1 == |xs| ==> |Join(xs, sep)| == Offset(xs, sep, i) + |xs[i]|
  {
    JoinSuffix(xs, sep, i);
    OffsetNext(xs, sep, i);
    var j, o, t := Join(xs, sep), Offset(xs, sep, i), Join(xs[i..], sep);
    assert j[o..] == t;
    if i + 1 < |xs| {
      assert xs[i..][1..] == xs[i + 1..];
      assert t == xs[i] + sep + Join(xs[i + 1..], sep);
      assert j[o..o + |xs[i]|] == t[..|xs[i]|];
      assert j[o + |xs[i]|..o + |xs[i]| + |sep|] == t[|xs[i]|..|xs[i]| + |sep|];
    } else {
      assert t == xs[i];
    }
  }
}
