/**
 * The JavaScript string operations the bridge relies on: indexOf for one
 * character, split on one character, substr, trim, and the test Number()
 * applies before it yields NaN. Strings are sequences of characters; the
 * UTF-16 code-unit view of JavaScript is not modelled.
 */
module Text {

  /** The position of the first `c` in `s`, or -1 when there is none (indexOf of strings and arrays). */
  function IndexOf<T(==)>(s: seq<T>, c: T): (i: int)
    ensures -1 <= i < |s|
    ensures i == -1 <==> c !in s
    ensures 0 <= i ==> s[i] == c && c !in s[..i]
  {
    if |s| == 0 then -1
    else if s[0] == c then 0
    else
      var j := IndexOf(s[1..], c);
      if j == -1 then -1
      else
        assert s[..j + 1] == [s[0]] + s[1..][..j];
        j + 1
  }

  /** `s.substr(start)`: everything from `start` on, or "" when `start` lies past the end. */
  function SubstrFrom(s: string, start: nat): (r: string)
    ensures start <= |s| ==> s == s[..start] + r
    ensures |s| <= start ==> r == ""
  {
    if start <= |s| then s[start..] else ""
  }

  /** `s.substr(0, n)`: the first `n` characters, or all of `s` when it is shorter. */
  function Prefix(s: string, n: nat): (r: string)
    ensures |r| == if n <= |s| then n else |s|
    ensures r <= s
  {
    if n <= |s| then s[..n] else s
  }

  /** The inverse of Split: the parts glued back together with `d` between them. */
  function Join(parts: seq<string>, d: char): string
  {
    if |parts| == 0 then ""
    else if |parts| == 1 then parts[0]
    else parts[0] + [d] + Join(parts[1..], d)
  }

  /** `s.split(d)`: the maximal `d`-free pieces of `s`, in order; never empty. */
  function Split(s: string, d: char): (parts: seq<string>)
    ensures |parts| >= 1
    ensures forall k :: 0 <= k < |parts| ==> d !in parts[k]
    ensures Join(parts, d) == s
    ensures d !in s ==> parts == [s]
    ensures d in s ==> |parts| >= 2 && parts[0] == s[..IndexOf(s, d)]
    decreases |s|
  {
    var i := IndexOf(s, d);
    if i == -1 then [s]
    else
      var rest := Split(s[i + 1..], d);
      assert s == s[..i] + [d] + s[i + 1..];
      [s[..i]] + rest
  }

  /** Splitting a joined list of `d`-free parts gives the parts back. */
  lemma {:induction false} SplitJoin(parts: seq<string>, d: char)
    requires |parts| >= 1
    requires forall k :: 0 <= k < |parts| ==> d !in parts[k]
    ensures Split(Join(parts, d), d) == parts
    decreases |parts|
  {
    if |parts| > 1 {
      var tail := Join(parts[1..], d);
      var s := Join(parts, d);
      assert s == parts[0] + [d] + tail;
      var i := |parts[0]|;
      IndexOfAfterFreePrefix(parts[0], d, tail);
      assert IndexOf(s, d) == i;
      assert s[..i] == parts[0];
      assert s[i + 1..] == tail;
      assert Split(s, d) == [parts[0]] + Split(tail, d);
      SplitJoin(parts[1..], d);
      assert [parts[0]] + parts[1..] == parts;
    }
  }

  /** A `d`-free prefix followed by `d` puts the first `d` right after the prefix. */
  lemma {:induction false} IndexOfAfterFreePrefix<T>(p: seq<T>, d: T, rest: seq<T>)
    requires d !in p
    ensures IndexOf(p + [d] + rest, d) == |p|
    decreases |p|
  {
    if |p| > 0 {
      assert (p + [d] + rest)[1..] == p[1..] + [d] + rest;
      IndexOfAfterFreePrefix(p[1..], d, rest);
    }
  }

  /** The white space and line terminators that trim() strips and Number() ignores (ECMA-262 WhiteSpace and LineTerminator). */
  predicate IsJsWhitespace(c: char)
  {
    c == ' ' || c == '\t' || c == '\n' || c == '\r' || c == '\U{000B}' || c == '\U{000C}'
    || c == '\U{00A0}' || c == '\U{1680}' || ('\U{2000}' <= c <= '\U{200A}')
    || c == '\U{2028}' || c == '\U{2029}' || c == '\U{202F}' || c == '\U{205F}'
    || c == '\U{3000}' || c == '\U{FEFF}'
  }

  /** `s` with its leading white space removed. */
  function TrimStart(s: string): (r: string)
    ensures |r| <= |s| && r == s[|s| - |r|..]
    ensures forall k :: 0 <= k < |s| - |r| ==> IsJsWhitespace(s[k])
    ensures r != [] ==> !IsJsWhitespace(r[0])
  {
    if |s| > 0 && IsJsWhitespace(s[0]) then TrimStart(s[1..]) else s
  }

  /** `s` with its trailing white space removed. */
  function TrimEnd(s: string): (r: string)
    ensures |r| <= |s| && r == s[..|r|]
    ensures forall k :: |r| <= k < |s| ==> IsJsWhitespace(s[k])
    ensures r != [] ==> !IsJsWhitespace(r[|r| - 1])
  {
    if |s| > 0 && IsJsWhitespace(s[|s| - 1]) then TrimEnd(s[..|s| - 1]) else s
  }

  /** `s.trim()`: `s` without white space at either end. */
  function Trim(s: string): (r: string)
    ensures |r| <= |s|
    ensures r != [] ==> !IsJsWhitespace(r[0]) && !IsJsWhitespace(r[|r| - 1])
  {
    TrimEnd(TrimStart(s))
  }

  /** Trim keeps exactly the slice between the leading and the trailing white space. */
  lemma TrimSlice(s: string)
    ensures var i := |s| - |TrimStart(s)|;
            i + |Trim(s)| <= |s| && Trim(s) == s[i..i + |Trim(s)|]
    ensures var i := |s| - |TrimStart(s)|;
            forall k :: 0 <= k < |s| && !(i <= k < i + |Trim(s)|) ==> IsJsWhitespace(s[k])
  {
  }

  /** Trim leaves no white space at either end, and gives "" exactly when `s` is all white space. */
  lemma TrimEmptyIffBlank(s: string)
    ensures Trim(s) != [] ==> !IsJsWhitespace(Trim(s)[0]) && !IsJsWhitespace(Trim(s)[|Trim(s)| - 1])
    ensures Trim(s) == [] <==> forall k :: 0 <= k < |s| ==> IsJsWhitespace(s[k])
  {
    var t := TrimStart(s);
    var i := |s| - |t|;
    if Trim(s) == [] {
      assert t == [];
    } else {
      assert Trim(s)[0] == t[0] == s[i];
    }
  }

  predicate IsDigitIn(c: char, base: nat)
  {
    if base == 2 then '0' <= c <= '1'
    else if base == 8 then '0' <= c <= '7'
    else if base == 10 then '0' <= c <= '9'
    else '0' <= c <= '9' || 'a' <= c <= 'f' || 'A' <= c <= 'F'
  }

  /** One or more digits of the given base. */
  predicate IsDigits(s: string, base: nat)
  {
    |s| > 0 && forall k :: 0 <= k < |s| ==> IsDigitIn(s[k], base)
  }

  /** Zero or more decimal digits. */
  predicate IsOptionalDigits(s: string)
  {
    s == [] || IsDigits(s, 10)
  }

  /** A decimal mantissa: digits with at most one '.', and at least one digit. */
  predicate IsMantissa(m: string)
  {
    var p := IndexOf(m, '.');
    if p == -1 then IsDigits(m, 10)
    else IsOptionalDigits(m[..p]) && IsOptionalDigits(m[p + 1..]) && |m| >= 2
  }

  /** An exponent part: 'e' or 'E', an optional sign, then digits. */
  predicate IsExponent(e: string)
  {
    |e| >= 2 && (e[0] == 'e' || e[0] == 'E')
    && (IsDigits(e[1..], 10) || ((e[1] == '+' || e[1] == '-') && IsDigits(e[2..], 10)))
  }

  /** ECMA-262 StrUnsignedDecimalLiteral. */
  predicate IsUnsignedDecimal(t: string)
  {
    t == "Infinity" || IsMantissa(t)
    || exists k :: 0 < k < |t| && IsMantissa(t[..k]) && IsExponent(t[k..])
  }

  /** ECMA-262 NonDecimalIntegerLiteral: 0b, 0o or 0x (either case) and digits of that base. */
  predicate IsNonDecimalInteger(t: string)
  {
    |t| >= 3 && t[0] == '0'
    && ((t[1] in "bB" && IsDigits(t[2..], 2))
        || (t[1] in "oO" && IsDigits(t[2..], 8))
        || (t[1] in "xX" && IsDigits(t[2..], 16)))
  }

  /** ECMA-262 StrNumericLiteral, the text between the white space that Number() skips. */
  predicate IsStrNumericLiteral(t: string)
  {
    IsUnsignedDecimal(t)
    || (|t| > 0 && (t[0] == '+' || t[0] == '-') && IsUnsignedDecimal(t[1..]))
    || IsNonDecimalInteger(t)
  }

  /** `!isNaN(Number(s))`: `s` is blank (Number gives 0) or a numeric literal padded with white space. */
  predicate IsNumericText(s: string): (b: bool)
    ensures (forall k :: 0 <= k < |s| ==> IsJsWhitespace(s[k])) ==> b
    ensures b && Trim(s) != [] ==> IsStrNumericLiteral(Trim(s))
    ensures Trim(s) != [] && IsStrNumericLiteral(Trim(s)) ==> b
  {
    TrimEmptyIffBlank(s);
    var t := Trim(s);
    t == [] || IsStrNumericLiteral(t)
  }

  /** Every non-empty run of decimal digits is a number to Number(), and so is blank text. */
  lemma DigitsAreNumeric(s: string)
    requires s == [] || IsDigits(s, 10)
    ensures IsNumericText(s)
  {
    if s != [] {
      assert !IsJsWhitespace(s[0]) && !IsJsWhitespace(s[|s| - 1]);
      assert TrimStart(s) == s;
      assert TrimEnd(s) == s;
      assert '.' !in s by {
        forall k | 0 <= k < |s| ensures s[k] != '.' {
          assert IsDigitIn(s[k], 10);
        }
      }
      assert IsMantissa(s);
      assert IsUnsignedDecimal(s);
    }
  }
}
