/**
 * The few JavaScript value rules the admin panel's logic depends on:
 * numbers with their truthiness, String.prototype.trim and startsWith,
 * and ASCII lower-casing.
 */
module JsValues {

  /**
   * A JavaScript number. Finite values are modelled by their integer
   * value; fractional numbers are not part of this model.
   */
  datatype JsNumber = Finite(value: int) | NaN | PosInfinity | NegInfinity

  /** `!!n`: zero and NaN are falsy, every other number is truthy. */
  predicate Truthy(n: JsNumber)
  {
    match n
    case Finite(v) => v != 0
    case NaN => false
    case PosInfinity => true
    case NegInfinity => true
  }

  function Min(a: int, b: int): int { if a <= b then a else b }

  function Max(a: int, b: int): int { if a >= b then a else b }

  /**
   * The code points String.prototype.trim removes: the WhiteSpace and
   * LineTerminator productions of the ECMAScript grammar.
   */
  predicate IsWhitespace(c: char)
  {
    || c == '\t' || c == '\n' || c == '\U{000B}' || c == '\U{000C}' || c == '\r'
    || c == ' ' || c == '\U{00A0}' || c == '\U{1680}'
    || ('\U{2000}' <= c <= '\U{200A}')
    || c == '\U{2028}' || c == '\U{2029}' || c == '\U{202F}' || c == '\U{205F}'
    || c == '\U{3000}' || c == '\U{FEFF}'
  }

  function TrimStart(s: string): (r: string)
    ensures |r| <= |s| && r == s[|s| - |r|..]
    ensures forall i :: 0 <= i < |s| - |r| ==> IsWhitespace(s[i])
    ensures |r| > 0 ==> !IsWhitespace(r[0])
    decreases |s|
  {
    if |s| > 0 && IsWhitespace(s[0]) then TrimStart(s[1..]) else s
  }

  function TrimEnd(s: string): (r: string)
    ensures |r| <= |s| && r == s[..|r|]
    ensures forall i :: |r| <= i < |s| ==> IsWhitespace(s[i])
    ensures |r| > 0 ==> !IsWhitespace(r[|r| - 1])
    decreases |s|
  {
    if |s| > 0 && IsWhitespace(s[|s| - 1]) then TrimEnd(s[..|s| - 1]) else s
  }

  /**
   * String.prototype.trim: the result is the part of `s` between its
   * leading and trailing whitespace, here the slice after its `k` leading
   * whitespace characters, so it neither starts nor ends with whitespace.
   */
  function Trim(s: string): (r: string)
    ensures |r| <= |s|
    ensures |r| > 0 ==> !IsWhitespace(r[0]) && !IsWhitespace(r[|r| - 1])
    ensures var k := |s| - |TrimStart(s)|;
      && k + |r| <= |s| && r == s[k..k + |r|]
      && (forall i :: 0 <= i < k ==> IsWhitespace(s[i]))
      && (forall i :: k + |r| <= i < |s| ==> IsWhitespace(s[i]))
  {
    var a := TrimStart(s);
    var r := TrimEnd(a);
    SliceBetween(s, a, r);
    r
  }

  /** A prefix of a suffix of `s` lies between its dropped parts. */
  lemma SliceBetween(s: string, a: string, r: string)
    requires |a| <= |s| && a == s[|s| - |a|..]
    requires |r| <= |a| && r == a[..|r|]
    requires forall i :: |r| <= i < |a| ==> IsWhitespace(a[i])
    ensures var k := |s| - |a|;
      && r == s[k..k + |r|]
      && (forall i :: k + |r| <= i < |s| ==> IsWhitespace(s[i]))
  {
    var k := |s| - |a|;
    forall i | k + |r| <= i < |s| ensures IsWhitespace(s[i]) {
      assert s[i] == a[i - k];
    }
  }

  /** A string that neither starts nor ends with whitespace is its own trim. */
  lemma TrimUntrimmed(s: string)
    requires s != [] ==> !IsWhitespace(s[0]) && !IsWhitespace(s[|s| - 1])
    ensures Trim(s) == s
  {
    assert TrimStart(s) == s;
    assert TrimEnd(s) == s;
  }

  function LowerChar(c: char): char
  {
    if 'A' <= c <= 'Z' then (c as int + 32) as char else c
  }

  /**
   * String.prototype.toLowerCase restricted to ASCII: `A`..`Z` become
   * `a`..`z`, every other character is kept.
   */
  function ToLowerAscii(s: string): (r: string)
    ensures |r| == |s|
    ensures forall i :: 0 <= i < |r| ==> !('A' <= r[i] <= 'Z')
    ensures forall i :: 0 <= i < |s| && !('A' <= s[i] <= 'Z') ==> r[i] == s[i]
    ensures forall i :: 0 <= i < |s| && 'A' <= s[i] <= 'Z' ==> r[i] as int == s[i] as int + 32
  {
    seq(|s|, i requires 0 <= i < |s| => LowerChar(s[i]))
  }

  /** String.prototype.startsWith. */
  predicate StartsWith(s: string, prefix: string)
  {
    |prefix| <= |s| && s[..|prefix|] == prefix
  }

  /** String.prototype.slice(0, n) for n >= 0. */
  function Take(s: string, n: nat): (r: string)
    ensures |r| == Min(|s|, n) && r == s[..|r|]
  {
    if |s| <= n then s else s[..n]
  }
}
