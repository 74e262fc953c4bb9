/**
 * The JavaScript string built-ins the scripts rely on: the `\s` character class,
 * `trim`, ASCII `toLowerCase`, `includes`/`startsWith`, decimal rendering of a
 * number in a template literal, and `Number.parseInt` with no radix.
 * Strings are sequences of characters.
 */
module Text {
  import opened Wrappers

  /**
   * The ECMAScript WhiteSpace and LineTerminator code points. This one set is what
   * the regular-expression class `\s` matches and what `String.prototype.trim`
   * and `Number.parseInt` strip.
   */
  predicate IsSpace(c: char) {
    || c == '\t' || c == '\n' || c == '\U{B}' || c == '\U{C}' || c == '\r' || c == ' '
    || c == '\U{A0}' || c == '\U{1680}' || ('\U{2000}' <= c <= '\U{200A}')
    || c == '\U{2028}' || c == '\U{2029}' || c == '\U{202F}' || c == '\U{205F}'
    || c == '\U{3000}' || c == '\U{FEFF}'
  }

  /** The class `\d`: an ASCII decimal digit. */
  predicate IsDigit(c: char) {
    '0' <= c <= '9'
  }

  predicate AllSpace(s: string) {
    forall k | 0 <= k < |s| :: IsSpace(s[k])
  }

  /** A concatenation is all whitespace exactly when both parts are. */
  lemma AllSpaceAppend(x: string, y: string)
    ensures AllSpace(x + y) <==> AllSpace(x) && AllSpace(y)
  {
    if AllSpace(x) && AllSpace(y) {
      forall k | 0 <= k < |x + y|
        ensures IsSpace((x + y)[k])
      {
        if k >= |x| {
          assert (x + y)[k] == y[k - |x|];
        }
      }
    }
    if AllSpace(x + y) {
      forall k | 0 <= k < |y|
        ensures IsSpace(y[k])
      {
        assert y[k] == (x + y)[|x| + k];
      }
      forall k | 0 <= k < |x|
        ensures IsSpace(x[k])
      {
        assert x[k] == (x + y)[k];
      }
    }
  }

  /** A whitespace character followed by `n - 1` more makes `n`. */
  lemma AllSpaceCons(s: string, n: nat)
    requires 0 < n <= |s| && IsSpace(s[0]) && AllSpace(s[1..][..n - 1])
    ensures AllSpace(s[..n])
  {
    forall k | 0 <= k < n
      ensures IsSpace(s[..n][k])
    {
      if k > 0 {
        assert s[..n][k] == s[1..][..n - 1][k - 1];
      }
    }
  }

  /** `s.trimStart()`: drops the leading whitespace and nothing else. */
  function TrimStart(s: string): (r: string)
    ensures |r| <= |s| && r == s[|s| - |r|..]
    ensures r != [] ==> !IsSpace(r[0])
    ensures AllSpace(s[..|s| - |r|])
    ensures r == [] <==> AllSpace(s)
  {
    if s != [] && IsSpace(s[0]) then
      var t := TrimStart(s[1..]);
      var n := |s| - |t|;
      assert s[n..] == s[1..][n - 1..];
      AllSpaceCons(s, n);
      assert t == [] ==> s[..n] == s;
      assert t != [] ==> s[n] == t[0];
      t
    else s
  }

  /** `s.trimEnd()`: drops the trailing whitespace and nothing else. */
  function TrimEnd(s: string): (r: string)
    ensures |r| <= |s| && r == s[..|r|]
    ensures r != [] ==> !IsSpace(r[|r| - 1])
    ensures AllSpace(s[|r|..])
    ensures r == [] <==> AllSpace(s)
  {
    if s != [] && IsSpace(s[|s| - 1]) then TrimEnd(s[..|s| - 1]) else s
  }

  /** `r` sits at position `a` of `s` with only whitespace before and after it. */
  predicate Surrounded(s: string, r: string, a: nat) {
    a + |r| <= |s| && r == s[a..a + |r|] && AllSpace(s[..a]) && AllSpace(s[a + |r|..])
  }

  /** Trimming both ends leaves the middle of `s`, with whitespace all around it. */
  lemma TrimSurrounded(s: string)
    ensures Surrounded(s, TrimEnd(TrimStart(s)), |s| - |TrimStart(s)|)
    ensures TrimEnd(TrimStart(s)) == [] <==> AllSpace(s)
    ensures TrimEnd(TrimStart(s)) != [] ==> !IsSpace(TrimEnd(TrimStart(s))[0])
  {
    var t := TrimStart(s);
    var r := TrimEnd(t);
    var a := |s| - |t|;
    SplitAt(s, a, t);
    AllSpaceAppend(s[..a], t);
    PrefixOfSuffix(s, a, t, r);
    assert r != [] ==> r[0] == t[0];
    assert Surrounded(s, r, a);
  }

  /** `s` is its first `a` characters followed by the rest. */
  lemma SplitAt(s: string, a: nat, t: string)
    requires a <= |s| && t == s[a..]
    ensures s == s[..a] + t
  {
  }

  /** A prefix `r` of the suffix `t` of `s` starting at `a` is the slice of `s` at `a`. */
  lemma PrefixOfSuffix(s: string, a: nat, t: string, r: string)
    requires a <= |s| && t == s[a..] && |r| <= |t| && r == t[..|r|]
    ensures a + |r| <= |s| && r == s[a..a + |r|] && s[a + |r|..] == t[|r|..]
  {
  }

  /** `s.trim()`: the whitespace-free middle of `s`. */
  function Trim(s: string): (r: string)
    ensures r == [] <==> AllSpace(s)
    ensures exists a: nat :: Surrounded(s, r, a)
    ensures r != [] ==> !IsSpace(r[0]) && !IsSpace(r[|r| - 1])
  {
    TrimSurrounded(s);
    TrimEnd(TrimStart(s))
  }

  /** ASCII `toLowerCase` of one character. */
  function LowerChar(c: char): (r: char)
    ensures IsSpace(r) <==> IsSpace(c)
    ensures r == '@' <==> c == '@'
    ensures r == '.' <==> c == '.'
    ensures 'A' <= c <= 'Z' ==> r as int == c as int + 32
    ensures !('A' <= c <= 'Z') ==> r == c
  {
    if 'A' <= c <= 'Z' then (c as int + 32) as char else c
  }

  /** `s.toLowerCase()`, ASCII letters only. */
  function Lower(s: string): (r: string)
    ensures |r| == |s|
    ensures forall k | 0 <= k < |s| :: r[k] == LowerChar(s[k])
  {
    seq(|s|, k requires 0 <= k < |s| => LowerChar(s[k]))
  }

  /** `s.startsWith(p)`. */
  predicate StartsWith(s: string, p: string) {
    |p| <= |s| && s[..|p|] == p
  }

  /** `s.endsWith(p)`. */
  predicate EndsWith(s: string, p: string) {
    |p| <= |s| && s[|s| - |p|..] == p
  }

  /** `s.includes(t)`. */
  predicate Contains(s: string, t: string) {
    exists k | 0 <= k <= |s| :: StartsWith(s[k..], t)
  }

  // ---------------------------------------------------------------------------
  // Decimal rendering, as in the template literals `member${i}Name` and
  // `Must be at least ${rules.minLength} characters`.

  function DigitChar(d: nat): (c: char)
    requires d < 10
    ensures IsDigit(c)
  {
    ('0' as int + d) as char
  }

  /** `String(n)` for a non-negative integer. */
  function NatToString(n: nat): (r: string)
    ensures r != []
    ensures forall k | 0 <= k < |r| :: IsDigit(r[k])
    ensures |r| > 1 ==> r[0] != '0'
  {
    if n < 10 then [DigitChar(n)] else NatToString(n / 10) + [DigitChar(n % 10)]
  }

  // ---------------------------------------------------------------------------
  // `Number.parseInt(s)` with no radix argument: skip leading whitespace, take an
  // optional sign, switch to base 16 after a `0x`/`0X` prefix, then read the
  // longest run of digits of that base; no digit at all gives NaN (`None`).

  predicate IsRadixDigit(c: char, radix: nat) {
    if radix == 16 then IsDigit(c) || 'a' <= c <= 'f' || 'A' <= c <= 'F' else IsDigit(c)
  }

  function DigitValue(c: char): nat {
    if IsDigit(c) then c as int - '0' as int
    else if 'a' <= c <= 'f' then c as int - 'a' as int + 10
    else if 'A' <= c <= 'F' then c as int - 'A' as int + 10
    else 0
  }

  /** The longest prefix of `s` made of digits of the radix. */
  function DigitPrefix(s: string, radix: nat): (r: string)
    ensures |r| <= |s| && r == s[..|r|]
    ensures forall k | 0 <= k < |r| :: IsRadixDigit(r[k], radix)
    ensures |r| < |s| ==> !IsRadixDigit(s[|r|], radix)
  {
    if s == [] || !IsRadixDigit(s[0], radix) then [] else [s[0]] + DigitPrefix(s[1..], radix)
  }

  /** The number a run of digits denotes in the radix. */
  function DigitsValue(s: string, radix: nat): nat {
    if s == [] then 0 else DigitsValue(s[..|s| - 1], radix) * radix + DigitValue(s[|s| - 1])
  }

  /** `Number.parseInt(s)`, with `NaN` as `None`: blank text is `NaN`. */
  function ParseInt(s: string): (r: Option<int>)
    ensures AllSpace(s) ==> r == None
  {
    ParseSigned(TrimStart(s))
  }

  function ParseSigned(t: string): Option<int> {
    if t != [] && t[0] == '-' then
      match ParseUnsigned(t[1..])
      case Some(v) => Some(-v)
      case None => None
    else if t != [] && t[0] == '+' then ParseUnsigned(t[1..])
    else ParseUnsigned(t)
  }

  predicate HasHexPrefix(u: string) {
    |u| >= 2 && u[0] == '0' && (u[1] == 'x' || u[1] == 'X')
  }

  function ParseUnsigned(u: string): Option<int> {
    if HasHexPrefix(u) then ParseDigits(u[2..], 16) else ParseDigits(u, 10)
  }

  function ParseDigits(v: string, radix: nat): Option<int> {
    var digits := DigitPrefix(v, radix);
    if digits == [] then None else Some(DigitsValue(digits, radix))
  }

  // ---------------------------------------------------------------------------
  // Properties of the helpers

  /** Rendering a number in decimal and reading it back gives the number. */
  lemma {:induction false} DigitsValueOfNatToString(n: nat)
    ensures DigitsValue(NatToString(n), 10) == n
  {
    if n >= 10 {
      var s := NatToString(n / 10);
      DigitsValueOfNatToString(n / 10);
      assert (s + [DigitChar(n % 10)])[..|s|] == s;
    }
  }

  /** The decimal rendering is injective. */
  lemma NatToStringInjective(m: nat, n: nat)
    requires NatToString(m) == NatToString(n)
    ensures m == n
  {
    DigitsValueOfNatToString(m);
    DigitsValueOfNatToString(n);
  }

  /** A run of decimal digits followed by a non-digit is read up to the non-digit. */
  lemma {:induction false} DigitPrefixOfDigits(d: string, t: string)
    requires forall k | 0 <= k < |d| :: IsDigit(d[k])
    requires t == [] || !IsDigit(t[0])
    ensures DigitPrefix(d + t, 10) == d
  {
    if d != [] {
      assert (d + t)[1..] == d[1..] + t;
      DigitPrefixOfDigits(d[1..], t);
    } else {
      assert d + t == t;
    }
  }

  /**
   * `parseInt` reads back the decimal rendering of `n` even when other text
   * follows it, provided that text starts with neither a digit nor an `x`.
   */
  lemma ParseIntOfNatToString(n: nat, t: string)
    requires t == [] || (!IsDigit(t[0]) && t[0] != 'x' && t[0] != 'X')
    ensures ParseInt(NatToString(n) + t) == Some(n)
  {
    var d := NatToString(n);
    assert (d + t)[0] == d[0];
    assert |d + t| >= 2 ==> (d + t)[1] == if |d| > 1 then d[1] else t[0];
    ParseDecimalDigits(d, t);
    DigitsValueOfNatToString(n);
    ParseIntUnsigned(d + t);
  }

  /** Text that starts with a digit has no whitespace or sign for `parseInt` to skip. */
  lemma ParseIntUnsigned(s: string)
    requires s != [] && IsDigit(s[0])
    ensures ParseInt(s) == ParseUnsigned(s)
  {
    assert TrimStart(s) == s;
  }

  lemma ParseDecimalDigits(d: string, t: string)
    requires d != [] && forall k | 0 <= k < |d| :: IsDigit(d[k])
    requires t == [] || !IsDigit(t[0])
    requires !HasHexPrefix(d + t)
    ensures ParseUnsigned(d + t) == Some(DigitsValue(d, 10))
  {
    DigitPrefixOfDigits(d, t);
  }

  /** Lowering is idempotent. */
  lemma LowerIdempotent(s: string)
    ensures Lower(Lower(s)) == Lower(s)
  {
  }

  /** A string that does not contain some character of `t` does not contain `t`. */
  lemma NotContainsMissingChar(s: string, t: string, i: nat)
    requires i < |t|
    requires forall k | 0 <= k < |s| :: s[k] != t[i]
    ensures !Contains(s, t)
  {
    forall k | 0 <= k <= |s| ensures !StartsWith(s[k..], t) {
      if k + |t| <= |s| {
        assert s[k..][..|t|][i] == s[k + i];
      }
    }
  }

  /** Substring containment is transitive. */
  lemma ContainsTransitive(s: string, t: string, u: string)
    requires Contains(s, t) && Contains(t, u)
    ensures Contains(s, u)
  {
    var k :| 0 <= k <= |s| && StartsWith(s[k..], t);
    var j :| 0 <= j <= |t| && StartsWith(t[j..], u);
    assert s[k + j..][..|u|] == u by {
      forall m | 0 <= m < |u| ensures s[k + j..][m] == u[m] {
        assert t[j..][m] == u[m];
        assert s[k..][j + m] == t[j + m];
      }
    }
    assert StartsWith(s[k + j..], u);
  }
}
