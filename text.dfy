/**
 * The string operations the page applies to box and shelf texts:
 * `toLowerCase`, `trim`, `includes` and the `<` comparison of strings.
 */
module Text {

  /** True iff `c` is an ASCII upper-case letter. */
  predicate IsUpper(c: char) {
    'A' <= c <= 'Z'
  }

  /** `toLowerCase` on one character, restricted to ASCII letters. */
  function LowerChar(c: char): (d: char)
    ensures !IsUpper(d)
    ensures !IsUpper(c) ==> d == c
    ensures IsUpper(c) ==> 'a' <= d <= 'z' && d as int - c as int == 'a' as int - 'A' as int
  {
    if IsUpper(c) then (c as int - 'A' as int + 'a' as int) as char else c
  }

  /** `String.prototype.toLowerCase`, character by character. */
  function Lower(s: string): (r: string)
    ensures |r| == |s|
    ensures forall i :: 0 <= i < |r| ==> !IsUpper(r[i])
    ensures forall i :: 0 <= i < |r| ==> r[i] == LowerChar(s[i])
  {
    seq(|s|, i requires 0 <= i < |s| => LowerChar(s[i]))
  }

  /** Lower-casing twice is lower-casing once. */
  lemma LowerIdempotent(s: string)
    ensures Lower(Lower(s)) == Lower(s)
  {
  }

  /**
   * The characters `String.prototype.trim` removes: ECMAScript WhiteSpace
   * (TAB, VT, FF, SP, NBSP, ZWNBSP and the space separators of Unicode
   * category Zs) and LineTerminator (LF, CR, LS, PS). TAB, LF, VT, FF and
   * CR are the code points 9 to 13.
   */
  predicate IsTrimSpace(c: char) {
    || ('\t' <= c <= '\r')
    || c == ' ' || c == '\U{00A0}' || c == '\U{1680}'
    || ('\U{2000}' <= c <= '\U{200A}')
    || c == '\U{2028}' || c == '\U{2029}' || c == '\U{202F}' || c == '\U{205F}'
    || c == '\U{3000}' || c == '\U{FEFF}'
  }

  /** How many trim-space characters `s` starts with. */
  function LeadingSpaces(s: string): (n: nat)
    ensures n <= |s|
    ensures forall i :: 0 <= i < n ==> IsTrimSpace(s[i])
    ensures n == |s| || !IsTrimSpace(s[n])
  {
    if s != [] && IsTrimSpace(s[0]) then 1 + LeadingSpaces(s[1..]) else 0
  }

  /** How many trim-space characters `s` ends with. */
  function TrailingSpaces(s: string): (n: nat)
    ensures n <= |s|
    ensures forall i :: |s| - n <= i < |s| ==> IsTrimSpace(s[i])
    ensures n == |s| || !IsTrimSpace(s[|s| - n - 1])
  {
    if s != [] && IsTrimSpace(s[|s| - 1]) then 1 + TrailingSpaces(s[..|s| - 1]) else 0
  }

  /**
   * `String.prototype.trim`: the longest infix of `s` that neither starts
   * nor ends with a trim-space character, all that is cut off being space.
   */
  function Trim(s: string): (r: string)
    ensures LeadingSpaces(s) + |r| <= |s|
    ensures r == s[LeadingSpaces(s)..LeadingSpaces(s) + |r|]
    ensures forall i :: 0 <= i < LeadingSpaces(s) ==> IsTrimSpace(s[i])
    ensures forall i :: LeadingSpaces(s) + |r| <= i < |s| ==> IsTrimSpace(s[i])
    ensures r == [] || (!IsTrimSpace(r[0]) && !IsTrimSpace(r[|r| - 1]))
  {
    var lead := LeadingSpaces(s);
    var trail := TrailingSpaces(s[lead..]);
    s[lead..|s| - trail]
  }

  /** Trimming a string with no upper-case letter leaves none. */
  lemma TrimNoUpper(s: string)
    requires forall i :: 0 <= i < |s| ==> !IsUpper(s[i])
    ensures forall i :: 0 <= i < |Trim(s)| ==> !IsUpper(Trim(s)[i])
  {
    var r := Trim(s);
    var lead := LeadingSpaces(s);
    forall i | 0 <= i < |r| ensures !IsUpper(r[i]) {
      assert r[i] == s[lead + i];
    }
  }

  /** `t` occurs in `s` starting at index `i`. */
  predicate IsInfixAt(s: string, t: string, i: int) {
    0 <= i && i + |t| <= |s| && s[i..i + |t|] == t
  }

  predicate IsPrefix(t: string, s: string) {
    |t| <= |s| && s[..|t|] == t
  }

  /** `String.prototype.includes`: does `t` occur in `s`? */
  predicate Contains(s: string, t: string) {
    IsPrefix(t, s) || (s != [] && Contains(s[1..], t))
  }

  /** `Contains` agrees with the positional definition of an occurrence. */
  lemma {:induction false} ContainsIffOccurs(s: string, t: string)
    ensures Contains(s, t) <==> exists i :: IsInfixAt(s, t, i)
  {
    if IsPrefix(t, s) {
      assert IsInfixAt(s, t, 0);
    } else if s == [] {
    } else {
      ContainsIffOccurs(s[1..], t);
      if Contains(s[1..], t) {
        var i :| IsInfixAt(s[1..], t, i);
        assert s[1..][i..i + |t|] == s[i + 1..i + 1 + |t|];
        assert IsInfixAt(s, t, i + 1);
      }
      if exists i :: IsInfixAt(s, t, i) {
        var i :| IsInfixAt(s, t, i);
        assert i > 0;
        assert s[1..][i - 1..i - 1 + |t|] == s[i..i + |t|];
        assert IsInfixAt(s[1..], t, i - 1);
      }
    }
  }

  /** The empty string occurs in every string, as with `"x".includes("")`. */
  lemma ContainsEmpty(s: string)
    ensures Contains(s, [])
  {
    assert IsPrefix([], s);
  }

  /** A string holds another of its own length only when they are equal. */
  lemma ContainsSameLength(s: string, t: string)
    requires |s| == |t| && s != t
    ensures !Contains(s, t)
  {
    ContainsIffOccurs(s, t);
  }

  /**
   * `a < b` on strings: `a` is a proper prefix of `b`, or `a` has the
   * smaller character at the first position where the two differ.
   */
  predicate LexLess(a: string, b: string) {
    if a == [] then b != []
    else b != [] && (a[0] < b[0] || (a[0] == b[0] && LexLess(a[1..], b[1..])))
  }

  lemma {:induction false} LexLessIrreflexive(a: string)
    ensures !LexLess(a, a)
  {
    if a != [] {
      LexLessIrreflexive(a[1..]);
    }
  }

  lemma {:induction false} LexLessAsymmetric(a: string, b: string)
    ensures !(LexLess(a, b) && LexLess(b, a))
  {
    if a != [] && b != [] && a[0] == b[0] {
      LexLessAsymmetric(a[1..], b[1..]);
    }
  }

  lemma {:induction false} LexLessTransitive(a: string, b: string, c: string)
    requires LexLess(a, b) && LexLess(b, c)
    ensures LexLess(a, c)
  {
    if a != [] && a[0] == b[0] && b[0] == c[0] {
      LexLessTransitive(a[1..], b[1..], c[1..]);
    }
  }

  lemma {:induction false} LexLessTotal(a: string, b: string)
    ensures a == b || LexLess(a, b) || LexLess(b, a)
  {
    if a != [] && b != [] && a[0] == b[0] {
      LexLessTotal(a[1..], b[1..]);
      if a[1..] == b[1..] {
        assert a == [a[0]] + a[1..] && b == [b[0]] + b[1..];
      }
    }
  }
}
