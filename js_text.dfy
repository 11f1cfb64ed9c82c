/**
 * The parts of ECMAScript string handling that the modelled code relies on:
 * the white-space and line-terminator sets (used by `\s`, `.` and `trim`),
 * `\w`, ASCII case folding, `String.prototype.includes`, `trim`, and the
 * decimal rendering of a non-negative integer.
 *
 * Strings are sequences of Unicode scalar values; ECMAScript strings are
 * sequences of UTF-16 code units, so lengths agree only on text without
 * surrogate pairs.
 */
module JsText {

  /** LineTerminator of section 12.3 of ECMA-262. */
  predicate IsLineTerminator(c: char) {
    c == '\n' || c == '\r' || c == '\U{2028}' || c == '\U{2029}'
  }

  /** WhiteSpace of section 12.2 of ECMA-262: TAB, VT, FF, SP, NBSP, ZWNBSP and category Zs. */
  predicate IsWhiteSpace(c: char) {
    || c == '\t' || c == '\U{000B}' || c == '\U{000C}' || c == ' '
    || c == '\U{00A0}' || c == '\U{FEFF}' || c == '\U{1680}'
    || ('\U{2000}' <= c <= '\U{200A}')
    || c == '\U{202F}' || c == '\U{205F}' || c == '\U{3000}'
  }

  /** The characters matched by the regular-expression escape `\s` and removed by `trim`. */
  predicate IsSpace(c: char) {
    IsWhiteSpace(c) || IsLineTerminator(c)
  }

  /** The characters matched by `\w` (without the `u` flag, also under `i`). */
  predicate IsWordChar(c: char) {
    ('a' <= c <= 'z') || ('A' <= c <= 'Z') || ('0' <= c <= '9') || c == '_'
  }

  predicate IsDigit(c: char) {
    '0' <= c <= '9'
  }

  /** Lower-casing restricted to ASCII letters. */
  function LowerChar(c: char): (r: char)
    ensures 'A' <= c <= 'Z' ==> r != c && 'a' <= r <= 'z'
    ensures !('A' <= c <= 'Z') ==> r == c
  {
    if 'A' <= c <= 'Z' then (c as int + 32) as char else c
  }

  /** `String.prototype.toLowerCase`, restricted to ASCII letters. */
  function ToLower(s: string): (r: string)
    ensures |r| == |s|
    ensures forall k :: 0 <= k < |s| ==> r[k] == LowerChar(s[k])
  {
    if s == [] then [] else [LowerChar(s[0])] + ToLower(s[1..])
  }

  /** `w` occurs in `s` starting at position `i`. */
  predicate OccursAt(s: string, w: string, i: int) {
    0 <= i && i + |w| <= |s| && s[i..i + |w|] == w
  }

  /** `s.includes(w)`: `w` occurs in `s` at some position. */
  predicate Includes(s: string, w: string) {
    exists i | 0 <= i <= |s| :: OccursAt(s, w, i)
  }

  /** An occurrence inside a part is an occurrence inside the whole. */
  lemma IncludesWithin(a: string, s: string, b: string, w: string)
    requires Includes(s, w)
    ensures Includes(a + s + b, w)
  {
    var i :| 0 <= i <= |s| && OccursAt(s, w, i);
    var whole := a + s + b;
    assert whole[|a| + i..|a| + i + |w|] == s[i..i + |w|];
    assert OccursAt(whole, w, |a| + i);
  }

  /** Every character of an included word occurs in the including text. */
  lemma IncludesChars(s: string, w: string, c: char)
    requires Includes(s, w) && c in w
    ensures c in s
  {
    var i :| 0 <= i <= |s| && OccursAt(s, w, i);
    var k :| 0 <= k < |w| && w[k] == c;
    assert s[i + k] == s[i..i + |w|][k];
  }

  /** Some character of `w` from index `t` on differs from the text at `i`. */
  predicate DiffersAt(s: string, w: string, i: nat, t: nat)
    requires i + |w| <= |s|
    decreases |w| - t
  {
    t < |w| && (s[i + t] != w[t] || DiffersAt(s, w, i, t + 1))
  }

  /** `w` occurs at no position from `i` on, checked character by character. */
  predicate AbsentFrom(s: string, w: string, i: nat)
    decreases |s| - i
  {
    i + |w| > |s| || (DiffersAt(s, w, i, 0) && AbsentFrom(s, w, i + 1))
  }

  lemma {:induction false} DiffersAtIff(s: string, w: string, i: nat, t: nat)
    requires i + |w| <= |s|
    ensures DiffersAt(s, w, i, t) <==> exists u :: t <= u < |w| && s[i + u] != w[u]
    decreases |w| - t
  {
    if t < |w| {
      DiffersAtIff(s, w, i, t + 1);
    }
  }

  /** The character scan agrees with `includes`. */
  lemma {:induction false} AbsentFromIff(s: string, w: string, i: nat)
    ensures AbsentFrom(s, w, i) <==> forall k :: i <= k ==> !OccursAt(s, w, k)
    decreases |s| - i
  {
    if i + |w| <= |s| {
      AbsentFromIff(s, w, i + 1);
      DiffersAtIff(s, w, i, 0);
      if !DiffersAt(s, w, i, 0) {
        assert forall u :: 0 <= u < |w| ==> s[i..i + |w|][u] == w[u];
        assert OccursAt(s, w, i);
      } else {
        var u :| 0 <= u < |w| && s[i + u] != w[u];
        assert s[i..i + |w|][u] != w[u];
      }
    }
  }

  /** `s.includes(w)` is false exactly when the scan from 0 finds no occurrence. */
  lemma AbsentIff(s: string, w: string)
    ensures AbsentFrom(s, w, 0) <==> !Includes(s, w)
  {
    AbsentFromIff(s, w, 0);
    if !AbsentFrom(s, w, 0) {
      var k :| 0 <= k && OccursAt(s, w, k);
      assert 0 <= k <= |s|;
    }
  }

  /** A word with a character that `s` lacks does not occur in `s`. */
  lemma MissingLetter(s: string, w: string, c: char)
    requires c in w && c !in s
    ensures !Includes(s, w)
  {
    if Includes(s, w) {
      IncludesChars(s, w, c);
    }
  }

  /** An occurrence that straddles the end of `a` contains the last character of `a`. */
  lemma StraddlingOccurrence(a: string, b: string, w: string, i: nat)
    requires OccursAt(a + b, w, i) && i < |a| < i + |w|
    ensures a[|a| - 1] in w
  {
    assert (a + b)[i..i + |w|][|a| - 1 - i] == a[|a| - 1];
  }

  /**
   * A word absent from both halves is absent from their concatenation when
   * the last character of the first half is not in the word.
   */
  lemma AbsentFromBoth(a: string, b: string, w: string)
    requires |a| > 0 && a[|a| - 1] !in w
    requires !Includes(a, w) && !Includes(b, w)
    ensures !Includes(a + b, w)
  {
    var s := a + b;
    if Includes(s, w) {
      var i :| 0 <= i <= |s| && OccursAt(s, w, i);
      if i + |w| <= |a| {
        assert a[i..i + |w|] == s[i..i + |w|];
        assert OccursAt(a, w, i);
      } else if i >= |a| {
        assert b[i - |a|..i - |a| + |w|] == s[i..i + |w|];
        assert OccursAt(b, w, i - |a|);
      } else {
        StraddlingOccurrence(a, b, w, i);
      }
    }
  }

  /** Every character of `s` from index `i` on belongs to `letters`, checked one by one. */
  predicate LettersFrom(s: string, letters: set<char>, i: nat)
    decreases |s| - i
  {
    i >= |s| || (s[i] in letters && LettersFrom(s, letters, i + 1))
  }

  lemma {:induction false} LettersFromAll(s: string, letters: set<char>, i: nat)
    requires LettersFrom(s, letters, i)
    ensures forall k :: i <= k < |s| ==> s[k] in letters
    decreases |s| - i
  {
    if i < |s| {
      LettersFromAll(s, letters, i + 1);
    }
  }

  /** Every character of `t` is white space. */
  predicate AllSpace(t: string) {
    forall k :: 0 <= k < |t| ==> IsSpace(t[k])
  }

  function TrimStart(s: string): (r: string)
    ensures |r| <= |s| && r == s[|s| - |r|..]
    ensures r == [] || !IsSpace(r[0])
    ensures forall k :: 0 <= k < |s| - |r| ==> IsSpace(s[k])
  {
    if s != [] && IsSpace(s[0]) then TrimStart(s[1..]) else s
  }

  function TrimEnd(s: string): (r: string)
    ensures |r| <= |s| && r == s[..|r|]
    ensures r == [] || !IsSpace(r[|r| - 1])
    ensures forall k :: |r| <= k < |s| ==> IsSpace(s[k])
  {
    if s != [] && IsSpace(s[|s| - 1]) then TrimEnd(s[..|s| - 1]) else s
  }

  /** `String.prototype.trim`. */
  function Trim(s: string): string {
    TrimEnd(TrimStart(s))
  }

  /**
   * What `trim` promises: the result is `s` without a leading and a trailing
   * run of white space (`s[..i]` and `s[j..]`), and it neither starts nor
   * ends with white space.
   */
  lemma TrimSpec(s: string) returns (i: nat, j: nat)
    ensures i <= j <= |s| && Trim(s) == s[i..j]
    ensures AllSpace(s[..i]) && AllSpace(s[j..])
    ensures Trim(s) == [] || (!IsSpace(Trim(s)[0]) && !IsSpace(Trim(s)[|Trim(s)| - 1]))
  {
    var t := TrimStart(s);
    var r := TrimEnd(t);
    LeadingSpace(s);
    TrailingSpace(t);
    i, j := TrimmedSlice(s, t, r);
  }

  /** `r`, a prefix of the suffix `t` of `s`, cut off white space only, is a slice of `s` between white space. */
  lemma TrimmedSlice(s: string, t: string, r: string) returns (i: nat, j: nat)
    requires |t| <= |s| && t == s[|s| - |t|..] && AllSpace(s[..|s| - |t|])
    requires |r| <= |t| && r == t[..|r|] && AllSpace(t[|r|..])
    requires t == [] || !IsSpace(t[0])
    requires r == [] || !IsSpace(r[|r| - 1])
    ensures i <= j <= |s| && r == s[i..j]
    ensures AllSpace(s[..i]) && AllSpace(s[j..])
    ensures r == [] || (!IsSpace(r[0]) && !IsSpace(r[|r| - 1]))
  {
    i := |s| - |t|;
    j := i + |r|;
    assert s[j..] == t[|r|..];
    assert r == [] || r[0] == t[0];
  }

  lemma LeadingSpace(s: string)
    ensures AllSpace(s[..|s| - |TrimStart(s)|])
  {
    var n := |s| - |TrimStart(s)|;
    forall k | 0 <= k < n
      ensures IsSpace(s[..n][k])
    {
    }
  }

  lemma TrailingSpace(t: string)
    ensures AllSpace(t[|TrimEnd(t)|..])
  {
    var n := |TrimEnd(t)|;
    forall k | 0 <= k < |t| - n
      ensures IsSpace(t[n..][k])
    {
    }
  }

  /** The trimmed text is empty exactly when every character is white space. */
  lemma TrimEmptyIff(s: string)
    ensures Trim(s) == [] <==> AllSpace(s)
  {
    var t := TrimStart(s);
    assert t == [] || t[0] == s[|s| - |t|];
    if !AllSpace(s) {
      var k :| 0 <= k < |s| && !IsSpace(s[k]);
      assert t[k - (|s| - |t|)] == s[k];
      var u := TrimEnd(t);
      assert |u| > k - (|s| - |t|);
    }
  }

  function DigitChar(d: nat): (c: char)
    requires d < 10
    ensures IsDigit(c)
  {
    ('0' as int + d) as char
  }

  /** `String(n)` for a non-negative integer `n`: its decimal digits, most significant first. */
  function Decimal(n: nat): (r: string)
    ensures 1 <= |r|
    ensures forall k :: 0 <= k < |r| ==> IsDigit(r[k])
    ensures r[|r| - 1] == DigitChar(n % 10)
    ensures n < 10 <==> |r| == 1
  {
    if n < 10 then [DigitChar(n)] else Decimal(n / 10) + [DigitChar(n % 10)]
  }

  lemma DigitCharInjective(a: nat, b: nat)
    requires a < 10 && b < 10 && DigitChar(a) == DigitChar(b)
    ensures a == b
  {
  }

  /** Distinct numbers have distinct decimal renderings. */
  lemma {:induction false} DecimalInjective(a: nat, b: nat)
    requires Decimal(a) == Decimal(b)
    ensures a == b
  {
    var da, db := Decimal(a), Decimal(b);
    DigitCharInjective(a % 10, b % 10);
    if a >= 10 && b >= 10 {
      assert Decimal(a / 10) == da[..|da| - 1] == db[..|db| - 1] == Decimal(b / 10);
      DecimalInjective(a / 10, b / 10);
    }
  }
}
