/**
 * A small model of the ECMAScript regular expressions the modelled code uses:
 * a pattern is a sequence of character classes, each matched once, greedily
 * zero-or-more times (`*`) or greedily one-or-more times (`+`). Matching
 * follows the backtracking order of section 22.2 of ECMA-262, so `MatchEnd`
 * yields the end of the match that `exec` reports.
 */
module Regex {
  import opened Wrappers
  import opened JsText

  datatype CharClass =
    | Char(c: char)             // a literal character
    | Fold(c: char)             // a lower-case ASCII letter under the `i` flag
    | Space                     // \s
    | Word                      // \w
    | Dot                       // .
    | NotChar(c: char)          // [^c]
    | OneOf(chars: string)      // [...]

  datatype Quantifier = Once | Star | Plus

  datatype Atom = Atom(cls: CharClass, q: Quantifier)

  type Pattern = seq<Atom>

  predicate InClass(k: CharClass, x: char) {
    match k
    case Char(c) => x == c
    case Fold(c) => LowerChar(x) == c
    case Space => IsSpace(x)
    case Word => IsWordChar(x)
    case Dot => !IsLineTerminator(x)
    case NotChar(c) => x != c
    case OneOf(chars) => x in chars
  }

  /** The pattern that matches the word `w` literally. */
  function Lit(w: string): (p: Pattern)
    ensures |p| == |w|
    ensures forall k :: 0 <= k < |w| ==> p[k] == Atom(Char(w[k]), Once)
  {
    if w == [] then [] else [Atom(Char(w[0]), Once)] + Lit(w[1..])
  }

  /** The pattern that matches `w` ignoring ASCII case (`w` in lower case). */
  function LitFold(w: string): (p: Pattern)
    ensures |p| == |w|
    ensures forall k :: 0 <= k < |w| ==> p[k] == Atom(Fold(w[k]), Once)
  {
    if w == [] then [] else [Atom(Fold(w[0]), Once)] + LitFold(w[1..])
  }

  /**
   * The end of the match of `p[j..]` against `s` from position `i`, or None
   * when there is none. `again` says that atom `j` has already matched once,
   * so that it may now match zero or more further characters. A greedy
   * quantifier first tries one more character, then gives it back.
   */
  function MatchEnd(p: Pattern, s: string, i: nat, j: nat, again: bool): (r: Option<nat>)
    requires i <= |s|
    ensures r.Some? ==> i <= r.value <= |s|
    decreases |s| - i, |p| - j, if again then 0 else 1
  {
    if j >= |p| then Some(i)
    else
      var a := p[j];
      var q := if again then Star else a.q;
      var here := i < |s| && InClass(a.cls, s[i]);
      match q
      case Once => if here then MatchEnd(p, s, i + 1, j + 1, false) else None
      case Plus => if here then MatchEnd(p, s, i + 1, j, true) else None
      case Star =>
        var longer := if here then MatchEnd(p, s, i + 1, j, true) else None;
        if longer.Some? then longer else MatchEnd(p, s, i, j + 1, false)
  }

  /** Atoms `j + t ..` of `p` match the characters `w[t..]` literally, once each. */
  predicate LitAt(p: Pattern, w: string, j: nat, t: nat)
    decreases |w| - t
  {
    t >= |w| || (j + t < |p| && p[j + t] == Atom(Char(w[t]), Once) && LitAt(p, w, j, t + 1))
  }

  /** A match through a literal run of atoms consumes exactly that word. */
  lemma {:induction false} MatchLit(p: Pattern, w: string, s: string, i: nat, j: nat, t: nat)
    requires i <= |s| && t <= |w| && LitAt(p, w, j, t)
    requires MatchEnd(p, s, i, j + t, false).Some?
    ensures i + |w| - t <= |s|
    ensures forall u :: t <= u < |w| ==> s[i + u - t] == w[u]
    decreases |w| - t
  {
    if t < |w| {
      MatchLit(p, w, s, i + 1, j, t + 1);
    }
  }

  /** A pattern that starts with the word `w` only matches where `w` occurs. */
  lemma MatchStartsWithLit(p: Pattern, w: string, s: string, i: nat, j: nat)
    requires i <= |s| && LitAt(p, w, j, 0)
    requires MatchEnd(p, s, i, j, false).Some?
    ensures OccursAt(s, w, i)
  {
    MatchLit(p, w, s, i, j, 0);
    assert forall u :: 0 <= u < |w| ==> s[i..i + |w|][u] == w[u];
  }

  /**
   * After atom `j` has matched once under `+` or `*`, the rest of the
   * pattern matches from some later position.
   */
  lemma {:induction false} RepeatThenRest(p: Pattern, s: string, i: nat, j: nat) returns (k: nat)
    requires i <= |s| && j < |p|
    requires MatchEnd(p, s, i, j, true).Some?
    ensures i <= k <= |s| && MatchEnd(p, s, k, j + 1, false).Some?
    decreases |s| - i
  {
    var here := i < |s| && InClass(p[j].cls, s[i]);
    var longer := if here then MatchEnd(p, s, i + 1, j, true) else None;
    if longer.Some? {
      k := RepeatThenRest(p, s, i + 1, j);
    } else {
      k := i;
    }
  }

  /**
   * Conversely, an atom under `*` (or repeating after its first match) that
   * can take every character up to `k`, where the rest of the pattern
   * matches, lets the whole pattern match: giving back characters reaches `k`
   * if no longer run succeeds.
   */
  lemma {:induction false} StarReaches(p: Pattern, s: string, i: nat, j: nat, k: nat, again: bool)
    requires i <= k <= |s| && j < |p| && (again || p[j].q == Star)
    requires forall u :: i <= u < k ==> InClass(p[j].cls, s[u])
    requires MatchEnd(p, s, k, j + 1, false).Some?
    ensures MatchEnd(p, s, i, j, again).Some?
    decreases k - i
  {
    if i < k {
      StarReaches(p, s, i + 1, j, k, true);
    }
  }

  /** An atom under `+` that can take one character but not two moves on after that one. */
  lemma PlusTakesOne(p: Pattern, s: string, i: nat, j: nat)
    requires i < |s| && j < |p| && p[j].q == Plus && InClass(p[j].cls, s[i])
    requires i + 1 == |s| || !InClass(p[j].cls, s[i + 1])
    ensures MatchEnd(p, s, i, j, false) == MatchEnd(p, s, i + 1, j + 1, false)
  {
    assert MatchEnd(p, s, i + 1, j, true) == MatchEnd(p, s, i + 1, j + 1, false);
  }

  /** Matching atom `j` on depends only on the atoms from `j` on. */
  lemma {:induction false} MatchEndSuffix(q: Pattern, p: Pattern, s: string, i: nat, j: nat, again: bool)
    requires i <= |s|
    ensures MatchEnd(q + p, s, i, |q| + j, again) == MatchEnd(p, s, i, j, again)
    decreases |s| - i, |p| - j, if again then 0 else 1
  {
    if j < |p| {
      assert (q + p)[|q| + j] == p[j];
      if i < |s| {
        MatchEndSuffix(q, p, s, i + 1, j + 1, false);
        MatchEndSuffix(q, p, s, i + 1, j, true);
      }
      MatchEndSuffix(q, p, s, i, j + 1, false);
    }
  }

  /** Where the word occurs, a literal run of atoms steps over it. */
  lemma {:induction false} MatchThroughLit(p: Pattern, w: string, s: string, i: nat, j: nat, t: nat)
    requires t <= |w| && LitAt(p, w, j, t)
    requires i + |w| - t <= |s|
    requires forall u :: t <= u < |w| ==> s[i + u - t] == w[u]
    ensures MatchEnd(p, s, i, j + t, false) == MatchEnd(p, s, i + |w| - t, j + |w|, false)
    decreases |w| - t
  {
    if t < |w| {
      MatchThroughLit(p, w, s, i + 1, j, t + 1);
    }
  }

  /**
   * A pattern whose atoms from `j` spell `w` matches from `i` exactly when
   * `w` occurs at `i` and the atoms after the word match from its end.
   */
  lemma MatchLitIff(p: Pattern, w: string, s: string, i: nat, j: nat)
    requires i <= |s| && LitAt(p, w, j, 0)
    ensures MatchEnd(p, s, i, j, false).Some? <==>
      OccursAt(s, w, i) && MatchEnd(p, s, i + |w|, j + |w|, false).Some?
  {
    if MatchEnd(p, s, i, j, false).Some? {
      MatchStartsWithLit(p, w, s, i, j);
    }
    if OccursAt(s, w, i) {
      forall u | 0 <= u < |w| ensures s[i + u - 0] == w[u] {
        assert s[i..i + |w|][u] == w[u];
      }
      MatchThroughLit(p, w, s, i, j, 0);
    }
  }

  /** `p` matches at position `i` of `s`. */
  predicate MatchesAt(p: Pattern, s: string, i: nat)
    requires i <= |s|
  {
    MatchEnd(p, s, i, 0, false).Some?
  }

  /** Some match of `p` starts at a position `k >= i`. */
  predicate SearchFrom(p: Pattern, s: string, i: nat)
    decreases |s| - i
  {
    i <= |s| && (MatchesAt(p, s, i) || SearchFrom(p, s, i + 1))
  }

  /** `RegExp.prototype.test` for an unanchored pattern without the `g` flag. */
  predicate Test(p: Pattern, s: string) {
    SearchFrom(p, s, 0)
  }

  /** `RegExp.prototype.test` for a pattern anchored with `^`. */
  predicate TestAnchored(p: Pattern, s: string) {
    MatchesAt(p, s, 0)
  }

  /** The search finds a match exactly when a match starts at some position. */
  lemma {:induction false} SearchFromIff(p: Pattern, s: string, i: nat)
    ensures SearchFrom(p, s, i) <==> exists k :: i <= k <= |s| && MatchesAt(p, s, k)
    decreases |s| - i
  {
    if i <= |s| {
      SearchFromIff(p, s, i + 1);
      if SearchFrom(p, s, i + 1) {
        var k :| i + 1 <= k <= |s| && MatchesAt(p, s, k);
        assert i <= k <= |s| && MatchesAt(p, s, k);
      }
      if exists k :: i <= k <= |s| && MatchesAt(p, s, k) {
        var k :| i <= k <= |s| && MatchesAt(p, s, k);
        assert k == i || (i + 1 <= k <= |s| && MatchesAt(p, s, k));
      }
    }
  }

  /**
   * `s.replace(p, '')` for a pattern with the `g` flag, scanning from `i`:
   * every match found left to right is deleted, the text between matches is
   * kept, and the deleted text is never searched again.
   */
  function RemoveAll(p: Pattern, s: string, i: nat): (r: string)
    requires i <= |s|
    ensures |r| <= |s| - i
    ensures forall c :: c in r ==> c in s[i..]
    decreases |s| - i
  {
    if i == |s| then []
    else
      var m := MatchEnd(p, s, i, 0, false);
      if m.Some? && m.value > i then
        var r := RemoveAll(p, s, m.value);
        assert forall c :: c in s[m.value..] ==> c in s[i..] by {
          forall c | c in s[m.value..] ensures c in s[i..] {
            var k :| 0 <= k < |s| - m.value && s[m.value..][k] == c;
            assert s[i..][k + m.value - i] == c;
          }
        }
        r
      else
        var r := RemoveAll(p, s, i + 1);
        assert s[i..] == [s[i]] + s[i + 1..];
        [s[i]] + r
  }

  /** When no match starts at or after `i`, deleting all matches keeps the text unchanged. */
  lemma {:induction false} RemoveAllNoMatch(p: Pattern, s: string, i: nat)
    requires i <= |s| && !SearchFrom(p, s, i)
    ensures RemoveAll(p, s, i) == s[i..]
    decreases |s| - i
  {
    if i < |s| {
      RemoveAllNoMatch(p, s, i + 1);
      assert s[i..] == [s[i]] + s[i + 1..];
    }
  }

  /** A match that reached atom `t` through atoms matched once each put atom `t` on the character `t - j` places on. */
  lemma {:induction false} OnceNeeds(p: Pattern, s: string, i: nat, j: nat, t: nat)
    requires i <= |s| && j <= t < |p|
    requires forall u :: j <= u <= t ==> p[u].q == Once
    requires MatchEnd(p, s, i, j, false).Some?
    ensures i + (t - j) < |s| && InClass(p[t].cls, s[i + (t - j)])
    decreases t - j
  {
    if j < t {
      OnceNeeds(p, s, i + 1, j + 1, t);
    }
  }

  /** A case-blind word matches where its letters occur in either case, and the match ends after them. */
  lemma {:induction false} FoldMatch(w: string, s: string, i: nat, j: nat)
    requires j <= |w| && i + (|w| - j) <= |s|
    requires forall u :: j <= u < |w| ==> LowerChar(s[i + (u - j)]) == w[u]
    ensures MatchEnd(LitFold(w), s, i, j, false) == Some(i + (|w| - j))
    decreases |w| - j
  {
    if j < |w| {
      FoldMatch(w, s, i + 1, j + 1);
    }
  }

  /** Letter `u` of a case-blind word whose match runs on from atom `j` at `i` is at `i + (u - j)`. */
  lemma {:induction false} FoldCharAt(w: string, s: string, i: nat, j: nat, u: nat)
    requires j <= u < |w| && i <= |s| && MatchEnd(LitFold(w), s, i, j, false).Some?
    ensures i + (u - j) < |s| && LowerChar(s[i + (u - j)]) == w[u]
    decreases u - j
  {
    if j < u {
      FoldCharAt(w, s, i + 1, j + 1, u);
    }
  }

  /**
   * A case-blind word found at `x` is the only match when no other place
   * holds its first letter with its letter `b` the right distance on.
   */
  lemma FoldOnlyAt(w: string, s: string, x: nat, b: nat)
    requires 0 < b < |w| && x + |w| <= |s| && forall u :: 0 <= u < |w| ==> LowerChar(s[x + u]) == w[u]
    requires forall k :: 0 <= k < |s| && k != x && LowerChar(s[k]) == w[0] && k + b < |s| ==> LowerChar(s[k + b]) != w[b]
    ensures MatchEnd(LitFold(w), s, x, 0, false) == Some(x + |w|)
    ensures forall k :: 0 <= k <= |s| && k != x ==> !MatchesAt(LitFold(w), s, k)
  {
    FoldMatch(w, s, x, 0);
    forall k | 0 <= k <= |s| && k != x ensures !MatchesAt(LitFold(w), s, k) {
      if MatchesAt(LitFold(w), s, k) {
        FoldCharAt(w, s, k, 0, 0);
        FoldCharAt(w, s, k, 0, b);
      }
    }
  }

  /** Deleting the matches of a pattern that starts with a single atom shortens any text the pattern matches. */
  lemma {:induction false} RemoveAllShrinks(p: Pattern, s: string, i: nat)
    requires |p| > 0 && p[0].q == Once && i <= |s| && SearchFrom(p, s, i)
    ensures |RemoveAll(p, s, i)| < |s| - i
    decreases |s| - i
  {
    if MatchEnd(p, s, i, 0, false).None? {
      RemoveAllShrinks(p, s, i + 1);
    }
  }

  /** Positions where no match starts are kept as they are. */
  lemma {:induction false} RemoveAllSkip(p: Pattern, s: string, i: nat, x: nat)
    requires i <= x <= |s| && forall k :: i <= k < x ==> !MatchesAt(p, s, k)
    ensures RemoveAll(p, s, i) == s[i..x] + RemoveAll(p, s, x)
    decreases x - i
  {
    if i < x {
      RemoveAllSkip(p, s, i + 1, x);
      assert !MatchesAt(p, s, i);
      assert RemoveAll(p, s, i) == [s[i]] + RemoveAll(p, s, i + 1);
      assert s[i..x] == [s[i]] + s[i + 1..x];
      assert [s[i]] + (s[i + 1..x] + RemoveAll(p, s, x)) == ([s[i]] + s[i + 1..x]) + RemoveAll(p, s, x);
    }
  }

  /** A pattern that matches at `x` alone, up to `y`, loses just that stretch. */
  lemma RemoveOnly(p: Pattern, s: string, x: nat, y: nat)
    requires x < y <= |s| && MatchEnd(p, s, x, 0, false) == Some(y)
    requires forall k :: 0 <= k <= |s| && k != x ==> !MatchesAt(p, s, k)
    ensures RemoveAll(p, s, 0) == s[..x] + s[y..]
  {
    RemoveAllSkip(p, s, 0, x);
    SearchFromIff(p, s, y);
    RemoveAllNoMatch(p, s, y);
    assert s[0..x] == s[..x];
  }
}
