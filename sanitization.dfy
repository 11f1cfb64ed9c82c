/**
 * The frontend's sanitisation service (sanitization.service.ts): HTML
 * escaping, the clean-up of user input that looks like markup or script,
 * the escaping of command output that keeps ANSI colour sequences, and the
 * command-injection check.
 */
module Sanitization {
  import opened Wrappers
  import opened JsText
  import opened Regex

  // ---------------------------------------------------------------------
  // escapeHtml
  // ---------------------------------------------------------------------

  /** The five characters `htmlEntities` has an entry for. */
  predicate Special(c: char) {
    c == '&' || c == '<' || c == '>' || c == '"' || c == '\''
  }

  /** The characters the entities are written with. */
  const EntityChars: set<char> := {'&', ';', '#', 'a', 'm', 'p', 'l', 't', 'g', 'q', 'u', 'o', 'x', '2', '7'}

  /** `htmlEntities[c] || c`. */
  function Entity(c: char): (r: string)
    ensures Special(c) ==> |r| > 1 && r[0] == '&' && forall k :: 0 <= k < |r| ==> r[k] in EntityChars
    ensures !Special(c) ==> r == [c]
  {
    if c == '&' then "&amp;"
    else if c == '<' then "&lt;"
    else if c == '>' then "&gt;"
    else if c == '"' then "&quot;"
    else if c == '\'' then "&#x27;"
    else [c]
  }

  /**
   * `escapeHtml`: every special character becomes its entity, every other
   * character stays. The result has no `<`, `>`, `"` or `'`, and no `&`
   * that does not start an entity.
   */
  function EscapeHtml(s: string): (r: string)
    ensures |s| <= |r|
    ensures forall k :: 0 <= k < |r| ==> r[k] == '&' || !Special(r[k])
  {
    if s == [] then [] else Entity(s[0]) + EscapeHtml(s[1..])
  }

  lemma {:induction false} EscapeConcat(a: string, b: string)
    ensures EscapeHtml(a + b) == EscapeHtml(a) + EscapeHtml(b)
  {
    if a != [] {
      var c, rest := a[0], a[1..];
      assert a == [c] + rest && a + b == [c] + (rest + b);
      EscapeConcat(rest, b);
      EscapeCons(c, rest);
      EscapeCons(c, rest + b);
      Regroup(EscapeHtml(a + b), Entity(c), EscapeHtml(rest + b), EscapeHtml(rest), EscapeHtml(b), EscapeHtml(a));
    } else {
      assert a + b == b;
    }
  }

  lemma EscapeCons(c: char, rest: string)
    ensures EscapeHtml([c] + rest) == Entity(c) + EscapeHtml(rest)
  {
    assert ([c] + rest)[0] == c && ([c] + rest)[1..] == rest;
  }

  /** Text without special characters is left as it is. */
  lemma {:induction false} EscapePlain(s: string)
    requires forall k :: 0 <= k < |s| ==> !Special(s[k])
    ensures EscapeHtml(s) == s
  {
    if s != [] {
      EscapePlain(s[1..]);
      assert [s[0]] + s[1..] == s;
    }
  }

  predicate StartsWith(s: string, w: string) {
    |w| <= |s| && s[..|w|] == w
  }

  /** Reads the five entities back as the characters they stand for. */
  function Unescape(s: string): string
    decreases |s|
  {
    if s == [] then []
    else if StartsWith(s, "&amp;") then "&" + Unescape(s[5..])
    else if StartsWith(s, "&lt;") then "<" + Unescape(s[4..])
    else if StartsWith(s, "&gt;") then ">" + Unescape(s[4..])
    else if StartsWith(s, "&quot;") then "\"" + Unescape(s[6..])
    else if StartsWith(s, "&#x27;") then "'" + Unescape(s[6..])
    else [s[0]] + Unescape(s[1..])
  }

  /** A text that differs from `w` at position `k` does not start with `w`. */
  lemma NotStartsWith(s: string, w: string, k: nat)
    requires k < |w| && (k < |s| ==> s[k] != w[k])
    ensures !StartsWith(s, w)
  {
  }

  lemma UnescapeEntity(c: char, t: string)
    ensures Unescape(Entity(c) + t) == [c] + Unescape(t)
  {
    var s := Entity(c) + t;
    var e := Entity(c);
    assert s[..|e|] == e && s[|e|..] == t;
    if c == '&' {
    } else if c == '<' {
      NotStartsWith(s, "&amp;", 1);
    } else if c == '>' {
      NotStartsWith(s, "&amp;", 1);
      NotStartsWith(s, "&lt;", 1);
    } else if c == '"' {
      NotStartsWith(s, "&amp;", 1);
      NotStartsWith(s, "&lt;", 1);
      NotStartsWith(s, "&gt;", 1);
    } else if c == '\'' {
      NotStartsWith(s, "&amp;", 1);
      NotStartsWith(s, "&lt;", 1);
      NotStartsWith(s, "&gt;", 1);
      NotStartsWith(s, "&quot;", 1);
    } else {
      NotStartsWith(s, "&amp;", 0);
      NotStartsWith(s, "&lt;", 0);
      NotStartsWith(s, "&gt;", 0);
      NotStartsWith(s, "&quot;", 0);
      NotStartsWith(s, "&#x27;", 0);
    }
  }

  /** Escaping loses nothing: reading the entities back gives the text. */
  lemma {:induction false} UnescapeEscape(s: string)
    ensures Unescape(EscapeHtml(s)) == s
  {
    if s != [] {
      UnescapeEntity(s[0], EscapeHtml(s[1..]));
      UnescapeEscape(s[1..]);
      assert [s[0]] + s[1..] == s;
    }
  }

  /** The five special characters in a row become the five entities. */
  lemma EscapeExample()
    ensures EscapeHtml("<>&\"'") == "&lt;" + "&gt;" + "&amp;" + "&quot;" + "&#x27;"
  {
  }

  // ---------------------------------------------------------------------
  // sanitizeInput
  // ---------------------------------------------------------------------

  /** `/<[^>]*>/`: a tag. */
  const TagPattern: Pattern := [Atom(Char('<'), Once), Atom(NotChar('>'), Star), Atom(Char('>'), Once)]
  /** `/on\w+\s*=/i`: an event handler attribute. */
  const HandlerPattern: Pattern :=
    [Atom(Fold('o'), Once), Atom(Fold('n'), Once), Atom(Word, Plus), Atom(Space, Star), Atom(Char('='), Once)]
  /** `/javascript:/i`. */
  const ScriptPattern: Pattern := LitFold("javascript:")
  /** `/data:text\/html/i`. */
  const DataPattern: Pattern := LitFold("data:text/html")

  /** Entry `k` of `dangerousPatterns`, in the order they are removed. */
  function DangerousPattern(k: nat): Pattern
    requires k < 4
  {
    match k
    case 0 => TagPattern
    case 1 => HandlerPattern
    case 2 => ScriptPattern
    case 3 => DataPattern
  }

  /** The test that decides whether input is cleaned at all; it does not look for `data:`. */
  predicate HasHtmlOrScript(s: string) {
    Test(TagPattern, s) || Test(HandlerPattern, s) || Test(ScriptPattern, s)
  }

  /** Removes every match of each dangerous pattern from `k` on, one pattern after the other. */
  function StripFrom(s: string, k: nat): (r: string)
    requires k <= 4
    ensures |r| <= |s| && forall c :: c in r ==> c in s
    decreases 4 - k
  {
    if k == 4 then s
    else
      assert s[0..] == s;
      StripFrom(RemoveAll(DangerousPattern(k), s, 0), k + 1)
  }

  /**
   * What `sanitizeInput` returns: nothing for a missing or empty input;
   * the input itself when it shows no markup or script; otherwise the
   * escaped input with the dangerous patterns removed, which has no `<`,
   * `>`, `"` or `'` left.
   */
  function SafeInput(input: Option<string>): (r: string)
    ensures input.None? || input.value == "" ==> r == ""
    ensures input.Some? && !HasHtmlOrScript(input.value) ==> r == input.value
    ensures input.Some? && HasHtmlOrScript(input.value) ==> forall c :: c in r ==> c == '&' || !Special(c)
  {
    if input.None? || input.value == "" then ""
    else if HasHtmlOrScript(input.value) then StripFrom(EscapeHtml(input.value), 0)
    else input.value
  }

  /**
   * `sanitizeInput`: the input is escaped, then the patterns are removed
   * from it one by one. Where that one pass leaves no pattern, the result
   * is the intended one, and the attacks of the tests come out without
   * the words the tests look for.
   */
  method SanitizeInput(input: Option<string>) returns (sanitized: string)
    ensures sanitized == SafeInput(input)
    ensures input.Some? && !Dangerous(StripFrom(EscapeHtml(input.value), 0)) ==> sanitized == CleanInput(input)
    ensures input.Some? && (TagTestInput(input.value) || HandlerTestInput(input.value)) ==> ShowsNoAttack(sanitized)
  {
    if input.None? || input.value == "" {
      return "";
    }
    sanitized := input.value;
    var hasHtmlOrScript := HasHtmlOrScript(sanitized);
    if hasHtmlOrScript {
      sanitized := EscapeHtml(sanitized);
      sanitized := RemoveDangerous(sanitized);
    }
    assert sanitized == SafeInput(input);
    IntendedWhereClean(input.value);
    AttacksCleaned(input.value);
  }

  /** Where one pass leaves no pattern, `sanitizeInput` gives the intended result. */
  lemma IntendedWhereClean(s: string)
    ensures !Dangerous(StripFrom(EscapeHtml(s), 0)) ==> SafeInput(Some(s)) == CleanInput(Some(s))
  {
    if !Dangerous(StripFrom(EscapeHtml(s), 0)) {
      OnePassEnough(EscapeHtml(s));
    }
  }

  /** The attacks of both tests come out of `sanitizeInput` without the words the tests look for. */
  lemma AttacksCleaned(s: string)
    ensures TagTestInput(s) || HandlerTestInput(s) ==> ShowsNoAttack(SafeInput(Some(s)))
  {
    if TagTestInput(s) {
      TagAttacksCleaned(s);
    } else if HandlerTestInput(s) {
      HandlerAttacksCleaned(s);
    }
  }

  /** The `forEach` of `sanitizeInput`: each pattern's matches are removed in turn. */
  method RemoveDangerous(text: string) returns (sanitized: string)
    ensures sanitized == StripFrom(text, 0)
  {
    sanitized := text;
    var k := 0;
    while k < 4
      invariant k <= 4
      invariant StripFrom(sanitized, k) == StripFrom(text, 0)
    {
      sanitized := RemoveAll(DangerousPattern(k), sanitized, 0);
      k := k + 1;
    }
  }

  /**
   * Atom `t` of a pattern, when it must match at least once, needs a
   * character of its class somewhere in the text the match covers.
   */
  lemma {:induction false} MandatoryAtom(p: Pattern, s: string, i: nat, j: nat, again: bool, t: nat)
    requires i <= |s| && j <= t < |p| && p[t].q != Star && (again ==> j < t)
    requires MatchEnd(p, s, i, j, again).Some?
    ensures exists k :: i <= k < |s| && InClass(p[t].cls, s[k])
    decreases |s| - i, |p| - j, if again then 0 else 1
  {
    var a := p[j];
    var q := if again then Star else a.q;
    var here := i < |s| && InClass(a.cls, s[i]);
    if j == t {
      assert here;
    } else {
      match q
      case Once => MandatoryAtom(p, s, i + 1, j + 1, false, t);
      case Plus => MandatoryAtom(p, s, i + 1, j, true, t);
      case Star =>
        var longer := if here then MatchEnd(p, s, i + 1, j, true) else None;
        if longer.Some? {
          MandatoryAtom(p, s, i + 1, j, true, t);
        } else {
          MandatoryAtom(p, s, i, j + 1, false, t);
        }
    }
  }

  /** A text with no character for some mandatory atom has no match, and removing matches keeps it. */
  lemma NoMatchWithout(p: Pattern, s: string, t: nat)
    requires t < |p| && p[t].q != Star
    requires forall k :: 0 <= k < |s| ==> !InClass(p[t].cls, s[k])
    ensures !Test(p, s) && RemoveAll(p, s, 0) == s
  {
    SearchFromIff(p, s, 0);
    if Test(p, s) {
      var k :| 0 <= k <= |s| && MatchesAt(p, s, k);
      MandatoryAtom(p, s, k, 0, false, t);
    }
    RemoveAllNoMatch(p, s, 0);
    assert s[0..] == s;
  }

  /**
   * Input without `>`, without `javascript:`'s first letter and without
   * one of the first two letters of `on` is returned unchanged, lone `<`
   * and `&` included.
   */
  lemma UntouchedInput(s: string)
    requires s != "" && '>' !in s
    requires (forall k :: 0 <= k < |s| ==> LowerChar(s[k]) != 'o') || (forall k :: 0 <= k < |s| ==> LowerChar(s[k]) != 'n')
    requires forall k :: 0 <= k < |s| ==> LowerChar(s[k]) != 'j'
    ensures SafeInput(Some(s)) == s
  {
    NoMatchWithout(TagPattern, s, 2);
    if forall k :: 0 <= k < |s| ==> LowerChar(s[k]) != 'o' {
      NoMatchWithout(HandlerPattern, s, 0);
    } else {
      NoMatchWithout(HandlerPattern, s, 1);
    }
    NoMatchWithout(ScriptPattern, s, 0);
  }

  /** The ordinary commands of the service's tests come back unchanged. */
  lemma NormalInputsUntouched(s: string)
    requires s in ["ls -la", "git status", "npm install"]
    ensures SafeInput(Some(s)) == s
  {
    UntouchedInput(s);
  }

  /** So does its quoted text. */
  lemma QuotedInputUntouched(s: string)
    requires s == "echo \"Hello World\""
    ensures SafeInput(Some(s)) == s
  {
    UntouchedInput(s);
  }

  /** So does its path. */
  lemma PathInputUntouched(s: string)
    requires s == "cd /home/user"
    ensures SafeInput(Some(s)) == s
  {
    UntouchedInput(s);
  }

  /** So does its text with a lone `<` and `&`. */
  lemma SymbolsInputUntouched(s: string)
    requires s == "a < b && c"
    ensures SafeInput(Some(s)) == s
  {
    UntouchedInput(s);
  }

  /** `<>` is a tag. */
  lemma TagFound(s: string)
    requires s == "<>&\"'"
    ensures HasHtmlOrScript(s)
  {
    assert MatchEnd(TagPattern, s, 2, 3, false) == Some(2);
    assert MatchEnd(TagPattern, s, 1, 2, false) == Some(2);
    assert MatchEnd(TagPattern, s, 1, 1, false) == Some(2);
    assert MatchesAt(TagPattern, s, 0);
  }

  /** Text made only of the characters entities are spelt with. */
  predicate EntityText(e: string) {
    forall k :: 0 <= k < |e| ==> e[k] in EntityChars
  }

  /** Escaping text made only of special characters gives text made only of entity characters. */
  lemma {:induction false} EscapedSpecials(s: string)
    requires forall k :: 0 <= k < |s| ==> Special(s[k])
    ensures EntityText(EscapeHtml(s))
  {
    if s != [] {
      EscapedSpecials(s[1..]);
      var e, r := Entity(s[0]), EscapeHtml(s[1..]);
      assert forall k :: 0 <= k < |e + r| ==> (e + r)[k] == if k < |e| then e[k] else r[k - |e|];
    }
  }

  /** A case-blind word whose first letter the text lacks is never removed from it. */
  lemma LitFoldKept(w: string, s: string)
    requires w != [] && forall k :: 0 <= k < |s| ==> LowerChar(s[k]) != w[0]
    ensures RemoveAll(LitFold(w), s, 0) == s
  {
    NoMatchWithout(LitFold(w), s, 0);
  }

  lemma EntityCharFacts(c: char)
    requires c in EntityChars
    ensures !('A' <= c <= 'Z') && c != '<' && c != 'n' && c != 'j' && c != 'd' && c != ':'
  {
  }

  /** Text that no dangerous pattern changes comes through all of them unchanged. */
  lemma {:induction false} StripKeeps(e: string, k: nat)
    requires k <= 4
    requires forall j :: k <= j < 4 ==> RemoveAll(DangerousPattern(j), e, 0) == e
    ensures StripFrom(e, k) == e
    decreases 4 - k
  {
    if k < 4 {
      StripKeeps(e, k + 1);
    }
  }

  /** Lowercase text without `<`, `n`, `j` or `d`: each dangerous pattern needs one of them. */
  predicate Inert(e: string) {
    forall i :: 0 <= i < |e| ==> LowerChar(e[i]) == e[i] && e[i] != '<' && e[i] != 'n' && e[i] != 'j' && e[i] != 'd'
  }

  /** Inert text is unchanged by each dangerous pattern. */
  lemma UnchangedBy(e: string, k: nat)
    requires k < 4 && Inert(e)
    ensures RemoveAll(DangerousPattern(k), e, 0) == e
  {
    if k == 0 {
      FoldKept(TagPattern, 0, '<', e);
    } else if k == 1 {
      FoldKept(HandlerPattern, 1, 'n', e);
    } else if k == 2 {
      FoldKept(ScriptPattern, 0, 'j', e);
    } else {
      FoldKept(DataPattern, 0, 'd', e);
    }
  }

  /** A pattern with a mandatory atom matching `c` in either case leaves text without that letter alone. */
  lemma FoldKept(p: Pattern, t: nat, c: char, e: string)
    requires t < |p| && p[t].q != Star && (p[t].cls == Fold(c) || p[t].cls == Char(c))
    requires forall i :: 0 <= i < |e| ==> LowerChar(e[i]) == e[i] && e[i] != c
    ensures RemoveAll(p, e, 0) == e
  {
    NoMatchWithout(p, e, t);
  }

  /** No dangerous pattern occurs in text made only of entity characters. */
  lemma EntityCharsKept(e: string)
    requires EntityText(e)
    ensures StripFrom(e, 0) == e
  {
    forall k | 0 <= k < |e| ensures LowerChar(e[k]) == e[k] && e[k] != '<' && e[k] != 'n' && e[k] != 'j' && e[k] != 'd' {
      EntityCharFacts(e[k]);
    }
    assert Inert(e);
    forall j | 0 <= j < 4 ensures RemoveAll(DangerousPattern(j), e, 0) == e {
      UnchangedBy(e, j);
    }
    StripKeeps(e, 0);
  }

  /** The five special characters alone form a tag, so they are escaped, and nothing else is removed. */
  lemma EntitiesExample()
    ensures SafeInput(Some("<>&\"'")) == "&lt;" + "&gt;" + "&amp;" + "&quot;" + "&#x27;"
  {
    var s := "<>&\"'";
    TagFound(s);
    EscapedSpecials(s);
    EntityCharsKept(EscapeHtml(s));
    EscapeExample();
  }

  // ---------------------------------------------------------------------
  // Removal until no pattern is left
  // ---------------------------------------------------------------------

  /** Some dangerous pattern tests true on the text. */
  predicate Dangerous(s: string) {
    Test(TagPattern, s) || Test(HandlerPattern, s) || Test(ScriptPattern, s) || Test(DataPattern, s)
  }

  /** One pass over the patterns from `k` on shortens text that pattern `j` matches. */
  lemma {:induction false} StripShrinks(s: string, k: nat, j: nat)
    requires k <= j < 4 && Test(DangerousPattern(j), s)
    ensures |StripFrom(s, k)| < |s|
    decreases 4 - k
  {
    var p := DangerousPattern(k);
    StripStep(s, k);
    if k == j || Test(p, s) {
      StartsOnce(k);
      RemoveAllShrinks(p, s, 0);
    } else {
      RemoveAllNoMatch(p, s, 0);
      StripShrinks(s, k + 1, j);
    }
  }

  /** A pass from `k` removes pattern `k` first. */
  lemma StripStep(s: string, k: nat)
    requires k < 4
    ensures StripFrom(s, k) == StripFrom(RemoveAll(DangerousPattern(k), s, 0), k + 1)
  {
    assert s[0..] == s;
  }

  /** The four removals one after the other. */
  lemma StripChain(s: string, a: string, b: string, c: string, d: string)
    requires RemoveAll(TagPattern, s, 0) == a && RemoveAll(HandlerPattern, a, 0) == b
    requires RemoveAll(ScriptPattern, b, 0) == c && RemoveAll(DataPattern, c, 0) == d
    ensures StripFrom(s, 0) == d
  {
    StripStep(s, 0);
    StripStep(a, 1);
    StripStep(b, 2);
    StripStep(c, 3);
  }

  /** Every dangerous pattern starts with an atom matched once. */
  lemma StartsOnce(k: nat)
    requires k < 4
    ensures |DangerousPattern(k)| > 0 && DangerousPattern(k)[0].q == Once
  {
    if k == 0 {
      assert DangerousPattern(k) == TagPattern;
    } else if k == 1 {
      assert DangerousPattern(k) == HandlerPattern;
    } else if k == 2 {
      assert DangerousPattern(k) == ScriptPattern;
      assert ScriptPattern[0].q == Once;
    } else {
      assert DangerousPattern(k) == DataPattern;
      assert DataPattern[0].q == Once;
    }
  }

  /** A pass over text that some pattern matches shortens it. */
  lemma PassShrinks(s: string)
    requires Dangerous(s)
    ensures |StripFrom(s, 0)| < |s|
  {
    var j := if Test(TagPattern, s) then 0 else if Test(HandlerPattern, s) then 1 else if Test(ScriptPattern, s) then 2 else 3;
    StripShrinks(s, 0, j);
  }

  /**
   * What the removal loop is meant to achieve: the pass over the patterns
   * is repeated until none of them tests true. Each pass removes at least
   * one character, so the repetition ends.
   */
  function Scrub(s: string): (r: string)
    ensures !Dangerous(r)
    ensures |r| <= |s| && forall c :: c in r ==> c in s
    decreases |s|
  {
    if !Dangerous(s) then s
    else
      PassShrinks(s);
      Scrub(StripFrom(s, 0))
  }

  /** A pass leaves text that no pattern matches as it is. */
  lemma CleanKept(s: string)
    requires !Dangerous(s)
    ensures StripFrom(s, 0) == s
  {
    RemoveAllNoMatch(TagPattern, s, 0);
    RemoveAllNoMatch(HandlerPattern, s, 0);
    RemoveAllNoMatch(ScriptPattern, s, 0);
    RemoveAllNoMatch(DataPattern, s, 0);
    assert s[0..] == s;
    StripStep(s, 0);
    StripStep(s, 1);
    StripStep(s, 2);
    StripStep(s, 3);
  }

  /** When one pass leaves no pattern, the repetition stops after it. */
  lemma OnePassEnough(s: string)
    requires !Dangerous(StripFrom(s, 0))
    ensures Scrub(s) == StripFrom(s, 0)
  {
    if !Dangerous(s) {
      CleanKept(s);
    }
  }

  /**
   * What `sanitizeInput` is meant to return: as `SafeInput`, except that
   * cleaned input keeps losing the dangerous patterns until none tests
   * true on it.
   */
  function CleanInput(input: Option<string>): (r: string)
    ensures input.None? || input.value == "" ==> r == ""
    ensures input.Some? && !HasHtmlOrScript(input.value) ==> r == input.value
    ensures input.Some? && HasHtmlOrScript(input.value) ==> !Dangerous(r) && forall c :: c in r ==> c == '&' || !Special(c)
  {
    if input.None? || input.value == "" then
      EmptyClean();
      ""
    else if HasHtmlOrScript(input.value) then
      var e := EscapeHtml(input.value);
      var r := Scrub(e);
      assert forall c :: c in r ==> c in e;
      r
    else input.value
  }

  /** No pattern matches empty text. */
  lemma EmptyClean()
    ensures !Dangerous("")
  {
    NoMatchWithout(TagPattern, "", 0);
    NoMatchWithout(HandlerPattern, "", 0);
    NoMatchWithout(ScriptPattern, "", 0);
    NoMatchWithout(DataPattern, "", 0);
  }

  /** No character of the text lower-cases to `c`. */
  predicate Lacks(s: string, c: char) {
    forall k :: 0 <= k < |s| ==> LowerChar(s[k]) != c
  }

  lemma LacksConcat(a: string, b: string, c: char)
    requires Lacks(a, c) && Lacks(b, c)
    ensures Lacks(a + b, c)
  {
    assert forall k :: 0 <= k < |a + b| ==> (a + b)[k] == if k < |a| then a[k] else b[k - |a|];
  }

  lemma NoFront(m: string)
    ensures "" + m == m
  {
  }

  /** The parts on either side of a middle piece. */
  lemma OuterParts(a: string, m: string, b: string)
    ensures (a + m + b)[..|a|] == a && (a + m + b)[|a| + |m|..] == b
  {
  }

  /** Text without `<` has no tag. */
  lemma TagKept(s: string)
    requires Lacks(s, '<')
    ensures !Test(TagPattern, s) && RemoveAll(TagPattern, s, 0) == s
  {
    NoMatchWithout(TagPattern, s, 0);
  }

  /** Text without an `o`, or without an `n`, in either case has no event handler. */
  lemma HandlerKept(s: string)
    requires Lacks(s, 'o') || Lacks(s, 'n')
    ensures !Test(HandlerPattern, s) && RemoveAll(HandlerPattern, s, 0) == s
  {
    if Lacks(s, 'o') {
      NoMatchWithout(HandlerPattern, s, 0);
    } else {
      NoMatchWithout(HandlerPattern, s, 1);
    }
  }

  /** Text without a `j` in either case has no `javascript:`. */
  lemma ScriptKept(s: string)
    requires Lacks(s, 'j')
    ensures !Test(ScriptPattern, s) && RemoveAll(ScriptPattern, s, 0) == s
  {
    NoMatchWithout(ScriptPattern, s, 0);
  }

  /** Text without a `d` in either case, or without a `:`, has no `data:text/html`. */
  lemma DataKept(s: string)
    requires Lacks(s, 'd') || Lacks(s, ':')
    ensures !Test(DataPattern, s) && RemoveAll(DataPattern, s, 0) == s
  {
    assert DataPattern[0] == Atom(Fold('d'), Once) && DataPattern[4] == Atom(Fold(':'), Once);
    if Lacks(s, 'd') {
      NoMatchWithout(DataPattern, s, 0);
    } else {
      NoMatchWithout(DataPattern, s, 4);
    }
  }

  /** From atom 1 on, the tag pattern runs over anything but `>` up to the first `>`. */
  lemma {:induction false} TagTail(s: string, i: nat, e: nat, again: bool)
    requires i <= e < |s| && s[e] == '>' && forall k :: i <= k < e ==> s[k] != '>'
    ensures MatchEnd(TagPattern, s, i, 1, again) == Some(e + 1)
    decreases e - i
  {
    assert TagPattern[1] == Atom(NotChar('>'), Star) && TagPattern[2] == Atom(Char('>'), Once);
    if i < e {
      TagTail(s, i + 1, e, true);
    } else {
      assert MatchEnd(TagPattern, s, e + 1, 3, false) == Some(e + 1);
      assert MatchEnd(TagPattern, s, e, 2, false) == Some(e + 1);
    }
  }

  /** From atom 2 on, the handler pattern runs over word characters up to an `=`. */
  lemma {:induction false} HandlerTail(s: string, i: nat, e: nat)
    requires i <= e < |s| && s[e] == '='
    requires forall k :: i <= k < e ==> IsWordChar(s[k])
    ensures MatchEnd(HandlerPattern, s, i, 2, true) == Some(e + 1)
    decreases e - i
  {
    assert HandlerPattern[2] == Atom(Word, Plus) && HandlerPattern[3] == Atom(Space, Star) && HandlerPattern[4] == Atom(Char('='), Once);
    if i < e {
      HandlerTail(s, i + 1, e);
    } else {
      assert MatchEnd(HandlerPattern, s, e + 1, 5, false) == Some(e + 1);
      assert MatchEnd(HandlerPattern, s, e, 4, false) == Some(e + 1);
      assert MatchEnd(HandlerPattern, s, e, 3, false) == Some(e + 1);
    }
  }

  /** `on` in either case, word characters and `=` match the handler pattern. */
  lemma HandlerMatch(s: string, x: nat, e: nat)
    requires x + 2 < e < |s| && LowerChar(s[x]) == 'o' && LowerChar(s[x + 1]) == 'n' && s[e] == '='
    requires forall k :: x + 2 <= k < e ==> IsWordChar(s[k])
    ensures MatchEnd(HandlerPattern, s, x, 0, false) == Some(e + 1)
  {
    HandlerTail(s, x + 3, e);
    assert MatchEnd(HandlerPattern, s, x + 2, 2, false) == Some(e + 1);
    assert MatchEnd(HandlerPattern, s, x + 1, 1, false) == Some(e + 1);
  }

  /** A handler from `x` to `e` is the only one when no other character is an `n`. */
  lemma HandlerOnlyAt(s: string, x: nat, e: nat)
    requires x + 2 < e < |s| && LowerChar(s[x]) == 'o' && s[e] == '='
    requires forall k :: x + 2 <= k < e ==> IsWordChar(s[k])
    requires forall k :: 0 <= k < |s| ==> (LowerChar(s[k]) == 'n' <==> k == x + 1)
    ensures MatchEnd(HandlerPattern, s, x, 0, false) == Some(e + 1)
    ensures forall k :: 0 <= k <= |s| && k != x ==> !MatchesAt(HandlerPattern, s, k)
  {
    HandlerMatch(s, x, e);
    forall k | 0 <= k <= |s| && k != x ensures !MatchesAt(HandlerPattern, s, k) {
      if MatchesAt(HandlerPattern, s, k) {
        OnceNeeds(HandlerPattern, s, k, 0, 1);
      }
    }
  }

  /**
   * `javascript:` at `x` is the only match when every other `j` is
   * followed four places on by something other than an `s`.
   */
  lemma ScriptOnlyAt(s: string, x: nat)
    requires x + 11 <= |s| && forall u :: 0 <= u < 11 ==> LowerChar(s[x + u]) == "javascript:"[u]
    requires forall k :: 0 <= k < |s| && k != x && LowerChar(s[k]) == 'j' && k + 4 < |s| ==> LowerChar(s[k + 4]) != 's'
    ensures MatchEnd(ScriptPattern, s, x, 0, false) == Some(x + 11)
    ensures forall k :: 0 <= k <= |s| && k != x ==> !MatchesAt(ScriptPattern, s, k)
  {
    var w := "javascript:";
    assert w[0] == 'j' && w[4] == 's' && |w| == 11;
    FoldOnlyAt(w, s, x, 4);
  }

  /** `javajavascript:script:` has no character that escaping or the first two patterns look at. */
  lemma SchemePlain(s: string)
    requires s == "java" + "javascript:" + "script:"
    ensures forall k :: 0 <= k < |s| ==> !Special(s[k])
    ensures Lacks(s, '<') && Lacks(s, 'n')
  {
  }

  /** Where the `j`s of `javajavascript:script:` stand, and what is left once its inner `javascript:` is cut out. */
  lemma SchemeLetters(s: string)
    requires s == "java" + "javascript:" + "script:"
    ensures 15 <= |s| && forall u :: 0 <= u < 11 ==> LowerChar(s[4 + u]) == "javascript:"[u]
    ensures forall k :: 0 <= k < |s| && k != 4 && LowerChar(s[k]) == 'j' && k + 4 < |s| ==> LowerChar(s[k + 4]) != 's'
    ensures s[..4] + s[15..] == "javascript:"
  {
  }

  /** The characters of `javascript:`. */
  lemma SchemeWord(r: string)
    requires r == "javascript:"
    ensures 11 <= |r| && forall u :: 0 <= u < 11 ==> LowerChar(r[u]) == "javascript:"[u]
    ensures forall k :: 0 <= k < |r| && k != 0 && LowerChar(r[k]) == 'j' && k + 4 < |r| ==> LowerChar(r[k + 4]) != 's'
    ensures Lacks(r, 'd')
  {
  }

  /** The one global replace of `javascript:` at 4, the only match, leaves the text around it joined. */
  lemma ScriptCut(s: string, r: string)
    requires 15 <= |s| && forall u :: 0 <= u < 11 ==> LowerChar(s[4 + u]) == "javascript:"[u]
    requires forall k :: 0 <= k < |s| && k != 4 && LowerChar(s[k]) == 'j' && k + 4 < |s| ==> LowerChar(s[k + 4]) != 's'
    requires r == s[..4] + s[15..]
    ensures Test(ScriptPattern, s) && RemoveAll(ScriptPattern, s, 0) == r
  {
    ScriptOnlyAt(s, 4);
    SearchFromIff(ScriptPattern, s, 0);
    assert MatchesAt(ScriptPattern, s, 4);
    RemoveOnly(ScriptPattern, s, 4, 15);
  }

  /** Text that starts with `javascript:` matches it. */
  lemma ScriptFound(r: string)
    requires 11 <= |r| && forall u :: 0 <= u < 11 ==> LowerChar(r[u]) == "javascript:"[u]
    ensures Test(ScriptPattern, r)
  {
    FoldMatch("javascript:", r, 0, 0);
  }

  /**
   * Plain text with `javascript:` at 4 whose outer letters spell the word
   * again once it is cut out: the one global replace deletes the inner
   * word, and the joined text is never searched again.
   */
  lemma ScriptRejoined(s: string, r: string)
    requires s != "" && forall k :: 0 <= k < |s| ==> !Special(s[k])
    requires Lacks(s, '<') && Lacks(s, 'n')
    requires Test(ScriptPattern, s) && RemoveAll(ScriptPattern, s, 0) == r
    requires Test(ScriptPattern, r) && Lacks(r, 'd')
    ensures SafeInput(Some(s)) == r && Test(ScriptPattern, r)
  {
    PlainSafe(s);
    TagKept(s);
    HandlerKept(s);
    DataKept(r);
    StripChain(s, s, s, r, r);
  }

  /** Text with a pattern in it but nothing to escape is only stripped. */
  lemma PlainSafe(s: string)
    requires forall k :: 0 <= k < |s| ==> !Special(s[k])
    requires s != "" && HasHtmlOrScript(s)
    ensures SafeInput(Some(s)) == StripFrom(s, 0)
  {
    EscapePlain(s);
  }

  /**
   * `javascript:` inside `javascript:` comes back as `javascript:`, which
   * the intended cleaning would not return.
   */
  lemma SchemeReformed(s: string)
    requires s == "java" + "javascript:" + "script:"
    ensures SafeInput(Some(s)) == "javascript:"
    ensures Test(ScriptPattern, SafeInput(Some(s)))
    ensures SafeInput(Some(s)) != CleanInput(Some(s))
  {
    SchemePlain(s);
    SchemeLetters(s);
    var r := s[..4] + s[15..];
    SchemeWord(r);
    ScriptCut(s, r);
    ScriptFound(r);
    ScriptRejoined(s, r);
  }

  // ---------------------------------------------------------------------
  // The attacks of sanitization.service.spec.ts
  // ---------------------------------------------------------------------

  /** Text without an `n`, a `j` or a `:` in either case. */
  predicate Tame(s: string) {
    Lacks(s, 'n') && Lacks(s, 'j') && Lacks(s, ':')
  }

  /** Tame text without `<`: each dangerous pattern needs one of the four. */
  predicate Quiet(e: string) {
    Tame(e) && Lacks(e, '<')
  }

  lemma QuietConcat(a: string, b: string)
    requires Quiet(a) && Quiet(b)
    ensures Quiet(a + b)
  {
    LacksConcat(a, b, 'n');
    LacksConcat(a, b, 'j');
    LacksConcat(a, b, ':');
    LacksConcat(a, b, '<');
  }

  /** A character that is not `n`, `j` or `:` escapes to quiet text. */
  lemma EntityQuiet(c: char)
    requires LowerChar(c) != 'n' && LowerChar(c) != 'j' && LowerChar(c) != ':'
    ensures Quiet(Entity(c))
  {
    var e := Entity(c);
    if Special(c) {
      forall k | 0 <= k < |e| ensures LowerChar(e[k]) == e[k] && e[k] !in {'n', 'j', ':', '<'} {
        EntityCharFacts(e[k]);
      }
    }
  }

  /** Escaping tame text gives quiet text: the entities add no `n`, `j`, `:` or `<`. */
  lemma {:induction false} EscapeQuiet(s: string)
    requires Tame(s)
    ensures Quiet(EscapeHtml(s))
  {
    if s != [] {
      assert forall k :: 1 <= k < |s| ==> s[1..][k - 1] == s[k];
      EscapeQuiet(s[1..]);
      EntityQuiet(s[0]);
      QuietConcat(Entity(s[0]), EscapeHtml(s[1..]));
    }
  }

  /** No dangerous pattern matches quiet text, so no pass changes it. */
  lemma QuietKept(e: string)
    requires Quiet(e)
    ensures !Dangerous(e) && StripFrom(e, 0) == e
  {
    TagKept(e);
    HandlerKept(e);
    ScriptKept(e);
    DataKept(e);
    StripChain(e, e, e, e, e);
  }

  /** None of the words the tests look for occurs in the text. */
  predicate ShowsNoAttack(r: string) {
    && !Includes(r, "<script>") && !Includes(r, "<iframe") && !Includes(r, "javascript:")
    && !Includes(r, "onerror=") && !Includes(r, "onclick=") && !Includes(r, "onload=")
    && !Includes(r, "onmouseover=") && !Includes(r, "onfocus=") && !Includes(r, "onblur=")
  }

  lemma LacksNotIn(r: string, c: char)
    requires Lacks(r, c) && LowerChar(c) == c
    ensures c !in r
  {
    assert forall k :: 0 <= k < |r| ==> r[k] != c;
  }

  /** Each of the words has a `<`, an `n` or a `j`. */
  lemma NoAttackLeft(r: string)
    requires Quiet(r)
    ensures ShowsNoAttack(r)
  {
    LacksNotIn(r, '<');
    LacksNotIn(r, 'n');
    LacksNotIn(r, 'j');
    MissingLetter(r, "<script>", '<');
    MissingLetter(r, "<iframe", '<');
    MissingLetter(r, "javascript:", 'j');
    MissingLetter(r, "onerror=", 'n');
    MissingLetter(r, "onclick=", 'n');
    MissingLetter(r, "onload=", 'n');
    MissingLetter(r, "onmouseover=", 'n');
    MissingLetter(r, "onfocus=", 'n');
    MissingLetter(r, "onblur=", 'n');
  }

  /** Where one pass leaves quiet text, the input is cleaned as intended and shows no attack. */
  lemma QuietResult(s: string, r: string)
    requires s != "" && HasHtmlOrScript(s) && StripFrom(EscapeHtml(s), 0) == r && Quiet(r)
    ensures SafeInput(Some(s)) == r == CleanInput(Some(s)) && ShowsNoAttack(r)
  {
    QuietKept(r);
    IntendedWhereClean(s);
    NoAttackLeft(r);
  }

  /** `<`, text without `>`, and `>` make a tag, whatever follows. */
  lemma TagAt(inner: string, rest: string)
    requires '>' !in inner
    ensures Test(TagPattern, "<" + inner + ">" + rest)
  {
    var s, e := "<" + inner + ">" + rest, |inner| + 1;
    assert s[0] == '<' && s[e] == '>';
    assert forall k :: 1 <= k < e ==> s[k] == inner[k - 1];
    assert TagPattern[0] == Atom(Char('<'), Once);
    TagTail(s, 1, e, false);
    assert MatchesAt(TagPattern, s, 0);
  }

  /** Tame input with a tag is only escaped, by the code as written and by the intended cleaning. */
  lemma TamePassed(inner: string, rest: string)
    requires '>' !in inner && Tame("<" + inner + ">" + rest)
    ensures SafeInput(Some("<" + inner + ">" + rest)) == EscapeHtml("<" + inner + ">" + rest)
    ensures EscapeHtml("<" + inner + ">" + rest) == CleanInput(Some("<" + inner + ">" + rest))
    ensures ShowsNoAttack(SafeInput(Some("<" + inner + ">" + rest)))
  {
    var s := "<" + inner + ">" + rest;
    assert |s| == |inner| + |rest| + 2;
    TagAt(inner, rest);
    EscapeQuiet(s);
    QuietKept(EscapeHtml(s));
    QuietResult(s, EscapeHtml(s));
  }

  /** An event handler attribute: `on` in either case, word characters without an `n`, and `=`. */
  predicate HandlerWord(m: string) {
    && 4 <= |m| && LowerChar(m[0]) == 'o' && LowerChar(m[1]) == 'n' && m[|m| - 1] == '='
    && forall k :: 2 <= k < |m| - 1 ==> IsWordChar(m[k]) && LowerChar(m[k]) != 'n'
  }

  /** A handler attribute has nothing to escape, no `<`, and its only `n` second. */
  lemma HandlerWordPlain(m: string)
    requires HandlerWord(m)
    ensures forall k :: 0 <= k < |m| ==> !Special(m[k]) && LowerChar(m[k]) != '<' && (LowerChar(m[k]) == 'n' <==> k == 1)
  {
  }

  /** A handler attribute inside any text matches the handler pattern. */
  lemma HandlerInRaw(a: string, m: string, b: string)
    requires HandlerWord(m)
    ensures Test(HandlerPattern, a + m + b)
  {
    var s, x := a + m + b, |a|;
    assert forall k :: 0 <= k < |m| ==> s[x + k] == m[k];
    HandlerMatch(s, x, x + |m| - 1);
    SearchFromIff(HandlerPattern, s, 0);
    assert MatchesAt(HandlerPattern, s, x);
  }

  /** Between quiet texts a handler attribute is the only match, and its removal joins them. */
  lemma HandlerCut(ea: string, m: string, eb: string)
    requires Quiet(ea) && Quiet(eb) && HandlerWord(m)
    ensures RemoveAll(HandlerPattern, ea + m + eb, 0) == ea + eb
  {
    var e, x, y := ea + m + eb, |ea|, |ea| + |m|;
    HandlerWordPlain(m);
    forall k | 0 <= k < |e| ensures LowerChar(e[k]) == 'n' <==> k == x + 1 {
      if k < x {
        assert e[k] == ea[k];
      } else if k < y {
        assert e[k] == m[k - x];
      } else {
        assert e[k] == eb[k - y];
      }
    }
    assert forall k :: x + 2 <= k < y - 1 ==> e[k] == m[k - x];
    HandlerOnlyAt(e, x, y - 1);
    RemoveOnly(HandlerPattern, e, x, y);
    OuterParts(ea, m, eb);
  }

  /** The letters of `javascript:`: lower case, no `<` or `n`, nothing to escape, and its only `j` first. */
  lemma ScriptWordPlain(w: string)
    requires w == "javascript:"
    ensures |w| == 11 && forall u :: 0 <= u < 11 ==>
      LowerChar(w[u]) == w[u] && !Special(w[u]) && w[u] != '<' && w[u] != 'n' && (w[u] == 'j' <==> u == 0)
  {
  }

  /** `javascript:` inside any text matches the script pattern. */
  lemma ScriptInRaw(a: string, b: string)
    ensures Test(ScriptPattern, a + "javascript:" + b)
  {
    var w := "javascript:";
    var s, x := a + w + b, |a|;
    ScriptWordPlain(w);
    assert forall u :: 0 <= u < 11 ==> s[x + u] == w[u];
    FoldMatch(w, s, x, 0);
    SearchFromIff(ScriptPattern, s, 0);
    assert MatchesAt(ScriptPattern, s, x);
  }

  /** Between quiet texts `javascript:` is the only match, and its removal joins them. */
  lemma ScriptCutJoin(ea: string, eb: string)
    requires Quiet(ea) && Quiet(eb)
    ensures RemoveAll(ScriptPattern, ea + "javascript:" + eb, 0) == ea + eb
  {
    var w := "javascript:";
    var e, x := ea + w + eb, |ea|;
    ScriptWordPlain(w);
    forall k | 0 <= k < |e| ensures LowerChar(e[k]) == 'j' <==> k == x {
      if k < x {
        assert e[k] == ea[k];
      } else if k < x + 11 {
        assert e[k] == w[k - x];
      } else {
        assert e[k] == eb[k - x - 11];
      }
    }
    assert forall u :: 0 <= u < 11 ==> e[x + u] == w[u];
    ScriptOnlyAt(e, x);
    RemoveOnly(ScriptPattern, e, x, x + 11);
    OuterParts(ea, w, eb);
  }

  /** Escaping around a piece with nothing to escape keeps the piece. */
  lemma EscapeAround(a: string, m: string, b: string)
    requires forall k :: 0 <= k < |m| ==> !Special(m[k])
    ensures EscapeHtml(a + m + b) == EscapeHtml(a) + m + EscapeHtml(b)
  {
    EscapePlain(m);
    EscapeConcat(a, m);
    EscapeConcat(a + m, b);
  }

  /** Escaping tame text around a handler attribute escapes the two sides and keeps the attribute. */
  lemma HandlerEscaped(a: string, m: string, b: string)
    requires Tame(a) && Tame(b) && HandlerWord(m)
    ensures EscapeHtml(a + m + b) == EscapeHtml(a) + m + EscapeHtml(b)
    ensures Quiet(EscapeHtml(a)) && Quiet(EscapeHtml(b)) && Lacks(EscapeHtml(a) + m + EscapeHtml(b), '<')
  {
    var ea, eb := EscapeHtml(a), EscapeHtml(b);
    HandlerWordPlain(m);
    EscapeAround(a, m, b);
    EscapeQuiet(a);
    EscapeQuiet(b);
    LacksConcat(ea, m, '<');
    LacksConcat(ea + m, eb, '<');
  }

  /** A handler attribute between quiet texts is all that the four passes remove. */
  lemma HandlerStripped(ea: string, m: string, eb: string)
    requires Quiet(ea) && Quiet(eb) && HandlerWord(m) && Lacks(ea + m + eb, '<')
    ensures StripFrom(ea + m + eb, 0) == ea + eb && Quiet(ea + eb)
  {
    var e, r := ea + m + eb, ea + eb;
    QuietConcat(ea, eb);
    TagKept(e);
    HandlerCut(ea, m, eb);
    ScriptKept(r);
    DataKept(r);
    StripChain(e, e, r, r, r);
  }

  /** A handler attribute between tame texts is removed, and what is left is quiet. */
  lemma HandlerRemoved(a: string, m: string, b: string)
    requires Tame(a) && Tame(b) && HandlerWord(m)
    ensures SafeInput(Some(a + m + b)) == EscapeHtml(a) + EscapeHtml(b) == CleanInput(Some(a + m + b))
    ensures ShowsNoAttack(SafeInput(Some(a + m + b)))
  {
    HandlerEscaped(a, m, b);
    HandlerStripped(EscapeHtml(a), m, EscapeHtml(b));
    HandlerInRaw(a, m, b);
    QuietResult(a + m + b, EscapeHtml(a) + EscapeHtml(b));
  }

  /** Escaping tame text around `javascript:` escapes the two sides and keeps the word. */
  lemma SchemeEscaped(a: string, b: string)
    requires Tame(a) && Tame(b)
    ensures EscapeHtml(a + "javascript:" + b) == EscapeHtml(a) + "javascript:" + EscapeHtml(b)
    ensures Quiet(EscapeHtml(a)) && Quiet(EscapeHtml(b))
    ensures Lacks(EscapeHtml(a) + "javascript:" + EscapeHtml(b), '<') && Lacks(EscapeHtml(a) + "javascript:" + EscapeHtml(b), 'n')
  {
    var w := "javascript:";
    var ea, eb := EscapeHtml(a), EscapeHtml(b);
    ScriptWordPlain(w);
    EscapeAround(a, w, b);
    EscapeQuiet(a);
    EscapeQuiet(b);
    LacksConcat(ea, w, '<');
    LacksConcat(ea + w, eb, '<');
    LacksConcat(ea, w, 'n');
    LacksConcat(ea + w, eb, 'n');
  }

  /** `javascript:` between quiet texts is all that the four passes remove. */
  lemma SchemeStripped(ea: string, eb: string)
    requires Quiet(ea) && Quiet(eb)
    requires Lacks(ea + "javascript:" + eb, '<') && Lacks(ea + "javascript:" + eb, 'n')
    ensures StripFrom(ea + "javascript:" + eb, 0) == ea + eb && Quiet(ea + eb)
  {
    var e, r := ea + "javascript:" + eb, ea + eb;
    QuietConcat(ea, eb);
    TagKept(e);
    HandlerKept(e);
    ScriptCutJoin(ea, eb);
    DataKept(r);
    StripChain(e, e, e, r, r);
  }

  /** `javascript:` between tame texts is removed, and what is left is quiet. */
  lemma SchemeRemoved(a: string, b: string)
    requires Tame(a) && Tame(b)
    ensures SafeInput(Some(a + "javascript:" + b)) == EscapeHtml(a) + EscapeHtml(b) == CleanInput(Some(a + "javascript:" + b))
    ensures ShowsNoAttack(SafeInput(Some(a + "javascript:" + b)))
  {
    SchemeEscaped(a, b);
    SchemeStripped(EscapeHtml(a), EscapeHtml(b));
    ScriptInRaw(a, b);
    QuietResult(a + "javascript:" + b, EscapeHtml(a) + EscapeHtml(b));
  }

  /** Text none of whose characters is `n`, `N`, `j`, `J` or `:` is tame. */
  lemma TameByChars(s: string)
    requires forall k :: 0 <= k < |s| ==> s[k] !in {'n', 'N', 'j', 'J', ':'}
    ensures Tame(s)
  {
  }

  /** `on`, lower-case letters other than `n`, and `=` make a handler attribute. */
  lemma HandlerByChars(m: string)
    requires 4 <= |m| && m[0] == 'o' && m[1] == 'n' && m[|m| - 1] == '='
    requires forall k :: 2 <= k < |m| - 1 ==> 'a' <= m[k] <= 'z' && m[k] != 'n'
    ensures HandlerWord(m)
  {
  }

  /** The input and what the intended cleaning leaves agree, and no attack word is left. */
  predicate Cleaned(s: string) {
    SafeInput(Some(s)) == CleanInput(Some(s)) && ShowsNoAttack(SafeInput(Some(s)))
  }

  /** `<script>alert("XSS")</script>` is a tag followed by text, and is tame. */
  lemma ScriptTagParts(s: string)
    requires s == "<script>alert(\"XSS\")</script>"
    ensures s == "<" + "script" + ">" + "alert(\"XSS\")</script>"
  {
  }

  lemma ScriptTagTame(s: string)
    requires s == "<script>alert(\"XSS\")</script>"
    ensures Tame(s)
  {
    TameByChars(s);
  }

  /** `<script>alert("XSS")</script>` is only escaped. */
  lemma ScriptTagCleaned(s: string)
    requires s == "<script>alert(\"XSS\")</script>"
    ensures Cleaned(s)
  {
    ScriptTagParts(s);
    ScriptTagTame(s);
    TamePassed("script", "alert(\"XSS\")</script>");
  }

  /** `<iframe src="evil.com"></iframe>` is a tag followed by text, and is tame. */
  lemma FrameParts(s: string)
    requires s == "<iframe src=\"evil.com\"></iframe>"
    ensures s == "<" + "iframe src=\"evil.com\"" + ">" + "</iframe>"
  {
  }

  lemma FrameTame(s: string)
    requires s == "<iframe src=\"evil.com\"></iframe>"
    ensures Tame(s)
  {
    TameByChars(s);
  }

  /** `<iframe src="evil.com"></iframe>` is only escaped. */
  lemma FrameCleaned(s: string)
    requires s == "<iframe src=\"evil.com\"></iframe>"
    ensures Cleaned(s)
  {
    FrameParts(s);
    FrameTame(s);
    TamePassed("iframe src=\"evil.com\"", "</iframe>");
  }

  /** `<a href="javascript:alert(1)">click</a>` around its scheme. */
  lemma LinkParts(s: string)
    requires s == "<a href=\"javascript:alert(1)\">click</a>"
    ensures s == "<a href=\"" + "javascript:" + "alert(1)\">click</a>"
  {
  }

  /** `<a href="javascript:alert(1)">click</a>` loses its scheme. */
  lemma LinkCleaned(s: string)
    requires s == "<a href=\"javascript:alert(1)\">click</a>"
    ensures Cleaned(s)
  {
    var a, b := "<a href=\"", "alert(1)\">click</a>";
    LinkParts(s);
    TameByChars(a);
    TameByChars(b);
    SchemeRemoved(a, b);
  }

  /** `<img src="x" onerror="alert(1)">` around its handler. */
  lemma ImageParts(s: string)
    requires s == "<img src=\"x\" onerror=\"alert(1)\">"
    ensures s == "<img src=\"x\" " + "onerror=" + "\"alert(1)\">"
  {
  }

  /** `<img src="x" onerror="alert(1)">` loses its handler. */
  lemma ImageCleaned(s: string)
    requires s == "<img src=\"x\" onerror=\"alert(1)\">"
    ensures Cleaned(s)
  {
    var a, m, b := "<img src=\"x\" ", "onerror=", "\"alert(1)\">";
    ImageParts(s);
    TameByChars(a);
    TameByChars(b);
    HandlerByChars(m);
    HandlerRemoved(a, m, b);
  }

  /** `<div onclick="alert(1)">test</div>` around its handler. */
  lemma DivisionParts(s: string)
    requires s == "<div onclick=\"alert(1)\">test</div>"
    ensures s == "<div " + "onclick=" + "\"alert(1)\">test</div>"
  {
  }

  /** `<div onclick="alert(1)">test</div>` loses its handler. */
  lemma DivisionCleaned(s: string)
    requires s == "<div onclick=\"alert(1)\">test</div>"
    ensures Cleaned(s)
  {
    var a, m, b := "<div ", "onclick=", "\"alert(1)\">test</div>";
    DivisionParts(s);
    TameByChars(a);
    TameByChars(b);
    HandlerByChars(m);
    HandlerRemoved(a, m, b);
  }

  /** A bare handler attribute followed by `"alert(1)"` loses the attribute. */
  lemma AttributeCleaned(m: string)
    requires m == "onload=" || m == "onmouseover=" || m == "onfocus=" || m == "onblur="
    ensures Cleaned(m + "\"alert(1)\"")
  {
    var b := "\"alert(1)\"";
    TameByChars("");
    TameByChars(b);
    HandlerByChars(m);
    HandlerRemoved("", m, b);
    NoFront(m);
  }

  /** Each input of the handler test is its attribute followed by `"alert(1)"`. */
  lemma AttributeParts(s: string) returns (m: string)
    requires HandlerTestInput(s)
    ensures s == m + "\"alert(1)\"" && (m == "onload=" || m == "onmouseover=" || m == "onfocus=" || m == "onblur=")
  {
    if s == "onload=\"alert(1)\"" {
      m := "onload=";
    } else if s == "onmouseover=\"alert(1)\"" {
      m := "onmouseover=";
    } else if s == "onfocus=\"alert(1)\"" {
      m := "onfocus=";
    } else {
      m := "onblur=";
    }
  }

  /** The inputs of the test that tags are removed. */
  predicate TagTestInput(s: string) {
    || s == "<script>alert(\"XSS\")</script>"
    || s == "<img src=\"x\" onerror=\"alert(1)\">"
    || s == "<div onclick=\"alert(1)\">test</div>"
    || s == "<iframe src=\"evil.com\"></iframe>"
    || s == "<a href=\"javascript:alert(1)\">click</a>"
  }

  /** The inputs of the test that event handlers are removed. */
  predicate HandlerTestInput(s: string) {
    || s == "onload=\"alert(1)\""
    || s == "onmouseover=\"alert(1)\""
    || s == "onfocus=\"alert(1)\""
    || s == "onblur=\"alert(1)\""
  }

  /**
   * Each input of the tag test comes out of `sanitizeInput` as the
   * intended cleaning leaves it, without `<script>`, `onerror=`,
   * `onclick=`, `<iframe` or `javascript:`.
   */
  lemma TagAttacksCleaned(s: string)
    requires TagTestInput(s)
    ensures SafeInput(Some(s)) == CleanInput(Some(s)) && ShowsNoAttack(SafeInput(Some(s)))
  {
    if s == "<script>alert(\"XSS\")</script>" {
      ScriptTagCleaned(s);
    } else if s == "<img src=\"x\" onerror=\"alert(1)\">" {
      ImageCleaned(s);
    } else if s == "<div onclick=\"alert(1)\">test</div>" {
      DivisionCleaned(s);
    } else if s == "<iframe src=\"evil.com\"></iframe>" {
      FrameCleaned(s);
    } else {
      LinkCleaned(s);
    }
  }

  /**
   * Each input of the handler test comes out of `sanitizeInput` as the
   * intended cleaning leaves it, without `onload=`, `onmouseover=`,
   * `onfocus=` or `onblur=`.
   */
  lemma HandlerAttacksCleaned(s: string)
    requires HandlerTestInput(s)
    ensures SafeInput(Some(s)) == CleanInput(Some(s)) && ShowsNoAttack(SafeInput(Some(s)))
  {
    var m := AttributeParts(s);
    AttributeCleaned(m);
  }

  // ---------------------------------------------------------------------
  // isValidCommand
  // ---------------------------------------------------------------------

  /** `commandInjectionPatterns`: `/[;&|]/`, `/\$\(/`, `` /`/ `` and `/>|</`. */
  function InjectionPattern(k: nat): Pattern
    requires k < 4
  {
    if k == 0 then [Atom(OneOf(";&|"), Once)]
    else if k == 1 then Lit("$(")
    else if k == 2 then [Atom(Char('`'), Once)]
    else [Atom(OneOf("><"), Once)]
  }

  /** Some injection pattern from index `k` on tests true. */
  predicate SomeInjection(command: string, k: nat)
    decreases 4 - k
  {
    k < 4 && (Test(InjectionPattern(k), command) || SomeInjection(command, k + 1))
  }

  /** `isValidCommand`: not blank, no injection pattern, and no `rm -rf`. */
  function IsValidCommand(command: Option<string>): (r: bool)
    ensures r ==> command.Some? && Trim(command.value) != ""
  {
    command.Some? && command.value != "" && Trim(command.value) != ""
    && !SomeInjection(command.value, 0)
    && !Includes(command.value, "rm -rf")
  }

  /** A one-character pattern tests true exactly when the text has a character of its class. */
  lemma TestOneChar(k: CharClass, s: string)
    ensures Test([Atom(k, Once)], s) <==> exists i :: 0 <= i < |s| && InClass(k, s[i])
  {
    SearchFromIff([Atom(k, Once)], s, 0);
    if exists i :: 0 <= i < |s| && InClass(k, s[i]) {
      var i :| 0 <= i < |s| && InClass(k, s[i]);
      assert MatchesAt([Atom(k, Once)], s, i);
    }
  }

  /** `/\$\(/` tests true exactly when the text contains `$(`. */
  lemma TestDollarParen(s: string)
    ensures Test(Lit("$("), s) <==> Includes(s, "$(")
  {
    var p := Lit("$(");
    SearchFromIff(p, s, 0);
    assert LitAt(p, "$(", 0, 0);
    forall i | 0 <= i <= |s|
      ensures MatchesAt(p, s, i) <==> OccursAt(s, "$(", i)
    {
      MatchLitIff(p, "$(", s, i, 0);
    }
  }

  /** The characters the injection check refuses outright. */
  const InjectionChars: string := ";&|`><"

  /**
   * A command is valid exactly when it is not blank, has none of
   * `; & | \` > <`, and contains neither `$(` nor `rm -rf`.
   */
  lemma IsValidCommandIff(command: string)
    ensures IsValidCommand(Some(command)) <==>
      !AllSpace(command)
      && (forall i :: 0 <= i < |command| ==> command[i] !in InjectionChars)
      && !Includes(command, "$(") && !Includes(command, "rm -rf")
  {
    TrimEmptyIff(command);
    TestOneChar(OneOf(";&|"), command);
    TestDollarParen(command);
    TestOneChar(Char('`'), command);
    TestOneChar(OneOf("><"), command);
    assert SomeInjection(command, 0) <==>
      Test(InjectionPattern(0), command) || Test(InjectionPattern(1), command)
      || Test(InjectionPattern(2), command) || Test(InjectionPattern(3), command);
    if AllSpace(command) {
      assert command == [] || Trim(command) == "";
    }
  }

  /** A command with a first character that is not white space and no `$`, `r` or injection character is valid. */
  lemma ValidWithoutSymbols(command: string)
    requires command != [] && !IsSpace(command[0])
    requires forall i :: 0 <= i < |command| ==> command[i] !in InjectionChars && command[i] != '$' && command[i] != 'r'
    ensures IsValidCommand(Some(command))
  {
    IsValidCommandIff(command);
    MissingLetter(command, "$(", '$');
    MissingLetter(command, "rm -rf", 'r');
  }

  /** The plain commands of the service's tests are valid. */
  lemma PlainCommandsValid(command: string)
    requires command in ["ls", "pwd", "git status", "npm install", "echo test"]
    ensures IsValidCommand(Some(command))
  {
    ValidWithoutSymbols(command);
  }

  /** One injection character anywhere makes a command invalid. */
  lemma RefusedAt(command: string, i: nat)
    requires i < |command| && command[i] in InjectionChars
    ensures !IsValidCommand(Some(command))
  {
    IsValidCommandIff(command);
  }

  /** Chaining, piping and substitution, as in the service's tests, are refused. */
  lemma InjectionsRefused(command: string)
    requires command in ["ls; rm -rf /", "echo test && rm -rf ~", "cat file | rm -rf .", "`rm -rf /`", "$(rm -rf /)"]
    ensures !IsValidCommand(Some(command))
  {
    if command == "ls; rm -rf /" {
      RefusedAt(command, 2);
    } else if command == "echo test && rm -rf ~" {
      RefusedAt(command, 10);
    } else if command == "cat file | rm -rf ." {
      RefusedAt(command, 9);
    } else if command == "`rm -rf /`" {
      RefusedAt(command, 0);
    } else {
      IsValidCommandIff(command);
      assert OccursAt(command, "$(", 0);
    }
  }

  /** Missing, empty and blank commands are refused. */
  lemma BlankCommandsRefused()
    ensures !IsValidCommand(None) && !IsValidCommand(Some("")) && !IsValidCommand(Some("   "))
  {
    TrimEmptyIff("   ");
  }

  // ---------------------------------------------------------------------
  // sanitizeOutput
  // ---------------------------------------------------------------------

  const Esc: char := '\U{1B}'

  /** `/\x1b\[[0-9;]*m/`: a colour or attribute sequence. */
  const AnsiPattern: Pattern :=
    [Atom(Char(Esc), Once), Atom(Char('['), Once), Atom(OneOf("0123456789;"), Star), Atom(Char('m'), Once)]

  /** The characters the placeholders begin with; the code as written is correct for output without them. */
  const PlaceholderStart: string := "__ANSI_"

  /** The output as `output.replace(ansiPattern, ...)` sees it: sequences, and the single characters between them. */
  datatype Piece = Text(c: char) | Code(code: string)

  /** The pieces of `s` from position `i` on, found left to right. */
  function Tokens(s: string, i: nat): seq<Piece>
    requires i <= |s|
    decreases |s| - i
  {
    if i == |s| then []
    else
      var m := MatchEnd(AnsiPattern, s, i, 0, false);
      if m.Some? && m.value > i then [Code(s[i..m.value])] + Tokens(s, m.value)
      else [Text(s[i])] + Tokens(s, i + 1)
  }

  /** The text the pieces were cut from. */
  function Raw(ts: seq<Piece>): string {
    if ts == [] then []
    else PieceText(ts[0]) + Raw(ts[1..])
  }

  /** The text a piece was cut from. */
  function PieceText(t: Piece): string {
    match t
    case Text(c) => [c]
    case Code(code) => code
  }

  /** The sequences among the pieces, in order: what `ansiCodes` collects. */
  function CodesOf(ts: seq<Piece>): seq<string> {
    if ts == [] then []
    else (if ts[0].Code? then [ts[0].code] else []) + CodesOf(ts[1..])
  }

  /** `__ANSI_${k}__`. */
  function Placeholder(k: nat): (r: string)
    ensures |r| >= 10 && r[..7] == PlaceholderStart && IsDigit(r[7])
    ensures forall i :: 0 <= i < |r| ==> !Special(r[i])
  {
    "__ANSI_" + Decimal(k) + "__"
  }

  /** The text after extraction: each sequence replaced by its placeholder, numbered from `n`. */
  function Masked(ts: seq<Piece>, n: nat): string {
    if ts == [] then []
    else
      match ts[0]
      case Text(c) => [c] + Masked(ts[1..], n)
      case Code(_) => Placeholder(n) + Masked(ts[1..], n + 1)
  }

  /**
   * The escaped text while the sequences are put back: those numbered
   * below `i` are back in place, the others are still placeholders.
   */
  function Marked(ts: seq<Piece>, n: nat, i: nat): string {
    if ts == [] then []
    else
      match ts[0]
      case Text(c) => Entity(c) + Marked(ts[1..], n, i)
      case Code(code) => (if n < i then code else Placeholder(n)) + Marked(ts[1..], n + 1, i)
  }

  /** What the service means to return: every sequence kept, every other character escaped. */
  function Intended(ts: seq<Piece>): string {
    if ts == [] then []
    else
      match ts[0]
      case Text(c) => Entity(c) + Intended(ts[1..])
      case Code(code) => code + Intended(ts[1..])
  }

  /** `s.replace(w, r)` with a string `w`: only the first occurrence is replaced, if there is one. */
  function ReplaceFirst(s: string, w: string, r: string): (result: string)
    requires |w| > 0
    ensures forall c :: c in result ==> c in s || c in r
    decreases |s|
  {
    if StartsWith(s, w) then r + s[|w|..]
    else if s == [] then []
    else [s[0]] + ReplaceFirst(s[1..], w, r)
  }

  /** The restoring `forEach`, from code `i` on: placeholder `i` is swapped for code `i`. */
  function RestoreFrom(t: string, codes: seq<string>, i: nat): string
    decreases |codes| - i
  {
    if i >= |codes| then t else RestoreFrom(ReplaceFirst(t, Placeholder(i), codes[i]), codes, i + 1)
  }

  /** What `sanitizeOutput` returns as written: extract, escape, restore. */
  function OutputAsWritten(output: Option<string>): string {
    if output.None? || output.value == "" then ""
    else
      var ts := Tokens(output.value, 0);
      RestoreFrom(EscapeHtml(Masked(ts, 0)), CodesOf(ts), 0)
  }

  /** A class none of whose characters is special. */
  ghost predicate NoSpecialClass(k: CharClass) {
    forall x :: InClass(k, x) ==> !Special(x)
  }

  lemma AnsiClasses()
    ensures forall t :: 0 <= t < |AnsiPattern| ==> NoSpecialClass(AnsiPattern[t].cls)
  {
    assert NoSpecialClass(OneOf("0123456789;"));
  }

  /** A match built from classes without special characters covers no special character. */
  lemma {:induction false} MatchAvoids(p: Pattern, s: string, i: nat, j: nat, again: bool)
    requires i <= |s| && MatchEnd(p, s, i, j, again).Some?
    requires forall t :: j <= t < |p| ==> NoSpecialClass(p[t].cls)
    ensures forall k :: i <= k < MatchEnd(p, s, i, j, again).value ==> !Special(s[k])
    decreases |s| - i, |p| - j, if again then 0 else 1
  {
    if j < |p| {
      var a := p[j];
      var q := if again then Star else a.q;
      var here := i < |s| && InClass(a.cls, s[i]);
      assert here ==> !Special(s[i]);
      match q
      case Once => MatchAvoids(p, s, i + 1, j + 1, false);
      case Plus => MatchAvoids(p, s, i + 1, j, true);
      case Star =>
        var longer := if here then MatchEnd(p, s, i + 1, j, true) else None;
        if longer.Some? {
          MatchAvoids(p, s, i + 1, j, true);
        } else {
          MatchAvoids(p, s, i, j + 1, false);
        }
    }
  }

  /** A piece that is a sequence has no special character. */
  predicate GoodPiece(t: Piece) {
    t.Code? ==> forall i :: 0 <= i < |t.code| ==> !Special(t.code[i])
  }

  predicate Good(ts: seq<Piece>) {
    forall k :: 0 <= k < |ts| ==> GoodPiece(ts[k])
  }

  /** The pieces put together give back the text they were cut from. */
  lemma {:induction false} TokensRaw(s: string, i: nat)
    requires i <= |s|
    ensures Raw(Tokens(s, i)) == s[i..]
    decreases |s| - i
  {
    if i < |s| {
      var p, j := TokensCons(s, i);
      TokensRaw(s, j);
      RawStep(s, i, j, p, Tokens(s, j));
    }
  }

  /** A step of TokensRaw: one more piece in front. */
  lemma RawStep(s: string, i: nat, j: nat, p: Piece, rest: seq<Piece>)
    requires i < j <= |s| && PieceText(p) == s[i..j] && Raw(rest) == s[j..]
    ensures Raw([p] + rest) == s[i..]
  {
    RawCons(p, rest);
    assert s[i..] == s[i..j] + s[j..];
  }

  /** The first piece of `s` from `i` on, and where the pieces after it start. */
  lemma TokensCons(s: string, i: nat) returns (p: Piece, j: nat)
    requires i < |s|
    ensures i < j <= |s| && PieceText(p) == s[i..j]
    ensures Tokens(s, i) == [p] + Tokens(s, j)
  {
    var m := MatchEnd(AnsiPattern, s, i, 0, false);
    if m.Some? && m.value > i {
      p, j := Code(s[i..m.value]), m.value;
    } else {
      p, j := Text(s[i]), i + 1;
    }
  }

  lemma RawCons(p: Piece, rest: seq<Piece>)
    ensures Raw([p] + rest) == PieceText(p) + Raw(rest)
  {
    assert ([p] + rest)[0] == p && ([p] + rest)[1..] == rest;
  }

  /** No sequence among the pieces has a special character. */
  lemma {:induction false} TokensGood(s: string, i: nat)
    requires i <= |s|
    ensures Good(Tokens(s, i))
    decreases |s| - i
  {
    if i < |s| {
      var m := MatchEnd(AnsiPattern, s, i, 0, false);
      if m.Some? && m.value > i {
        TokensGood(s, m.value);
        AnsiClasses();
        MatchAvoids(AnsiPattern, s, i, 0, false);
        assert Tokens(s, i) == [Code(s[i..m.value])] + Tokens(s, m.value);
      } else {
        TokensGood(s, i + 1);
        assert Tokens(s, i) == [Text(s[i])] + Tokens(s, i + 1);
      }
    }
  }

  /** The pieces put together give back the text, and no sequence has a special character. */
  lemma TokensFacts(s: string, i: nat)
    requires i <= |s|
    ensures Raw(Tokens(s, i)) == s[i..] && Good(Tokens(s, i))
  {
    TokensRaw(s, i);
    TokensGood(s, i);
  }

  lemma {:induction false} EscapeMasked(ts: seq<Piece>, n: nat, i: nat)
    requires i <= n
    ensures EscapeHtml(Masked(ts, n)) == Marked(ts, n, i)
  {
    if ts != [] {
      match ts[0]
      case Text(c) =>
        EscapeMasked(ts[1..], n, i);
        EscapeConcat([c], Masked(ts[1..], n));
        assert EscapeHtml([c]) == Entity(c) + EscapeHtml([]);
      case Code(_) =>
        EscapeMasked(ts[1..], n + 1, i);
        EscapeConcat(Placeholder(n), Masked(ts[1..], n + 1));
        EscapePlain(Placeholder(n));
    }
  }

  lemma {:induction false} MarkedConcat(a: seq<Piece>, b: seq<Piece>, n: nat, i: nat)
    ensures Marked(a + b, n, i) == Marked(a, n, i) + Marked(b, n + |CodesOf(a)|, i)
  {
    if a == [] {
      assert a + b == b;
    } else {
      var p, rest := a[0], a[1..];
      assert a == [p] + rest;
      assert a + b == [p] + (rest + b);
      CodesCons(p, rest);
      var m := if p.Code? then n + 1 else n;
      MarkedConcat(rest, b, m, i);
      var x := MarkedCons(p, rest, n, i);
      var x2 := MarkedCons(p, rest + b, n, i);
      Regroup(Marked(a + b, n, i), x, Marked(rest + b, m, i), Marked(rest, m, i),
              Marked(b, m + |CodesOf(rest)|, i), Marked(a, n, i));
    }
  }

  lemma CodesCons(p: Piece, rest: seq<Piece>)
    ensures |CodesOf([p] + rest)| == |CodesOf(rest)| + if p.Code? then 1 else 0
  {
    assert ([p] + rest)[1..] == rest;
  }

  /** A step of MarkedConcat: the text in front of both sides is the same. */
  lemma Regroup(whole: string, x: string, tail: string, y: string, z: string, front: string)
    requires whole == x + tail && tail == y + z && front == x + y
    ensures whole == front + z
  {
    assert x + (y + z) == (x + y) + z;
  }

  /** The text in front of `Marked` for a piece `p` numbered `n`, and the number of the next one. */
  lemma MarkedCons(p: Piece, rest: seq<Piece>, n: nat, i: nat) returns (x: string)
    ensures x == (match p case Text(c) => Entity(c) case Code(code) => if n < i then code else Placeholder(n))
    ensures Marked([p] + rest, n, i) == x + Marked(rest, if p.Code? then n + 1 else n, i)
  {
    assert ([p] + rest)[0] == p && ([p] + rest)[1..] == rest;
    x := match p case Text(c) => Entity(c) case Code(code) => if n < i then code else Placeholder(n);
  }

  /** With every sequence numbered below `i`, all of them are back. */
  lemma {:induction false} MarkedBelow(ts: seq<Piece>, n: nat, i: nat)
    requires n + |CodesOf(ts)| <= i
    ensures Marked(ts, n, i) == Intended(ts)
  {
    if ts != [] {
      if ts[0].Code? {
        MarkedBelow(ts[1..], n + 1, i);
      } else {
        MarkedBelow(ts[1..], n, i);
      }
    }
  }

  /** With every sequence numbered at least `i` and `j`, none of them is back in either. */
  lemma {:induction false} MarkedAbove(ts: seq<Piece>, n: nat, i: nat, j: nat)
    requires i <= n && j <= n
    ensures Marked(ts, n, i) == Marked(ts, n, j)
  {
    if ts != [] {
      if ts[0].Code? {
        MarkedAbove(ts[1..], n + 1, i, j);
      } else {
        MarkedAbove(ts[1..], n, i, j);
      }
    }
  }

  /** Keeping sequences without special characters is escaping them. */
  lemma {:induction false} IntendedIsEscape(ts: seq<Piece>)
    requires Good(ts)
    ensures Intended(ts) == EscapeHtml(Raw(ts))
  {
    if ts != [] {
      assert GoodPiece(ts[0]);
      IntendedIsEscape(ts[1..]);
      match ts[0]
      case Text(c) =>
        EscapeConcat([c], Raw(ts[1..]));
        assert EscapeHtml([c]) == Entity(c) + EscapeHtml([]);
      case Code(code) =>
        EscapeConcat(code, Raw(ts[1..]));
        EscapePlain(code);
    }
  }

  lemma {:induction false} RawConcat(a: seq<Piece>, b: seq<Piece>)
    ensures Raw(a + b) == Raw(a) + Raw(b)
  {
    if a == [] {
      assert a + b == b;
    } else {
      assert (a + b)[0] == a[0] && (a + b)[1..] == a[1..] + b;
      RawConcat(a[1..], b);
    }
  }

  /** The pieces around sequence number `m`. */
  lemma {:induction false} SplitAtCode(ts: seq<Piece>, m: nat) returns (pre: seq<Piece>, c: string, post: seq<Piece>)
    requires m < |CodesOf(ts)|
    ensures ts == pre + [Code(c)] + post && |CodesOf(pre)| == m && c == CodesOf(ts)[m]
    ensures forall k :: 0 <= k < |pre| ==> pre[k] in ts
  {
    var rest := ts[1..];
    if ts[0].Code? && m == 0 {
      pre, c, post := [], ts[0].code, rest;
      assert ts == [ts[0]] + rest;
    } else {
      var m' := if ts[0].Code? then m - 1 else m;
      var pre', c', post' := SplitAtCode(rest, m');
      pre, c, post := [ts[0]] + pre', c', post';
      assert ts == [ts[0]] + rest;
      assert pre[1..] == pre';
      forall k | 0 <= k < |pre| ensures pre[k] in ts {
        if k > 0 {
          assert pre[k] == pre'[k - 1];
        }
      }
    }
  }

  /** The characters of the placeholders that neither an entity nor a special character contains. */
  predicate Plain(c: char) {
    !Special(c) && c !in EntityChars
  }

  /** An escaped text that starts with plain characters comes from a text that starts with them. */
  lemma {:induction false} EscapeStartsWith(t: string, v: string)
    requires forall k :: 0 <= k < |v| ==> Plain(v[k])
    requires StartsWith(EscapeHtml(t), v)
    ensures StartsWith(t, v)
    decreases |v|
  {
    if v != [] {
      var e := EscapeHtml(t);
      assert v[0] == e[..|v|][0];
      var x := Entity(t[0]);
      var r := EscapeHtml(t[1..]);
      assert e == x + r && e[0] == x[0];
      assert !Special(t[0]);
      assert StartsWith(r, v[1..]) by {
        assert r[..|v| - 1] == e[..|v|][1..];
      }
      EscapeStartsWith(t[1..], v[1..]);
      assert t[..|v|] == [t[0]] + t[1..][..|v| - 1];
    }
  }

  /** A word of plain characters occurs in an escaped text only if it occurs in the text. */
  lemma {:induction false} EscapeOccurs(t: string, w: string, x: nat)
    requires w != [] && forall k :: 0 <= k < |w| ==> Plain(w[k])
    requires OccursAt(EscapeHtml(t), w, x)
    ensures Includes(t, w)
    decreases |t|
  {
    assert t != [];
    if x >= |Entity(t[0])| {
      var y := TailOccurrence(t, w, x);
      EscapeOccurs(t[1..], w, y);
      IncludesInTail(t, w);
    } else {
      FirstOccurrence(t, w, x);
    }
  }

  /** An occurrence past the escape of the first character lies in the escape of the rest. */
  lemma TailOccurrence(t: string, w: string, x: nat) returns (y: nat)
    requires t != [] && OccursAt(EscapeHtml(t), w, x) && x >= |Entity(t[0])|
    ensures OccursAt(EscapeHtml(t[1..]), w, y)
  {
    var d, r := Entity(t[0]), EscapeHtml(t[1..]);
    assert EscapeHtml(t) == d + r;
    y := x - |d|;
    assert r[y..y + |w|] == (d + r)[x..x + |w|];
  }

  lemma IncludesInTail(t: string, w: string)
    requires t != [] && Includes(t[1..], w)
    ensures Includes(t, w)
  {
    IncludesWithin([t[0]], t[1..], [], w);
    assert [t[0]] + t[1..] + [] == t;
  }

  /** An occurrence of a plain word within the escape of the first character is at the very start. */
  lemma FirstOccurrence(t: string, w: string, x: nat)
    requires t != [] && w != [] && forall k :: 0 <= k < |w| ==> Plain(w[k])
    requires OccursAt(EscapeHtml(t), w, x) && x < |Entity(t[0])|
    ensures OccursAt(t, w, 0)
  {
    var e, d := EscapeHtml(t), Entity(t[0]);
    assert e == d + EscapeHtml(t[1..]);
    assert w[0] == e[x..x + |w|][0] == d[x];
    assert !Special(t[0]);
    assert x == 0;
    assert e[..|w|] == e[x..x + |w|];
    EscapeStartsWith(t, w);
    assert t[0..|w|] == t[..|w|];
  }

  /** Escaping never creates an occurrence of a word of plain characters. */
  lemma EscapeKeepsAbsence(t: string, w: string)
    requires w != [] && forall k :: 0 <= k < |w| ==> Plain(w[k])
    requires !Includes(t, w)
    ensures !Includes(EscapeHtml(t), w)
  {
    if Includes(EscapeHtml(t), w) {
      var x :| 0 <= x <= |EscapeHtml(t)| && OccursAt(EscapeHtml(t), w, x);
      EscapeOccurs(t, w, x);
    }
  }

  /** When no occurrence of `w` starts inside `a`, the first one is the `w` right after `a`. */
  lemma {:induction false} ReplaceFirstAfter(a: string, w: string, b: string, r: string)
    requires |w| > 0
    requires forall x :: 0 <= x < |a| ==> !OccursAt(a + w + b, w, x)
    ensures ReplaceFirst(a + w + b, w, r) == a + r + b
    decreases |a|
  {
    var s := a + w + b;
    if a == [] {
      assert s == w + b && s[..|w|] == w && s[|w|..] == b;
    } else {
      assert !OccursAt(s, w, 0);
      assert s[0..|w|] == s[..|w|];
      assert s[1..] == a[1..] + w + b;
      forall x | 0 <= x < |a[1..]| ensures !OccursAt(a[1..] + w + b, w, x) {
        assert s[1..][x..x + |w|] == s[x + 1..x + 1 + |w|];
        assert !OccursAt(s, w, x + 1);
      }
      ReplaceFirstAfter(a[1..], w, b, r);
      assert [s[0]] + (a[1..] + r + b) == a + r + b;
    }
  }

  /** Two copies of a placeholder cannot overlap at a shift below 7. */
  lemma SelfOverlap(m: nat, d: nat) returns (u: nat)
    requires 1 <= d <= 6
    ensures u + d < |Placeholder(m)| && Placeholder(m)[u] != Placeholder(m)[u + d]
  {
    var p := Placeholder(m);
    assert forall k :: 0 <= k < 7 ==> p[k] == PlaceholderStart[k] by {
      forall k | 0 <= k < 7 ensures p[k] == PlaceholderStart[k] {
        assert p[..7][k] == p[k];
      }
    }
    if d == 1 {
      u := 1;
    } else if d <= 5 {
      u := 0;
    } else {
      u := 1;
    }
  }

  /** A placeholder does not occur again shifted by fewer than 7 characters against itself. */
  lemma ShiftMismatch(a: string, m: nat, b: string, x: nat)
    requires x < |a| < x + 7
    ensures !OccursAt(a + Placeholder(m) + b, Placeholder(m), x)
  {
    var p := Placeholder(m);
    var s := a + p + b;
    var d := |a| - x;
    var u := SelfOverlap(m, d);
    assert s[|a| + u] == p[u];
    if x + |p| <= |s| {
      assert s[x..x + |p|][d + u] == s[|a| + u];
    }
  }

  /**
   * In text without `__ANSI_`, followed by a placeholder, no occurrence
   * of that placeholder starts before the placeholder itself.
   */
  lemma PlaceholderFirst(a: string, m: nat, b: string, x: nat)
    requires x < |a| && OccursAt(a + Placeholder(m) + b, Placeholder(m), x)
    ensures Includes(a, PlaceholderStart)
  {
    var p := Placeholder(m);
    var s := a + p + b;
    if x + 7 > |a| {
      ShiftMismatch(a, m, b, x);
    } else {
      assert a[x..x + 7] == PlaceholderStart by {
        forall k | 0 <= k < 7 ensures a[x..x + 7][k] == PlaceholderStart[k] {
          assert a[x + k] == s[x + k] == s[x..x + |p|][k] == p[k] == p[..7][k];
        }
      }
      assert OccursAt(a, PlaceholderStart, x);
    }
  }

  /** After text without `__ANSI_`, the first occurrence of a placeholder is the one that follows. */
  lemma ReplaceAfterClean(a: string, m: nat, b: string, r: string)
    requires !Includes(a, PlaceholderStart)
    ensures ReplaceFirst(a + (Placeholder(m) + b), Placeholder(m), r) == a + (r + b)
  {
    assert a + (Placeholder(m) + b) == a + Placeholder(m) + b;
    assert a + (r + b) == a + r + b;
    forall x | 0 <= x < |a| ensures !OccursAt(a + Placeholder(m) + b, Placeholder(m), x) {
      if OccursAt(a + Placeholder(m) + b, Placeholder(m), x) {
        PlaceholderFirst(a, m, b, x);
      }
    }
    ReplaceFirstAfter(a, Placeholder(m), b, r);
  }

  /** The escaped text while sequence `m` is still a placeholder. */
  lemma MarkedBefore(pre: seq<Piece>, c: string, post: seq<Piece>, m: nat)
    requires |CodesOf(pre)| == m
    ensures Marked(pre + ([Code(c)] + post), 0, m) == Intended(pre) + (Placeholder(m) + Marked(post, m + 1, m))
  {
    var tail := [Code(c)] + post;
    MarkedConcat(pre, tail, 0, m);
    assert tail[0] == Code(c) && tail[1..] == post;
    MarkedBelow(pre, 0, m);
  }

  /** The escaped text once sequence `m` is back. */
  lemma MarkedAfter(pre: seq<Piece>, c: string, post: seq<Piece>, m: nat)
    requires |CodesOf(pre)| == m
    ensures Marked(pre + ([Code(c)] + post), 0, m + 1) == Intended(pre) + (c + Marked(post, m + 1, m))
  {
    var tail := [Code(c)] + post;
    MarkedConcat(pre, tail, 0, m + 1);
    assert tail[0] == Code(c) && tail[1..] == post;
    MarkedAbove(post, m + 1, m, m + 1);
    MarkedBelow(pre, 0, m + 1);
  }

  lemma GoodPrefix(pre: seq<Piece>, tail: seq<Piece>)
    requires Good(pre + tail)
    ensures Good(pre)
  {
    forall k | 0 <= k < |pre| ensures GoodPiece(pre[k]) {
      assert pre[k] == (pre + tail)[k];
    }
  }

  lemma AbsentFromPrefix(a: string, b: string, w: string)
    requires !Includes(a + b, w)
    ensures !Includes(a, w)
  {
    assert [] + a + b == a + b;
    if Includes(a, w) {
      IncludesWithin([], a, b, w);
    }
  }

  /** The escaped text before a sequence has no `__ANSI_` when the output has none. */
  lemma CleanPrefix(pre: seq<Piece>, tail: seq<Piece>)
    requires Good(pre + tail) && !Includes(Raw(pre + tail), PlaceholderStart)
    ensures Good(pre) && !Includes(Intended(pre), PlaceholderStart)
  {
    GoodPrefix(pre, tail);
    IntendedIsEscape(pre);
    RawConcat(pre, tail);
    CleanEscape(Raw(pre), Raw(tail));
  }

  /** Escaping the front of a text without `__ANSI_` gives a text without `__ANSI_`. */
  lemma CleanEscape(a: string, b: string)
    requires !Includes(a + b, PlaceholderStart)
    ensures !Includes(EscapeHtml(a), PlaceholderStart)
  {
    AbsentFromPrefix(a, b, PlaceholderStart);
    assert forall k :: 0 <= k < |PlaceholderStart| ==> Plain(PlaceholderStart[k]);
    EscapeKeepsAbsence(a, PlaceholderStart);
  }

  /** Replacing placeholder `m` in the escaped text finds the one that stands for sequence `m`. */
  lemma RestorePiece(pre: seq<Piece>, c: string, post: seq<Piece>, m: nat)
    requires |CodesOf(pre)| == m && !Includes(Intended(pre), PlaceholderStart)
    ensures ReplaceFirst(Marked(pre + ([Code(c)] + post), 0, m), Placeholder(m), c)
      == Marked(pre + ([Code(c)] + post), 0, m + 1)
  {
    MarkedBefore(pre, c, post, m);
    MarkedAfter(pre, c, post, m);
    var front, p, rest := Intended(pre), Placeholder(m), Marked(post, m + 1, m);
    ReplaceAfterClean(front, m, rest, c);
  }

  /** Restoring sequence `m` puts it back in its own place, when the output has no `__ANSI_`. */
  lemma RestoreStep(ts: seq<Piece>, m: nat)
    requires Good(ts) && !Includes(Raw(ts), PlaceholderStart) && m < |CodesOf(ts)|
    ensures ReplaceFirst(Marked(ts, 0, m), Placeholder(m), CodesOf(ts)[m]) == Marked(ts, 0, m + 1)
  {
    var pre, c, post := SplitAtCode(ts, m);
    assert ts == pre + ([Code(c)] + post);
    CleanPrefix(pre, [Code(c)] + post);
    RestorePiece(pre, c, post, m);
  }

  lemma {:induction false} RestoreAll(ts: seq<Piece>, k: nat)
    requires Good(ts) && !Includes(Raw(ts), PlaceholderStart) && k <= |CodesOf(ts)|
    ensures RestoreFrom(Marked(ts, 0, k), CodesOf(ts), k) == Marked(ts, 0, |CodesOf(ts)|)
    decreases |CodesOf(ts)| - k
  {
    if k < |CodesOf(ts)| {
      RestoreStep(ts, k);
      RestoreAll(ts, k + 1);
    }
  }

  /**
   * For output that does not contain `__ANSI_`, the service returns the
   * output with its sequences in place and all other text escaped, which
   * is the escaped output, since the sequences have no special character.
   */
  lemma AsWrittenIsIntended(s: string)
    requires !Includes(s, PlaceholderStart)
    ensures OutputAsWritten(Some(s)) == SafeOutput(Some(s)) == EscapeHtml(s)
  {
    if s != "" {
      var ts := Tokens(s, 0);
      TokensFacts(s, 0);
      assert s[0..] == s;
      EscapeMasked(ts, 0, 0);
      RestoreAll(ts, 0);
      MarkedBelow(ts, 0, |CodesOf(ts)|);
      IntendedIsEscape(ts);
    }
  }

  /**
   * What `sanitizeOutput` is meant to return: nothing for a missing or
   * empty output, otherwise each sequence kept verbatim in its place and
   * every other character escaped. That is the escaped output.
   */
  function SafeOutput(output: Option<string>): (r: string)
    ensures output.None? ==> r == ""
    ensures output.Some? ==> r == EscapeHtml(output.value)
  {
    if output.None? || output.value == "" then ""
    else
      var ts := Tokens(output.value, 0);
      TokensFacts(output.value, 0);
      assert output.value[0..] == output.value;
      IntendedIsEscape(ts);
      Intended(ts)
  }

  /** The safe output reads back as the output. */
  lemma SafeOutputRoundTrip(s: string)
    ensures Unescape(SafeOutput(Some(s))) == s
  {
    UnescapeEscape(s);
  }

  /** The characters of `/\x1b\[[0-9;]*m/`. */
  predicate SequenceChar(c: char) {
    c == Esc || c == '[' || c == ';' || c == 'm' || IsDigit(c)
  }

  /** An ANSI sequence between two texts passes through verbatim; the texts are escaped. */
  lemma SequenceKept(a: string, code: string, b: string)
    requires forall k :: 0 <= k < |code| ==> SequenceChar(code[k])
    ensures SafeOutput(Some(a + code + b)) == EscapeHtml(a) + code + EscapeHtml(b)
  {
    EscapeConcat(a + code, b);
    EscapeConcat(a, code);
    EscapePlain(code);
  }

  /** Coloured text without special characters or `_` comes back unchanged from the code as written. */
  lemma ColouredTextKept(a: string, t: string, b: string)
    requires forall k :: 0 <= k < |a| ==> SequenceChar(a[k])
    requires forall k :: 0 <= k < |b| ==> SequenceChar(b[k])
    requires forall k :: 0 <= k < |t| ==> !Special(t[k]) && t[k] != '_'
    ensures OutputAsWritten(Some(a + t + b)) == a + t + b
  {
    var s := a + t + b;
    forall k | 0 <= k < |s| ensures !Special(s[k]) && s[k] != '_' {
      if k < |a| {
        assert s[k] == a[k];
      } else if k < |a| + |t| {
        assert s[k] == t[k - |a|];
      } else {
        assert s[k] == b[k - |a| - |t|];
      }
    }
    MissingLetter(s, PlaceholderStart, '_');
    AsWrittenIsIntended(s);
    EscapePlain(s);
  }

  /** The red text of the service's tests comes back unchanged. */
  lemma RedTextKept(red: string, text: string, reset: string)
    requires red == "\U{1B}[31m" && text == "Red Text" && reset == "\U{1B}[0m"
    ensures OutputAsWritten(Some(red + text + reset)) == red + text + reset
  {
    ColouredTextKept(red, text, reset);
  }

  /** Around tags, plain text is kept and the angle brackets are escaped. */
  lemma TagsEscaped(before: string, tag: string, body: string)
    requires forall k :: 0 <= k < |before| ==> !Special(before[k])
    requires forall k :: 0 <= k < |tag| ==> !Special(tag[k])
    requires forall k :: 0 <= k < |body| ==> !Special(body[k])
    ensures SafeOutput(Some(before + "<" + tag + ">" + body + "</" + tag + ">"))
      == before + "&lt;" + tag + "&gt;" + body + "&lt;/" + tag + "&gt;"
  {
    assert EscapeHtml("<") == "&lt;" && EscapeHtml(">") == "&gt;" && EscapeHtml("</") == "&lt;/";
    EscapePlain(before);
    EscapePlain(tag);
    EscapePlain(body);
    var p1 := before + "<";
    EscapeConcat(before, "<");
    var p2 := p1 + tag;
    EscapeConcat(p1, tag);
    assert EscapeHtml(p2) == before + "&lt;" + tag;
    var p3 := p2 + ">";
    EscapeConcat(p2, ">");
    var p4 := p3 + body;
    EscapeConcat(p3, body);
    assert EscapeHtml(p4) == before + "&lt;" + tag + "&gt;" + body;
    var p5 := p4 + "</";
    EscapeConcat(p4, "</");
    var p6 := p5 + tag;
    EscapeConcat(p5, tag);
    assert EscapeHtml(p6) == before + "&lt;" + tag + "&gt;" + body + "&lt;/" + tag;
    EscapeConcat(p6, ">");
  }

  /** The example of the service's tests. */
  lemma CommandOutputEscaped(before: string, tag: string, body: string)
    requires before == "Command output: " && tag == "div" && body == "test"
    ensures SafeOutput(Some(before + "<" + tag + ">" + body + "</" + tag + ">"))
      == before + "&lt;" + tag + "&gt;" + body + "&lt;/" + tag + "&gt;"
  {
    TagsEscaped(before, tag, body);
  }

  /** A character that may appear in the escaped text. */
  predicate Safe(c: char) {
    c == '&' || !Special(c)
  }

  lemma {:induction false} CodesSafe(ts: seq<Piece>)
    requires Good(ts)
    ensures forall j, c :: 0 <= j < |CodesOf(ts)| && c in CodesOf(ts)[j] ==> Safe(c)
  {
    if ts != [] {
      assert GoodPiece(ts[0]);
      CodesSafe(ts[1..]);
    }
  }

  lemma {:induction false} RestoreSafe(t: string, codes: seq<string>, i: nat)
    requires forall c :: c in t ==> Safe(c)
    requires forall j, c :: 0 <= j < |codes| && c in codes[j] ==> Safe(c)
    ensures forall c :: c in RestoreFrom(t, codes, i) ==> Safe(c)
    decreases |codes| - i
  {
    if i < |codes| {
      RestoreSafe(ReplaceFirst(t, Placeholder(i), codes[i]), codes, i + 1);
    }
  }

  /**
   * Whatever the output, the code as written returns no angle bracket and
   * no quote: no tag, such as `<script>`, survives.
   */
  lemma AsWrittenSafe(output: Option<string>)
    ensures forall c :: c in OutputAsWritten(output) ==> Safe(c)
    ensures !Includes(OutputAsWritten(output), "<script>")
  {
    if output.Some? && output.value != "" {
      var ts := Tokens(output.value, 0);
      TokensFacts(output.value, 0);
      CodesSafe(ts);
      RestoreSafe(EscapeHtml(Masked(ts, 0)), CodesOf(ts), 0);
    }
    MissingLetter(OutputAsWritten(output), "<script>", '<');
  }

  /** A sequence found at `i` becomes the next placeholder and the next code. */
  lemma TokensCode(s: string, i: nat, e: nat, n: nat)
    requires i < e <= |s| && MatchEnd(AnsiPattern, s, i, 0, false) == Some(e)
    ensures Masked(Tokens(s, i), n) == Placeholder(n) + Masked(Tokens(s, e), n + 1)
    ensures CodesOf(Tokens(s, i)) == [s[i..e]] + CodesOf(Tokens(s, e))
  {
    var ts := Tokens(s, i);
    assert ts[0] == Code(s[i..e]) && ts[1..] == Tokens(s, e);
  }

  /** Any other character at `i` is kept. */
  lemma TokensText(s: string, i: nat, n: nat)
    requires i < |s|
    requires var m := MatchEnd(AnsiPattern, s, i, 0, false); !(m.Some? && m.value > i)
    ensures Masked(Tokens(s, i), n) == [s[i]] + Masked(Tokens(s, i + 1), n)
    ensures CodesOf(Tokens(s, i)) == CodesOf(Tokens(s, i + 1))
  {
    var ts := Tokens(s, i);
    assert ts[0] == Text(s[i]) && ts[1..] == Tokens(s, i + 1);
  }

  /**
   * The extracting `replace`: each sequence found, left to right, is
   * pushed on `ansiCodes` and replaced by the placeholder numbered with
   * the running `index`.
   */
  method ExtractCodes(s: string) returns (temp: string, ansiCodes: seq<string>)
    ensures temp == Masked(Tokens(s, 0), 0) && ansiCodes == CodesOf(Tokens(s, 0))
  {
    ghost var masked, codes := Masked(Tokens(s, 0), 0), CodesOf(Tokens(s, 0));
    temp, ansiCodes := "", [];
    var index: nat := 0;
    var i := 0;
    while i < |s|
      invariant i <= |s| && index == |ansiCodes|
      invariant temp + Masked(Tokens(s, i), index) == masked
      invariant ansiCodes + CodesOf(Tokens(s, i)) == codes
      decreases |s| - i
    {
      var m := MatchEnd(AnsiPattern, s, i, 0, false);
      if m.Some? && m.value > i {
        var e := m.value;
        TokensCode(s, i, e, index);
        Shift(temp, Placeholder(index), Masked(Tokens(s, e), index + 1), masked);
        Shift(ansiCodes, [s[i..e]], CodesOf(Tokens(s, e)), codes);
        ansiCodes := ansiCodes + [s[i..e]];
        temp := temp + Placeholder(index);
        index := index + 1;
        i := e;
      } else {
        TokensText(s, i, index);
        Shift(temp, [s[i]], Masked(Tokens(s, i + 1), index), masked);
        temp := temp + [s[i]];
        i := i + 1;
      }
    }
    assert temp + [] == temp && ansiCodes + [] == ansiCodes;
  }

  /** Moving a piece from the part still to do onto what is done keeps the whole. */
  lemma Shift<T>(done: seq<T>, x: seq<T>, rest: seq<T>, whole: seq<T>)
    requires done + (x + rest) == whole
    ensures (done + x) + rest == whole
  {
    assert done + (x + rest) == (done + x) + rest;
  }

  /** The restoring `forEach`: placeholder `k` is replaced by sequence `k`, first occurrence only. */
  method RestoreCodes(escaped: string, ansiCodes: seq<string>) returns (r: string)
    ensures r == RestoreFrom(escaped, ansiCodes, 0)
  {
    r := escaped;
    var k := 0;
    while k < |ansiCodes|
      invariant k <= |ansiCodes|
      invariant RestoreFrom(r, ansiCodes, k) == RestoreFrom(escaped, ansiCodes, 0)
    {
      r := ReplaceFirst(r, Placeholder(k), ansiCodes[k]);
      k := k + 1;
    }
  }

  /**
   * `sanitizeOutput`: nothing for a missing or empty output; otherwise no
   * tag or quote survives, and, for output without `__ANSI_`, the result
   * is the escaped output with its sequences in place.
   */
  method SanitizeOutput(output: Option<string>) returns (r: string)
    ensures r == OutputAsWritten(output)
    ensures forall c :: c in r ==> Safe(c)
    ensures output.Some? && !Includes(output.value, PlaceholderStart) ==> r == SafeOutput(output)
  {
    AsWrittenSafe(output);
    if output.None? || output.value == "" {
      return "";
    }
    var temp, ansiCodes := ExtractCodes(output.value);
    var escaped := EscapeHtml(temp);
    r := RestoreCodes(escaped, ansiCodes);
    if !Includes(output.value, PlaceholderStart) {
      AsWrittenIsIntended(output.value);
    }
  }

  /** The first pieces of a text without escape characters are its single characters. */
  function Texts(t: string): (r: seq<Piece>)
    ensures Masked(r, 0) == t && CodesOf(r) == []
  {
    if t == [] then [] else [Text(t[0])] + Texts(t[1..])
  }

  /** Characters other than the escape character are single pieces. */
  lemma {:induction false} TokensPlain(s: string, i: nat, j: nat)
    requires i <= j <= |s| && forall k :: i <= k < j ==> s[k] != Esc
    ensures Tokens(s, i) == Texts(s[i..j]) + Tokens(s, j)
    decreases j - i
  {
    if i < j {
      TokensPlain(s, i + 1, j);
      NoSequenceAt(s, i);
      assert Tokens(s, i) == [Text(s[i])] + Tokens(s, i + 1);
      assert s[i..j][0] == s[i] && s[i..j][1..] == s[i + 1..j];
    }
  }

  /** No sequence starts at a character other than the escape character. */
  lemma NoSequenceAt(s: string, i: nat)
    requires i < |s| && s[i] != Esc
    ensures MatchEnd(AnsiPattern, s, i, 0, false) == None
  {
  }

  lemma {:induction false} MaskedConcat(a: seq<Piece>, b: seq<Piece>, n: nat)
    ensures Masked(a + b, n) == Masked(a, n) + Masked(b, n + |CodesOf(a)|)
  {
    if a == [] {
      assert a + b == b;
    } else {
      var p, rest := a[0], a[1..];
      assert a == [p] + rest;
      assert a + b == [p] + (rest + b);
      CodesCons(p, rest);
      var m := if p.Code? then n + 1 else n;
      MaskedConcat(rest, b, m);
      var x := MaskedCons(p, rest, n);
      var x2 := MaskedCons(p, rest + b, n);
      Regroup(Masked(a + b, n), x, Masked(rest + b, m), Masked(rest, m), Masked(b, m + |CodesOf(rest)|), Masked(a, n));
    }
  }

  /** The text in front of `Masked` for a piece `p` numbered `n`. */
  lemma MaskedCons(p: Piece, rest: seq<Piece>, n: nat) returns (x: string)
    ensures x == (match p case Text(c) => [c] case Code(_) => Placeholder(n))
    ensures Masked([p] + rest, n) == x + Masked(rest, if p.Code? then n + 1 else n)
  {
    assert ([p] + rest)[0] == p && ([p] + rest)[1..] == rest;
    x := match p case Text(c) => [c] case Code(_) => Placeholder(n);
  }

  lemma {:induction false} CodesOfConcat(a: seq<Piece>, b: seq<Piece>)
    ensures CodesOf(a + b) == CodesOf(a) + CodesOf(b)
  {
    if a == [] {
      assert a + b == b;
    } else {
      assert (a + b)[0] == a[0] && (a + b)[1..] == a[1..] + b;
      CodesOfConcat(a[1..], b);
    }
  }

  /** The red sequence matches wherever it stands. */
  lemma RedMatches(s: string, i: nat)
    requires i + 5 <= |s| && s[i..i + 5] == "\U{1B}[31m"
    ensures MatchEnd(AnsiPattern, s, i, 0, false) == Some(i + 5)
  {
    var a := AnsiPattern;
    assert s[i] == Esc && s[i + 1] == '[' && s[i + 2] == '3' && s[i + 3] == '1' && s[i + 4] == 'm' by {
      assert s[i..i + 5][0] == s[i] && s[i..i + 5][1] == s[i + 1] && s[i..i + 5][2] == s[i + 2];
      assert s[i..i + 5][3] == s[i + 3] && s[i..i + 5][4] == s[i + 4];
    }
    assert MatchEnd(a, s, i + 5, 4, false) == Some(i + 5);
    assert MatchEnd(a, s, i + 4, 3, false) == Some(i + 5);
    assert MatchEnd(a, s, i + 4, 2, true) == Some(i + 5);
    assert MatchEnd(a, s, i + 3, 2, true) == Some(i + 5);
    assert MatchEnd(a, s, i + 2, 2, false) == Some(i + 5);
    assert MatchEnd(a, s, i + 1, 1, false) == Some(i + 5);
  }

  /** How the counterexample below is cut into pieces. */
  lemma SwappedTokens(s: string, head: string, code: string)
    requires head == "__ANSI_0__" && code == "\U{1B}[31m" && s == head + code
    ensures Tokens(s, 0) == Texts(head) + [Code(code)]
  {
    assert s[10..15] == code && s[..10] == head;
    RedMatches(s, 10);
    assert Tokens(s, 10) == [Code(code)] + Tokens(s, 15);
    TokensPlain(s, 0, 10);
  }

  lemma SwappedMasked(s: string, head: string, code: string)
    requires head == "__ANSI_0__" && code == "\U{1B}[31m" && s == head + code
    ensures Masked(Tokens(s, 0), 0) == head + head && CodesOf(Tokens(s, 0)) == [code]
  {
    assert Decimal(0) == "0";
    assert Placeholder(0) == head;
    SwappedTokens(s, head, code);
    MaskedConcat(Texts(head), [Code(code)], 0);
    CodesOfConcat(Texts(head), [Code(code)]);
    assert Masked([Code(code)], 0) == Placeholder(0) + Masked([], 1);
  }

  lemma SwappedRestored(head: string, code: string)
    requires head == "__ANSI_0__"
    ensures RestoreFrom(EscapeHtml(head + head), [code], 0) == code + head
  {
    assert Placeholder(0) == head by {
      assert Decimal(0) == "0";
    }
    EscapeConcat(head, head);
    EscapePlain(head);
    ReplaceFirstAtStart(head, head, code);
    assert RestoreFrom(code + head, [code], 1) == code + head;
  }

  /** Text that starts with the word has that first occurrence replaced. */
  lemma ReplaceFirstAtStart(w: string, rest: string, r: string)
    requires |w| > 0
    ensures ReplaceFirst(w + rest, w, r) == r + rest
  {
    assert (w + rest)[..|w|] == w;
    assert (w + rest)[|w|..] == rest;
  }

  /**
   * Text that reads like the first placeholder, followed by a red
   * sequence, comes back with the two swapped: the restoring step replaces
   * the first `__ANSI_0__` it finds, which is the one from the output.
   */
  lemma PlaceholderTextSwapped(s: string, head: string, code: string)
    requires head == "__ANSI_0__" && code == "\U{1B}[31m" && s == head + code
    ensures OutputAsWritten(Some(s)) == code + head
    ensures SafeOutput(Some(s)) == s
    ensures OutputAsWritten(Some(s)) != SafeOutput(Some(s))
  {
    SwappedMasked(s, head, code);
    SwappedRestored(head, code);
    assert Decimal(0) == "0";
    assert Placeholder(0) == head;
    EscapePlain(head);
    EscapePlain(code);
    EscapeConcat(head, code);
    assert (code + head)[0] != s[0];
  }
}
