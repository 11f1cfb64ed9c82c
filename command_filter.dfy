/**
 * The backend's command denylist (CommandFilterService): an ordered list of
 * regular expressions; a command is safe when none of them matches anywhere
 * in it, and `sanitize` swaps an unsafe command for a fixed comment line.
 */
module CommandFilter {
  import opened Wrappers
  import opened JsText
  import opened Regex

  function Ch(c: char): Atom { Atom(Char(c), Once) }
  function Spaces(): Atom { Atom(Space, Plus) }
  function AnyRun(): Atom { Atom(Dot, Star) }

  /** The atoms matching `w[t..]` literally. */
  function LitFrom(w: string, t: nat): (p: Pattern)
    ensures |p| == if t <= |w| then |w| - t else 0
    ensures forall u :: 0 <= u < |p| ==> p[u] == Ch(w[t + u])
    decreases |w| - t
  {
    if t >= |w| then [] else [Ch(w[t])] + LitFrom(w, t + 1)
  }

  /**
   * One denylist entry. Every expression of the list is an optional leading
   * `\s+`, a literal command word, and the rest of the expression;
   * `anchored` marks the one written with `^`.
   */
  datatype Rule = Rule(leadingSpace: bool, word: string, rest: Pattern, anchored: bool)
  {
    function Pattern(): Pattern {
      (if leadingSpace then [Spaces()] else []) + LitFrom(word, 0) + rest
    }
  }

  /** Entry `k` of `dangerousPatterns`, in the order of the source. */
  function DangerousPattern(k: nat): Rule
    requires k < 21
  {
    match k
    case 0 => Rule(false, "rm", [Spaces(), Ch('-'), Ch('r'), Ch('f'), Spaces(), Ch('/')], false)  // rm\s+-rf\s+\/
    case 1 => Rule(false, "rm", [Spaces(), Ch('-'), Ch('r'), Ch('f'), Spaces(), Ch('~')], false)  // rm\s+-rf\s+~
    case 2 => Rule(false, "rm", [Spaces(), Ch('-'), Ch('r'), Ch('f'), Spaces(), Ch('.')], false)  // rm\s+-rf\s+\.
    case 3 => Rule(false, "rm", [Spaces(), Ch('-'), Ch('r'), Ch('f'), Spaces(), Ch('*')], false)  // rm\s+-rf\s+\*
    case 4 => Rule(false, "sudo", [Spaces(), Ch('r'), Ch('m')], false)  // sudo\s+rm
    case 5 => Rule(false, "mkfs", [], false)  // mkfs
    case 6 => Rule(false, "dd", [Spaces(), AnyRun(), Ch('o'), Ch('f'), Ch('='), Ch('/'), Ch('d'), Ch('e'), Ch('v')], false)  // dd\s+.*of=\/dev
    case 7 => Rule(false, "chmod", [Spaces(), Ch('-'), Ch('R'), Spaces(), Ch('7'), Ch('7'), Ch('7')], false)  // chmod\s+-R\s+777
    case 8 => Rule(false, "chmod", [Spaces(), Ch('7'), Ch('7'), Ch('7')], false)  // chmod\s+777
    case 9 => Rule(false, "chown", [Spaces(), Ch('-'), Ch('R'), Spaces(), Ch('r'), Ch('o'), Ch('o'), Ch('t')], false)  // chown\s+-R\s+root
    case 10 => Rule(false, "sudo", [Spaces()], true)  // ^sudo\s+
    case 11 => Rule(true, "sudo", [Spaces()], false)  // \s+sudo\s+
    case 12 => Rule(false, ":(){", [AnyRun(), Ch('|'), AnyRun(), Ch('&'), AnyRun(), Ch('}'), Ch(';'), Ch(':')], false)  // :\(\)\{.*\|.*&.*\};:
    case 13 => Rule(false, "fdisk", [], false)  // fdisk
    case 14 => Rule(false, "parted", [], false)  // parted
    case 15 => Rule(false, "mount", [Spaces(), Ch('/'), Ch('d'), Ch('e'), Ch('v')], false)  // mount\s+\/dev
    case 16 => Rule(false, "umount", [], false)  // umount
    case 17 => Rule(false, "shutdown", [], false)  // shutdown
    case 18 => Rule(false, "reboot", [], false)  // reboot
    case 19 => Rule(false, "init", [Spaces(), Ch('0')], false)  // init\s+0
    case 20 => Rule(false, "systemctl", [Spaces(), Ch('s'), Ch('t'), Ch('o'), Ch('p')], false)  // systemctl\s+stop
  }

  /** `dangerousPatterns`. */
  const DangerousPatterns: seq<Rule> := [
    DangerousPattern(0), DangerousPattern(1), DangerousPattern(2), DangerousPattern(3), DangerousPattern(4), DangerousPattern(5), DangerousPattern(6), DangerousPattern(7), DangerousPattern(8), DangerousPattern(9), DangerousPattern(10), DangerousPattern(11), DangerousPattern(12), DangerousPattern(13), DangerousPattern(14), DangerousPattern(15), DangerousPattern(16), DangerousPattern(17), DangerousPattern(18), DangerousPattern(19), DangerousPattern(20)
  ]

  /** The placeholder `sanitize` returns for an unsafe command. */
  const Blocked: string := "# Dangerous command blocked"

  /** `pattern.test(command)` for one denylist entry. */
  predicate RuleTest(rule: Rule, s: string) {
    if rule.anchored then TestAnchored(rule.Pattern(), s) else Test(rule.Pattern(), s)
  }

  /** The entry matches at position `i` (an anchored entry only at 0). */
  predicate RuleAt(rule: Rule, s: string, i: nat)
    requires i <= |s|
  {
    (!rule.anchored || i == 0) && MatchesAt(rule.Pattern(), s, i)
  }

  /** The loop of `isSafe` over `rules` from entry `k` on: false at the first entry that matches. */
  predicate NoneMatchFrom(rules: seq<Rule>, s: string, k: nat)
    decreases |rules| - k
  {
    k >= |rules| || (!RuleTest(rules[k], s) && NoneMatchFrom(rules, s, k + 1))
  }

  /** `isSafe`: a missing or empty command is safe; otherwise no entry may match. */
  predicate IsSafe(command: Option<string>) {
    command.None? || command.value == "" || NoneMatchFrom(DangerousPatterns, command.value, 0)
  }

  /** `sanitize`: an unsafe command becomes the placeholder, anything else is returned as is. */
  function Sanitize(command: Option<string>): (r: Option<string>)
    ensures r == command || r == Some(Blocked)
    ensures IsSafe(r)
  {
    if IsSafe(command) then command
    else
      BlockedIsSafe();
      Some(Blocked)
  }

  // ---------------------------------------------------------------------
  // Every match contains the entry's command word.

  /** The literal word of an entry sits right after its optional leading `\s+`. */
  lemma {:induction false} WordInPattern(rule: Rule, t: nat)
    requires t <= |rule.word|
    ensures LitAt(rule.Pattern(), rule.word, if rule.leadingSpace then 1 else 0, t)
    decreases |rule.word| - t
  {
    if t < |rule.word| {
      WordInPattern(rule, t + 1);
      var pre: Pattern := if rule.leadingSpace then [Spaces()] else [];
      assert rule.Pattern()[|pre| + t] == LitFrom(rule.word, 0)[t];
    }
  }

  /** A match of an entry starts with, or after a run of white space reaches, its command word. */
  lemma RuleNeedsWord(rule: Rule, s: string, i: nat)
    requires i <= |s| && MatchesAt(rule.Pattern(), s, i)
    ensures Includes(s, rule.word)
  {
    var p := rule.Pattern();
    WordInPattern(rule, 0);
    if rule.leadingSpace {
      assert p[0] == Spaces();
      var k := RepeatThenRest(p, s, i + 1, 0);
      MatchStartsWithLit(p, rule.word, s, k, 1);
      assert 0 <= k <= |s| && OccursAt(s, rule.word, k);
    } else {
      MatchStartsWithLit(p, rule.word, s, i, 0);
      assert 0 <= i <= |s| && OccursAt(s, rule.word, i);
    }
  }

  /** An entry that tests true on `s` has its command word in `s`. */
  lemma RuleTestNeedsWord(rule: Rule, s: string)
    requires RuleTest(rule, s)
    ensures Includes(s, rule.word)
  {
    if rule.anchored {
      RuleNeedsWord(rule, s, 0);
    } else {
      SearchFromIff(rule.Pattern(), s, 0);
      var i :| 0 <= i <= |s| && MatchesAt(rule.Pattern(), s, i);
      RuleNeedsWord(rule, s, i);
    }
  }

  /**
   * An entry without a leading `\s+` matches at `i` exactly when its word
   * occurs at `i` and the rest of its expression matches right after it.
   */
  lemma WordRuleMatch(rule: Rule, s: string, i: nat)
    requires !rule.leadingSpace && i <= |s|
    ensures MatchesAt(rule.Pattern(), s, i) <==>
      OccursAt(s, rule.word, i) && MatchEnd(rule.rest, s, i + |rule.word|, 0, false).Some?
  {
    var p := rule.Pattern();
    var lit := LitFrom(rule.word, 0);
    assert p == lit + rule.rest;
    WordInPattern(rule, 0);
    MatchLitIff(p, rule.word, s, i, 0);
    if OccursAt(s, rule.word, i) {
      MatchEndSuffix(lit, rule.rest, s, i + |rule.word|, 0, false);
    }
  }

  /** An entry that is a bare word tests true exactly when the word occurs in the command. */
  lemma PlainWordRule(rule: Rule, s: string)
    requires !rule.leadingSpace && rule.rest == [] && !rule.anchored
    ensures RuleTest(rule, s) <==> Includes(s, rule.word)
  {
    RuleTestIff(rule, s);
    if RuleTest(rule, s) {
      var i :| 0 <= i <= |s| && RuleAt(rule, s, i);
      WordRuleMatch(rule, s, i);
    }
    if Includes(s, rule.word) {
      var i :| 0 <= i <= |s| && OccursAt(s, rule.word, i);
      WordRuleMatch(rule, s, i);
      assert RuleAt(rule, s, i);
    }
  }

  // ---------------------------------------------------------------------
  // `isSafe` is "no entry matches anywhere".

  lemma {:induction false} NoneMatchFromIff(rules: seq<Rule>, s: string, k: nat)
    ensures NoneMatchFrom(rules, s, k) <==> forall n :: k <= n < |rules| ==> !RuleTest(rules[n], s)
    decreases |rules| - k
  {
    if k < |rules| {
      NoneMatchFromIff(rules, s, k + 1);
    }
  }

  /** One entry tests true exactly when it matches at some position it is allowed to. */
  lemma RuleTestIff(rule: Rule, s: string)
    ensures RuleTest(rule, s) <==> exists i :: 0 <= i <= |s| && RuleAt(rule, s, i)
  {
    if rule.anchored {
      if RuleTest(rule, s) {
        assert RuleAt(rule, s, 0);
      }
      if exists i :: 0 <= i <= |s| && RuleAt(rule, s, i) {
        var i :| 0 <= i <= |s| && RuleAt(rule, s, i);
        assert i == 0;
      }
    } else {
      SearchFromIff(rule.Pattern(), s, 0);
      if RuleTest(rule, s) {
        var i :| 0 <= i <= |s| && MatchesAt(rule.Pattern(), s, i);
        assert RuleAt(rule, s, i);
      }
      if exists i :: 0 <= i <= |s| && RuleAt(rule, s, i) {
        var i :| 0 <= i <= |s| && RuleAt(rule, s, i);
        assert MatchesAt(rule.Pattern(), s, i);
      }
    }
  }

  /** An entry with a non-empty command word does not match the empty command. */
  lemma EmptyMatchesNothing(rule: Rule)
    requires rule.word != []
    ensures !RuleTest(rule, "")
  {
    if RuleTest(rule, "") {
      RuleTestNeedsWord(rule, "");
    }
  }

  /** The command words of the list. */
  predicate CommandWord(w: string) {
    || w == "rm" || w == "sudo" || w == "mkfs" || w == "dd" || w == "chmod" || w == "chown"
    || w == ":(){" || w == "fdisk" || w == "parted" || w == "mount" || w == "umount"
    || w == "shutdown" || w == "reboot" || w == "init" || w == "systemctl"
  }

  lemma EveryEntryHasCommandWord()
    ensures forall k :: 0 <= k < |DangerousPatterns| ==> CommandWord(DangerousPatterns[k].word)
  {
    forall k | 0 <= k < |DangerousPatterns| ensures CommandWord(DangerousPatterns[k].word) {
      assert DangerousPatterns[k] == DangerousPattern(k);
    }
  }

  lemma CommandWordNonEmpty(w: string)
    requires CommandWord(w)
    ensures w != []
  {
  }

  /** No entry of the list matches the empty command. */
  lemma NoEntryMatchesEmpty()
    ensures forall k :: 0 <= k < |DangerousPatterns| ==> !RuleTest(DangerousPatterns[k], "")
  {
    EveryEntryHasCommandWord();
    forall k | 0 <= k < |DangerousPatterns| ensures !RuleTest(DangerousPatterns[k], "") {
      CommandWordNonEmpty(DangerousPatterns[k].word);
      EmptyMatchesNothing(DangerousPatterns[k]);
    }
  }

  /** A command is safe exactly when no entry of the list tests true on it. */
  lemma IsSafeIff(s: string)
    ensures IsSafe(Some(s)) <==> forall k :: 0 <= k < |DangerousPatterns| ==> !RuleTest(DangerousPatterns[k], s)
  {
    NoneMatchFromIff(DangerousPatterns, s, 0);
    if s == "" {
      NoEntryMatchesEmpty();
    }
  }

  /** A command is unsafe exactly when some entry matches somewhere in it. */
  lemma UnsafeIff(s: string)
    ensures !IsSafe(Some(s)) <==>
      exists k, i :: 0 <= k < |DangerousPatterns| && 0 <= i <= |s| && RuleAt(DangerousPatterns[k], s, i)
  {
    IsSafeIff(s);
    if !IsSafe(Some(s)) {
      var k :| 0 <= k < |DangerousPatterns| && RuleTest(DangerousPatterns[k], s);
      RuleTestIff(DangerousPatterns[k], s);
    }
    if exists k, i :: 0 <= k < |DangerousPatterns| && 0 <= i <= |s| && RuleAt(DangerousPatterns[k], s, i) {
      var k, i :| 0 <= k < |DangerousPatterns| && 0 <= i <= |s| && RuleAt(DangerousPatterns[k], s, i);
      RuleTestIff(DangerousPatterns[k], s);
    }
  }

  // ---------------------------------------------------------------------
  // Commands without any command word are safe.

  /** None of the command words of the list occurs in `s`. */
  predicate Harmless(s: string) {
    && !Includes(s, "rm") && !Includes(s, "sudo") && !Includes(s, "mkfs") && !Includes(s, "dd")
    && !Includes(s, "chmod") && !Includes(s, "chown") && !Includes(s, ":(){") && !Includes(s, "fdisk")
    && !Includes(s, "parted") && !Includes(s, "mount") && !Includes(s, "umount") && !Includes(s, "shutdown")
    && !Includes(s, "reboot") && !Includes(s, "init") && !Includes(s, "systemctl")
  }

  lemma HarmlessIsSafe(s: string)
    requires Harmless(s)
    ensures IsSafe(Some(s))
  {
    EveryEntryHasCommandWord();
    forall k | 0 <= k < |DangerousPatterns| ensures !RuleTest(DangerousPatterns[k], s) {
      if RuleTest(DangerousPatterns[k], s) {
        RuleTestNeedsWord(DangerousPatterns[k], s);
      }
    }
    IsSafeIff(s);
  }

  /** The letters the placeholder is written with. */
  function PlaceholderLetters(): set<char> {
    {'#', ' ', 'D', 'a', 'n', 'g', 'e', 'r', 'o', 'u', 's', 'c', 'm', 'd', 'b', 'l', 'k'}
  }

  /** A text written with `letters` lacks every word with a letter outside them. */
  lemma OutsideLetters(s: string, letters: set<char>, w: string, c: char)
    requires LettersFrom(s, letters, 0)
    requires c in w && c !in letters
    ensures !Includes(s, w)
  {
    LettersFromAll(s, letters, 0);
    MissingLetter(s, w, c);
  }

  /**
   * A text written with the placeholder's letters in which "rm", "sudo" and
   * "dd" do not occur contains no command word: every other word has a
   * letter the placeholder lacks.
   */
  lemma HarmlessByLetters(s: string)
    requires LettersFrom(s, PlaceholderLetters(), 0)
    requires !Includes(s, "rm") && !Includes(s, "sudo") && !Includes(s, "dd")
    ensures Harmless(s)
  {
    OutsideLetters(s, PlaceholderLetters(), "mkfs", 'f');
    OutsideLetters(s, PlaceholderLetters(), "chmod", 'h');
    OutsideLetters(s, PlaceholderLetters(), "chown", 'h');
    OutsideLetters(s, PlaceholderLetters(), ":(){", ':');
    OutsideLetters(s, PlaceholderLetters(), "fdisk", 'f');
    OutsideLetters(s, PlaceholderLetters(), "parted", 'p');
    OutsideLetters(s, PlaceholderLetters(), "mount", 't');
    OutsideLetters(s, PlaceholderLetters(), "umount", 't');
    OutsideLetters(s, PlaceholderLetters(), "shutdown", 'h');
    OutsideLetters(s, PlaceholderLetters(), "reboot", 't');
    OutsideLetters(s, PlaceholderLetters(), "init", 'i');
    OutsideLetters(s, PlaceholderLetters(), "systemctl", 'y');
  }

  lemma BlockedLetters()
    ensures LettersFrom(Blocked, PlaceholderLetters(), 0)
  {
    assert LettersFrom(Blocked, PlaceholderLetters(), 24);
    assert LettersFrom(Blocked, PlaceholderLetters(), 20);
    assert LettersFrom(Blocked, PlaceholderLetters(), 16);
    assert LettersFrom(Blocked, PlaceholderLetters(), 12);
    assert LettersFrom(Blocked, PlaceholderLetters(), 8);
    assert LettersFrom(Blocked, PlaceholderLetters(), 4);
  }

  // "rm", "sudo" and "dd" are absent from the placeholder: each half of it
  // lacks a letter of each word, and the space between them is in none.

  lemma BlockedHalves()
    ensures Blocked == "# Dangerous " + "command blocked"
  {
  }

  lemma BlockedLacksRm()
    ensures !Includes(Blocked, "rm")
  {
    BlockedHalves();
    MissingLetter("# Dangerous ", "rm", 'm');
    MissingLetter("command blocked", "rm", 'r');
    AbsentFromBoth("# Dangerous ", "command blocked", "rm");
  }

  lemma BlockedLacksSudo()
    ensures !Includes(Blocked, "sudo")
  {
    BlockedHalves();
    MissingLetter("# Dangerous ", "sudo", 'd');
    MissingLetter("command blocked", "sudo", 'u');
    AbsentFromBoth("# Dangerous ", "command blocked", "sudo");
  }

  lemma BackHalfLacksDd()
    ensures AbsentFrom("command blocked", "dd", 0)
  {
    assert AbsentFrom("command blocked", "dd", 8);
  }

  lemma BlockedLacksDd()
    ensures !Includes(Blocked, "dd")
  {
    BlockedHalves();
    MissingLetter("# Dangerous ", "dd", 'd');
    BackHalfLacksDd();
    AbsentIff("command blocked", "dd");
    AbsentFromBoth("# Dangerous ", "command blocked", "dd");
  }

  /** The placeholder itself passes the filter. */
  lemma BlockedIsSafe()
    ensures IsSafe(Some(Blocked))
  {
    BlockedLetters();
    BlockedLacksRm();
    BlockedLacksSudo();
    BlockedLacksDd();
    HarmlessByLetters(Blocked);
    HarmlessIsSafe(Blocked);
  }

  // ---------------------------------------------------------------------
  // The everyday commands of the tests contain no command word: each word has
  // a letter the command does not use, or a scan of the command misses it.

  /** A text that uses none of the letters in `absent` lacks every word spelled with one of them. */
  lemma AbsentLetter(s: string, absent: set<char>, w: string)
    requires forall k :: 0 <= k < |s| ==> s[k] !in absent
    requires exists c :: c in absent && c in w
    ensures !Includes(s, w)
  {
    var c :| c in absent && c in w;
    MissingLetter(s, w, c);
  }

  /** Each command word has a letter in `absent`, or is otherwise known not to occur in `s`. */
  predicate Spoiled(s: string, absent: set<char>) {
    && ('r' in absent || 'm' in absent || !Includes(s, "rm"))
    && ('s' in absent || 'u' in absent || 'd' in absent || 'o' in absent || !Includes(s, "sudo"))
    && ('m' in absent || 'k' in absent || 'f' in absent || 's' in absent || !Includes(s, "mkfs"))
    && ('d' in absent || !Includes(s, "dd"))
    && ('c' in absent || 'h' in absent || 'm' in absent || 'o' in absent || 'd' in absent || !Includes(s, "chmod"))
    && ('c' in absent || 'h' in absent || 'o' in absent || 'w' in absent || 'n' in absent || !Includes(s, "chown"))
    && (':' in absent || '(' in absent || ')' in absent || '{' in absent || !Includes(s, ":(){"))
    && ('f' in absent || 'd' in absent || 'i' in absent || 's' in absent || 'k' in absent || !Includes(s, "fdisk"))
    && ('p' in absent || 'a' in absent || 'r' in absent || 't' in absent || 'e' in absent || 'd' in absent || !Includes(s, "parted"))
    && ('m' in absent || 'o' in absent || 'u' in absent || 'n' in absent || 't' in absent || !Includes(s, "mount"))
    && ('u' in absent || 'm' in absent || 'o' in absent || 'n' in absent || 't' in absent || !Includes(s, "umount"))
    && ('s' in absent || 'h' in absent || 'u' in absent || 't' in absent || 'd' in absent || 'o' in absent || 'w' in absent || 'n' in absent || !Includes(s, "shutdown"))
    && ('r' in absent || 'e' in absent || 'b' in absent || 'o' in absent || 't' in absent || !Includes(s, "reboot"))
    && ('i' in absent || 'n' in absent || 't' in absent || !Includes(s, "init"))
    && ('s' in absent || 'y' in absent || 't' in absent || 'e' in absent || 'm' in absent || 'c' in absent || 'l' in absent || !Includes(s, "systemctl"))
  }

  /** A text that avoids the letters of `absent`, where they spoil every command word, is harmless. */
  lemma HarmlessSpoiled(s: string, absent: set<char>)
    requires forall k :: 0 <= k < |s| ==> s[k] !in absent
    requires Spoiled(s, absent)
    ensures Harmless(s)
  {
    if Includes(s, "rm") { AbsentLetter(s, absent, "rm"); }
    if Includes(s, "sudo") { AbsentLetter(s, absent, "sudo"); }
    if Includes(s, "mkfs") { AbsentLetter(s, absent, "mkfs"); }
    if Includes(s, "dd") { AbsentLetter(s, absent, "dd"); }
    if Includes(s, "chmod") { AbsentLetter(s, absent, "chmod"); }
    if Includes(s, "chown") { AbsentLetter(s, absent, "chown"); }
    if Includes(s, ":(){") { AbsentLetter(s, absent, ":(){"); }
    if Includes(s, "fdisk") { AbsentLetter(s, absent, "fdisk"); }
    if Includes(s, "parted") { AbsentLetter(s, absent, "parted"); }
    if Includes(s, "mount") { AbsentLetter(s, absent, "mount"); }
    if Includes(s, "umount") { AbsentLetter(s, absent, "umount"); }
    if Includes(s, "shutdown") { AbsentLetter(s, absent, "shutdown"); }
    if Includes(s, "reboot") { AbsentLetter(s, absent, "reboot"); }
    if Includes(s, "init") { AbsentLetter(s, absent, "init"); }
    if Includes(s, "systemctl") { AbsentLetter(s, absent, "systemctl"); }
  }

  /** `ls` passes the filter. */
  lemma ListSafe()
    ensures IsSafe(Some("ls"))
  {
    var absent := {'(', ')', ':', 'a', 'b', 'c', 'd', 'e', 'f', 'h', 'i', 'k', 'm', 'n', 'o', 'p', 'r', 't', 'u', 'w', 'y', '{'};
    assert forall k :: 0 <= k < |"ls"| ==> "ls"[k] !in absent;
    HarmlessSpoiled("ls", absent);
    HarmlessIsSafe("ls");
  }

  /** A scan of `pwd` finds no "dd". */
  lemma WorkingDirectoryScanned()
    ensures !Includes("pwd", "dd")
  {
    AbsentIff("pwd", "dd");
  }

  /** `pwd` passes the filter. */
  lemma WorkingDirectorySafe()
    ensures IsSafe(Some("pwd"))
  {
    WorkingDirectoryScanned();
    var absent := {'(', ')', ':', 'a', 'b', 'c', 'e', 'f', 'h', 'i', 'k', 'l', 'm', 'n', 'o', 'r', 's', 't', 'u', 'y', '{'};
    assert forall k :: 0 <= k < |"pwd"| ==> "pwd"[k] !in absent;
    HarmlessSpoiled("pwd", absent);
    HarmlessIsSafe("pwd");
  }

  /** A scan of `cd /home/user` finds no "rm", "sudo", "dd", "chmod". */
  lemma ChangeDirectoryScanned()
    ensures !Includes("cd /home/user", "rm") && !Includes("cd /home/user", "sudo") && !Includes("cd /home/user", "dd") && !Includes("cd /home/user", "chmod")
  {
    AbsentIff("cd /home/user", "rm");
    AbsentIff("cd /home/user", "sudo");
    AbsentIff("cd /home/user", "dd");
    AbsentIff("cd /home/user", "chmod");
  }

  /** `cd /home/user` passes the filter. */
  lemma ChangeDirectorySafe()
    ensures IsSafe(Some("cd /home/user"))
  {
    ChangeDirectoryScanned();
    var absent := {'(', ')', ':', 'a', 'b', 'f', 'i', 'k', 'l', 'n', 'p', 't', 'w', 'y', '{'};
    assert forall k :: 0 <= k < |"cd /home/user"| ==> "cd /home/user"[k] !in absent;
    HarmlessSpoiled("cd /home/user", absent);
    HarmlessIsSafe("cd /home/user");
  }

  /** `git status` passes the filter. */
  lemma GitStatusSafe()
    ensures IsSafe(Some("git status"))
  {
    var absent := {'(', ')', ':', 'b', 'c', 'd', 'e', 'f', 'h', 'k', 'l', 'm', 'n', 'o', 'p', 'r', 'w', 'y', '{'};
    assert forall k :: 0 <= k < |"git status"| ==> "git status"[k] !in absent;
    HarmlessSpoiled("git status", absent);
    HarmlessIsSafe("git status");
  }

  /** A scan of `npm install` finds no "init". */
  lemma NpmInstallScanned()
    ensures !Includes("npm install", "init")
  {
    AbsentIff("npm install", "init");
  }

  /** `npm install` passes the filter. */
  lemma NpmInstallSafe()
    ensures IsSafe(Some("npm install"))
  {
    NpmInstallScanned();
    var absent := {'(', ')', ':', 'b', 'c', 'd', 'e', 'f', 'h', 'k', 'o', 'r', 'u', 'w', 'y', '{'};
    assert forall k :: 0 <= k < |"npm install"| ==> "npm install"[k] !in absent;
    HarmlessSpoiled("npm install", absent);
    HarmlessIsSafe("npm install");
  }

  /** A scan of `echo "Hello World"` finds no "dd". */
  lemma EchoScanned()
    ensures !Includes("echo \"Hello World\"", "dd")
  {
    AbsentIff("echo \"Hello World\"", "dd");
  }

  /** `echo "Hello World"` passes the filter. */
  lemma EchoSafe()
    ensures IsSafe(Some("echo \"Hello World\""))
  {
    EchoScanned();
    var absent := {'(', ')', ':', 'a', 'b', 'f', 'i', 'k', 'm', 'n', 'p', 's', 't', 'u', 'w', 'y', '{'};
    assert forall k :: 0 <= k < |"echo \"Hello World\""| ==> "echo \"Hello World\""[k] !in absent;
    HarmlessSpoiled("echo \"Hello World\"", absent);
    HarmlessIsSafe("echo \"Hello World\"");
  }

  /** `cat file.txt` passes the filter. */
  lemma CatSafe()
    ensures IsSafe(Some("cat file.txt"))
  {
    var absent := {'(', ')', ':', 'b', 'd', 'h', 'k', 'm', 'n', 'o', 'p', 'r', 's', 'u', 'w', 'y', '{'};
    assert forall k :: 0 <= k < |"cat file.txt"| ==> "cat file.txt"[k] !in absent;
    HarmlessSpoiled("cat file.txt", absent);
    HarmlessIsSafe("cat file.txt");
  }

  /** A scan of `grep pattern file.txt` finds no "init". */
  lemma GrepScanned()
    ensures !Includes("grep pattern file.txt", "init")
  {
    assert AbsentFrom("grep pattern file.txt", "init", 14);
    assert AbsentFrom("grep pattern file.txt", "init", 7);
    AbsentIff("grep pattern file.txt", "init");
  }

  /** `grep pattern file.txt` passes the filter. */
  lemma GrepSafe()
    ensures IsSafe(Some("grep pattern file.txt"))
  {
    GrepScanned();
    var absent := {'(', ')', ':', 'b', 'c', 'd', 'h', 'k', 'm', 'o', 's', 'u', 'w', 'y', '{'};
    assert forall k :: 0 <= k < |"grep pattern file.txt"| ==> "grep pattern file.txt"[k] !in absent;
    HarmlessSpoiled("grep pattern file.txt", absent);
    HarmlessIsSafe("grep pattern file.txt");
  }

  /** A scan of `mkdir new-folder` finds no "rm", "dd". */
  lemma MakeDirectoryScanned()
    ensures !Includes("mkdir new-folder", "rm") && !Includes("mkdir new-folder", "dd")
  {
    AbsentIff("mkdir new-folder", "rm");
    assert AbsentFrom("mkdir new-folder", "dd", 8);
    AbsentIff("mkdir new-folder", "dd");
  }

  /** `mkdir new-folder` passes the filter. */
  lemma MakeDirectorySafe()
    ensures IsSafe(Some("mkdir new-folder"))
  {
    MakeDirectoryScanned();
    var absent := {'(', ')', ':', 'a', 'b', 'c', 'h', 'p', 's', 't', 'u', 'y', '{'};
    assert forall k :: 0 <= k < |"mkdir new-folder"| ==> "mkdir new-folder"[k] !in absent;
    HarmlessSpoiled("mkdir new-folder", absent);
    HarmlessIsSafe("mkdir new-folder");
  }

  /** `cp file1 file2` passes the filter. */
  lemma CopySafe()
    ensures IsSafe(Some("cp file1 file2"))
  {
    var absent := {'(', ')', ':', 'a', 'b', 'd', 'h', 'k', 'm', 'n', 'o', 'r', 's', 't', 'u', 'w', 'y', '{'};
    assert forall k :: 0 <= k < |"cp file1 file2"| ==> "cp file1 file2"[k] !in absent;
    HarmlessSpoiled("cp file1 file2", absent);
    HarmlessIsSafe("cp file1 file2");
  }

  /** `ls -la` passes the filter. */
  lemma ListingSafe()
    ensures IsSafe(Some("ls -la"))
  {
    var absent := {'(', ')', ':', 'b', 'c', 'd', 'e', 'f', 'h', 'i', 'k', 'm', 'n', 'o', 'p', 'r', 't', 'u', 'w', 'y', '{'};
    assert forall k :: 0 <= k < |"ls -la"| ==> "ls -la"[k] !in absent;
    HarmlessSpoiled("ls -la", absent);
    HarmlessIsSafe("ls -la");
  }

  /** Every command the filter's tests expect to pass does pass. */
  lemma SafeCommands(s: string)
    requires s in {"ls", "pwd", "cd /home/user", "git status", "npm install", "echo \"Hello World\"", "cat file.txt", "grep pattern file.txt", "mkdir new-folder", "cp file1 file2"}
    ensures IsSafe(Some(s))
  {
    ListSafe();
    WorkingDirectorySafe();
    ChangeDirectorySafe();
    GitStatusSafe();
    NpmInstallSafe();
    EchoSafe();
    CatSafe();
    GrepSafe();
    MakeDirectorySafe();
    CopySafe();
  }

  /** A command naming mkfs, fdisk, parted, umount, shutdown or reboot anywhere is unsafe. */
  lemma PlainWordsUnsafe(s: string)
    requires Includes(s, "mkfs") || Includes(s, "fdisk") || Includes(s, "parted")
          || Includes(s, "umount") || Includes(s, "shutdown") || Includes(s, "reboot")
    ensures !IsSafe(Some(s))
  {
    var k: nat :|
      k in {5, 13, 14, 16, 17, 18} && k < |DangerousPatterns| && Includes(s, DangerousPatterns[k].word);
    PlainWordRule(DangerousPatterns[k], s);
    IsSafeIff(s);
  }

  /** An entry of the list that matches where it may makes the command unsafe. */
  lemma EntryMakesUnsafe(k: nat, s: string, i: nat)
    requires k < |DangerousPatterns| && i <= |s| && RuleAt(DangerousPattern(k), s, i)
    ensures !IsSafe(Some(s))
  {
    assert DangerousPatterns[k] == DangerousPattern(k);
    RuleTestIff(DangerousPatterns[k], s);
    IsSafeIff(s);
  }

  /** An entry without a leading `\s+` matches where its word occurs and its rest matches right after. */
  lemma WordRuleAt(rule: Rule, s: string, i: nat)
    requires !rule.leadingSpace && (!rule.anchored || i == 0) && i <= |s|
    requires OccursAt(s, rule.word, i) && MatchEnd(rule.rest, s, i + |rule.word|, 0, false).Some?
    ensures RuleAt(rule, s, i)
  {
    WordRuleMatch(rule, s, i);
  }

  /** Recursive deletion of the root directory is blocked. */
  lemma RemoveRootUnsafe(s: string)
    requires s == "rm -rf /"
    ensures !IsSafe(Some(s))
  {
    assert OccursAt(s, "rm", 0);
    assert MatchEnd(DangerousPattern(0).rest, "rm -rf /", 2, 0, false).Some?;
    WordRuleAt(DangerousPattern(0), s, 0);
    EntryMakesUnsafe(0, s, 0);
  }

  /** Recursive deletion of the home directory is blocked. */
  lemma RemoveHomeUnsafe(s: string)
    requires s == "rm -rf ~"
    ensures !IsSafe(Some(s))
  {
    assert OccursAt(s, "rm", 0);
    assert MatchEnd(DangerousPattern(1).rest, "rm -rf ~", 2, 0, false).Some?;
    WordRuleAt(DangerousPattern(1), s, 0);
    EntryMakesUnsafe(1, s, 0);
  }

  /** A command starting with `sudo` and white space is blocked, whatever follows. */
  lemma SudoUnsafe(s: string)
    requires |s| > 4 && OccursAt(s, "sudo", 0) && IsSpace(s[4])
    ensures !IsSafe(Some(s))
  {
    assert MatchEnd([Spaces()], s, 5, 1, false) == Some(5);
    assert MatchEnd([Spaces()], s, 5, 0, true).Some?;
    assert MatchEnd(DangerousPattern(10).rest, s, 4, 0, false).Some?;
    WordRuleAt(DangerousPattern(10), s, 0);
    EntryMakesUnsafe(10, s, 0);
  }

  /** Every `sudo` command of the filter's tests is blocked. */
  lemma SudoCommandsUnsafe(s: string)
    requires s in {"sudo ls", "sudo apt-get update", "sudo systemctl restart", "sudo -i"}
    ensures !IsSafe(Some(s))
  {
    assert s[..4] == "sudo" && s[4] == ' ';
    SudoUnsafe(s);
  }

  /** "chmod 777 file" matches `chmod\s+777` at its start. */
  lemma ChmodMatches(s: string)
    requires s == "chmod 777 file"
    ensures RuleAt(DangerousPattern(8), s, 0)
  {
    assert OccursAt(s, "chmod", 0);
    assert MatchEnd(DangerousPattern(8).rest, "chmod 777 file", 5, 0, false).Some?;
    WordRuleAt(DangerousPattern(8), s, 0);
  }

  /** Opening a file to everyone is blocked. */
  lemma ChmodUnsafe(s: string)
    requires s == "chmod 777 file"
    ensures !IsSafe(Some(s))
  {
    ChmodMatches(s);
    EntryMakesUnsafe(8, s, 0);
  }

  /** Formatting a device is blocked. */
  lemma MkfsUnsafe(s: string)
    requires s == "mkfs.ext4 /dev/sda1"
    ensures !IsSafe(Some(s))
  {
    assert OccursAt(s, "mkfs", 0);
    PlainWordsUnsafe(s);
  }

  /** Recursive deletion of the working directory is blocked. */
  lemma RemoveCurrentUnsafe(s: string)
    requires s == "rm -rf ."
    ensures !IsSafe(Some(s))
  {
    assert OccursAt(s, "rm", 0);
    assert MatchEnd(DangerousPattern(2).rest, "rm -rf .", 2, 0, false).Some?;
    WordRuleAt(DangerousPattern(2), s, 0);
    EntryMakesUnsafe(2, s, 0);
  }

  /** Recursive deletion of every file by a glob is blocked. */
  lemma RemoveEverythingUnsafe(s: string)
    requires s == "rm -rf *"
    ensures !IsSafe(Some(s))
  {
    assert OccursAt(s, "rm", 0);
    assert MatchEnd(DangerousPattern(3).rest, "rm -rf *", 2, 0, false).Some?;
    WordRuleAt(DangerousPattern(3), s, 0);
    EntryMakesUnsafe(3, s, 0);
  }

  /** `\s+-R\s+777` matches after `chmod`. */
  lemma ChmodRecursiveRest()
    ensures MatchEnd(DangerousPattern(7).rest, "chmod -R 777 /", 5, 0, false).Some?
  {
    assert MatchEnd(DangerousPattern(7).rest, "chmod -R 777 /", 9, 4, false).Some?;
  }

  /** "chmod -R 777 /" matches `chmod\s+-R\s+777` at its start. */
  lemma ChmodRecursiveMatches(s: string)
    requires s == "chmod -R 777 /"
    ensures RuleAt(DangerousPattern(7), s, 0)
  {
    ChmodRecursiveRest();
    assert OccursAt(s, "chmod", 0);
    WordRuleAt(DangerousPattern(7), s, 0);
  }

  /** Opening the whole tree to everyone is blocked. */
  lemma ChmodRecursiveUnsafe(s: string)
    requires s == "chmod -R 777 /"
    ensures !IsSafe(Some(s))
  {
    ChmodRecursiveMatches(s);
    EntryMakesUnsafe(7, s, 0);
  }

  /** `\s+-R\s+root` matches after `chown`. */
  lemma ChownRest()
    ensures MatchEnd(DangerousPattern(9).rest, "chown -R root /", 5, 0, false).Some?
  {
    assert MatchEnd(DangerousPattern(9).rest, "chown -R root /", 9, 4, false).Some?;
  }

  /** "chown -R root /" matches `chown\s+-R\s+root` at its start. */
  lemma ChownMatches(s: string)
    requires s == "chown -R root /"
    ensures RuleAt(DangerousPattern(9), s, 0)
  {
    ChownRest();
    assert OccursAt(s, "chown", 0);
    WordRuleAt(DangerousPattern(9), s, 0);
  }

  /** Handing the whole tree to root is blocked. */
  lemma ChownUnsafe(s: string)
    requires s == "chown -R root /"
    ensures !IsSafe(Some(s))
  {
    ChownMatches(s);
    EntryMakesUnsafe(9, s, 0);
  }

  /** `\s+\/dev` matches after `mount`. */
  lemma MountRest()
    ensures MatchEnd(DangerousPattern(15).rest, "mount /dev/sda1 /mnt", 5, 0, false).Some?
  {
    assert MatchEnd(DangerousPattern(15).rest, "mount /dev/sda1 /mnt", 6, 1, false).Some?;
  }

  /** "mount /dev/sda1 /mnt" matches `mount\s+\/dev` at its start. */
  lemma MountMatches(s: string)
    requires s == "mount /dev/sda1 /mnt"
    ensures RuleAt(DangerousPattern(15), s, 0)
  {
    MountRest();
    assert OccursAt(s, "mount", 0);
    WordRuleAt(DangerousPattern(15), s, 0);
  }

  /** Mounting a device is blocked. */
  lemma MountUnsafe(s: string)
    requires s == "mount /dev/sda1 /mnt"
    ensures !IsSafe(Some(s))
  {
    MountMatches(s);
    EntryMakesUnsafe(15, s, 0);
  }

  /** After `dd` and its space, `of=/dev` follows at index 16. */
  lemma DiskDumpTail()
    ensures MatchEnd(DangerousPattern(6).rest, "dd if=/dev/zero of=/dev/sda", 16, 2, false).Some?
  {
  }

  /** The arguments before `of=` hold no line break, so `.*` can take them. */
  lemma DiskDumpRun()
    ensures forall u :: 3 <= u < 16 ==> InClass(DangerousPattern(6).rest[1].cls, "dd if=/dev/zero of=/dev/sda"[u])
  {
  }

  /** `dd\s+.*of=\/dev` matches after the word: `.*` takes the arguments up to `of=`. */
  lemma DiskDumpRest(s: string)
    requires s == "dd if=/dev/zero of=/dev/sda"
    ensures MatchEnd(DangerousPattern(6).rest, s, 2, 0, false).Some?
  {
    DiskDumpTail();
    DiskDumpRun();
    StarReaches(DangerousPattern(6).rest, s, 3, 1, 16, false);
    PlusTakesOne(DangerousPattern(6).rest, s, 2, 0);
  }

  /** "dd if=/dev/zero of=/dev/sda" matches `dd\s+.*of=\/dev` at its start. */
  lemma DiskDumpMatches(s: string)
    requires s == "dd if=/dev/zero of=/dev/sda"
    ensures RuleAt(DangerousPattern(6), s, 0)
  {
    DiskDumpRest(s);
    assert OccursAt(s, "dd", 0);
    WordRuleAt(DangerousPattern(6), s, 0);
  }

  /** Overwriting a device with `dd` is blocked. */
  lemma DiskDumpUnsafe(s: string)
    requires s == "dd if=/dev/zero of=/dev/sda"
    ensures !IsSafe(Some(s))
  {
    DiskDumpMatches(s);
    EntryMakesUnsafe(6, s, 0);
  }

  /** From the `&` on, the fork bomb's tail `.*\};:` matches. */
  lemma ForkBombTail()
    ensures MatchEnd(DangerousPattern(12).rest, ":(){ :|:& };:", 8, 3, false).Some?
  {
    assert MatchEnd(DangerousPattern(12).rest, ":(){ :|:& };:", 10, 5, false).Some?;
    StarReaches(DangerousPattern(12).rest, ":(){ :|:& };:", 9, 4, 10, false);
  }

  /** From the `|` on, `\|.*&.*\};:` matches. */
  lemma ForkBombMiddle()
    ensures MatchEnd(DangerousPattern(12).rest, ":(){ :|:& };:", 6, 1, false).Some?
  {
    ForkBombTail();
    StarReaches(DangerousPattern(12).rest, ":(){ :|:& };:", 7, 2, 8, false);
  }

  /** `.*\|.*&.*\};:` matches after `:(){`, each `.*` giving back to the next symbol. */
  lemma ForkBombRest()
    ensures MatchEnd(DangerousPattern(12).rest, ":(){ :|:& };:", 4, 0, false).Some?
  {
    ForkBombMiddle();
    StarReaches(DangerousPattern(12).rest, ":(){ :|:& };:", 4, 0, 6, false);
  }

  /** The fork bomb matches `:\(\)\{.*\|.*&.*\};:` at its start. */
  lemma ForkBombMatches(s: string)
    requires s == ":(){ :|:& };:"
    ensures RuleAt(DangerousPattern(12), s, 0)
  {
    ForkBombRest();
    assert OccursAt(s, ":(){", 0);
    WordRuleAt(DangerousPattern(12), s, 0);
  }

  /** The fork bomb is blocked. */
  lemma ForkBombUnsafe(s: string)
    requires s == ":(){ :|:& };:"
    ensures !IsSafe(Some(s))
  {
    ForkBombMatches(s);
    EntryMakesUnsafe(12, s, 0);
  }

  /** The bare disk tools of the tests are blocked by their name alone. */
  lemma DiskToolsUnsafe(s: string)
    requires s in {"mkfs", "fdisk /dev/sda", "parted /dev/sda", "umount /mnt"}
    ensures !IsSafe(Some(s))
  {
    if s == "mkfs" {
      assert OccursAt(s, "mkfs", 0);
    } else if s == "fdisk /dev/sda" {
      assert OccursAt(s, "fdisk", 0);
    } else if s == "parted /dev/sda" {
      assert OccursAt(s, "parted", 0);
    } else {
      assert OccursAt(s, "umount", 0);
    }
    PlainWordsUnsafe(s);
  }

  /** Every command the filter's tests list as dangerous is blocked. */
  lemma DangerousCommandsUnsafe(s: string)
    requires s in {"rm -rf /", "sudo rm -rf", "mkfs", "dd if=/dev/zero of=/dev/sda", "chmod -R 777 /",
                   "chown -R root /", ":(){ :|:& };:", "rm -rf ~", "rm -rf .", "rm -rf *"}
    ensures !IsSafe(Some(s))
  {
    if s == "rm -rf /" {
      RemoveRootUnsafe(s);
    } else if s == "sudo rm -rf" {
      assert s[..4] == "sudo" && s[4] == ' ';
      SudoUnsafe(s);
    } else if s == "mkfs" {
      DiskToolsUnsafe(s);
    } else if s == "dd if=/dev/zero of=/dev/sda" {
      DiskDumpUnsafe(s);
    } else if s == "chmod -R 777 /" {
      ChmodRecursiveUnsafe(s);
    } else if s == "chown -R root /" {
      ChownUnsafe(s);
    } else if s == ":(){ :|:& };:" {
      ForkBombUnsafe(s);
    } else if s == "rm -rf ~" {
      RemoveHomeUnsafe(s);
    } else if s == "rm -rf ." {
      RemoveCurrentUnsafe(s);
    } else {
      RemoveEverythingUnsafe(s);
    }
  }

  /** Every system command of the filter's tests is blocked. */
  lemma SystemCommandsUnsafe(s: string)
    requires s in {"mkfs.ext4 /dev/sda1", "fdisk /dev/sda", "parted /dev/sda", "mount /dev/sda1 /mnt", "umount /mnt"}
    ensures !IsSafe(Some(s))
  {
    if s == "mkfs.ext4 /dev/sda1" {
      MkfsUnsafe(s);
    } else if s == "mount /dev/sda1 /mnt" {
      MountUnsafe(s);
    } else {
      DiskToolsUnsafe(s);
    }
  }

  // ---------------------------------------------------------------------
  // `sanitize`.

  /** `sanitize` leaves a command unchanged exactly when it is safe. */
  lemma SanitizeKeepsIff(command: Option<string>)
    ensures Sanitize(command) == command <==> IsSafe(command)
  {
    BlockedIsSafe();
  }

  /** Sanitizing twice is sanitizing once. */
  lemma SanitizeIdempotent(command: Option<string>)
    ensures Sanitize(Sanitize(command)) == Sanitize(command)
  {
    SanitizeKeepsIff(Sanitize(command));
  }

  /** The dangerous commands of the tests are replaced by the placeholder. */
  lemma SanitizeBlocksDangerous(s: string)
    requires s in {"rm -rf /", "sudo rm -rf"}
    ensures Sanitize(Some(s)) == Some(Blocked)
  {
    DangerousCommandsUnsafe(s);
  }

  /** The safe commands of the tests come back unchanged. */
  lemma SanitizeKeepsSafe(s: string)
    requires s in {"ls -la", "git status"}
    ensures Sanitize(Some(s)) == Some(s)
  {
    ListingSafe();
    GitStatusSafe();
  }
}
