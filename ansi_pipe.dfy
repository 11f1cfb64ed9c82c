/**
 * The frontend's `ansi` pipe (ansi.pipe.ts): the escape sequence that turns
 * text red becomes an opening red `<span>`, the reset sequence a closing
 * `</span>`, by two global replacements, one after the other. Marking the
 * result as trusted HTML does not change the text and is the identity here.
 */
module AnsiPipe {
  import opened JsText

  const Esc: char := '\U{1B}'

  /** `\x1b[31m`: red foreground. */
  const RedCode: string := "\U{1B}[31m"
  /** `\x1b[0m`: reset all attributes. */
  const ResetCode: string := "\U{1B}[0m"

  const RedOpen: string := "<span style=\"color: red\">"
  const SpanClose: string := "</span>"

  predicate StartsWith(s: string, w: string) {
    |w| <= |s| && s[..|w|] == w
  }

  /**
   * `s.replace(/w/g, rep)` for a regular expression that is the plain word
   * `w`: occurrences are found left to right, each replaced, and the search
   * goes on after the replaced occurrence.
   */
  function ReplaceAll(s: string, w: string, rep: string): string
    requires |w| > 0
    decreases |s|
  {
    if s == [] then []
    else if StartsWith(s, w) then rep + ReplaceAll(s[|w|..], w, rep)
    else [s[0]] + ReplaceAll(s[1..], w, rep)
  }

  /** `transform`: the red sequence is replaced first, then the reset sequence. */
  function Transform(value: string): string {
    ReplaceAll(ReplaceAll(value, RedCode, RedOpen), ResetCode, SpanClose)
  }

  /**
   * One left-to-right scan that replaces `w1` by `r1` and `w2` by `r2`
   * wherever either starts, trying `w1` first.
   */
  function Scan(s: string, w1: string, r1: string, w2: string, r2: string): string
    requires |w1| > 0 && |w2| > 0
    decreases |s|
  {
    if s == [] then []
    else if StartsWith(s, w1) then r1 + Scan(s[|w1|..], w1, r1, w2, r2)
    else if StartsWith(s, w2) then r2 + Scan(s[|w2|..], w1, r1, w2, r2)
    else [s[0]] + Scan(s[1..], w1, r1, w2, r2)
  }

  /** Text without `w` is left as it is. */
  lemma {:induction false} ReplaceAbsent(s: string, w: string, rep: string)
    requires |w| > 0 && !Includes(s, w)
    ensures ReplaceAll(s, w, rep) == s
    decreases |s|
  {
    if s != [] {
      if StartsWith(s, w) {
        assert OccursAt(s, w, 0);
      }
      if Includes(s[1..], w) {
        var i :| 0 <= i <= |s[1..]| && OccursAt(s[1..], w, i);
        assert s[i + 1..i + 1 + |w|] == s[1..][i..i + |w|];
        assert OccursAt(s, w, i + 1);
      }
      ReplaceAbsent(s[1..], w, rep);
      assert [s[0]] + s[1..] == s;
    }
  }

  /** A prefix without the first character of `w` passes through unchanged. */
  lemma {:induction false} ReplaceAfter(a: string, t: string, w: string, rep: string)
    requires |w| > 0 && w[0] !in a
    ensures ReplaceAll(a + t, w, rep) == a + ReplaceAll(t, w, rep)
    decreases |a|
  {
    if a != [] {
      var s := a + t;
      assert s[0] == a[0] && s[1..] == a[1..] + t;
      assert !StartsWith(s, w);
      ReplaceAfter(a[1..], t, w, rep);
      assert [a[0]] + (a[1..] + ReplaceAll(t, w, rep)) == a + ReplaceAll(t, w, rep);
    } else {
      assert a + t == t;
    }
  }

  /**
   * When the replacement starts with a character that `v` lacks, a result
   * that starts with `v` comes from text that starts with `v`.
   */
  lemma {:induction false} ReplacedStart(t: string, v: string, w: string, rep: string)
    requires |w| > 0 && rep != [] && rep[0] !in v
    requires StartsWith(ReplaceAll(t, w, rep), v)
    ensures StartsWith(t, v)
    decreases |v|
  {
    if v != [] {
      var r := ReplaceAll(t, w, rep);
      assert r[..|v|][0] == v[0];
      assert t != [];
      if StartsWith(t, w) {
        assert false;
      }
      var rest := ReplaceAll(t[1..], w, rep);
      assert r == [t[0]] + rest;
      assert StartsWith(rest, v[1..]) by {
        assert rest[..|v| - 1] == r[..|v|][1..];
      }
      ReplacedStart(t[1..], v[1..], w, rep);
      assert t[..|v|] == [t[0]] + t[1..][..|v| - 1];
    }
  }

  /** Where `s` starts with a word of the scan, it does not start with the other. */
  predicate Apart(w1: string, w2: string) {
    !StartsWith(w1, w2) && !StartsWith(w2, w1)
  }

  lemma NotBoth(s: string, w1: string, w2: string)
    requires Apart(w1, w2) && StartsWith(s, w1)
    ensures !StartsWith(s, w2)
  {
  }

  /**
   * Replacing `w1` in one pass and then `w2` in a second pass is the single
   * scan, provided the first pass neither creates nor breaks an occurrence
   * of `w2` and the second pass leaves the first pass's replacements alone.
   */
  lemma {:induction false} TwoPassesOneScan(s: string, w1: string, r1: string, w2: string, r2: string)
    requires |w1| > 0 && |w2| > 0 && r1 != [] && Apart(w1, w2)
    requires w2[0] !in r1 && w1[0] !in w2[1..] && r1[0] !in w2[1..]
    ensures ReplaceAll(ReplaceAll(s, w1, r1), w2, r2) == Scan(s, w1, r1, w2, r2)
    decreases |s|
  {
    if s != [] {
      var inner := ReplaceAll(s, w1, r1);
      if StartsWith(s, w1) {
        var rest := s[|w1|..];
        ReplaceAfter(r1, ReplaceAll(rest, w1, r1), w2, r2);
        TwoPassesOneScan(rest, w1, r1, w2, r2);
      } else if StartsWith(s, w2) {
        var rest := s[|w2|..];
        assert s[1..] == w2[1..] + rest;
        ReplaceAfter(w2[1..], rest, w1, r1);
        assert inner == w2 + ReplaceAll(rest, w1, r1);
        var x := ReplaceAll(rest, w1, r1);
        assert StartsWith(w2 + x, w2) && (w2 + x)[|w2|..] == x;
        TwoPassesOneScan(rest, w1, r1, w2, r2);
      } else {
        var x := ReplaceAll(s[1..], w1, r1);
        assert inner == [s[0]] + x;
        assert !StartsWith([s[0]] + x, w2) by {
          if StartsWith([s[0]] + x, w2) {
            assert StartsWith(x, w2[1..]) by {
              assert x[..|w2| - 1] == ([s[0]] + x)[..|w2|][1..];
            }
            ReplacedStart(s[1..], w2[1..], w1, r1);
          }
        }
        assert ([s[0]] + x)[1..] == x;
        TwoPassesOneScan(s[1..], w1, r1, w2, r2);
      }
    }
  }

  /** With words that never start at the same place, the order in which the scan tries them does not matter. */
  lemma {:induction false} ScanSymmetric(s: string, w1: string, r1: string, w2: string, r2: string)
    requires |w1| > 0 && |w2| > 0 && Apart(w1, w2)
    ensures Scan(s, w1, r1, w2, r2) == Scan(s, w2, r2, w1, r1)
    decreases |s|
  {
    if s != [] {
      if StartsWith(s, w1) {
        NotBoth(s, w1, w2);
        ScanSymmetric(s[|w1|..], w1, r1, w2, r2);
      } else if StartsWith(s, w2) {
        ScanSymmetric(s[|w2|..], w1, r1, w2, r2);
      } else {
        ScanSymmetric(s[1..], w1, r1, w2, r2);
      }
    }
  }

  lemma CodesApart()
    ensures Apart(RedCode, ResetCode) && Apart(ResetCode, RedCode)
  {
    assert RedCode[..|ResetCode|][2] != ResetCode[2];
  }

  /**
   * `transform` is one left-to-right scan that rewrites each red sequence
   * and each reset sequence where it starts and copies everything else.
   */
  lemma TransformIsOneScan(value: string)
    ensures Transform(value) == Scan(value, RedCode, RedOpen, ResetCode, SpanClose)
  {
    CodesApart();
    assert ResetCode[1..] == "[0m";
    TwoPassesOneScan(value, RedCode, RedOpen, ResetCode, SpanClose);
  }

  /** The replacements introduce no escape character, so the two passes commute. */
  lemma PassesCommute(value: string)
    ensures Transform(value) == ReplaceAll(ReplaceAll(value, ResetCode, SpanClose), RedCode, RedOpen)
  {
    CodesApart();
    assert RedCode[1..] == "[31m";
    TransformIsOneScan(value);
    TwoPassesOneScan(value, ResetCode, SpanClose, RedCode, RedOpen);
    ScanSymmetric(value, RedCode, RedOpen, ResetCode, SpanClose);
  }

  /**
   * Text with neither sequence comes back unchanged; other escape
   * sequences, such as green `\x1b[32m`, pass through.
   */
  lemma NoCodesUnchanged(value: string)
    requires !Includes(value, RedCode) && !Includes(value, ResetCode)
    ensures Transform(value) == value
  {
    ReplaceAbsent(value, RedCode, RedOpen);
    ReplaceAbsent(value, ResetCode, SpanClose);
  }

  /** Text without the first character of either word is copied by the scan. */
  lemma {:induction false} ScanAfter(a: string, t: string, w1: string, r1: string, w2: string, r2: string)
    requires |w1| > 0 && |w2| > 0 && w1[0] !in a && w2[0] !in a
    ensures Scan(a + t, w1, r1, w2, r2) == a + Scan(t, w1, r1, w2, r2)
    decreases |a|
  {
    if a != [] {
      var s := a + t;
      assert s[0] == a[0] && s[1..] == a[1..] + t;
      assert !StartsWith(s, w1) && !StartsWith(s, w2);
      ScanAfter(a[1..], t, w1, r1, w2, r2);
      assert [a[0]] + (a[1..] + Scan(t, w1, r1, w2, r2)) == a + Scan(t, w1, r1, w2, r2);
    } else {
      assert a + t == t;
    }
  }

  /** The red text of the pipe's example is wrapped in a red span. */
  lemma RedExample()
    ensures Transform(RedCode + "Red" + ResetCode) == RedOpen + "Red" + SpanClose
  {
    var s := RedCode + "Red" + ResetCode;
    TransformIsOneScan(s);
    CodesApart();
    assert StartsWith(s, RedCode) && s[|RedCode|..] == "Red" + ResetCode;
    ScanAfter("Red", ResetCode, RedCode, RedOpen, ResetCode, SpanClose);
    assert StartsWith(ResetCode, ResetCode) && ResetCode[|ResetCode|..] == [];
  }
}
