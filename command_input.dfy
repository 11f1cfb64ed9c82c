/**
 * The frontend's command input (command-input.component.ts): a text field
 * whose value is held in `inputValue`; Enter submits the trimmed text on
 * `commandSubmit` and clears the field, unless the trimmed text is empty.
 * The emitted values are recorded in `submitted`, oldest first.
 */
module CommandInput {
  import opened Wrappers
  import opened JsText

  /**
   * What Enter submits for the field's text: its trimmed form, or nothing
   * when that is empty.
   */
  function Submission(input: string): (r: Option<string>)
    ensures r.Some? <==> !AllSpace(input)
    ensures r.Some? ==> r.value != "" && r.value == Trim(input)
  {
    TrimEmptyIff(input);
    var command := Trim(input);
    if command != "" then Some(command) else None
  }

  /**
   * A submitted command is the field's text without its leading and
   * trailing white space, and itself neither starts nor ends with white space.
   */
  lemma SubmissionIsTrimmed(input: string) returns (i: nat, j: nat)
    requires Submission(input).Some?
    ensures i < j <= |input| && Submission(input).value == input[i..j]
    ensures AllSpace(input[..i]) && AllSpace(input[j..])
    ensures !IsSpace(input[i]) && !IsSpace(input[j - 1])
  {
    i, j := TrimSpec(input);
    var c := Submission(input).value;
    assert c[0] == input[i] && c[|c| - 1] == input[j - 1];
  }

  /** Leading white space is dropped up to the first other character. */
  lemma {:induction false} TrimStartPadded(a: string, t: string)
    requires AllSpace(a) && (t == [] || !IsSpace(t[0]))
    ensures TrimStart(a + t) == t
  {
    if a != [] {
      assert (a + t)[0] == a[0] && (a + t)[1..] == a[1..] + t;
      TrimStartPadded(a[1..], t);
    } else {
      assert a + t == t;
    }
  }

  /** Trailing white space is dropped back to the last other character. */
  lemma {:induction false} TrimEndPadded(t: string, b: string)
    requires AllSpace(b) && (t == [] || !IsSpace(t[|t| - 1]))
    ensures TrimEnd(t + b) == t
  {
    if b != [] {
      var s := t + b;
      assert s[|s| - 1] == b[|b| - 1] && s[..|s| - 1] == t + b[..|b| - 1];
      TrimEndPadded(t, b[..|b| - 1]);
    } else {
      assert t + b == t;
    }
  }

  /** Text padded with white space on both sides is sent without the padding. */
  lemma PaddedSubmission(a: string, m: string, b: string)
    requires AllSpace(a) && AllSpace(b) && m != [] && !IsSpace(m[0]) && !IsSpace(m[|m| - 1])
    ensures Submission(a + m + b) == Some(m)
  {
    assert a + m + b == a + (m + b);
    assert (m + b)[0] == m[0];
    TrimStartPadded(a, m + b);
    TrimEndPadded(m, b);
  }

  /** The example of the component's tests: the padded listing command is sent without its padding. */
  lemma PaddedListing(s: string)
    requires s == "  ls -la  "
    ensures Submission(s) == Some("ls -la")
  {
    assert s == "  " + "ls -la" + "  ";
    PaddedSubmission("  ", "ls -la", "  ");
  }

  /** Blank text is never sent. */
  lemma BlankNotSent(s: string)
    requires s == "   "
    ensures Submission(s) == None
  {
    assert AllSpace(s);
  }

  class CommandInputComponent {
    var inputValue: string
    var submitted: seq<string>

    constructor()
      ensures inputValue == "" && submitted == []
    {
      inputValue := "";
      submitted := [];
    }

    /** The field's `ngModelChange` binding: typing replaces the value. */
    method SetInputValue(value: string)
      modifies this
      ensures inputValue == value && submitted == old(submitted)
    {
      inputValue := value;
    }

    /**
     * `onKeyDown`: Enter with text that is not all white space emits the
     * trimmed text once and clears the field; Enter with blank text and
     * every other key change nothing and emit nothing.
     */
    method OnKeyDown(key: string)
      modifies this
      ensures key == "Enter" && Submission(old(inputValue)).Some? ==>
        submitted == old(submitted) + [Submission(old(inputValue)).value] && inputValue == ""
      ensures key != "Enter" || Submission(old(inputValue)).None? ==>
        submitted == old(submitted) && inputValue == old(inputValue)
    {
      if key == "Enter" {
        var command := Trim(inputValue);
        if command != "" {
          submitted := submitted + [command];
          inputValue := "";
        }
      }
    }
  }

  /**
   * Typing a padded command and pressing Enter sends it once, trimmed, and
   * empties the field; pressing Enter on white space sends nothing and
   * leaves the field as it was.
   */
  method EnterScenario() returns (sent: seq<string>, field: string, blankSent: seq<string>, blankField: string)
    ensures sent == ["ls -la"] && field == ""
    ensures blankSent == [] && blankField == "   "
  {
    var padded := "  ls -la  ";
    var input := new CommandInputComponent();
    input.SetInputValue(padded);
    PaddedListing(padded);
    input.OnKeyDown("Enter");
    sent, field := input.submitted, input.inputValue;

    var spaces := "   ";
    var blank := new CommandInputComponent();
    blank.SetInputValue(spaces);
    BlankNotSent(spaces);
    blank.OnKeyDown("Enter");
    blankSent, blankField := blank.submitted, blank.inputValue;
  }
}
