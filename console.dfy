/**
 * The console reads of the commit helper, over a scripted sequence of input
 * lines. Reading past the end of the script yields the empty line, as a
 * scanner at end of input does.
 */
module Console {
  import opened Text

  /** What the n-th read returns. */
  function LineAt(input: seq<string>, n: nat): string {
    if n < |input| then input[n] else ""
  }

  /** The script that remains once lines 0..n have been read. */
  function After(input: seq<string>, n: nat): (rest: seq<string>)
    ensures |rest| == if n < |input| then |input| - n - 1 else 0
    ensures rest == input[|input| - |rest|..]
  {
    if n < |input| then input[n + 1..] else []
  }

  /** readLine: the line without surrounding white space. */
  function ReadLine(raw: string): (line: string)
    ensures line == TrimSpace(raw)
    ensures line == [] <==> IsBlank(raw)
    ensures line == [] || (!IsSpace(line[0]) && !IsSpace(line[|line| - 1]))
  {
    TrimSpace(raw)
  }

  /** readLineWithDefault: the default exactly when the line is blank, else the trimmed line. */
  function LineWithDefault(raw: string, default: string): (value: string)
    ensures IsBlank(raw) ==> value == default
    ensures !IsBlank(raw) ==> value == TrimSpace(raw) && value != []
  {
    if IsBlank(raw) then default else ReadLine(raw)
  }

  /** The same value as the program computes it: read a trimmed line, then test its trimmed form. */
  lemma LineWithDefaultAsRead(raw: string, default: string)
    ensures var input := ReadLine(raw);
      LineWithDefault(raw, default) == if TrimSpace(input) == "" then default else input
  {
    TrimSpaceIdempotent(raw);
  }

  /** The three ways readYesNo can take an answer. */
  datatype Answer = Yes | No | Unrecognised

  /** readYesNo's reading of one line: y/yes, blank/n/no, or neither, ignoring case. */
  function ClassifyAnswer(raw: string): Answer {
    var answer := ToLower(ReadLine(raw));
    if answer == "y" || answer == "yes" then Yes
    else if answer == "" || answer == "n" || answer == "no" then No
    else Unrecognised
  }

  /** A blank line is a "no", so the yes/no question always ends at the end of the script. */
  lemma BlankAnswerIsNo(raw: string)
    requires IsBlank(raw)
    ensures ClassifyAnswer(raw) == No
  {
  }

  /** Answers read as "no". */
  lemma NoExamples(raw: string)
    requires raw in ["n", "no"]
    ensures ClassifyAnswer(raw) == No
  {
    TrimSpaceUnchanged(raw);
    assert ToLower(raw) == raw;
  }

  /** Capitals read as lowercase: "N" and "NO" are a "no" too. */
  lemma CapitalNoExamples(raw: string)
    requires raw in ["N", "NO"]
    ensures ClassifyAnswer(raw) == No
  {
    TrimSpaceUnchanged(raw);
    assert ToLower(raw) == if raw == "N" then "n" else "no";
  }

  /** Surrounding white space is ignored. */
  lemma PaddedAnswerExample(raw: string)
    requires raw == " no "
    ensures ClassifyAnswer(raw) == No
  {
    assert SkipLeading(raw, 1) == 1;
    assert SkipLeading(raw, 0) == 1;
    assert SkipTrailing(raw, 1, 3) == 3;
    assert SkipTrailing(raw, 1, 4) == 3;
    assert ReadLine(raw) == raw[1..3] == "no";
  }

  /** Answers read as "yes". */
  lemma YesExamples(raw: string)
    requires raw in ["y", "yes"]
    ensures ClassifyAnswer(raw) == Yes
  {
    TrimSpaceUnchanged(raw);
    assert ToLower(raw) == raw;
  }

  /** Capitals read as lowercase: "Y" and "YES" are a "yes" too. */
  lemma CapitalYesExamples(raw: string)
    requires raw in ["Y", "YES"]
    ensures ClassifyAnswer(raw) == Yes
  {
    TrimSpaceUnchanged(raw);
    assert ToLower(raw) == if raw == "Y" then "y" else "yes";
  }

  /** An answer that makes readYesNo ask again. */
  lemma UnrecognisedExamples(raw: string)
    requires raw == "maybe"
    ensures ClassifyAnswer(raw) == Unrecognised
  {
    TrimSpaceUnchanged(raw);
    assert ToLower(raw) == raw;
  }

  /**
   * The re-asking loop shared by the prompts that insist on an acceptable
   * answer: reads lines until one is taken. At the end of the script the reads
   * yield the empty line, so the loop stops there, taken or not.
   */
  method AskUntilTaken(input: seq<string>, taken: string -> bool) returns (ok: bool, n: nat)
    ensures n <= |input|
    ensures forall k :: 0 <= k < n ==> !taken(input[k])
    ensures ok <==> taken(LineAt(input, n))
    ensures !ok ==> n == |input|
  {
    n := 0;
    while n < |input| && !taken(input[n])
      invariant n <= |input|
      invariant forall k :: 0 <= k < n ==> !taken(input[k])
    {
      n := n + 1;
    }
    ok := taken(LineAt(input, n));
  }

  /** readYesNo: re-asks on unrecognised answers until a yes or a no. */
  method ReadYesNo(input: seq<string>) returns (yes: bool, n: nat)
    ensures n <= |input|
    ensures forall k {:trigger ClassifyAnswer(input[k])} :: 0 <= k < n ==> ClassifyAnswer(input[k]) == Unrecognised
    ensures ClassifyAnswer(LineAt(input, n)) != Unrecognised
    ensures yes <==> ClassifyAnswer(LineAt(input, n)) == Yes
  {
    BlankAnswerIsNo("");
    var _, stop := AskUntilTaken(input, raw => ClassifyAnswer(raw) != Unrecognised);
    n := stop;
    yes := ClassifyAnswer(LineAt(input, n)) == Yes;
  }

  /** The final confirmation: only y or yes, in any case, goes ahead. */
  function ConfirmProceeds(raw: string): bool {
    var confirm := ToLower(ReadLine(raw));
    ToLower(confirm) == "y" || ToLower(confirm) == "yes"
  }

  /**
   * The confirmation goes ahead exactly on what readYesNo takes as yes;
   * a blank, a no and an unrecognised answer all cancel, and nothing re-asks.
   */
  lemma ConfirmOnlyOnYes(raw: string)
    ensures ConfirmProceeds(raw) <==> ClassifyAnswer(raw) == Yes
    ensures ClassifyAnswer(raw) == Unrecognised ==> !ConfirmProceeds(raw)
  {
    ToLowerIdempotent(ReadLine(raw));
  }

  /** readMultiline: raw lines up to the first blank one (or the end), joined by newlines. */
  method ReadMultiline(input: seq<string>) returns (text: string, n: nat)
    ensures n <= |input|
    ensures forall k {:trigger IsBlank(input[k])} :: 0 <= k < n ==> !IsBlank(input[k])
    ensures IsBlank(LineAt(input, n))
    ensures text == Join(input[..n], "\n")
  {
    var lines: seq<string> := [];
    n := 0;
    while true
      invariant n <= |input|
      invariant lines == input[..n]
      invariant forall k {:trigger IsBlank(input[k])} :: 0 <= k < n ==> !IsBlank(input[k])
      decreases |input| - n
    {
      var line := LineAt(input, n);
      if TrimSpace(line) == "" {
        break;
      }
      lines := lines + [line];
      n := n + 1;
    }
    text := Join(lines, "\n");
  }
}
