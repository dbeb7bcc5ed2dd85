/**
 * One run of the commit helper, over its outside world made explicit: whether
 * anything is staged, what the cache file held, the current branch name, the
 * script of console lines, and whether `git commit` succeeds.
 *
 * The prompts are asked in the program's order: work item, commit type,
 * scope, short description, optional body, optional breaking change, issue
 * reference, then the confirmation.
 */
module Session {
  import opened Wrappers
  import opened Text
  import opened Strconv
  import opened Validators
  import opened BranchHint
  import opened TypeCatalog
  import opened Preferences
  import opened MessageAssembler
  import opened Console

  /** The prompts that insist on a valid answer. */
  datatype Step = WorkItemStep | CommitTypeStep | DescriptionStep

  /** How a composed session ends. */
  datatype Ending = Cancelled | CommitFailed | Committed

  /**
   * The result of a session. Stuck is a prompt that, at the end of the script,
   * keeps rejecting its own default and would ask again for ever.
   */
  datatype Outcome =
    | NoStagedChanges
    | Stuck(step: Step)
    | Composed(draft: Draft, saved: LastInputs, message: string, confirmation: string, ending: Ending)

  /** The exit status: 1 for nothing staged or a failed commit, 0 otherwise; none while stuck. */
  function ExitCode(o: Outcome): (code: Option<int>)
    ensures code == None <==> o.Stuck?
    ensures code == Some(1) <==> o == NoStagedChanges || (o.Composed? && o.ending == CommitFailed)
    ensures code == Some(0) <==> o.Composed? && o.ending != CommitFailed
  {
    match o
    case NoStagedChanges => Some(1)
    case Stuck(_) => None
    case Composed(_, _, _, _, ending) => if ending == CommitFailed then Some(1) else Some(0)
  }

  /**
   * The default work item: the remembered one, or else the hint taken from the
   * branch name (nothing when there is no branch).
   */
  function WorkItemDefault(last: LastInputs, branch: string): (d: string)
    ensures last.workItem != [] ==> d == last.workItem
    ensures last.workItem == [] && branch == [] ==> d == []
    ensures last.workItem == [] && branch != [] ==> d == ExtractWorkItemFromBranch(branch)
    ensures last.workItem == [] && branch != [] ==> ValidWorkItem(d) || d == ToLower(branch)
  {
    if last.workItem != "" then last.workItem
    else if branch != "" then ExtractWorkItemFromBranch(branch)
    else ""
  }

  /** What the work-item prompt makes of one line: the line or the default, lowercased. */
  function WorkItemCandidate(raw: string, dflt: string): (w: string)
    ensures IsBlank(raw) ==> w == ToLower(dflt)
    ensures !IsBlank(raw) ==> w == ToLower(TrimSpace(raw))
    ensures |w| == |LineWithDefault(raw, dflt)|
  {
    ToLower(LineWithDefault(raw, dflt))
  }

  /** Whether the commit-type prompt takes a line: it parses as a menu number. */
  predicate ChoiceAccepted(raw: string, defaultText: string) {
    var c := Atoi(LineWithDefault(raw, defaultText));
    c.Some? && IsMenuNumber(c.value)
  }

  /**
   * A blank line at the commit-type prompt picks the offered default, and is
   * refused when there is none.
   */
  lemma BlankChoiceTakesDefault(raw: string, d: int)
    requires IsBlank(raw)
    requires d == 0 || IsMenuNumber(d)
    ensures d > 0 ==> (ChoiceAccepted(raw, DefaultChoiceText(d))
      && Atoi(LineWithDefault(raw, DefaultChoiceText(d))) == Some(d))
    ensures d == 0 ==> !ChoiceAccepted(raw, DefaultChoiceText(d))
  {
  }

  /** Whether the work-item prompt takes a line. */
  predicate WorkItemTaken(raw: string, dflt: string) {
    ValidWorkItem(WorkItemCandidate(raw, dflt))
  }

  /** Whether the description prompt takes a line. */
  predicate DescriptionTaken(raw: string, dflt: string) {
    ValidShortDescription(LineWithDefault(raw, dflt))
  }

  /** The default offered at the commit-type prompt for a remembered record. */
  function ChoiceDefaultText(last: LastInputs): string {
    DefaultChoiceText(NormaliseDefaultIndex(last.commitTypeIndex))
  }

  // ---------------------------------------------------------------------
  // Where each re-asking prompt stops: every earlier line is refused and
  // line n is taken; or no line is, the end-of-input line included.

  predicate WorkItemStopsAt(input: seq<string>, dflt: string, n: nat) {
    && n <= |input|
    && (forall k {:trigger WorkItemTaken(input[k], dflt)} :: 0 <= k < n ==> !WorkItemTaken(input[k], dflt))
    && WorkItemTaken(LineAt(input, n), dflt)
  }

  predicate WorkItemNeverTaken(input: seq<string>, dflt: string) {
    && (forall k {:trigger WorkItemTaken(input[k], dflt)} :: 0 <= k < |input| ==> !WorkItemTaken(input[k], dflt))
    && !WorkItemTaken("", dflt)
  }

  predicate ChoiceStopsAt(input: seq<string>, dfltText: string, n: nat) {
    && n <= |input|
    && (forall k {:trigger ChoiceAccepted(input[k], dfltText)} :: 0 <= k < n ==> !ChoiceAccepted(input[k], dfltText))
    && ChoiceAccepted(LineAt(input, n), dfltText)
  }

  predicate ChoiceNeverTaken(input: seq<string>, dfltText: string) {
    && (forall k {:trigger ChoiceAccepted(input[k], dfltText)} :: 0 <= k < |input| ==> !ChoiceAccepted(input[k], dfltText))
    && !ChoiceAccepted("", dfltText)
  }

  predicate DescriptionStopsAt(input: seq<string>, dflt: string, n: nat) {
    && n <= |input|
    && (forall k {:trigger DescriptionTaken(input[k], dflt)} :: 0 <= k < n ==> !DescriptionTaken(input[k], dflt))
    && DescriptionTaken(LineAt(input, n), dflt)
  }

  predicate DescriptionNeverTaken(input: seq<string>, dflt: string) {
    && (forall k {:trigger DescriptionTaken(input[k], dflt)} :: 0 <= k < |input| ==> !DescriptionTaken(input[k], dflt))
    && !DescriptionTaken("", dflt)
  }

  /** The work-item prompt stops at one line only, and only when it stops at all. */
  lemma WorkItemStopDetermined(input: seq<string>, dflt: string, n: nat, m: nat)
    requires WorkItemStopsAt(input, dflt, n)
    ensures WorkItemStopsAt(input, dflt, m) ==> n == m
    ensures !WorkItemNeverTaken(input, dflt)
  {
    assert forall i :: 0 <= i < |input| ==> LineAt(input, i) == input[i];
  }

  /** The commit-type prompt stops at one line only, and only when it stops at all. */
  lemma ChoiceStopDetermined(input: seq<string>, dfltText: string, n: nat, m: nat)
    requires ChoiceStopsAt(input, dfltText, n)
    ensures ChoiceStopsAt(input, dfltText, m) ==> n == m
    ensures !ChoiceNeverTaken(input, dfltText)
  {
    assert forall i :: 0 <= i < |input| ==> LineAt(input, i) == input[i];
  }

  /** The description prompt stops at one line only, and only when it stops at all. */
  lemma DescriptionStopDetermined(input: seq<string>, dflt: string, n: nat, m: nat)
    requires DescriptionStopsAt(input, dflt, n)
    ensures DescriptionStopsAt(input, dflt, m) ==> n == m
    ensures !DescriptionNeverTaken(input, dflt)
  {
    assert forall i :: 0 <= i < |input| ==> LineAt(input, i) == input[i];
  }

  /** The work-item loop: asks until the lowercased answer is a valid work item. */
  method ReadWorkItem(input: seq<string>, dflt: string) returns (workItem: Option<string>, n: nat)
    ensures workItem.Some? ==>
      && WorkItemStopsAt(input, dflt, n)
      && workItem.value == WorkItemCandidate(LineAt(input, n), dflt)
      && ValidWorkItem(workItem.value)
    ensures workItem.None? ==> n == |input| && WorkItemNeverTaken(input, dflt)
  {
    var ok;
    ok, n := AskUntilTaken(input, raw => WorkItemTaken(raw, dflt));
    workItem := if ok then Some(WorkItemCandidate(LineAt(input, n), dflt)) else None;
  }

  /** The commit-type loop: asks until the answer (or the default) is a menu number. */
  method ReadCommitTypeChoice(input: seq<string>, dflt: string) returns (choice: Option<int>, n: nat)
    ensures choice.Some? ==>
      && ChoiceStopsAt(input, dflt, n)
      && Atoi(LineWithDefault(LineAt(input, n), dflt)) == Some(choice.value)
      && IsMenuNumber(choice.value)
    ensures choice.None? ==> n == |input| && ChoiceNeverTaken(input, dflt)
  {
    var ok;
    ok, n := AskUntilTaken(input, raw => ChoiceAccepted(raw, dflt));
    choice := if ok then Some(Atoi(LineWithDefault(LineAt(input, n), dflt)).value) else None;
  }

  /** The description loop: asks until the answer (or the default) is a valid short description. */
  method ReadDescription(input: seq<string>, dflt: string) returns (description: Option<string>, n: nat)
    ensures description.Some? ==>
      && DescriptionStopsAt(input, dflt, n)
      && description.value == LineWithDefault(LineAt(input, n), dflt)
      && ValidShortDescription(description.value)
    ensures description.None? ==> n == |input| && DescriptionNeverTaken(input, dflt)
  {
    var ok;
    ok, n := AskUntilTaken(input, raw => DescriptionTaken(raw, dflt));
    description := if ok then Some(LineWithDefault(LineAt(input, n), dflt)) else None;
  }

  // ---------------------------------------------------------------------
  // The optional texts: a yes/no question, then on yes a multi-line text.

  /**
   * What an optional text reads from `input`: the question is answered at line
   * answerAt (every earlier answer unrecognised); on no the text is empty, on
   * yes it is the `count` lines after the answer, up to the first blank one.
   */
  predicate OptionalTextRead(input: seq<string>, answerAt: nat, count: nat, text: string) {
    && answerAt <= |input|
    && (forall k {:trigger ClassifyAnswer(input[k])} :: 0 <= k < answerAt ==> ClassifyAnswer(input[k]) == Unrecognised)
    && ClassifyAnswer(LineAt(input, answerAt)) != Unrecognised
    && (ClassifyAnswer(LineAt(input, answerAt)) == No ==> text == [] && count == 0)
    && (ClassifyAnswer(LineAt(input, answerAt)) == Yes ==>
          var after := After(input, answerAt);
          && count <= |after|
          && (forall k {:trigger IsBlank(after[k])} :: 0 <= k < count ==> !IsBlank(after[k]))
          && IsBlank(LineAt(after, count))
          && text == Join(after[..count], "\n"))
  }

  /** The script left after an optional text: past the answer, and on yes past the text and its blank line. */
  function TextRest(input: seq<string>, answerAt: nat, count: nat): (rest: seq<string>)
    ensures |rest| <= |input| && rest == input[|input| - |rest|..]
  {
    if ClassifyAnswer(LineAt(input, answerAt)) == Yes then After(After(input, answerAt), count)
    else After(input, answerAt)
  }

  /** An optional text reads one answer and one text only. */
  lemma OptionalTextDetermined(input: seq<string>, a: nat, c: nat, t: string, a': nat, c': nat, t': string)
    requires OptionalTextRead(input, a, c, t) && OptionalTextRead(input, a', c', t')
    ensures a == a' && c == c' && t == t'
  {
    assert forall i :: 0 <= i < |input| ==> LineAt(input, i) == input[i];
    assert a == a';
    var after := After(input, a);
    assert forall i :: 0 <= i < |after| ==> LineAt(after, i) == after[i];
  }

  /** An optional text (the body, the breaking change), and the script that remains. */
  method ReadOptionalText(input: seq<string>) returns (text: string, answerAt: nat, count: nat, rest: seq<string>)
    ensures OptionalTextRead(input, answerAt, count, text)
    ensures rest == TextRest(input, answerAt, count)
  {
    var yes;
    yes, answerAt := ReadYesNo(input);
    var after := After(input, answerAt);
    if yes {
      text, count := ReadMultiline(after);
      rest := After(after, count);
    } else {
      text, count, rest := "", 0, after;
    }
  }

  // ---------------------------------------------------------------------
  // The prompts after the description.

  /** A record that, offered again as every default, is taken again unchanged. */
  predicate Replayable(r: LastInputs) {
    && ValidWorkItem(r.workItem)
    && IsMenuNumber(r.commitTypeIndex)
    && TrimSpace(r.scope) == r.scope
    && ValidShortDescription(r.description)
    && TrimSpace(r.issueRef) == r.issueRef
  }

  /**
   * What the prompts after the description read from `input`: the body and the
   * breaking change as optional texts, then the issue reference, then the confirmation.
   */
  predicate TailRead(last: LastInputs, input: seq<string>, bodyAt: nat, bodyLines: nat,
                     breakingAt: nat, breakingLines: nat, draft: Draft, confirmation: string) {
    OptionalTextRead(input, bodyAt, bodyLines, draft.body) &&
    var afterBody := TextRest(input, bodyAt, bodyLines);
    OptionalTextRead(afterBody, breakingAt, breakingLines, draft.breakingChange) &&
    var afterBreaking := TextRest(afterBody, breakingAt, breakingLines);
    && draft.issueRef == TrimSpace(LineWithDefault(LineAt(afterBreaking, 0), last.issueRef))
    && confirmation == LineAt(afterBreaking, 1)
  }

  /** The outcome of a session that got as far as the confirmation. */
  function Finish(draft: Draft, saved: LastInputs, message: string, confirmation: string,
                  commitSucceeds: bool): (o: Outcome)
    ensures o.Composed? && o.draft == draft && o.saved == saved && o.message == message
    ensures o.confirmation == confirmation
    ensures o.ending == Cancelled <==> !ConfirmProceeds(confirmation)
    ensures o.ending == Committed <==> ConfirmProceeds(confirmation) && commitSucceeds
  {
    var ending := if !ConfirmProceeds(confirmation) then Cancelled
                  else if commitSucceeds then Committed
                  else CommitFailed;
    Composed(draft, saved, message, confirmation, ending)
  }

  /** The prompts after the description: body, breaking change, issue reference, then the commit. */
  method ComposeTail(workItem: string, choice: int, scope: string, description: string,
                     last: LastInputs, input: seq<string>, commitSucceeds: bool)
    returns (outcome: Outcome, bodyAt: nat, bodyLines: nat, breakingAt: nat, breakingLines: nat)
    requires IsMenuNumber(choice)
    ensures outcome.Composed?
    ensures outcome.draft.commitType == CodeOf(choice)
    ensures outcome.draft.scope == scope && outcome.draft.description == description
    ensures outcome.draft.workItem == workItem
    ensures TailRead(last, input, bodyAt, bodyLines, breakingAt, breakingLines, outcome.draft, outcome.confirmation)
    ensures outcome.draft.issueRef == TrimSpace(outcome.draft.issueRef)
    ensures outcome.saved == LastInputs(workItem, choice, scope, description, outcome.draft.issueRef)
    ensures outcome.message == MessageText(outcome.draft)
    ensures outcome.ending == Cancelled <==> !ConfirmProceeds(outcome.confirmation)
    ensures outcome.ending == Committed <==> ConfirmProceeds(outcome.confirmation) && commitSucceeds
    ensures input == [] ==> (outcome.draft.body == [] && outcome.draft.breakingChange == []
      && outcome.draft.issueRef == TrimSpace(last.issueRef)
      && outcome.confirmation == [] && outcome.ending == Cancelled)
  {
    BlankAnswerIsNo("");
    var body, rest;
    body, bodyAt, bodyLines, rest := ReadOptionalText(input);
    var breakingChange, rest2;
    breakingChange, breakingAt, breakingLines, rest2 := ReadOptionalText(rest);
    var issueRef := TrimSpace(LineWithDefault(LineAt(rest2, 0), last.issueRef));
    TrimSpaceIdempotent(LineWithDefault(LineAt(rest2, 0), last.issueRef));
    var draft := Draft(CodeOf(choice), scope, description, body, breakingChange, issueRef, workItem);
    var message := AssembleMessage(draft);
    var saved := LastInputs(workItem, choice, scope, description, issueRef);
    var confirmation := LineAt(rest2, 1);
    outcome := Finish(draft, saved, message, confirmation, commitSucceeds);
  }

  // ---------------------------------------------------------------------
  // The first four prompts.

  /** The answers the first four prompts collect, and the script left after them. */
  datatype HeaderFields =
    | StuckAt(step: Step)
    | Fields(workItem: string, choice: int, scope: string, description: string, rest: seq<string>)

  /**
   * What the scope and description prompts read from `input`: the scope from its
   * first line, then the description from line nD of the script after it.
   */
  predicate ScopeDescriptionRead(last: LastInputs, input: seq<string>, nD: nat, f: HeaderFields) {
    && f.Fields?
    && f.scope == TrimSpace(LineWithDefault(LineAt(input, 0), last.scope))
    && DescriptionStopsAt(After(input, 0), last.description, nD)
    && f.description == LineWithDefault(LineAt(After(input, 0), nD), last.description)
    && f.rest == After(After(input, 0), nD)
  }

  /** What the commit-type, scope and description prompts read: the choice from line nC, then the rest after it. */
  predicate TypeScopeDescriptionRead(last: LastInputs, input: seq<string>, nC: nat, nD: nat, f: HeaderFields) {
    && f.Fields?
    && ChoiceStopsAt(input, ChoiceDefaultText(last), nC)
    && Atoi(LineWithDefault(LineAt(input, nC), ChoiceDefaultText(last))) == Some(f.choice)
    && ScopeDescriptionRead(last, After(input, nC), nD, f)
  }

  /** What the first four prompts read: the work item from line nW, then the rest after it. */
  predicate HeaderRead(last: LastInputs, branch: string, input: seq<string>, nW: nat, nC: nat, nD: nat,
                       f: HeaderFields) {
    && f.Fields?
    && WorkItemStopsAt(input, WorkItemDefault(last, branch), nW)
    && f.workItem == WorkItemCandidate(LineAt(input, nW), WorkItemDefault(last, branch))
    && TypeScopeDescriptionRead(last, After(input, nW), nC, nD, f)
  }

  /** The scope and description prompts, once the work item and the commit type are known. */
  method ReadScopeDescription(last: LastInputs, workItem: string, choice: int, input: seq<string>)
    returns (fields: HeaderFields, nD: nat)
    requires IsMenuNumber(choice)
    ensures fields.Fields? ==>
      && fields.workItem == workItem
      && fields.choice == choice
      && ScopeDescriptionRead(last, input, nD, fields)
      && TrimSpace(fields.scope) == fields.scope
      && ValidShortDescription(fields.description)
      && (TrimSpace(fields.description) == fields.description || fields.description == last.description)
    ensures fields.StuckAt? ==>
      fields.step == DescriptionStep && DescriptionNeverTaken(After(input, 0), last.description)
    ensures input == [] && Replayable(last) ==>
      fields == Fields(workItem, choice, last.scope, last.description, [])
  {
    ReplayText(last);
    var scope := TrimSpace(LineWithDefault(LineAt(input, 0), last.scope));
    TrimSpaceIdempotent(LineWithDefault(LineAt(input, 0), last.scope));
    var rest := After(input, 0);

    var description;
    description, nD := ReadDescription(rest, last.description);
    if description.None? {
      return StuckAt(DescriptionStep), nD;
    }
    TrimSpaceIdempotent(LineAt(rest, nD));
    fields := Fields(workItem, choice, scope, description.value, After(rest, nD));
  }

  /** The commit-type, scope and description prompts, once the work item is known. */
  method ReadTypeScopeDescription(last: LastInputs, workItem: string, input: seq<string>)
    returns (fields: HeaderFields, nC: nat, nD: nat)
    ensures fields.Fields? ==>
      && fields.workItem == workItem
      && TypeScopeDescriptionRead(last, input, nC, nD, fields)
      && IsMenuNumber(fields.choice)
      && TrimSpace(fields.scope) == fields.scope
      && ValidShortDescription(fields.description)
      && (TrimSpace(fields.description) == fields.description || fields.description == last.description)
    ensures fields == StuckAt(WorkItemStep) ==> false
    ensures fields == StuckAt(CommitTypeStep) ==>
      NormaliseDefaultIndex(last.commitTypeIndex) == 0 && ChoiceNeverTaken(input, ChoiceDefaultText(last))
    ensures fields == StuckAt(DescriptionStep) ==>
      && ChoiceStopsAt(input, ChoiceDefaultText(last), nC)
      && DescriptionNeverTaken(After(After(input, nC), 0), last.description)
    ensures input == [] && Replayable(last) ==>
      fields == Fields(workItem, last.commitTypeIndex, last.scope, last.description, [])
  {
    ReplayChoice(last);
    var defaultIndex := NormaliseDefaultIndex(last.commitTypeIndex);
    var choice;
    choice, nC := ReadCommitTypeChoice(input, ChoiceDefaultText(last));
    if choice.None? {
      BlankChoiceTakesDefault("", defaultIndex);
      return StuckAt(CommitTypeStep), nC, 0;
    }
    fields, nD := ReadScopeDescription(last, workItem, choice.value, After(input, nC));
  }

  /** The first four prompts: work item, commit type, scope and short description. */
  method ReadHeaderFields(last: LastInputs, branch: string, input: seq<string>)
    returns (fields: HeaderFields, nW: nat, nC: nat, nD: nat)
    ensures fields.Fields? ==>
      && HeaderRead(last, branch, input, nW, nC, nD, fields)
      && ValidWorkItem(fields.workItem)
      && IsMenuNumber(fields.choice)
      && TrimSpace(fields.scope) == fields.scope
      && ValidShortDescription(fields.description)
      && (TrimSpace(fields.description) == fields.description || fields.description == last.description)
    ensures fields.StuckAt? ==> StuckRead(last, branch, input, nW, nC, fields.step)
    ensures fields == StuckAt(WorkItemStep) ==> !ValidWorkItem(ToLower(WorkItemDefault(last, branch)))
    ensures fields == StuckAt(CommitTypeStep) ==> NormaliseDefaultIndex(last.commitTypeIndex) == 0
    ensures fields == StuckAt(DescriptionStep) ==> !ValidShortDescription(last.description)
    ensures input == [] && Replayable(last) ==>
      fields == Fields(last.workItem, last.commitTypeIndex, last.scope, last.description, [])
  {
    ReplayWorkItem(last, branch);
    var workItem;
    workItem, nW := ReadWorkItem(input, WorkItemDefault(last, branch));
    if workItem.None? {
      return StuckAt(WorkItemStep), nW, 0, 0;
    }
    fields, nC, nD := ReadTypeScopeDescription(last, workItem.value, After(input, nW));
  }

  // ---------------------------------------------------------------------
  // The whole session.

  /**
   * Where each answer of a session was read: the line of the work item, of the
   * commit type and of the description (each counted in the script left by the
   * prompt before), the line answering each yes/no question and the number of
   * text lines read after it.
   */
  datatype Transcript = Transcript(
    workItemAt: nat, choiceAt: nat, descriptionAt: nat,
    bodyAt: nat, bodyLines: nat, breakingAt: nat, breakingLines: nat)

  /** The script left after the first four prompts. */
  function HeaderRest(input: seq<string>, t: Transcript): seq<string> {
    After(After(After(After(input, t.workItemAt), t.choiceAt), 0), t.descriptionAt)
  }

  /** A composed session read its answers from the script, prompt by prompt, at the lines t names. */
  predicate SessionRead(last: LastInputs, branch: string, input: seq<string>, t: Transcript, o: Outcome) {
    o.Composed? &&
    var rest := HeaderRest(input, t);
    && HeaderRead(last, branch, input, t.workItemAt, t.choiceAt, t.descriptionAt,
                  Fields(o.draft.workItem, o.saved.commitTypeIndex, o.draft.scope, o.draft.description, rest))
    && TailRead(last, rest, t.bodyAt, t.bodyLines, t.breakingAt, t.breakingLines, o.draft, o.confirmation)
  }

  /**
   * A session stuck at `step`: every earlier prompt stopped, the work-item prompt
   * at line nW and the commit-type prompt at line nC of the script after it,
   * and that prompt never stops.
   */
  predicate StuckRead(last: LastInputs, branch: string, input: seq<string>, nW: nat, nC: nat, step: Step) {
    && (step == WorkItemStep ==> WorkItemNeverTaken(input, WorkItemDefault(last, branch)))
    && (step != WorkItemStep ==> WorkItemStopsAt(input, WorkItemDefault(last, branch), nW))
    && (step == CommitTypeStep ==> ChoiceNeverTaken(After(input, nW), ChoiceDefaultText(last)))
    && (step == DescriptionStep ==>
          && ChoiceStopsAt(After(input, nW), ChoiceDefaultText(last), nC)
          && DescriptionNeverTaken(After(After(After(input, nW), nC), 0), last.description))
  }

  /**
   * The prompts of one session, once the remembered inputs are loaded: the header
   * prompts, then the rest; where each answer was read is returned in `t`.
   */
  method Converse(last: LastInputs, branch: string, input: seq<string>, commitSucceeds: bool)
    returns (outcome: Outcome, t: Transcript)
    ensures outcome.Composed? || outcome.Stuck?
    ensures outcome.Composed? ==>
      && SessionRead(last, branch, input, t, outcome)
      && outcome.draft.commitType == CodeOf(outcome.saved.commitTypeIndex)
      && outcome.saved == LastInputs(outcome.draft.workItem, outcome.saved.commitTypeIndex,
           outcome.draft.scope, outcome.draft.description, outcome.draft.issueRef)
      && outcome.message == MessageText(outcome.draft)
      && (outcome.ending == Cancelled <==> !ConfirmProceeds(outcome.confirmation))
      && (outcome.ending == Committed <==> ConfirmProceeds(outcome.confirmation) && commitSucceeds)
    ensures outcome.Stuck? ==> StuckRead(last, branch, input, t.workItemAt, t.choiceAt, outcome.step)
    ensures outcome == Stuck(WorkItemStep) ==> !ValidWorkItem(ToLower(WorkItemDefault(last, branch)))
    ensures outcome == Stuck(CommitTypeStep) ==> NormaliseDefaultIndex(last.commitTypeIndex) == 0
    ensures outcome == Stuck(DescriptionStep) ==> !ValidShortDescription(last.description)
    ensures input == [] && Replayable(last) ==>
      && outcome.Composed?
      && outcome.saved == last
      && outcome.draft == Draft(CodeOf(last.commitTypeIndex), last.scope, last.description, "", "",
                                last.issueRef, last.workItem)
      && outcome.ending == Cancelled
  {
    t := Transcript(0, 0, 0, 0, 0, 0, 0);
    var fields, nW, nC, nD := ReadHeaderFields(last, branch, input);
    t := t.(workItemAt := nW, choiceAt := nC, descriptionAt := nD);
    if fields.StuckAt? {
      return Stuck(fields.step), t;
    }
    var bodyAt, bodyLines, breakingAt, breakingLines;
    outcome, bodyAt, bodyLines, breakingAt, breakingLines :=
      ComposeTail(fields.workItem, fields.choice, fields.scope, fields.description,
                  last, fields.rest, commitSucceeds);
    t := t.(bodyAt := bodyAt, bodyLines := bodyLines, breakingAt := breakingAt, breakingLines := breakingLines);
    assert fields.rest == HeaderRest(input, t);
    assert fields == Fields(outcome.draft.workItem, outcome.saved.commitTypeIndex, outcome.draft.scope,
                            outcome.draft.description, HeaderRest(input, t));
  }

  /**
   * What a composed session saves is always fit to be offered again: each field
   * was taken by its prompt's test, and every saved text is trimmed except a
   * description kept from the remembered record.
   */
  lemma SessionReadValid(last: LastInputs, branch: string, input: seq<string>, t: Transcript, o: Outcome)
    requires SessionRead(last, branch, input, t, o)
    requires o.saved == LastInputs(o.draft.workItem, o.saved.commitTypeIndex, o.draft.scope,
                                   o.draft.description, o.draft.issueRef)
    ensures ValidWorkItem(o.draft.workItem)
    ensures ValidShortDescription(o.draft.description)
    ensures IsMenuNumber(o.saved.commitTypeIndex)
    ensures TrimSpace(o.saved.description) == o.saved.description || o.saved.description == last.description
    ensures Replayable(o.saved)
  {
    var afterW := After(input, t.workItemAt);
    var afterC := After(afterW, t.choiceAt);
    var afterS := After(afterC, 0);
    var rawScope := LineWithDefault(LineAt(afterC, 0), last.scope);
    var rawDescription := LineAt(afterS, t.descriptionAt);
    TrimSpaceIdempotent(rawScope);
    if !IsBlank(rawDescription) {
      TrimSpaceIdempotent(rawDescription);
    }
    var afterBody := TextRest(HeaderRest(input, t), t.bodyAt, t.bodyLines);
    var afterBreaking := TextRest(afterBody, t.breakingAt, t.breakingLines);
    TrimSpaceIdempotent(LineWithDefault(LineAt(afterBreaking, 0), last.issueRef));
  }

  /** main: one whole session. */
  method RunSession(hasStagedChanges: bool, cache: CacheFile, branch: string,
                    input: seq<string>, commitSucceeds: bool) returns (outcome: Outcome, t: Transcript)
    ensures !hasStagedChanges <==> outcome == NoStagedChanges
    ensures outcome.Composed? ==> SessionRead(LoadLastInputs(cache), branch, input, t, outcome)
    ensures outcome.Composed? ==>
      && ValidWorkItem(outcome.draft.workItem)
      && ValidShortDescription(outcome.draft.description)
      && IsMenuNumber(outcome.saved.commitTypeIndex)
      && outcome.draft.commitType == CodeOf(outcome.saved.commitTypeIndex)
      && outcome.saved == LastInputs(outcome.draft.workItem, outcome.saved.commitTypeIndex,
           outcome.draft.scope, outcome.draft.description, outcome.draft.issueRef)
      && Replayable(outcome.saved)
      && (TrimSpace(outcome.saved.description) == outcome.saved.description
          || outcome.saved.description == LoadLastInputs(cache).description)
      && outcome.message == MessageText(outcome.draft)
      && (outcome.ending == Cancelled <==> !ConfirmProceeds(outcome.confirmation))
      && (outcome.ending == Committed <==> ConfirmProceeds(outcome.confirmation) && commitSucceeds)
    ensures outcome.Stuck? ==>
      StuckRead(LoadLastInputs(cache), branch, input, t.workItemAt, t.choiceAt, outcome.step)
    ensures outcome == Stuck(WorkItemStep) ==>
      !ValidWorkItem(ToLower(WorkItemDefault(LoadLastInputs(cache), branch)))
    ensures outcome == Stuck(CommitTypeStep) ==>
      NormaliseDefaultIndex(LoadLastInputs(cache).commitTypeIndex) == 0
    ensures outcome == Stuck(DescriptionStep) ==>
      !ValidShortDescription(LoadLastInputs(cache).description)
    ensures hasStagedChanges && input == [] && cache.Decoded? && Replayable(cache.record) ==>
      var r := cache.record;
      && outcome.Composed?
      && outcome.saved == r
      && outcome.draft == Draft(CodeOf(r.commitTypeIndex), r.scope, r.description, "", "", r.issueRef, r.workItem)
      && outcome.ending == Cancelled
  {
    if !hasStagedChanges {
      return NoStagedChanges, Transcript(0, 0, 0, 0, 0, 0, 0);
    }
    var last := LoadLastInputs(cache);
    outcome, t := Converse(last, branch, input, commitSucceeds);
    if outcome.Composed? {
      SessionReadValid(last, branch, input, t, outcome);
    }
  }

  // ---------------------------------------------------------------------
  // The script decides the session.

  /** The first four prompts read one set of answers only. */
  lemma HeaderReadDetermined(last: LastInputs, branch: string, input: seq<string>,
                             nW: nat, nC: nat, nD: nat, f: HeaderFields,
                             nW': nat, nC': nat, nD': nat, f': HeaderFields)
    requires HeaderRead(last, branch, input, nW, nC, nD, f)
    requires HeaderRead(last, branch, input, nW', nC', nD', f')
    ensures nW == nW' && nC == nC' && nD == nD' && f == f'
  {
    WorkItemStopDetermined(input, WorkItemDefault(last, branch), nW, nW');
    var s1 := After(input, nW);
    ChoiceStopDetermined(s1, ChoiceDefaultText(last), nC, nC');
    var s3 := After(After(s1, nC), 0);
    DescriptionStopDetermined(s3, last.description, nD, nD');
  }

  /** The prompts after the description read one set of answers only. */
  lemma TailReadDetermined(last: LastInputs, input: seq<string>,
                           a1: nat, c1: nat, a2: nat, c2: nat, d: Draft, confirmation: string,
                           a1': nat, c1': nat, a2': nat, c2': nat, d': Draft, confirmation': string)
    requires TailRead(last, input, a1, c1, a2, c2, d, confirmation)
    requires TailRead(last, input, a1', c1', a2', c2', d', confirmation')
    ensures a1 == a1' && c1 == c1' && a2 == a2' && c2 == c2'
    ensures d.body == d'.body && d.breakingChange == d'.breakingChange && d.issueRef == d'.issueRef
    ensures confirmation == confirmation'
  {
    OptionalTextDetermined(input, a1, c1, d.body, a1', c1', d'.body);
    var afterBody := TextRest(input, a1, c1);
    OptionalTextDetermined(afterBody, a2, c2, d.breakingChange, a2', c2', d'.breakingChange);
  }

  /**
   * The script decides a composed session: two readings of the same script give
   * the same lines, the same answers, the same message, the same saved record and
   * the same confirmation.
   */
  lemma SessionReadDetermined(last: LastInputs, branch: string, input: seq<string>,
                              t: Transcript, o: Outcome, t': Transcript, o': Outcome)
    requires SessionRead(last, branch, input, t, o) && SessionRead(last, branch, input, t', o')
    requires o.draft.commitType == CodeOf(o.saved.commitTypeIndex) && o.message == MessageText(o.draft)
    requires o'.draft.commitType == CodeOf(o'.saved.commitTypeIndex) && o'.message == MessageText(o'.draft)
    requires o.saved == LastInputs(o.draft.workItem, o.saved.commitTypeIndex, o.draft.scope,
                                   o.draft.description, o.draft.issueRef)
    requires o'.saved == LastInputs(o'.draft.workItem, o'.saved.commitTypeIndex, o'.draft.scope,
                                    o'.draft.description, o'.draft.issueRef)
    ensures t == t' && o.draft == o'.draft && o.message == o'.message && o.confirmation == o'.confirmation
    ensures o.saved == o'.saved
  {
    var rest := HeaderRest(input, t);
    HeaderReadDetermined(last, branch, input, t.workItemAt, t.choiceAt, t.descriptionAt,
      Fields(o.draft.workItem, o.saved.commitTypeIndex, o.draft.scope, o.draft.description, rest),
      t'.workItemAt, t'.choiceAt, t'.descriptionAt,
      Fields(o'.draft.workItem, o'.saved.commitTypeIndex, o'.draft.scope, o'.draft.description, HeaderRest(input, t')));
    TailReadDetermined(last, rest, t.bodyAt, t.bodyLines, t.breakingAt, t.breakingLines, o.draft, o.confirmation,
      t'.bodyAt, t'.bodyLines, t'.breakingAt, t'.breakingLines, o'.draft, o'.confirmation);
  }

  /** A script that gets a session composed cannot leave it stuck at any prompt. */
  lemma ComposedIsNotStuck(last: LastInputs, branch: string, input: seq<string>,
                           t: Transcript, o: Outcome, nW: nat, nC: nat, step: Step)
    requires SessionRead(last, branch, input, t, o)
    ensures !StuckRead(last, branch, input, nW, nC, step)
  {
    var f := Fields(o.draft.workItem, o.saved.commitTypeIndex, o.draft.scope, o.draft.description, HeaderRest(input, t));
    var dflt := WorkItemDefault(last, branch);
    WorkItemStopDetermined(input, dflt, t.workItemAt, nW);
    var s1 := After(input, t.workItemAt);
    ChoiceStopDetermined(s1, ChoiceDefaultText(last), t.choiceAt, nC);
    DescriptionStopDetermined(After(After(s1, t.choiceAt), 0), last.description, t.descriptionAt, 0);
  }

  /**
   * The script decides where a session gets stuck: two stuck readings of the same
   * script name the same prompt, and the same lines for the prompts before it.
   */
  lemma StuckReadDetermined(last: LastInputs, branch: string, input: seq<string>,
                            nW: nat, nC: nat, step: Step, nW': nat, nC': nat, step': Step)
    requires StuckRead(last, branch, input, nW, nC, step)
    requires StuckRead(last, branch, input, nW', nC', step')
    ensures step == step'
    ensures step != WorkItemStep ==> nW == nW'
    ensures step == DescriptionStep ==> nC == nC'
  {
    var dflt := WorkItemDefault(last, branch);
    if step != WorkItemStep {
      WorkItemStopDetermined(input, dflt, nW, nW');
    }
    if step' != WorkItemStep {
      WorkItemStopDetermined(input, dflt, nW', nW);
    }
    if step == DescriptionStep {
      ChoiceStopDetermined(After(input, nW), ChoiceDefaultText(last), nC, nC');
    }
    if step' == DescriptionStep {
      ChoiceStopDetermined(After(input, nW'), ChoiceDefaultText(last), nC', nC);
    }
  }

  /** A blank answer at the work-item prompt takes a replayable record's work item again. */
  lemma ReplayWorkItem(last: LastInputs, branch: string)
    ensures Replayable(last) ==>
      var dflt := WorkItemDefault(last, branch);
      WorkItemTaken("", dflt) && WorkItemCandidate("", dflt) == last.workItem
  {
    if Replayable(last) {
      WorkItemIsLowercase(last.workItem);
    }
  }

  /** A blank answer at the commit-type prompt takes a replayable record's menu number again. */
  lemma ReplayChoice(last: LastInputs)
    ensures Replayable(last) ==>
      var choiceText := ChoiceDefaultText(last);
      ChoiceAccepted("", choiceText) && Atoi(LineWithDefault("", choiceText)) == Some(last.commitTypeIndex)
  {
    if Replayable(last) {
      BlankChoiceTakesDefault("", last.commitTypeIndex);
    }
  }

  /** Blank answers at the scope, description and issue prompts take a replayable record's values again. */
  lemma ReplayText(last: LastInputs)
    ensures Replayable(last) ==>
      && TrimSpace(LineWithDefault("", last.scope)) == last.scope
      && DescriptionTaken("", last.description) && LineWithDefault("", last.description) == last.description
      && TrimSpace(LineWithDefault("", last.issueRef)) == last.issueRef
  {
  }
}
