# git commit helper — a Dafny model

`main.go` is an interactive helper that walks a developer through writing a
conventional commit message and then runs `git commit`. It asks, in order:

1. for a work item such as `bcds-42` or `bcds-42-login`. The default is the
   work item remembered from the last run, or else one found in the current
   branch name;
2. for a commit type, picked from a fixed menu of ten (`feat` … `chore`);
3. for an optional scope;
4. for a short description (at most 50 bytes once trimmed, starting with a
   lowercase letter, not ending in a full stop);
5. for an optional body and an optional breaking-change note, each behind a
   yes/no question;
6. for an optional issue reference.

It then assembles the message from a header, an optional body paragraph and
an optional footer block. It saves the answers as the next run's defaults,
shows the message, and commits only when the user confirms with `y` or `yes`.

The model is split into modules that follow the program's pieces:

| module | file | models |
|---|---|---|
| `Text` | text.dfy | `strings.TrimSpace`, `strings.ToLower`, `strings.Join`, `strings.HasSuffix`, Go's `len` on strings (UTF-8 bytes) |
| `Strconv` | strconv.dfy | `strconv.Atoi` on 64-bit integers and `strconv.Itoa` on non-negative numbers |
| `Validators` | validators.dfy | `validateWorkItem` as a finite automaton, proved equal to the grammar of its regular expression; `validateShortDescription` |
| `BranchHint` | branch_hint.dfy | `extractWorkItemFromBranch`: a leftmost, longest search for a work item in the lowercased branch name |
| `TypeCatalog` | type_catalog.dfy | `getCommitTypes`, the menu numbers, and how the stored default index is normalised |
| `Preferences` | preferences.dfy | the `LastInputs` record and `loadLastInputs` over an abstract cache-file result |
| `MessageAssembler` | message.dfy | the header, footer and section assembly written inline in `main` |
| `Console` | console.dfy | `readLine`, `readLineWithDefault`, `readYesNo`, `readMultiline` and the confirmation, over a scripted sequence of input lines |
| `Session` | session.dfy | the whole of `main`: each prompt reads the script where the previous one stopped, and the model records the line every answer came from; the re-asking loops, the saved record, the confirmation and the exit status |

The console is a sequence of lines. A read past the end of the sequence
yields the empty line, as a Go scanner at end of input does. A re-asking
loop whose default is itself invalid would ask for ever once the input is
exhausted. The model reports that case as the outcome `Stuck(step)`.

The saved description is not always trimmed (main.go:257, 312). The code
saves it as `readLineWithDefault` returned it: trimmed when the user typed it,
verbatim when the remembered default was taken. `Session.SessionReadValid` and
`Session.RunSession` state exactly that.

`extractWorkItemFromBranch` uses Go's leftmost-first regular-expression
search. For this pattern the result is the same as a leftmost-longest match:
- the digit run and every `[a-z0-9]+` word are extended greedily;
- a word can only be followed by `-`.

So the model specifies the match as leftmost-longest (`BranchHint.LeftmostLongest`).

## Model

| member | source | states |
|---|---|---|
| Text.IsSpace | main.go:108 | `unicode.IsSpace`: tab, newline, vertical tab, form feed, carriage return, space, U+0085, U+00A0 and the Unicode White_Space characters from U+1680 to U+3000 |
| Text.TrimSpace | main.go:108 | the result is the input with a blank prefix and a blank suffix cut off; neither its first nor its last character is white space (Go's `unicode.IsSpace` set); it is empty exactly when the input is blank |
| Text.TrimSpaceUnchanged | main.go:108 | a string that neither starts nor ends with white space is left as it is |
| Text.TrimSpaceIdempotent | main.go:133-134 | trimming an already trimmed line changes nothing, so `readLineWithDefault`'s second trim is redundant |
| Text.LowerChar | main.go:216 | `unicode.ToLower` on one character: `A`–`Z` map to `a`–`z`, every other character is kept |
| Text.ToLower | main.go:216 | lowercasing keeps the length and maps each character on its own |
| Text.ToLowerIdempotent | main.go:322-323 | lowercasing twice (as the confirmation does) equals lowercasing once |
| Text.Join | main.go:124 | `strings.Join`: the parts with the separator between consecutive ones, the empty string for no parts |
| Text.JoinAppend | main.go:303-306 | joining one more part appends the separator and that part |
| Text.ByteLen | main.go:75 | Go's `len` on a string: the number of bytes of its UTF-8 encoding |
| Text.ByteLenBounds | main.go:75 | a string's UTF-8 length is between its character count and four times that, and equals the character count for ASCII |
| Text.EndsWith | main.go:83 | `strings.HasSuffix` with a one-character suffix: the string is non-empty and its last character is that one |
| Strconv.Atoi | main.go:241 | text that starts with anything but a digit or a sign fails; with a digit first it parses exactly when every character is a digit and the value is at most 2^63-1, and gives that value; after `+` the same for the digits that follow; after `-` the digits' value negated, down to -2^63; every success lies in the 64-bit range |
| Strconv.Itoa | main.go:237 | the text is a non-empty run of digits with no leading zero |
| Strconv.DecimalValueOfItoa | main.go:237 | the digits Itoa writes read back as the same number |
| Strconv.AtoiOfItoa | main.go:237-241 | Atoi parses Itoa's text back to the number, for every n from 0 to 2^63-1 |
| Strconv.AtoiExamples | main.go:241 | `7`, `+7`, `-3`, `007`, `10` parse; the empty string, `-`, `3x`, `1 0` do not |
| Validators.WorkItemSyntax | main.go:37 | the grammar of `^bcds-\d+(-[a-z0-9]+)*$`: the lead `bcds-`, one or more digits, then zero or more groups of `-` and one or more `[a-z0-9]`, covering the whole string |
| Validators.ValidWorkItem | main.go:36-39 | `validateWorkItem`: the lead `bcds-`, then an accepting run of the automaton over the rest |
| Validators.ValidWorkItemMatchesGrammar | main.go:36-39 | the hand-written recogniser accepts a string exactly when it is `bcds-`, one or more digits, then zero or more groups of `-` and one or more `[a-z0-9]`, with nothing else |
| Validators.WorkItemShape | main.go:37 | every accepted work item starts with `bcds-` and a digit |
| Validators.AcceptedRunChars | main.go:37 | everything after the lead of an accepted work item is `[a-z0-9]` or `-` |
| Validators.WorkItemIsLowercase | main.go:37 | an accepted work item is unchanged by lowercasing |
| Validators.WorkItemAccepted | main.go:36-39 | `bcds-1-ab2` and `bcds-42` are accepted |
| Validators.SuffixedWorkItemAccepted | main.go:36-39 | `bcds-77-login` is accepted |
| Validators.LowercasedWorkItemAccepted | main.go:216-217 | `BCDS-1`, lowercased as the prompt does, is accepted |
| Validators.WorkItemRejected | main.go:36-39 | `bcds-`, `bcds-1_2`, `BCDS-1`, `bcds-1-`, `bcds-1--a` and `bcds-a1` are rejected |
| Validators.ValidShortDescription | main.go:73-87 | `validateShortDescription`: trimmed, 1 to 50 bytes, a lowercase first letter, no final `.` |
| Validators.IsLowerLetter | main.go:80 | `unicode.IsLower` on the first character, for the ASCII letters `a`–`z` |
| Validators.ShortDescriptionCharacterised | main.go:73-87 | a description is accepted exactly when, trimmed, it is 1 to 50 bytes long, starts with a lowercase letter and does not end with `.` |
| Validators.ShortDescriptionShape | main.go:73-87 | an accepted description is not blank and, trimmed, has 1 to 50 characters, a lowercase first letter and no final `.` |
| Validators.AsciiDescriptionLength | main.go:75 | for ASCII text the 50-byte limit is a 50-character limit, in both directions |
| Validators.AsciiDescriptionAccepted | main.go:73-87 | an ASCII text of at most 50 characters that starts with a lowercase letter and ends in neither white space nor `.` is accepted |
| Validators.ShortDescriptionIgnoresPadding | main.go:74 | surrounding white space never changes the verdict |
| Validators.ShortDescriptionUntrimmed | main.go:75-86 | a description without surrounding white space is judged as it stands: byte length, first letter, last character |
| Validators.PaddedDescriptionTrims | main.go:74 | `" add login flow "` trims to `add login flow` |
| Validators.ShortDescriptionAccepted | main.go:73-87 | `add login flow` is accepted |
| Validators.BlankDescriptionRejected | main.go:74-76 | a description that is only white space trims to nothing and is rejected |
| Validators.CapitalisedDescriptionRejected | main.go:79-82 | a description without surrounding white space that does not start with a lowercase letter is rejected |
| Validators.FullStopDescriptionRejected | main.go:83-85 | a description without leading white space that ends with `.` is rejected |
| Validators.ShortDescriptionRejected | main.go:75-84 | the empty string, a blank string, `Add x` and `add x.` are rejected |
| Validators.ShortDescriptionLengthLimit | main.go:75 | 50 ASCII letters are accepted and 51 are not |
| Validators.ShortDescriptionPaddedExample | main.go:74-86 | `" add login flow "` is accepted, because padding is trimmed first |
| BranchHint.LeftmostLongest | main.go:151-152 | the span `FindString` reports: a work item that no earlier position starts, extended as far as a work item goes |
| BranchHint.LongestWorkItemPrefix | main.go:151-152 | the longest prefix, up to a bound, that is a work item; without one, no prefix up to the bound is |
| BranchHint.FindFrom | main.go:151-152 | from position p on: the first position where a work item starts, with the longest work item there; without one, no work item starts at p or later |
| BranchHint.FindWorkItem | main.go:151-152 | the reported span is the leftmost work item, extended as far as it goes; with no span, no substring is a work item |
| BranchHint.LeftmostLongestUnique | main.go:152 | there is only one leftmost-longest match, so the search result is determined |
| BranchHint.ExtractWorkItemFromBranch | main.go:149-157 | the hint is the leftmost-longest work item in the lowercased branch name, or the lowercased name itself exactly when it contains none; so it is a valid work item or the lowercased name |
| BranchHint.TicketBranchMatch | main.go:151-152 | in `feature/bcds-77-login` the match is positions 8 to 21, `bcds-77-login` |
| BranchHint.TicketBranchExample | main.go:149-157 | `feature/BCDS-77-login` gives `bcds-77-login` |
| BranchHint.PlainBranchExample | main.go:149-157 | `main` and `Main` give `main` |
| TypeCatalog.CommitTypes | main.go:57-70 | the catalog has ten entries, in menu order `feat`, `fix`, `docs`, `style`, `refactor`, `perf`, `test`, `build`, `ci`, `chore`, each with its description |
| TypeCatalog.CodeOfEntry | main.go:243 | menu number n resolves to the code of entry n-1: 1 is `feat`, 10 is `chore` |
| TypeCatalog.CodeOfInjective | main.go:243-244 | different menu numbers resolve to different codes |
| TypeCatalog.NormaliseDefaultIndex | main.go:231-234 | a stored index in 1..10 is kept, and any other becomes 0 (no default) |
| TypeCatalog.DefaultChoiceText | main.go:235-238 | the default text is empty exactly for index 0, and otherwise parses back to the index |
| Preferences.LoadLastInputs | main.go:171-181 | a missing or unparsable cache file gives the zero record, and a decoded one gives its record |
| TypeCatalog.CodeOf | main.go:243 | `commitTypes[choice-1].code` for a menu number |
| MessageAssembler.Header | main.go:280-284 | `type(scope): desc` with a scope and `type: desc` without, the description trimmed |
| MessageAssembler.FooterLines | main.go:292-301 | one footer for each non-empty field among breaking change, issue reference and work item, so none exactly when all three are empty; `BREAKING CHANGE: <text>` first, the issue reference next, `Refs <work item>` last |
| MessageAssembler.MessageText | main.go:286-306 | the header, then a blank line and the body when there is one, then a blank line and the footers one per line when there are any |
| MessageAssembler.BuildHeader | main.go:280-284 | the header built step by step is `Header` |
| MessageAssembler.CollectFooters | main.go:292-301 | the footers collected by conditional appends are `FooterLines` |
| MessageAssembler.AssembleMessage | main.go:286-306 | the sections built by conditional appends and joined by blank lines give `MessageText` |
| MessageAssembler.MessageStartsWithHeader | main.go:286-306 | the message starts with the header, and the header is either all of it or followed by a blank line |
| MessageAssembler.MessageEndsWithRefs | main.go:299-306 | with a work item, the message ends with `Refs <work item>` |
| MessageAssembler.AllFootersMessage | main.go:292-306 | with all three footers and no scope or body, the message is the header, a blank line, then the three footers one per line in fixed order |
| MessageAssembler.RefsOnlyMessage | main.go:296-306 | with no body and only the work item as footer, the message is the header, a blank line and the Refs line |
| MessageAssembler.ExampleHeader | main.go:280-284 | `feat`, `api`, `add endpoint` give the header `feat(api): add endpoint` |
| MessageAssembler.ExampleMessage | main.go:280-306 | `feat`, `api`, `add endpoint` with work item `bcds-42` and nothing else give exactly `feat(api): add endpoint\n\nRefs bcds-42` |
| Console.After | main.go:105-107 | the remaining script is a suffix of the input, shorter by the lines read |
| Console.ReadLine | main.go:104-109 | the line read is the raw line trimmed by `TrimSpace`, so empty exactly when the raw line is blank |
| Console.LineWithDefault | main.go:128-138 | a blank line gives the default and any other gives the non-empty trimmed line |
| Console.LineWithDefaultAsRead | main.go:133-137 | that rule equals the program's formulation: read a trimmed line, then take the default when its trimmed form is empty |
| Console.LineAt | main.go:105-108 | the n-th read: line n of the script, or the empty line past its end |
| Console.ClassifyAnswer | main.go:92-99 | `readYesNo`'s test: the trimmed, lowercased answer is yes for `y`/`yes`, no for empty, `n` or `no`, and anything else is asked again |
| Console.BlankAnswerIsNo | main.go:96-97 | a blank answer (the end of the input included) is a no |
| Console.NoExamples | main.go:96-97 | `n` and `no` are a no |
| Console.CapitalNoExamples | main.go:92-97 | `N` and `NO` are a no, because the answer is lowercased first |
| Console.PaddedAnswerExample | main.go:92-97 | `" no "` is a no, because the answer is trimmed first |
| Console.YesExamples | main.go:92-95 | `y` and `yes` are a yes |
| Console.CapitalYesExamples | main.go:92-95 | `Y` and `YES` are a yes |
| Console.UnrecognisedExamples | main.go:92-100 | `maybe` is neither a yes nor a no, so the question is asked again |
| Console.AskUntilTaken | main.go:211-221 | the re-asking loop stops at the first line taken; every earlier line was refused; when nothing is taken, the whole script was read and even the end-of-input line is refused |
| Console.ReadYesNo | main.go:90-101 | every line before the answer is unrecognised, the answer is recognised, and the result is yes exactly when it is a yes |
| Console.ConfirmOnlyOnYes | main.go:322-326 | the confirmation proceeds exactly on what the yes/no question reads as yes; anything else, an unrecognised answer included, cancels |
| Console.ConfirmProceeds | main.go:322-323 | the confirmation goes ahead on `y` or `yes`, trimmed and in any case |
| Console.ReadMultiline | main.go:112-125 | the text is the lines before the first blank one (or the end), unchanged and joined by newlines |
| Session.ExitCode | main.go:196-333 | the exit status is 1 exactly for nothing staged or a failed commit, 0 for a cancel or a commit, and none while stuck |
| Session.WorkItemDefault | main.go:204-215 | the default work item is the remembered one; else, when there is a branch, `ExtractWorkItemFromBranch` of it, which is a valid work item or the lowercased branch name; else empty |
| Session.WorkItemCandidate | main.go:216 | a blank line takes the lowercased default; any other line is trimmed and lowercased; lowercasing keeps the length |
| Session.BlankChoiceTakesDefault | main.go:235-242 | a blank line at the type menu is accepted exactly when there is a default, and then picks the default index |
| Session.ChoiceDefaultText | main.go:231-238 | the default offered at the type menu: the remembered index normalised to 1..10 or 0, written as digits, or empty for 0 |
| Session.ChoiceAccepted | main.go:240-242 | the commit-type prompt takes a line when it, or the default text for a blank line, parses as a menu number |
| Session.WorkItemTaken | main.go:216-217 | the work-item prompt takes a line when its lowercased value (or the default's) is a valid work item |
| Session.DescriptionTaken | main.go:257-258 | the description prompt takes a line when its value (or the default's) is a valid short description |
| Session.WorkItemStopsAt | main.go:211-221 | the work-item loop stops at line n: every earlier line was refused and line n is taken |
| Session.WorkItemNeverTaken | main.go:211-221 | the work-item loop never stops: every line is refused, and so is the end-of-input line |
| Session.ChoiceStopsAt | main.go:239-248 | the commit-type loop stops at line n: every earlier line was refused and line n is taken |
| Session.ChoiceNeverTaken | main.go:239-248 | the commit-type loop never stops: every line is refused, and so is the end-of-input line |
| Session.DescriptionStopsAt | main.go:256-262 | the description loop stops at line n: every earlier line was refused and line n is taken |
| Session.DescriptionNeverTaken | main.go:256-262 | the description loop never stops: every line is refused, and so is the end-of-input line |
| Session.WorkItemStopDetermined | main.go:211-221 | the work-item loop can stop at one line only, and a loop that stops is not one that never stops |
| Session.ChoiceStopDetermined | main.go:239-248 | the commit-type loop can stop at one line only, and a loop that stops is not one that never stops |
| Session.DescriptionStopDetermined | main.go:256-262 | the description loop can stop at one line only, and a loop that stops is not one that never stops |
| Session.ReadWorkItem | main.go:209-221 | the loop stops at line n: every earlier line is refused and line n is taken (`WorkItemStopsAt`); the work item is line n (or the default, for a blank line) lowercased, and is valid; without one, n is the length of the script and no line, the end-of-input line included, is taken (`WorkItemNeverTaken`) |
| Session.ReadCommitTypeChoice | main.go:239-248 | the loop stops at line n, every earlier line refused (`ChoiceStopsAt`); the choice is the menu number that Atoi parses from line n or the default text; without one, n is the length of the script and no line, the end-of-input line included, is taken (`ChoiceNeverTaken`) |
| Session.ReadDescription | main.go:255-262 | the loop stops at line n, every earlier line refused (`DescriptionStopsAt`); the description is line n trimmed, or the default for a blank line, and is valid; without one, n is the length of the script and no line, the end-of-input line included, is taken (`DescriptionNeverTaken`) |
| Session.OptionalTextRead | main.go:264-274 | what an optional text reads: the answer at line `answerAt` after unrecognised ones; on no nothing more; on yes the `count` non-blank lines after it, ended by a blank line or the end, joined by newlines |
| Session.TextRest | main.go:264-274 | the script left after an optional text is a suffix of it: past the answer, and on yes past the text's lines too |
| Session.OptionalTextDetermined | main.go:264-274 | a script answers an optional text in one way only: the same answer line, the same number of lines and the same text |
| Session.ReadOptionalText | main.go:264-274 | the question is answered at line `answerAt` after only unrecognised answers; on no the text is empty; on yes it is the `count` non-blank lines after the answer, joined by newlines and ended by a blank line or the end of the script (`OptionalTextRead`); the rest is the script after what was read (`TextRest`) |
| Session.Finish | main.go:322-333 | the outcome keeps the draft, the record, the message and the confirmation line; the session is cancelled exactly when the confirmation does not proceed, and committed exactly when it proceeds and the commit succeeds |
| Session.TailRead | main.go:264-277 | what the prompts after the description read: the body and the breaking change as optional texts one after the other, then the issue-reference line trimmed (or the remembered one), then the confirmation line |
| Session.ComposeTail | main.go:264-333 | the body and the breaking change are optional texts read one after the other, the issue reference is the next line trimmed (or the remembered one), and the confirmation is the line after it (`TailRead`); the draft carries the code of the chosen number and the collected fields; the message is `MessageText` of the draft; the saved record holds the work item, the chosen number, the scope, the description and the issue reference; with no input left, body and breaking change are empty and the session is cancelled |
| Session.ScopeDescriptionRead | main.go:250-262 | the scope is the first line trimmed (or the remembered one), the description loop reads from the line after it, and the rest is the script after the description's line |
| Session.TypeScopeDescriptionRead | main.go:230-262 | the commit-type loop stops at line nC, the choice is Atoi of that line (or the default), and the scope and description are read from the script after it |
| Session.HeaderRead | main.go:209-262 | the work-item loop stops at line nW, the work item is that line's candidate, and the type, scope and description are read from the script after it |
| Session.ReadHeaderFields | main.go:203-262 | the work item is read where its loop stops, then the type, scope and description from the script after it (`HeaderRead`), and the rest is what follows the description's line; a valid work item, a menu number, a trimmed scope and a valid description; a stuck session is `StuckRead` and the stuck prompt had an invalid default; on an empty script a replayable record is taken again unchanged |
| Session.ReadTypeScopeDescription | main.go:230-262 | the choice is parsed where the commit-type loop stops, then scope and description are read from the script after it (`TypeScopeDescriptionRead`); when stuck, either that loop never takes a line and there is no default, or it stops and the description loop never takes a line |
| Session.ReadScopeDescription | main.go:250-262 | the scope is the first line trimmed (or the remembered scope), the description is read by its loop from the line after, and the rest is what follows it (`ScopeDescriptionRead`); when stuck, the description loop never takes a line and the remembered description is invalid |
| Session.SessionRead | main.go:203-326 | a composed session read from the script: the header fields by `HeaderRead`, then the body, breaking change, issue reference and confirmation by `TailRead` from the lines after the description |
| Session.StuckRead | main.go:209-262 | a session stuck at a prompt: every prompt before it stopped, and that prompt never takes a line |
| Session.Converse | main.go:203-333 | once the remembered inputs are loaded: a composed session is `SessionRead` of the script; its type code matches the saved number, the saved record holds the draft's fields, the message is `MessageText` of the draft, and it is cancelled or committed as the confirmation and the commit decide; a stuck one is `StuckRead` and its prompt had an invalid default; on an empty script a replayable record is taken again and the run cancelled |
| Session.SessionReadValid | main.go:209-314 | what a composed session saves has a valid work item, a menu number, a trimmed scope and issue reference and a valid description; the description is trimmed unless it is the remembered one; so the saved record is replayable |
| Session.RunSession | main.go:193-339 | nothing staged ends the run at once; a composed session is `SessionRead` of the script, so every answer is tied to the line it came from; it has a valid work item and description, a type code matching the saved number, a message equal to `MessageText` of the draft, and a saved record that is taken again unchanged as the next run's defaults; the description is saved trimmed unless it is the remembered default; a stuck session is `StuckRead` of the script and the stuck prompt had an invalid default from the cache; on an empty script a replayable cached record is reproduced and the run is cancelled |
| Session.HeaderReadDetermined | main.go:209-262 | the first four prompts read one set of lines and answers only from a given script |
| Session.TailReadDetermined | main.go:264-326 | the prompts after the description read one set of lines and answers only from a given script |
| Session.SessionReadDetermined | main.go:203-326 | the script decides a composed session: the same lines, the same draft, the same message, the same saved record and the same confirmation |
| Session.StuckReadDetermined | main.go:209-262 | the script decides where a session gets stuck: the same prompt, and the same lines for the prompts before it |
| Session.ComposedIsNotStuck | main.go:209-262 | a script that gets a session composed cannot leave it stuck at any prompt |
| Session.ReplayWorkItem | main.go:212-217 | a blank line at the work-item prompt takes a replayable record's work item again |
| Session.ReplayChoice | main.go:231-244 | a blank line at the type menu takes a replayable record's menu number again |
| Session.ReplayText | main.go:251-277 | blank lines at the scope, description and issue prompts take a replayable record's values again |

## Left out

- Git subprocesses (main.go:29-33, 141-147, 195, 329). Whether `git diff --cached --quiet` failed, the branch name and whether `git commit` succeeds are parameters of `Session.RunSession`. A failing diff for any other reason, such as not being in a repository, counts as staged changes, as in the code.
- The cache file (main.go:160-190): its path, `os.MkdirAll`, JSON decoding and the write. Reading is the abstract `CacheFile` result. Saving is the `saved` record of the outcome, and a failed write is ignored as in the code.
- ANSI colours and all printing, including the menu listing and the error messages (main.go:17-24 and the `fmt.Print*` calls). They are display only.
- `bufio.Scanner` (main.go:105, 114). The model reads whole lines, one per read, from a scripted sequence. It does not model lines lost to read-ahead buffering when a fresh scanner is created per read on piped input, nor the 64 KiB token limit.
- Text.ToLower: lowercases ASCII letters only. Go's `strings.ToLower` also maps other Unicode letters, some of them (the Kelvin sign) to ASCII.
- Validators.ValidShortDescription: the first character must be an ASCII letter `a`–`z`. Go's `unicode.IsLower` also accepts non-ASCII lowercase letters (main.go:80).
- Validators.IsLowerLetter: the same restriction, stated on the character test itself.
- Text.LowerChar: maps ASCII capitals only, as `Text.ToLower` does.
- `os.Exit` (main.go:198, 325, 332). It is an `Outcome` value and `Session.ExitCode`.
- A re-asking loop at the end of the input with an invalid default (main.go:211-221, 239-248, 256-262). Go repeats it for ever; the model stops with `Stuck(step)` and states why.
