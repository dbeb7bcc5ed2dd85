/**
 * The two field validators of the commit helper: the work-item identifier
 * (the regular expression ^bcds-\d+(-[a-z0-9]+)*$) and the short
 * description (1..50 bytes after trimming, lowercase start, no final '.').
 */
module Validators {
  import opened Text

  const WorkItemLead: string := "bcds-"

  /** A member of [a-z0-9]. */
  predicate IsWordChar(c: char) {
    'a' <= c <= 'z' || IsDigit(c)
  }

  // ---------------------------------------------------------------------
  // The grammar, written as the regular expression reads.

  ghost predicate Digits(s: string) {
    forall k :: 0 <= k < |s| ==> IsDigit(s[k])
  }

  ghost predicate Word(s: string) {
    forall k :: 0 <= k < |s| ==> IsWordChar(s[k])
  }

  /** (-[a-z0-9]+)*: zero or more groups, each a '-' and a non-empty word. */
  ghost predicate Groups(s: string)
    decreases |s|
  {
    s == [] ||
    (s[0] == '-' && exists k :: 2 <= k <= |s| && Word(s[1..k]) && Groups(s[k..]))
  }

  /** bcds-\d+(-[a-z0-9]+)*, matched against the whole string. */
  ghost predicate WorkItemSyntax(s: string) {
    |s| >= |WorkItemLead| && s[..|WorkItemLead|] == WorkItemLead &&
    exists k :: |WorkItemLead| < k <= |s| && Digits(s[|WorkItemLead|..k]) && Groups(s[k..])
  }

  // ---------------------------------------------------------------------
  // The recogniser: a finite automaton run over the characters after the lead.

  datatype State = NeedDigit | InNumber | NeedWordChar | InWord | Reject

  function Step(st: State, c: char): State {
    match st
    case NeedDigit => if IsDigit(c) then InNumber else Reject
    case InNumber => if IsDigit(c) then InNumber else if c == '-' then NeedWordChar else Reject
    case NeedWordChar => if IsWordChar(c) then InWord else Reject
    case InWord => if IsWordChar(c) then InWord else if c == '-' then NeedWordChar else Reject
    case Reject => Reject
  }

  function Run(st: State, s: string): State
    decreases |s|
  {
    if s == [] then st else Run(Step(st, s[0]), s[1..])
  }

  predicate Accepting(st: State) {
    st == InNumber || st == InWord
  }

  /** validateWorkItem: the lead, then an accepting run of the automaton over the rest. */
  predicate ValidWorkItem(s: string) {
    |s| >= |WorkItemLead| && s[..|WorkItemLead|] == WorkItemLead &&
    Accepting(Run(NeedDigit, s[|WorkItemLead|..]))
  }

  // ---------------------------------------------------------------------
  // What each automaton state accepts, in terms of the grammar.

  /** \d* followed by groups: what remains once a digit has been read. */
  ghost predicate NumberTail(t: string) {
    exists k :: 0 <= k <= |t| && Digits(t[..k]) && Groups(t[k..])
  }

  /** [a-z0-9]* followed by groups: what remains inside a group's word. */
  ghost predicate WordTail(t: string) {
    exists k :: 0 <= k <= |t| && Word(t[..k]) && Groups(t[k..])
  }

  lemma {:induction false} RejectIsFinal(t: string)
    ensures Run(Reject, t) == Reject
    decreases |t|
  {
    if t != [] {
      RejectIsFinal(t[1..]);
    }
  }

  lemma GroupsEmpty()
    ensures Groups([])
  {
  }

  /** A string of groups that is not empty starts with '-' and a word character. */
  lemma GroupsUnfold(t: string)
    requires |t| > 0
    ensures Groups(t) <==> (t[0] == '-' && |t| > 1 && IsWordChar(t[1]) && WordTail(t[2..]))
  {
    if Groups(t) {
      GroupsOpen(t);
    }
    if t[0] == '-' && |t| > 1 && IsWordChar(t[1]) && WordTail(t[2..]) {
      GroupsClose(t);
    }
  }

  /** The first group of a non-empty string of groups: '-', a word character, then a WordTail. */
  lemma GroupsOpen(t: string)
    requires |t| > 0 && Groups(t)
    ensures t[0] == '-' && |t| > 1 && IsWordChar(t[1]) && WordTail(t[2..])
  {
    var k :| 2 <= k <= |t| && Word(t[1..k]) && Groups(t[k..]);
    assert t[1..k][0] == t[1];
    assert t[2..][..k - 2] == t[2..k];
    assert t[2..][k - 2..] == t[k..];
    assert Word(t[2..][..k - 2]);
  }

  /** '-', a word character and a WordTail make a string of groups. */
  lemma GroupsClose(t: string)
    requires |t| > 1 && t[0] == '-' && IsWordChar(t[1]) && WordTail(t[2..])
    ensures Groups(t)
  {
    var j :| 0 <= j <= |t[2..]| && Word(t[2..][..j]) && Groups(t[2..][j..]);
    assert t[2..][j..] == t[j + 2..];
    var w := t[1..j + 2];
    assert Word(w) by {
      forall k | 0 <= k < |w| ensures IsWordChar(w[k]) {
        if k > 0 {
          assert w[k] == t[2..][..j][k - 1];
        }
      }
    }
  }

  /** Reading one digit of a digit run. */
  lemma NumberTailStep(t: string)
    requires |t| > 0 && IsDigit(t[0])
    ensures NumberTail(t) <==> NumberTail(t[1..])
  {
    if NumberTail(t) {
      var k :| 0 <= k <= |t| && Digits(t[..k]) && Groups(t[k..]);
      assert k > 0;
      assert t[1..][..k - 1] == t[1..k] && t[1..][k - 1..] == t[k..];
      assert Digits(t[1..][..k - 1]);
    }
    if NumberTail(t[1..]) {
      var k :| 0 <= k <= |t[1..]| && Digits(t[1..][..k]) && Groups(t[1..][k..]);
      assert t[k + 1..] == t[1..][k..];
      var w := t[..k + 1];
      assert Digits(w) by {
        forall i | 0 <= i < |w| ensures IsDigit(w[i]) {
          if i > 0 {
            assert w[i] == t[1..][..k][i - 1];
          }
        }
      }
    }
  }

  /** Reading one character of a word run. */
  lemma WordTailStep(t: string)
    requires |t| > 0 && IsWordChar(t[0])
    ensures WordTail(t) <==> WordTail(t[1..])
  {
    if WordTail(t) {
      var k :| 0 <= k <= |t| && Word(t[..k]) && Groups(t[k..]);
      assert k > 0;
      assert t[1..][..k - 1] == t[1..k] && t[1..][k - 1..] == t[k..];
      assert Word(t[1..][..k - 1]);
    }
    if WordTail(t[1..]) {
      var k :| 0 <= k <= |t[1..]| && Word(t[1..][..k]) && Groups(t[1..][k..]);
      assert t[k + 1..] == t[1..][k..];
      var w := t[..k + 1];
      assert Word(w) by {
        forall i | 0 <= i < |w| ensures IsWordChar(w[i]) {
          if i > 0 {
            assert w[i] == t[1..][..k][i - 1];
          }
        }
      }
    }
  }

  /** Reading one character of a word-or-digit run. */
  lemma TailStep(t: string, digitsOnly: bool)
    requires |t| > 0 && (if digitsOnly then IsDigit(t[0]) else IsWordChar(t[0]))
    ensures digitsOnly ==> (NumberTail(t) <==> NumberTail(t[1..]))
    ensures !digitsOnly ==> (WordTail(t) <==> WordTail(t[1..]))
  {
    if digitsOnly {
      NumberTailStep(t);
    } else {
      WordTailStep(t);
    }
  }

  /** The first character of a non-empty run belongs to the run's class. */
  lemma RunHead(t: string, k: nat)
    requires k <= |t|
    ensures k > 0 && Digits(t[..k]) ==> IsDigit(t[0])
    ensures k > 0 && Word(t[..k]) ==> IsWordChar(t[0])
  {
    if k > 0 {
      assert t[..k][0] == t[0];
    }
  }

  /** A tail that does not continue the current run is a (possibly empty) string of groups. */
  lemma TailStop(t: string, digitsOnly: bool)
    requires t == [] || !(if digitsOnly then IsDigit(t[0]) else IsWordChar(t[0]))
    ensures digitsOnly ==> (NumberTail(t) <==> Groups(t))
    ensures !digitsOnly ==> (WordTail(t) <==> Groups(t))
  {
    assert t[..0] == [] && t[0..] == t;
    if digitsOnly && NumberTail(t) {
      var k :| 0 <= k <= |t| && Digits(t[..k]) && Groups(t[k..]);
      RunHead(t, k);
      assert k == 0;
    }
    if !digitsOnly && WordTail(t) {
      var k :| 0 <= k <= |t| && Word(t[..k]) && Groups(t[k..]);
      RunHead(t, k);
      assert k == 0;
    }
  }

  /** InNumber and InWord accept exactly NumberTail and WordTail. */
  lemma {:induction false} RunInLanguage(t: string, digitsOnly: bool)
    ensures digitsOnly ==> (Accepting(Run(InNumber, t)) <==> NumberTail(t))
    ensures !digitsOnly ==> (Accepting(Run(InWord, t)) <==> WordTail(t))
    decreases |t|, 1
  {
    var st := if digitsOnly then InNumber else InWord;
    if t == [] {
      TailStop(t, digitsOnly);
      GroupsEmpty();
    } else if if digitsOnly then IsDigit(t[0]) else IsWordChar(t[0]) {
      assert Run(st, t) == Run(st, t[1..]);
      RunInLanguage(t[1..], digitsOnly);
      TailStep(t, digitsOnly);
    } else {
      TailStop(t, digitsOnly);
      GroupsUnfold(t);
      if t[0] == '-' {
        assert Run(st, t) == Run(NeedWordChar, t[1..]);
        NeedWordCharLanguage(t[1..]);
        if |t| > 1 {
          assert t[1..][1..] == t[2..];
        }
      } else {
        assert Run(st, t) == Run(Reject, t[1..]);
        RejectIsFinal(t[1..]);
      }
    }
  }

  /** NeedWordChar accepts exactly a word character followed by a WordTail. */
  lemma {:induction false} NeedWordCharLanguage(t: string)
    ensures Accepting(Run(NeedWordChar, t)) <==> (|t| > 0 && IsWordChar(t[0]) && WordTail(t[1..]))
    decreases |t|, 0
  {
    if t != [] {
      if IsWordChar(t[0]) {
        RunInLanguage(t[1..], false);
      } else {
        RejectIsFinal(t[1..]);
      }
    }
  }

  /** The automaton, started after the lead, recognises exactly the grammar's strings. */
  lemma ValidWorkItemMatchesGrammar(s: string)
    ensures ValidWorkItem(s) <==> WorkItemSyntax(s)
  {
    var n := |WorkItemLead|;
    if |s| >= n && s[..n] == WorkItemLead {
      var t := s[n..];
      if t != [] && IsDigit(t[0]) {
        RunInLanguage(t[1..], true);
        if NumberTail(t[1..]) {
          var k :| 0 <= k <= |t[1..]| && Digits(t[1..][..k]) && Groups(t[1..][k..]);
          assert s[n + 1 + k..] == t[1..][k..];
          var w := s[n..n + 1 + k];
          assert Digits(w) by {
            forall i | 0 <= i < |w| ensures IsDigit(w[i]) {
              if i > 0 {
                assert w[i] == t[1..][..k][i - 1];
              }
            }
          }
        }
        if WorkItemSyntax(s) {
          var k :| n < k <= |s| && Digits(s[n..k]) && Groups(s[k..]);
          assert t[1..][..k - n - 1] == s[n + 1..k];
          assert t[1..][k - n - 1..] == s[k..];
          assert Digits(t[1..][..k - n - 1]);
        }
      } else {
        if t != [] {
          RejectIsFinal(t[1..]);
        }
      }
    }
  }

  /** Every work item starts with the lead and a digit. */
  lemma WorkItemShape(s: string)
    ensures ValidWorkItem(s) ==>
      |s| > |WorkItemLead| && s[..|WorkItemLead|] == WorkItemLead && IsDigit(s[|WorkItemLead|])
  {
    var n := |WorkItemLead|;
    if |s| >= n {
      var t := s[n..];
      if t != [] {
        RejectIsFinal(t[1..]);
      }
    }
  }

  /** A run that ends in an accepting state read only [a-z0-9] and '-'. */
  lemma {:induction false} AcceptedRunChars(st: State, t: string)
    requires Accepting(Run(st, t))
    ensures forall k :: 0 <= k < |t| ==> IsWordChar(t[k]) || t[k] == '-'
    decreases |t|
  {
    if t != [] {
      if Step(st, t[0]) == Reject {
        RejectIsFinal(t[1..]);
      }
      AcceptedRunChars(Step(st, t[0]), t[1..]);
      assert forall k :: 1 <= k < |t| ==> t[k] == t[1..][k - 1];
    }
  }

  /** Work items are already in lower case, so lowercasing one changes nothing. */
  lemma WorkItemIsLowercase(s: string)
    requires ValidWorkItem(s)
    ensures ToLower(s) == s
  {
    var n := |WorkItemLead|;
    AcceptedRunChars(NeedDigit, s[n..]);
    forall k | 0 <= k < |s| ensures LowerChar(s[k]) == s[k] {
      if k < n {
        assert s[k] == WorkItemLead[k];
      } else {
        assert s[k] == s[n..][k - n];
      }
    }
  }

  /** Work items the helper accepts. */
  lemma WorkItemAccepted(s: string)
    requires s in ["bcds-1-ab2", "bcds-42"]
    ensures ValidWorkItem(s)
  {
    if s == "bcds-1-ab2" {
      assert s[5..] == "1-ab2" && Run(NeedDigit, "1-ab2") == InWord;
    } else {
      assert s[5..] == "42" && Run(NeedDigit, "42") == InNumber;
    }
  }

  /** A work item with a named suffix, as branch names carry them. */
  lemma SuffixedWorkItemAccepted(s: string)
    requires s == "bcds-77-login"
    ensures ValidWorkItem(s)
  {
    assert s[5..] == "77-login" && Run(NeedDigit, "77-login") == InWord;
  }

  /** An upper-case work item is accepted once lowercased, as the prompt does. */
  lemma LowercasedWorkItemAccepted()
    ensures ValidWorkItem(ToLower("BCDS-1"))
  {
    assert ToLower("BCDS-1") == "bcds-1";
    assert "bcds-1"[5..] == "1" && Run(NeedDigit, "1") == InNumber;
  }

  lemma WorkItemRejected()
    ensures !ValidWorkItem("bcds-") && !ValidWorkItem("bcds-1_2") && !ValidWorkItem("BCDS-1")
    ensures !ValidWorkItem("bcds-1-") && !ValidWorkItem("bcds-1--a") && !ValidWorkItem("bcds-a1")
  {
    assert "bcds-"[5..] == [];
    assert "bcds-1_2"[5..] == "1_2" && Run(NeedDigit, "1_2") == Reject;
    assert "BCDS-1"[..5][0] == 'B';
    assert "bcds-1-"[5..] == "1-" && Run(NeedDigit, "1-") == NeedWordChar;
    assert "bcds-1--a"[5..] == "1--a" && Run(NeedDigit, "1--a") == Reject;
    assert "bcds-a1"[5..] == "a1" && Run(NeedDigit, "a1") == Reject;
  }

  // ---------------------------------------------------------------------
  // The short description.

  /** unicode.IsLower, restricted to ASCII. */
  predicate IsLowerLetter(c: char) {
    'a' <= c <= 'z'
  }

  const MaxDescriptionBytes: nat := 50

  /** validateShortDescription. */
  predicate ValidShortDescription(desc: string) {
    var d := TrimSpace(desc);
    if ByteLen(d) == 0 || ByteLen(d) > MaxDescriptionBytes then false
    else if !IsLowerLetter(d[0]) then false
    else if EndsWith(d, '.') then false
    else true
  }

  /** What an accepted description looks like once trimmed, and conversely. */
  lemma ShortDescriptionCharacterised(desc: string)
    ensures ValidShortDescription(desc) <==>
      var d := TrimSpace(desc);
      && 1 <= ByteLen(d) <= MaxDescriptionBytes
      && IsLowerLetter(d[0])
      && d[|d| - 1] != '.'
  {
  }

  /**
   * An accepted description is not blank, and once trimmed it is 1 to 50
   * characters long, starts with a lowercase letter and does not end with a full stop.
   */
  lemma ShortDescriptionShape(desc: string)
    ensures ValidShortDescription(desc) ==>
      var d := TrimSpace(desc);
      && !IsBlank(desc)
      && 1 <= |d| <= MaxDescriptionBytes
      && IsLowerLetter(d[0])
      && d[|d| - 1] != '.'
  {
    ByteLenBounds(TrimSpace(desc));
  }

  /** A trimmed description in plain ASCII is limited to 50 characters. */
  lemma AsciiDescriptionLength(desc: string)
    requires IsAscii(TrimSpace(desc))
    ensures ValidShortDescription(desc) ==> |TrimSpace(desc)| <= MaxDescriptionBytes
    ensures !IsBlank(desc) && |TrimSpace(desc)| > MaxDescriptionBytes ==> !ValidShortDescription(desc)
  {
    ByteLenBounds(TrimSpace(desc));
  }

  /** Surrounding white space never changes the verdict. */
  lemma ShortDescriptionIgnoresPadding(desc: string)
    ensures ValidShortDescription(TrimSpace(desc)) == ValidShortDescription(desc)
  {
    TrimSpaceIdempotent(desc);
  }

  /** A description already free of surrounding white space is judged as it stands. */
  lemma ShortDescriptionUntrimmed(d: string)
    requires d != [] && !IsSpace(d[0]) && !IsSpace(d[|d| - 1])
    ensures ValidShortDescription(d) <==>
      ByteLen(d) <= MaxDescriptionBytes && IsLowerLetter(d[0]) && d[|d| - 1] != '.'
  {
    TrimSpaceUnchanged(d);
  }

  /**
   * An ASCII description of at most 50 characters, starting with a lowercase
   * letter and ending in neither white space nor a full stop, is accepted.
   */
  lemma AsciiDescriptionAccepted(d: string)
    requires d != [] && IsAscii(d) && |d| <= MaxDescriptionBytes
    requires IsLowerLetter(d[0]) && !IsSpace(d[|d| - 1]) && d[|d| - 1] != '.'
    ensures ValidShortDescription(d)
  {
    ShortDescriptionUntrimmed(d);
    ByteLenBounds(d);
  }

  /** A plain lowercase description is accepted. */
  lemma ShortDescriptionAccepted(d: string)
    requires d == "add login flow"
    ensures ValidShortDescription(d)
  {
    assert IsAscii(d);
    AsciiDescriptionAccepted(d);
  }

  /** A description that is only white space is rejected. */
  lemma BlankDescriptionRejected(d: string)
    requires IsBlank(d)
    ensures !ValidShortDescription(d)
  {
    ByteLenBounds(TrimSpace(d));
  }

  /** A trimmed description that starts with anything but a lowercase letter is rejected. */
  lemma CapitalisedDescriptionRejected(d: string)
    requires d != [] && !IsSpace(d[0]) && !IsSpace(d[|d| - 1]) && !IsLowerLetter(d[0])
    ensures !ValidShortDescription(d)
  {
    TrimSpaceUnchanged(d);
  }

  /** A trimmed description that ends with a full stop is rejected. */
  lemma FullStopDescriptionRejected(d: string)
    requires d != [] && !IsSpace(d[0]) && d[|d| - 1] == '.'
    ensures !ValidShortDescription(d)
  {
    TrimSpaceUnchanged(d);
  }

  /** Empty, blank, capitalised and full-stopped descriptions are rejected. */
  lemma ShortDescriptionRejected()
    ensures !ValidShortDescription("") && !ValidShortDescription("   ")
    ensures !ValidShortDescription("Add x") && !ValidShortDescription("add x.")
  {
    BlankDescriptionRejected("");
    assert IsBlank("   ");
    BlankDescriptionRejected("   ");
    CapitalisedDescriptionRejected("Add x");
    FullStopDescriptionRejected("add x.");
  }

  /** 50 ASCII characters are accepted, 51 are not. */
  lemma ShortDescriptionLengthLimit()
    ensures ValidShortDescription(seq(50, _ => 'a'))
    ensures !ValidShortDescription(seq(51, _ => 'a'))
  {
    var ok, tooLong := seq(50, _ => 'a'), seq(51, _ => 'a');
    TrimSpaceUnchanged(ok);
    TrimSpaceUnchanged(tooLong);
    assert IsAscii(ok) && IsAscii(tooLong);
    ByteLenBounds(ok);
    ByteLenBounds(tooLong);
  }

  /** Trimming removes exactly the surrounding blanks of a padded description. */
  lemma PaddedDescriptionTrims(padded: string)
    requires padded == " add login flow "
    ensures TrimSpace(padded) == "add login flow"
  {
    assert SkipLeading(padded, 1) == 1;
    assert SkipLeading(padded, 0) == 1;
    assert SkipTrailing(padded, 1, 15) == 15;
    assert SkipTrailing(padded, 1, 16) == 15;
    assert padded[1..15] == "add login flow";
  }

  /** Padding is trimmed before the checks. */
  lemma ShortDescriptionPaddedExample(padded: string)
    requires padded == " add login flow "
    ensures ValidShortDescription(padded)
  {
    PaddedDescriptionTrims(padded);
    ShortDescriptionAccepted(TrimSpace(padded));
    ShortDescriptionIgnoresPadding(padded);
  }
}
