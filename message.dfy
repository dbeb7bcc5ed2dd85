/**
 * Assembly of the commit message: a header, an optional body paragraph
 * and an optional footer block, separated by blank lines.
 */
module MessageAssembler {
  import opened Text

  /** The collected fields the message is built from. */
  datatype Draft = Draft(
    commitType: string,
    scope: string,
    description: string,
    body: string,
    breakingChange: string,
    issueRef: string,
    workItem: string)

  /** type(scope): description, or type: description when there is no scope. */
  function Header(commitType: string, scope: string, description: string): (h: string)
    ensures scope != [] ==> h == commitType + "(" + scope + "): " + TrimSpace(description)
    ensures scope == [] ==> h == commitType + ": " + TrimSpace(description)
  {
    (if scope != "" then commitType + "(" + scope + ")" else commitType) + ": " + TrimSpace(description)
  }

  /** The footer lines, in their fixed order; each one only when its field is set. */
  function FooterLines(d: Draft): (lines: seq<string>)
    ensures |lines| == (if d.breakingChange != [] then 1 else 0) + (if d.issueRef != [] then 1 else 0)
                       + (if d.workItem != [] then 1 else 0)
    ensures lines == [] <==> d.breakingChange == [] && d.issueRef == [] && d.workItem == []
    ensures d.breakingChange != [] ==> lines[0] == "BREAKING CHANGE: " + d.breakingChange
    ensures d.issueRef != [] ==> lines[if d.breakingChange != [] then 1 else 0] == d.issueRef
    ensures d.workItem != [] ==> lines[|lines| - 1] == "Refs " + d.workItem
  {
    (if d.breakingChange != "" then ["BREAKING CHANGE: " + d.breakingChange] else [])
    + (if d.issueRef != "" then [d.issueRef] else [])
    + (if d.workItem != "" then ["Refs " + d.workItem] else [])
  }

  /**
   * The message, written out: the header, then "\n\n" and the body when there
   * is one, then "\n\n" and the footer lines joined by "\n" when there are any.
   */
  function MessageText(d: Draft): string {
    var footers := FooterLines(d);
    Header(d.commitType, d.scope, d.description)
    + (if d.body != "" then "\n\n" + d.body else "")
    + (if footers != [] then "\n\n" + Join(footers, "\n") else "")
  }

  /** The footers slice of the inline assembly, built by conditional appends. */
  method CollectFooters(d: Draft) returns (footers: seq<string>)
    ensures footers == FooterLines(d)
  {
    footers := [];
    if d.breakingChange != "" {
      footers := footers + ["BREAKING CHANGE: " + d.breakingChange];
    }
    if d.issueRef != "" {
      footers := footers + [d.issueRef];
    }
    if d.workItem != "" {
      footers := footers + ["Refs " + d.workItem];
    }
  }

  /** The header of the inline assembly, extended step by step. */
  method BuildHeader(d: Draft) returns (header: string)
    ensures header == Header(d.commitType, d.scope, d.description)
  {
    header := d.commitType;
    if d.scope != "" {
      header := header + "(" + d.scope + ")";
    }
    header := header + ": " + TrimSpace(d.description);
  }

  /** The inline assembly: the sections slice built by conditional appends, then joined. */
  method AssembleMessage(d: Draft) returns (message: string)
    ensures message == MessageText(d)
  {
    var header := BuildHeader(d);

    var sections := [header];
    if d.body != "" {
      JoinAppend(sections, d.body, "\n\n");
      sections := sections + [d.body];
    }
    ghost var headed := header + (if d.body != "" then "\n\n" + d.body else "");
    assert Join(sections, "\n\n") == headed;

    var footers := CollectFooters(d);
    if |footers| > 0 {
      var block := Join(footers, "\n");
      JoinAppend(sections, block, "\n\n");
      sections := sections + [block];
      assert headed + "\n\n" + block == headed + ("\n\n" + block);
    }
    message := Join(sections, "\n\n");
  }

  /** The message starts with the header, followed by nothing or by a blank line. */
  lemma MessageStartsWithHeader(d: Draft)
    ensures var h := Header(d.commitType, d.scope, d.description);
      var m := MessageText(d);
      |h| <= |m| && m[..|h|] == h && (m == h || (|m| >= |h| + 2 && m[|h|..|h| + 2] == "\n\n"))
  {
  }

  /** With a work item, the message ends with its Refs line. */
  lemma MessageEndsWithRefs(d: Draft)
    requires d.workItem != []
    ensures var m, refs := MessageText(d), "Refs " + d.workItem;
      |refs| <= |m| && m[|m| - |refs|..] == refs
  {
    var footers := FooterLines(d);
    var refs := "Refs " + d.workItem;
    assert footers[|footers| - 1] == refs;
    if |footers| > 1 {
      assert Join(footers, "\n") == Join(footers[..|footers| - 1], "\n") + "\n" + refs;
    }
  }

  /** Every footer there is, one per line, in the fixed order. */
  lemma AllFootersMessage(d: Draft)
    requires d.scope == [] && d.body == []
    requires d.breakingChange != [] && d.issueRef != [] && d.workItem != []
    ensures MessageText(d) == d.commitType + ": " + TrimSpace(d.description) + "\n\n"
      + "BREAKING CHANGE: " + d.breakingChange + "\n" + d.issueRef + "\n" + "Refs " + d.workItem
  {
    var footers := FooterLines(d);
    var breaking := "BREAKING CHANGE: " + d.breakingChange;
    assert footers == [breaking] + [d.issueRef] + ["Refs " + d.workItem];
    JoinAppend([breaking], d.issueRef, "\n");
    JoinAppend([breaking] + [d.issueRef], "Refs " + d.workItem, "\n");
  }

  /** With a work item as its only footer and no body, the message is the header and the Refs line. */
  lemma RefsOnlyMessage(d: Draft)
    requires d.body == [] && d.breakingChange == [] && d.issueRef == [] && d.workItem != []
    ensures MessageText(d) == Header(d.commitType, d.scope, d.description) + "\n\n" + "Refs " + d.workItem
  {
    assert FooterLines(d) == ["Refs " + d.workItem];
  }

  /** The header of the example below. */
  lemma ExampleHeader(commitType: string, scope: string, description: string)
    requires commitType == "feat" && scope == "api" && description == "add endpoint"
    ensures Header(commitType, scope, description) == "feat(api): add endpoint"
  {
    TrimSpaceUnchanged(description);
  }

  /** An example message: type, scope, description and a work item, nothing else. */
  lemma ExampleMessage(d: Draft)
    requires d == Draft("feat", "api", "add endpoint", "", "", "", "bcds-42")
    ensures MessageText(d) == "feat(api): add endpoint\n\nRefs bcds-42"
  {
    RefsOnlyMessage(d);
    ExampleHeader(d.commitType, d.scope, d.description);
  }
}
