/**
 * The work-item suggestion derived from the current branch name: the
 * lowercased name is searched for the leftmost match of
 * bcds-\d+(?:-[a-z0-9]+)*, extended as far as it goes; without a match the
 * lowercased name itself is the suggestion.
 */
module BranchHint {
  import opened Wrappers
  import opened Text
  import opened Validators

  /** No work item starts at any position in [lo, hi). */
  ghost predicate NoMatchStartsIn(s: string, lo: nat, hi: nat) {
    forall i, j :: lo <= i < hi && i <= j <= |s| ==> !ValidWorkItem(s[i..j])
  }

  /** s[i..j] is the match a leftmost, greedy search reports. */
  ghost predicate LeftmostLongest(s: string, i: nat, j: nat) {
    && i <= j <= |s|
    && ValidWorkItem(s[i..j])
    && NoMatchStartsIn(s, 0, i)
    && forall j' :: j < j' <= |s| ==> !ValidWorkItem(s[i..j'])
  }

  /** The longest prefix of t, of length at most limit, that is a work item. */
  function LongestWorkItemPrefix(t: string, limit: nat): (r: Option<nat>)
    requires limit <= |t|
    ensures r.Some? ==> r.value <= limit && ValidWorkItem(t[..r.value])
    ensures r.Some? ==> forall j :: r.value < j <= limit ==> !ValidWorkItem(t[..j])
    ensures r.None? ==> forall j :: 0 <= j <= limit ==> !ValidWorkItem(t[..j])
    decreases limit
  {
    if ValidWorkItem(t[..limit]) then Some(limit)
    else if limit == 0 then None
    else LongestWorkItemPrefix(t, limit - 1)
  }

  /** The leftmost, longest work item starting at or after position p. */
  function FindFrom(s: string, p: nat): (r: Option<(nat, nat)>)
    requires p <= |s|
    ensures r.Some? ==> p <= r.value.0 <= r.value.1 <= |s| && ValidWorkItem(s[r.value.0..r.value.1])
    ensures r.Some? ==> NoMatchStartsIn(s, p, r.value.0)
    ensures r.Some? ==> forall j :: r.value.1 < j <= |s| ==> !ValidWorkItem(s[r.value.0..j])
    ensures r.None? ==> NoMatchStartsIn(s, p, |s| + 1)
    decreases |s| - p
  {
    var t := s[p..];
    var longest := LongestWorkItemPrefix(t, |t|);
    assert forall j :: p <= j <= |s| ==> s[p..j] == t[..j - p];
    if longest.Some? then
      Some((p, p + longest.value))
    else if p == |s| then
      None
    else
      FindFrom(s, p + 1)
  }

  /** regexp FindString over the whole string. */
  function FindWorkItem(s: string): (r: Option<(nat, nat)>)
    ensures r.Some? ==> LeftmostLongest(s, r.value.0, r.value.1)
    ensures r.None? ==> NoMatchStartsIn(s, 0, |s| + 1)
  {
    FindFrom(s, 0)
  }

  /** There is only one leftmost-longest match. */
  lemma LeftmostLongestUnique(s: string, i: nat, j: nat, i': nat, j': nat)
    requires LeftmostLongest(s, i, j) && LeftmostLongest(s, i', j')
    ensures i == i' && j == j'
  {
  }

  /** extractWorkItemFromBranch. */
  function ExtractWorkItemFromBranch(branch: string): (hint: string)
    ensures var lower := ToLower(branch);
      || (exists i: nat, j: nat :: LeftmostLongest(lower, i, j) && hint == lower[i..j])
      || (NoMatchStartsIn(lower, 0, |lower| + 1) && hint == lower)
    ensures ValidWorkItem(hint) || hint == ToLower(branch)
  {
    var lower := ToLower(branch);
    match FindWorkItem(lower)
    case Some((i, j)) => lower[i..j]
    case None => lower
  }

  /** Where the search finds the ticket in "feature/bcds-77-login". */
  lemma TicketBranchMatch(lower: string)
    requires lower == "feature/bcds-77-login"
    ensures LeftmostLongest(lower, 8, 21) && lower[8..21] == "bcds-77-login"
  {
    var ticket := lower[8..21];
    assert ticket == "bcds-77-login";
    SuffixedWorkItemAccepted(ticket);
    var before := lower[..8];
    assert before == "feature/" && 'b' !in before;
    forall i, j | 0 <= i < 8 && i <= j <= |lower| ensures !ValidWorkItem(lower[i..j]) {
      WorkItemShape(lower[i..j]);
      assert lower[i] == before[i];
      if |lower[i..j]| > 0 {
        assert lower[i..j][0] == lower[i];
      }
    }
  }

  /** A branch that names a ticket in capitals: the ticket is found and lowercased. */
  lemma TicketBranchExample()
    ensures ExtractWorkItemFromBranch("feature/BCDS-77-login") == "bcds-77-login"
  {
    var lower := ToLower("feature/BCDS-77-login");
    assert lower == "feature/bcds-77-login";
    TicketBranchMatch(lower);
    var found := FindWorkItem(lower);
    LeftmostLongestUnique(lower, 8, 21, found.value.0, found.value.1);
  }

  /** A branch without a ticket: the lowercased name is the suggestion. */
  lemma PlainBranchExample()
    ensures ExtractWorkItemFromBranch("main") == "main"
    ensures ExtractWorkItemFromBranch("Main") == "main"
  {
    assert ToLower("main") == "main" && ToLower("Main") == "main";
    var lower := "main";
    forall i, j | 0 <= i <= j <= |lower| ensures !ValidWorkItem(lower[i..j]) {
      WorkItemShape(lower[i..j]);
    }
  }
}
