/** The fixed, ordered menu of conventional commit types. */
module TypeCatalog {
  import opened Strconv

  datatype CommitType = CommitType(code: string, description: string)

  /** How many entries the menu has. */
  const MenuSize: nat := 10

  /** The menu's codes, in menu order (menu number = position + 1). */
  const Codes: seq<string> := ["feat", "fix", "docs", "style", "refactor", "perf", "test", "build", "ci", "chore"]

  /** The menu's descriptions, position by position with the codes. */
  const Descriptions: seq<string> := [
    "新功能 (A new feature)",
    "Bug修复 (A bug fix)",
    "文档更新 (Documentation only changes)",
    "代码格式 (Changes that do not affect code meaning)",
    "代码重构 (Neither fixes bug nor adds feature)",
    "性能优化 (A code change that improves performance)",
    "测试相关 (Adding or correcting tests)",
    "构建相关 (Affect build system or dependencies)",
    "CI配置 (Changes to CI configuration files)",
    "其他杂项 (Other changes)"]

  /** getCommitTypes: the ten entries in menu order, each code with its description. */
  function CommitTypes(): (types: seq<CommitType>)
    ensures |types| == MenuSize == |Codes|
    ensures forall k :: 0 <= k < |types| ==> types[k] == CommitType(Codes[k], Descriptions[k])
  {
    seq(|Codes|, k requires 0 <= k < |Codes| => CommitType(Codes[k], Descriptions[k]))
  }

  /** A menu number the loop accepts: 1 to the number of entries. */
  predicate IsMenuNumber(n: int) {
    1 <= n <= MenuSize
  }

  /** commitTypes[choice-1].code: the code of the entry with that menu number. */
  function CodeOf(choice: int): string
    requires IsMenuNumber(choice)
  {
    Codes[choice - 1]
  }

  /** The code picked is the one the menu shows next to that number. */
  lemma CodeOfEntry(choice: int)
    requires IsMenuNumber(choice)
    ensures CodeOf(choice) == CommitTypes()[choice - 1].code
    ensures choice == 1 ==> CodeOf(choice) == "feat"
    ensures choice == MenuSize ==> CodeOf(choice) == "chore"
  {
  }

  /** Different menu numbers name different types, so a saved number identifies one type. */
  lemma CodeOfInjective(i: int, j: int)
    requires IsMenuNumber(i) && IsMenuNumber(j)
    ensures CodeOf(i) == CodeOf(j) ==> i == j
  {
  }

  /** The stored index as a default: kept when it is a menu number, otherwise 0 (no default). */
  function NormaliseDefaultIndex(stored: int): (d: int)
    ensures d == 0 || IsMenuNumber(d)
    ensures IsMenuNumber(stored) ==> d == stored
    ensures !IsMenuNumber(stored) ==> d == 0
  {
    if stored < 1 || stored > MenuSize then 0 else stored
  }

  /** The default offered at the prompt: its decimal text, or nothing. */
  function DefaultChoiceText(d: int): (text: string)
    requires d == 0 || IsMenuNumber(d)
    ensures text == [] <==> d == 0
    ensures d > 0 ==> Atoi(text).Some? && Atoi(text).value == d
  {
    if d > 0 then (AtoiOfItoa(d); Itoa(d)) else ""
  }
}
