/**
 * The remembered answers of the previous session and how they are read
 * back from the cache file.
 */
module Preferences {

  /** LastInputs, as stored in .git-guide/.git-commit.json. */
  datatype LastInputs = LastInputs(
    workItem: string,
    commitTypeIndex: int,
    scope: string,
    description: string,
    issueRef: string)

  /** The zero value: what a missing or damaged cache yields. */
  const NoInputs: LastInputs := LastInputs("", 0, "", "", "")

  /** What reading the cache file produced: nothing, something unparsable, or a record. */
  datatype CacheFile = Missing | Malformed | Decoded(record: LastInputs)

  /** loadLastInputs: a failed read or a failed parse gives the zero record. */
  function LoadLastInputs(file: CacheFile): (last: LastInputs)
    ensures file.Decoded? ==> last == file.record
    ensures !file.Decoded? ==> last == NoInputs
  {
    match file
    case Decoded(record) => record
    case _ => NoInputs
  }
}
