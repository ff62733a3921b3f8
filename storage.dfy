/**
 * The in-memory snapshot `_storageData` that saveToStorage writes and loadFromStorage reads.
 * A stored property can in principle be missing, which the loader's `|| []` and `|| false` defaults cover.
 */
module Storage {
  import opened Wrappers
  import opened Todos

  /** The persisted part of the application state. */
  datatype Snapshot = Snapshot(todos: seq<Todo>, isDarkMode: bool, autoBackupEnabled: bool)

  /** The stored object `{ todos, isDarkMode, autoBackupEnabled }`, with possibly missing properties. */
  datatype StoredData = StoredData(todos: Option<seq<Todo>>, isDarkMode: Option<bool>, autoBackupEnabled: Option<bool>)

  /** What saveToStorage stores. */
  function Capture(s: Snapshot): (d: StoredData)
    ensures d.todos.Some? && d.isDarkMode.Some? && d.autoBackupEnabled.Some?
  {
    StoredData(Some(s.todos), Some(s.isDarkMode), Some(s.autoBackupEnabled))
  }

  /** What loadFromStorage restores: nothing stored, or a missing property, gives [] and false. */
  function Restore(stored: Option<StoredData>): (s: Snapshot)
    ensures stored.None? ==> s == Snapshot([], false, false)
    ensures stored.Some? && stored.value.todos.None? ==> s.todos == []
    ensures stored.Some? && stored.value.isDarkMode.None? ==> !s.isDarkMode
    ensures stored.Some? && stored.value.autoBackupEnabled.None? ==> !s.autoBackupEnabled
  {
    match stored
    case None => Snapshot([], false, false)
    case Some(d) => Snapshot(d.todos.GetOr([]), d.isDarkMode.GetOr(false), d.autoBackupEnabled.GetOr(false))
  }

  /** Loading what was saved gives the saved state back. */
  lemma RestoreCapture(s: Snapshot)
    ensures Restore(Some(Capture(s))) == s
  {
  }

  /** The stored records, when there are any, are well formed. */
  predicate StoredWellFormed(stored: Option<StoredData>) {
    stored.Some? && stored.value.todos.Some? ==> AllWellFormed(stored.value.todos.value)
  }
}
