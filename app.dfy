/**
 * The TodoApp object: its records, edit cursor, theme and auto-backup flags and stored snapshot,
 * and the handlers that change them. Each handler's DOM reads, notifications and downloads are
 * replaced by parameters and results: the values typed into the inputs, the answer to `confirm`,
 * the clock readings, and the backup document a download would carry.
 */
module App {
  import opened Wrappers
  import opened JsString
  import opened Todos
  import opened Backup
  import opened Storage

  /** How an import ends: the notification's count for a merge or an overwrite, or the error caught. */
  datatype ImportOutcome = Merged(added: nat) | Loaded(count: nat) | Failed(error: ImportError)

  class TodoApp {
    var todos: seq<Todo>
    var editingId: Option<string>
    var isDarkMode: bool
    var autoBackupEnabled: bool
    var storageData: Option<StoredData>

    /** Every record held or stored is well formed. */
    ghost predicate Valid()
      reads this
    {
      AllWellFormed(todos) && StoredWellFormed(storageData)
    }

    /** The persisted part of the state. */
    function State(): Snapshot
      reads this
    {
      Snapshot(todos, isDarkMode, autoBackupEnabled)
    }

    /** The stored snapshot is the current state. */
    predicate Synced()
      reads this
    {
      storageData == Some(Capture(State()))
    }

    /** `new TodoApp()`: empty state, then init's loadFromStorage, which finds nothing stored. */
    constructor ()
      ensures Valid()
      ensures todos == [] && editingId == None && !isDarkMode && !autoBackupEnabled && storageData == None
    {
      todos := [];
      isDarkMode := false;
      editingId := None;
      autoBackupEnabled := false;
      storageData := None;
      new;
      LoadFromStorage();
    }

    method SaveToStorage()
      requires Valid()
      modifies this`storageData
      ensures Valid() && Synced()
    {
      storageData := Some(Capture(Snapshot(todos, isDarkMode, autoBackupEnabled)));
    }

    method LoadFromStorage()
      requires Valid()
      modifies this`todos, this`isDarkMode, this`autoBackupEnabled
      ensures Valid()
      ensures State() == Restore(storageData)
      ensures old(Synced()) ==> State() == old(State())
    {
      match storageData
      case Some(d) =>
        todos := d.todos.GetOr([]);
        isDarkMode := d.isDarkMode.GetOr(false);
        autoBackupEnabled := d.autoBackupEnabled.GetOr(false);
      case None =>
        todos := [];
        isDarkMode := false;
        autoBackupEnabled := false;
    }

    /** performAutoBackup: the document a download would carry, if one is made. */
    method PerformAutoBackup(now: Timestamp) returns (backup: Option<ExportDocument>)
      ensures backup == AutoBackup(todos, isDarkMode, autoBackupEnabled, now)
    {
      backup := AutoBackup(todos, isDarkMode, autoBackupEnabled, now);
    }

    /** exportData: the document the manual download carries. */
    method ExportData(now: Timestamp) returns (d: ExportDocument)
      ensures d == ManualExport(todos, isDarkMode, autoBackupEnabled, now)
    {
      d := ManualExport(todos, isDarkMode, autoBackupEnabled, now);
    }

    /**
     * addTodo: trims the typed text and memo; when the text is not empty, puts a new open record
     * with id `Date.now().toString()` in front, saves, and makes the auto-backup.
     */
    method AddTodo(textInput: string, memoInput: string, timeInput: string, nowMs: nat, now: Timestamp)
      returns (added: bool, backup: Option<ExportDocument>)
      requires Valid()
      modifies this`todos, this`storageData
      ensures Valid()
      ensures added <==> Trim(textInput) != ""
      ensures added ==>
        && todos == [Todo(NatToString(nowMs), Trim(textInput), Trim(memoInput), timeInput, false, now)] + old(todos)
        && Synced() && backup == AutoBackup(todos, isDarkMode, autoBackupEnabled, now)
      ensures !added ==> todos == old(todos) && storageData == old(storageData) && backup == None
    {
      var text := Trim(textInput);
      var memo := Trim(memoInput);
      var time := timeInput;
      added := text != "";
      backup := None;
      if added {
        var todo := Todo(NatToString(nowMs), text, memo, time, false, now);
        todos := [todo] + todos;
        SaveToStorage();
        if autoBackupEnabled {
          backup := PerformAutoBackup(now);
        }
      }
    }

    /** toggleTodo: flips `completed` on the first record with `id`, if there is one. */
    method ToggleTodo(id: string, now: Timestamp) returns (backup: Option<ExportDocument>)
      requires Valid()
      modifies this`todos, this`storageData
      ensures Valid()
      ensures todos == Toggled(old(todos), id)
      ensures id in Ids(old(todos)) ==> Synced() && backup == AutoBackup(todos, isDarkMode, autoBackupEnabled, now)
      ensures id !in Ids(old(todos)) ==> storageData == old(storageData) && backup == None
    {
      backup := None;
      var found := FirstIndex(todos, id);
      if found.Some? {
        var i := found.value;
        todos := todos[i := todos[i].(completed := !todos[i].completed)];
        SaveToStorage();
        if autoBackupEnabled {
          backup := PerformAutoBackup(now);
        }
      }
    }

    /** deleteTodo: when the user confirms, drops every record with `id`. The edit cursor is left as it is. */
    method DeleteTodo(id: string, confirmed: bool, now: Timestamp) returns (backup: Option<ExportDocument>)
      requires Valid()
      modifies this`todos, this`storageData
      ensures Valid()
      ensures confirmed ==> todos == Exclude(old(todos), {id}) && Synced()
                            && backup == AutoBackup(todos, isDarkMode, autoBackupEnabled, now)
      ensures !confirmed ==> todos == old(todos) && storageData == old(storageData) && backup == None
    {
      backup := None;
      if confirmed {
        todos := Exclude(todos, {id});
        SaveToStorage();
        if autoBackupEnabled {
          backup := PerformAutoBackup(now);
        }
      }
    }

    /** startEdit: puts the cursor on `id`; whether a record has that id is not checked. */
    method StartEdit(id: string)
      modifies this`editingId
      ensures editingId == Some(id)
    {
      editingId := Some(id);
    }

    /**
     * saveEdit with the already trimmed values read from the row: when a record has `id` and the
     * text is not empty, the first such record takes the new text, memo and time, and the cursor is cleared.
     */
    method SaveEdit(id: string, newText: string, newMemo: string, newTime: string, now: Timestamp)
      returns (saved: bool, backup: Option<ExportDocument>)
      requires Valid()
      modifies this`todos, this`editingId, this`storageData
      ensures Valid()
      ensures saved <==> id in Ids(old(todos)) && newText != ""
      ensures saved ==>
        && todos == Edited(old(todos), id, newText, newMemo, newTime) && editingId == None
        && Synced() && backup == AutoBackup(todos, isDarkMode, autoBackupEnabled, now)
      ensures !saved ==>
        todos == old(todos) && editingId == old(editingId) && storageData == old(storageData) && backup == None
    {
      saved := false;
      backup := None;
      var found := FirstIndex(todos, id);
      if found.Some? && newText != "" {
        var i := found.value;
        todos := todos[i := todos[i].(text := newText, memo := newMemo, time := newTime)];
        editingId := None;
        SaveToStorage();
        saved := true;
        if autoBackupEnabled {
          backup := PerformAutoBackup(now);
        }
      }
    }

    /** cancelEdit: clears the cursor; no record changes. */
    method CancelEdit()
      modifies this`editingId
      ensures editingId == None
    {
      editingId := None;
    }

    /** toggleTheme: flips the theme flag and saves. */
    method ToggleTheme()
      requires Valid()
      modifies this`isDarkMode, this`storageData
      ensures Valid() && Synced()
      ensures isDarkMode == !old(isDarkMode)
    {
      isDarkMode := !isDarkMode;
      SaveToStorage();
    }

    /** toggleAutoBackup: flips the auto-backup flag and saves. */
    method ToggleAutoBackup()
      requires Valid()
      modifies this`autoBackupEnabled, this`storageData
      ensures Valid() && Synced()
      ensures autoBackupEnabled == !old(autoBackupEnabled)
    {
      autoBackupEnabled := !autoBackupEnabled;
      SaveToStorage();
    }

    /**
     * importData after JSON.parse: validates and back-fills the entries; merges when there are
     * records and the user confirms, otherwise overwrites; takes the theme and auto-backup settings
     * only when the document has them; saves. A refused document changes nothing.
     */
    method ImportData(doc: Document, confirmMerge: bool, now: Timestamp) returns (outcome: ImportOutcome)
      requires Valid()
      modifies this`todos, this`isDarkMode, this`autoBackupEnabled, this`storageData
      ensures Valid()
      ensures match Parse(doc, now)
        case Err(e) =>
          && outcome == Failed(e) && todos == old(todos) && isDarkMode == old(isDarkMode)
          && autoBackupEnabled == old(autoBackupEnabled) && storageData == old(storageData)
        case Ok(p) =>
          && (if |old(todos)| > 0 && confirmMerge
              then todos == Merge(old(todos), p.todos) && outcome == Merged(Inserted(old(todos), p.todos))
              else todos == p.todos && outcome == Loaded(|p.todos|))
          && isDarkMode == p.isDarkMode.GetOr(old(isDarkMode))
          && autoBackupEnabled == p.autoBackupEnabled.GetOr(old(autoBackupEnabled))
          && Synced()
    {
      match doc
      case Unparsable =>
        return Failed(ParseFailed);
      case NonObject =>
        return Failed(InvalidFile);
      case Object(field, dark, auto) =>
        if field.None? || field.value.NotAnArray? {
          return Failed(InvalidTodoList);
        }
        var checked := ValidateEntries(field.value.entries, now);
        if checked.Err? {
          return Failed(checked.error);
        }
        var imported := checked.value;
        var shouldMerge := |todos| > 0 && confirmMerge;
        if shouldMerge {
          var existingIds := Ids(todos);
          var newTodos := Exclude(imported, existingIds);
          todos := todos + newTodos;
          outcome := Merged(|newTodos|);
        } else {
          todos := imported;
          outcome := Loaded(|imported|);
        }
        if dark.Some? {
          isDarkMode := dark.value;
        }
        if auto.Some? {
          autoBackupEnabled := auto.value;
        }
        SaveToStorage();
    }
  }
}
